// Which uploads are accepted, on the request's and the content's own data (app/services/file_validation.py,
// app/services/virus_scan.py, app/api/files.py).
module UploadRules {
  import opened Wrappers
  import opened FileValidation
  import Files

  // ---------- leading bytes ----------

  predicate IsJpeg(c: Bytes) {
    |c| >= 3 && c[0] == 0xff && c[1] == 0xd8 && c[2] == 0xff
  }

  predicate IsPng(c: Bytes) {
    && |c| >= 8 && c[0] == 0x89 && c[1] == 0x50 && c[2] == 0x4e && c[3] == 0x47
    && c[4] == 0x0d && c[5] == 0x0a && c[6] == 0x1a && c[7] == 0x0a
  }

  /** "GIF87a" or "GIF89a" */
  predicate IsGif(c: Bytes) {
    && |c| >= 6 && c[0] == 0x47 && c[1] == 0x49 && c[2] == 0x46 && c[3] == 0x38
    && (c[4] == 0x37 || c[4] == 0x39) && c[5] == 0x61
  }

  /** "RIFF", any four bytes, "WEBP" */
  predicate IsWebp(c: Bytes) {
    && |c| >= 12 && c[0] == 0x52 && c[1] == 0x49 && c[2] == 0x46 && c[3] == 0x46
    && c[8] == 0x57 && c[9] == 0x45 && c[10] == 0x42 && c[11] == 0x50
  }

  /** "%PDF-" */
  predicate IsPdf(c: Bytes) {
    |c| >= 5 && c[0] == 0x25 && c[1] == 0x50 && c[2] == 0x44 && c[3] == 0x46 && c[4] == 0x2d
  }

  /** Bytes 4 to 7 name a box. */
  predicate IsBox(c: Bytes, b4: Byte, b5: Byte, b6: Byte, b7: Byte) {
    |c| >= 8 && c[4] == b4 && c[5] == b5 && c[6] == b6 && c[7] == b7
  }

  /** "ftyp", "free", "wide" or "moov" */
  predicate IsMp4OrMov(c: Bytes) {
    || IsBox(c, 0x66, 0x74, 0x79, 0x70) || IsBox(c, 0x66, 0x72, 0x65, 0x65)
    || IsBox(c, 0x77, 0x69, 0x64, 0x65) || IsBox(c, 0x6d, 0x6f, 0x6f, 0x76)
  }

  predicate IsEbml(c: Bytes) {
    |c| >= 4 && c[0] == 0x1a && c[1] == 0x45 && c[2] == 0xdf && c[3] == 0xa3
  }

  predicate LeadingBytesFit(name: string, c: Bytes) {
    || (name == "image" && (IsJpeg(c) || IsPng(c) || IsGif(c) || IsWebp(c)))
    || (name == "pdf" && IsPdf(c))
    || (name == "video" && (IsMp4OrMov(c) || IsEbml(c)))
    || name == "csv"
  }

  lemma StartsWithBytes(c: Bytes, prefix: Bytes)
    ensures StartsWith(c, prefix) <==> |prefix| <= |c| && forall i :: 0 <= i < |prefix| ==> c[i] == prefix[i]
  {
  }

  lemma SliceIs(c: Bytes, from: nat, b0: Byte, b1: Byte, b2: Byte, b3: Byte)
    ensures Slice(c, from, from + 4) == [b0, b1, b2, b3]
      <==> from + 4 <= |c| && c[from] == b0 && c[from + 1] == b1 && c[from + 2] == b2 && c[from + 3] == b3
  {
    var part := Slice(c, from, from + 4);
    if from + 4 <= |c| {
      assert part[0] == c[from] && part[1] == c[from + 1] && part[2] == c[from + 2] && part[3] == c[from + 3];
    }
  }

  lemma ImageBytes(c: Bytes)
    ensures SignatureAccepts(IMAGE.signature, c) <==> IsJpeg(c) || IsPng(c) || IsGif(c) || IsWebp(c)
  {
    StartsWithBytes(c, [0xff, 0xd8, 0xff]);
    StartsWithBytes(c, [0x89, 0x50, 0x4e, 0x47, 0x0d, 0x0a, 0x1a, 0x0a]);
    GifBytes(c);
    WebpBytes(c);
  }

  lemma GifBytes(c: Bytes)
    ensures LooksLikeGif(c) <==> IsGif(c)
  {
    StartsWithBytes(c, Ascii("GIF87a"));
    StartsWithBytes(c, Ascii("GIF89a"));
  }

  lemma WebpBytes(c: Bytes)
    ensures LooksLikeWebp(c) <==> IsWebp(c)
  {
    StartsWithBytes(c, Ascii("RIFF"));
    assert Ascii("WEBP") == [0x57, 0x45, 0x42, 0x50];
    SliceIs(c, 8, 0x57, 0x45, 0x42, 0x50);
  }

  lemma PdfBytes(c: Bytes)
    ensures SignatureAccepts(PDF.signature, c) <==> IsPdf(c)
  {
    StartsWithBytes(c, Ascii("%PDF-"));
  }

  lemma BoxNames()
    ensures Ascii("ftyp") == [0x66, 0x74, 0x79, 0x70] && Ascii("free") == [0x66, 0x72, 0x65, 0x65]
    ensures Ascii("wide") == [0x77, 0x69, 0x64, 0x65] && Ascii("moov") == [0x6d, 0x6f, 0x6f, 0x76]
  {
  }

  lemma BoxBytes(c: Bytes)
    ensures LooksLikeMp4OrMov(c) <==> IsMp4OrMov(c)
  {
    BoxNames();
    SliceIs(c, 4, 0x66, 0x74, 0x79, 0x70);
    SliceIs(c, 4, 0x66, 0x72, 0x65, 0x65);
    SliceIs(c, 4, 0x77, 0x69, 0x64, 0x65);
    SliceIs(c, 4, 0x6d, 0x6f, 0x6f, 0x76);
  }

  lemma VideoBytes(c: Bytes)
    ensures SignatureAccepts(VIDEO.signature, c) <==> IsMp4OrMov(c) || IsEbml(c)
  {
    BoxBytes(c);
    StartsWithBytes(c, [0x1a, 0x45, 0xdf, 0xa3]);
  }

  lemma CategoryBytes(name: string, c: Bytes)
    requires CategoryNamed(name).Some?
    ensures SignatureAccepts(CategoryNamed(name).value.signature, c) <==> LeadingBytesFit(name, c)
  {
    ImageBytes(c);
    PdfBytes(c);
    VideoBytes(c);
  }

  // ---------- categories ----------

  /** The largest size a category takes, in bytes; `None` for an unknown one. */
  function LargestSize(name: string): Option<nat> {
    if name == "image" then Some(10_485_760)
    else if name == "pdf" || name == "csv" then Some(20_971_520)
    else if name == "video" then Some(209_715_200)
    else None
  }

  lemma CategorySizes(name: string)
    ensures CategoryNamed(name).Some? <==> LargestSize(name).Some?
    ensures CategoryNamed(name).Some? ==> CategoryNamed(name).value.maxSizeBytes == LargestSize(name).value
  {
  }

  predicate TypeFits(name: string, contentType: string) {
    || (name == "image" && contentType in ["image/jpeg", "image/png", "image/webp", "image/gif"])
    || (name == "pdf" && contentType == "application/pdf")
    || (name == "csv" && contentType in ["text/csv", "application/vnd.ms-excel"])
    || (name == "video" && contentType in ["video/mp4", "video/webm", "video/quicktime"])
  }

  lemma CategoryTypes(name: string, contentType: string)
    ensures TypeFits(name, contentType)
      <==> CategoryNamed(name).Some? && contentType in CategoryNamed(name).value.allowedContentTypes
  {
  }

  // ---------- the test signature ----------

  /** Each occurrence of the test signature begins in one block of 1 MiB and ends in the next. */
  ghost predicate OnlyAcrossBlocks(c: Bytes) {
    forall i: nat :: SignatureAt(c, i) ==> i / 1_048_576 != (i + 67) / 1_048_576
  }

  lemma CleanIff(c: Bytes)
    ensures (forall k: nat :: IsBlock(c, k) ==> ScanChunkForViruses(Block(c, k))) <==> OnlyAcrossBlocks(c)
  {
    CleanBlocksMeaning(c);
    assert forall i: nat :: Straddles(i) <==> i / 1_048_576 != (i + 67) / 1_048_576;
  }

  // ---------- accepted content ----------

  /**
   * Content is accepted if and only if it is not empty, within the category's size, has the test signature at most
   * across block boundaries, and begins with the bytes of one of the category's formats.
   */
  lemma ContentAcceptedIff(name: string, c: Bytes)
    requires CategoryNamed(name).Some?
    ensures IsVerdict(c, CategoryNamed(name).value, Ok(|c|))
      <==> 1 <= |c| <= LargestSize(name).value && OnlyAcrossBlocks(c) && LeadingBytesFit(name, c)
  {
    var category := CategoryNamed(name).value;
    CategoryBytes(name, c);
    CategorySizes(name);
    CleanIff(c);
    BlocksPassIff(c, category.maxSizeBytes);
    if IsVerdict(c, category, Ok(|c|)) {
      AcceptedSize(c, category, |c|);
    }
  }

  /** All blocks pass if and only if the content is within the limit and every block is clean. */
  lemma BlocksPassIff(c: Bytes, max: nat)
    ensures |c| <= max && (forall k: nat :: IsBlock(c, k) ==> ScanChunkForViruses(Block(c, k)))
      ==> BlocksPass(c, max, |c|)
    ensures BlocksPass(c, max, |c|) ==> forall k: nat :: IsBlock(c, k) ==> ScanChunkForViruses(Block(c, k))
  {
    BlocksCover(c);
    if BlocksPass(c, max, |c|) {
      forall k: nat | IsBlock(c, k) ensures ScanChunkForViruses(Block(c, k)) {
        assert BlockPasses(c, max, k);
      }
    }
  }

  /** A JPEG is never turned away as an image for its bytes, and never taken for a video. */
  lemma JpegIsAnImage(c: Bytes)
    requires IsJpeg(c)
    ensures Verdict(c, IMAGE) != Err(SignatureMismatch)
    ensures Verdict(c, VIDEO).Ok? ==> IsMp4OrMov(c)
  {
    ImageBytes(c);
    VideoBytes(c);
  }

  // ---------- uploads ----------

  /** An upload is accepted if and only if storage is configured and the request's own data fit. */
  lemma UploadAcceptedIff(configured: bool, r: Files.Request)
    ensures Files.UploadRefusal(configured, r) == None
      <==> configured && TypeFits(r.category, r.contentType)
           && 1 <= |r.content| && |r.content| <= LargestSize(r.category).value && OnlyAcrossBlocks(r.content)
           && LeadingBytesFit(r.category, r.content) && (r.category == "csv" ==> r.csvError == None)
  {
    CategoryTypes(r.category, r.contentType);
    CategorySizes(r.category);
    if CategoryNamed(r.category).Some? {
      var category := CategoryNamed(r.category).value;
      ContentAcceptedIff(r.category, r.content);
      VerdictDecides(r.content, category);
    }
  }

  lemma VerdictDecides(c: Bytes, category: Category)
    ensures Verdict(c, category).Ok? <==> IsVerdict(c, category, Ok(|c|))
  {
    if IsVerdict(c, category, Ok(|c|)) {
      VerdictUnique(c, category, Verdict(c, category), Ok(|c|));
    }
  }

  /** What an accepted upload leaves: the whole content under the row's key, the request's data in the row, no more. */
  lemma UploadStores(s: Files.Store, configured: bool, r: Files.Request, uuid: string, rowId: int)
    requires Files.UploadRefusal(configured, r) == None
    ensures
      var (s', outcome) := Files.UploadFileTo(s, configured, r, uuid, rowId);
      && rowId in s'.rows && outcome == Files.Created(s'.rows[rowId])
      && var row := s'.rows[rowId];
         && row.userId == r.userId && row.contentType == r.contentType && row.category == r.category
         && row.filename == (if r.filename == "" then "upload" else r.filename) && row.sizeBytes == |r.content|
         && row.storageKey in s'.objects && s'.objects[row.storageKey] == r.content
         && s'.rows - {rowId} == s.rows - {rowId}
         && s'.objects - {row.storageKey} == s.objects - {row.storageKey} && s'.users == s.users
  {
  }

  /** A refused upload stores nothing. */
  lemma RefusedUploadStoresNothing(s: Files.Store, configured: bool, r: Files.Request, uuid: string, rowId: int)
    requires Files.UploadRefusal(configured, r).Some?
    ensures Files.UploadFileTo(s, configured, r, uuid, rowId)
      == (s, Files.Refused(Files.UploadRefusal(configured, r).value))
  {
  }

  /** Only the owner deletes a file; to anybody else it does not exist, and nothing changes. */
  lemma DeleteIff(s: Files.Store, configured: bool, userId: int, rowId: int)
    ensures
      var (s', outcome) := Files.DeleteFile(s, configured, userId, rowId);
      var own := rowId in s.rows && s.rows[rowId].userId == userId;
      && (outcome == Files.Removed <==> own && configured)
      && (outcome == Files.Refused(Files.FileNotFound) <==> !own)
      && (outcome != Files.Removed ==> s' == s)
  {
  }

  // ---------- object keys ----------

  function Slashes(s: string): nat {
    if s == [] then 0 else Slashes(s[..|s| - 1]) + if s[|s| - 1] == '/' then 1 else 0
  }

  lemma {:induction false} SlashesAppend(a: string, b: string)
    ensures Slashes(a + b) == Slashes(a) + Slashes(b)
  {
    if b == [] {
      assert a + b == a;
    } else {
      SlashesAppend(a, b[..|b| - 1]);
      assert (a + b)[..|a + b| - 1] == a + b[..|b| - 1];
    }
  }

  lemma {:induction false} NoSlashes(s: string)
    requires '/' !in s
    ensures Slashes(s) == 0
  {
    if s != [] {
      NoSlashes(s[..|s| - 1]);
    }
  }

  /** A file name never adds a level to an object's key: each key is category, user and name, and no more. */
  lemma KeyHasThreeParts(userId: int, category: string, filename: string, uuid: string)
    requires CategoryNamed(category).Some? && '/' !in uuid
    ensures Slashes(Files.ObjectKey(userId, category, filename, uuid)) == 2
  {
    var user, name := Files.Decimal.IntText(userId), Files.SafeName(filename);
    Files.Decimal.IntTextChars(userId);
    Files.CategoriesHaveNoSlash(category);
    NoSlashes(category);
    NoSlashes(user);
    NoSlashes(uuid);
    NoSlashes("_");
    assert '/' !in name;
    NoSlashes(name);
    SlashesAppend(category, "/");
    SlashesAppend(category + "/", user);
    SlashesAppend(category + "/" + user, "/");
    SlashesAppend(category + "/" + user + "/", uuid);
    SlashesAppend(category + "/" + user + "/" + uuid, "_");
    SlashesAppend(category + "/" + user + "/" + uuid + "_", name);
    OneSlash();
  }

  lemma OneSlash()
    ensures Slashes("/") == 1
  {
    assert "/"[..0] == [];
  }
}
