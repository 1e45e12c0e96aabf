// Streaming upload validation (app/services/file_validation.py, app/services/virus_scan.py).
module FileValidation {
  import opened Wrappers

  type Byte = b: int | 0 <= b < 256
  type Bytes = seq<Byte>

  const CHUNK_SIZE: nat := 1024 * 1024
  const HEAD_SIZE: nat := 32
  const CSV_SAMPLE_SIZE: nat := 8192

  function Min(a: nat, b: nat): nat {
    if a < b then a else b
  }

  /** Python's `data[from:to]`: bounds beyond the end are cut off. */
  function Slice(data: Bytes, from: nat, to: nat): Bytes {
    var hi := Min(to, |data|);
    if from <= hi then data[from..hi] else []
  }

  predicate StartsWith(data: Bytes, prefix: Bytes) {
    |prefix| <= |data| && data[..|prefix|] == prefix
  }

  function Ascii(text: string): Bytes
    requires forall i :: 0 <= i < |text| ==> text[i] as int < 128
  {
    seq(|text|, i requires 0 <= i < |text| => text[i] as int)
  }

  // ---------- signatures ----------

  predicate LooksLikeJpeg(head: Bytes) {
    StartsWith(head, [0xff, 0xd8, 0xff])
  }

  predicate LooksLikePng(head: Bytes) {
    StartsWith(head, [0x89, 0x50, 0x4e, 0x47, 0x0d, 0x0a, 0x1a, 0x0a])
  }

  predicate LooksLikeGif(head: Bytes) {
    StartsWith(head, Ascii("GIF87a")) || StartsWith(head, Ascii("GIF89a"))
  }

  predicate LooksLikeWebp(head: Bytes) {
    StartsWith(head, Ascii("RIFF")) && Slice(head, 8, 12) == Ascii("WEBP")
  }

  predicate LooksLikeImage(head: Bytes) {
    LooksLikeJpeg(head) || LooksLikePng(head) || LooksLikeGif(head) || LooksLikeWebp(head)
  }

  predicate LooksLikePdf(head: Bytes) {
    StartsWith(head, Ascii("%PDF-"))
  }

  predicate LooksLikeMp4OrMov(head: Bytes) {
    && |head| >= 8
    && var box := Slice(head, 4, 8);
       box == Ascii("ftyp") || box == Ascii("free") || box == Ascii("wide") || box == Ascii("moov")
  }

  predicate LooksLikeWebm(head: Bytes) {
    StartsWith(head, [0x1a, 0x45, 0xdf, 0xa3])
  }

  predicate LooksLikeVideo(head: Bytes) {
    LooksLikeMp4OrMov(head) || LooksLikeWebm(head)
  }

  /** Which signature check a category has, if any. */
  datatype Signature = NoSignature | ImageSignature | PdfSignature | VideoSignature

  predicate SignatureAccepts(signature: Signature, head: Bytes) {
    match signature
    case NoSignature => true
    case ImageSignature => LooksLikeImage(head)
    case PdfSignature => LooksLikePdf(head)
    case VideoSignature => LooksLikeVideo(head)
  }

  datatype Category = Category(name: string, allowedContentTypes: set<string>, maxSizeBytes: nat, signature: Signature)

  const IMAGE :=
    Category("image", {"image/jpeg", "image/png", "image/webp", "image/gif"}, 10 * 1024 * 1024, ImageSignature)
  const PDF := Category("pdf", {"application/pdf"}, 20 * 1024 * 1024, PdfSignature)
  const CSV := Category("csv", {"text/csv", "application/vnd.ms-excel"}, 20 * 1024 * 1024, NoSignature)
  const VIDEO := Category("video", {"video/mp4", "video/webm", "video/quicktime"}, 200 * 1024 * 1024, VideoSignature)

  function CategoryNamed(name: string): Option<Category> {
    if name == "image" then Some(IMAGE)
    else if name == "pdf" then Some(PDF)
    else if name == "csv" then Some(CSV)
    else if name == "video" then Some(VIDEO)
    else None
  }

  /** Every signature predicate looks at the first 32 bytes only: on them it answers as on the whole content. */
  lemma HeadDecidesSignature(signature: Signature, content: Bytes)
    ensures SignatureAccepts(signature, Slice(content, 0, HEAD_SIZE)) <==> SignatureAccepts(signature, content)
  {
    var head := Slice(content, 0, HEAD_SIZE);
    PrefixOfHead(content, [0xff, 0xd8, 0xff]);
    PrefixOfHead(content, [0x89, 0x50, 0x4e, 0x47, 0x0d, 0x0a, 0x1a, 0x0a]);
    PrefixOfHead(content, Ascii("GIF87a"));
    PrefixOfHead(content, Ascii("GIF89a"));
    PrefixOfHead(content, Ascii("RIFF"));
    PrefixOfHead(content, Ascii("%PDF-"));
    PrefixOfHead(content, [0x1a, 0x45, 0xdf, 0xa3]);
    SliceOfHead(content, 8, 12);
    SliceOfHead(content, 4, 8);
  }

  lemma SliceOfHead(content: Bytes, from: nat, to: nat)
    requires from <= to <= HEAD_SIZE
    ensures Slice(Slice(content, 0, HEAD_SIZE), from, to) == Slice(content, from, to)
  {
    var head := Slice(content, 0, HEAD_SIZE);
    var inner, direct := Slice(head, from, to), Slice(content, from, to);
    assert |inner| == |direct|;
    forall j | 0 <= j < |inner| ensures inner[j] == direct[j] {
      assert inner[j] == head[from + j] == content[from + j];
    }
  }

  lemma PrefixOfHead(content: Bytes, prefix: Bytes)
    requires |prefix| <= HEAD_SIZE
    ensures StartsWith(Slice(content, 0, HEAD_SIZE), prefix) <==> StartsWith(content, prefix)
  {
    var head := Slice(content, 0, HEAD_SIZE);
    if |prefix| <= |content| {
      assert head[..|prefix|] == content[..|prefix|];
    }
  }

  /** How `head` grows by one chunk. */
  function ExtendHead(head: Bytes, chunk: Bytes): Bytes {
    if |head| < HEAD_SIZE then head + Slice(chunk, 0, HEAD_SIZE - |head|) else head
  }

  function HeadAfter(head: Bytes, chunks: seq<Bytes>): Bytes
    decreases |chunks|
  {
    if chunks == [] then head else HeadAfter(ExtendHead(head, chunks[0]), chunks[1..])
  }

  function Concat(chunks: seq<Bytes>): Bytes {
    if chunks == [] then [] else chunks[0] + Concat(chunks[1..])
  }

  /** However content is cut into chunks, `head` ends as its first 32 bytes (all of it if it is shorter). */
  lemma {:induction false} HeadIndependentOfChunks(before: Bytes, chunks: seq<Bytes>)
    ensures HeadAfter(Slice(before, 0, HEAD_SIZE), chunks) == Slice(before + Concat(chunks), 0, HEAD_SIZE)
    decreases |chunks|
  {
    if chunks == [] {
      assert before + [] == before;
    } else {
      ExtendHeadIsPrefix(before, chunks[0]);
      HeadIndependentOfChunks(before + chunks[0], chunks[1..]);
      assert before + Concat(chunks) == before + chunks[0] + Concat(chunks[1..]);
    }
  }

  lemma ExtendHeadIsPrefix(before: Bytes, chunk: Bytes)
    ensures ExtendHead(Slice(before, 0, HEAD_SIZE), chunk) == Slice(before + chunk, 0, HEAD_SIZE)
  {
  }

  // ---------- the test signature ----------

  /** The 68 bytes of the EICAR test file. */
  const EICAR: Bytes :=
    Ascii("X5O!P%@AP[4\\PZX54(P^)7CC)7}$") + Ascii("EICAR-STANDARD-ANTIVIRUS-TEST-FILE!$H+H*")
  const SIGNATURE_SIZE: nat := 68

  predicate SignatureAt(data: Bytes, i: int) {
    0 <= i && i + SIGNATURE_SIZE <= |data| && data[i..i + SIGNATURE_SIZE] == EICAR
  }

  /** `True` if the chunk does not contain the signature anywhere. */
  predicate ScanChunkForViruses(chunk: Bytes) {
    forall i :: 0 <= i < |chunk| ==> !SignatureAt(chunk, i)
  }

  // ---------- the whole-file specification ----------

  datatype UploadError = TooLarge | FailedVirusScan | EmptyFile | SignatureMismatch

  /** The number of bytes read once block `k` is in. */
  function BlockEnd(content: Bytes, k: nat): nat {
    Min((k + 1) * CHUNK_SIZE, |content|)
  }

  predicate IsBlock(content: Bytes, k: nat) {
    k * CHUNK_SIZE < |content|
  }

  function Block(content: Bytes, k: nat): Bytes {
    Slice(content, k * CHUNK_SIZE, BlockEnd(content, k))
  }

  predicate BlockPasses(content: Bytes, maxSize: nat, k: nat) {
    BlockEnd(content, k) <= maxSize && ScanChunkForViruses(Block(content, k))
  }

  ghost predicate BlocksPass(content: Bytes, maxSize: nat, n: nat) {
    forall k: nat :: k < n && IsBlock(content, k) ==> BlockPasses(content, maxSize, k)
  }

  /**
   * The verdict on a file, said without a loop: the first failing block decides between too large and infected
   * (size first), then emptiness, then the signature of the whole content.
   */
  ghost predicate IsVerdict(content: Bytes, category: Category, verdict: Result<nat, UploadError>) {
    match verdict
    case Err(TooLarge) =>
      exists k: nat :: IsBlock(content, k) && BlocksPass(content, category.maxSizeBytes, k)
                       && BlockEnd(content, k) > category.maxSizeBytes
    case Err(FailedVirusScan) =>
      exists k: nat :: IsBlock(content, k) && BlocksPass(content, category.maxSizeBytes, k)
                       && BlockEnd(content, k) <= category.maxSizeBytes && !ScanChunkForViruses(Block(content, k))
    case Err(EmptyFile) => content == []
    case Err(SignatureMismatch) =>
      && content != [] && BlocksPass(content, category.maxSizeBytes, |content|)
      && !SignatureAccepts(category.signature, content)
    case Ok(size) =>
      && size == |content| > 0 && BlocksPass(content, category.maxSizeBytes, |content|)
      && SignatureAccepts(category.signature, content)
  }

  /** The specification gives no file two verdicts; `VerdictExists` gives it one. */
  lemma VerdictUnique(content: Bytes, category: Category, a: Result<nat, UploadError>, b: Result<nat, UploadError>)
    requires IsVerdict(content, category, a) && IsVerdict(content, category, b)
    ensures a == b
  {
    var max := category.maxSizeBytes;
    BlocksCover(content);
    if BlocksPass(content, max, |content|) {
      assert !(a == Err(TooLarge)) && !(a == Err(FailedVirusScan));
      assert !(b == Err(TooLarge)) && !(b == Err(FailedVirusScan));
    } else {
      var k: nat :| k < |content| && IsBlock(content, k) && !BlockPasses(content, max, k);
      assert a == Err(TooLarge) || a == Err(FailedVirusScan);
      assert b == Err(TooLarge) || b == Err(FailedVirusScan);
      FirstFailureUnique(content, max, a, category);
      FirstFailureUnique(content, max, b, category);
    }
  }

  lemma BlocksCover(content: Bytes)
    ensures forall k: nat :: IsBlock(content, k) ==> k < |content|
  {
  }

  /** The least failing block. */
  ghost predicate FirstFailure(content: Bytes, max: nat, k: nat) {
    IsBlock(content, k) && BlocksPass(content, max, k) && !BlockPasses(content, max, k)
  }

  lemma FirstFailureUnique(content: Bytes, max: nat, verdict: Result<nat, UploadError>, category: Category)
    requires max == category.maxSizeBytes && IsVerdict(content, category, verdict)
    requires verdict == Err(TooLarge) || verdict == Err(FailedVirusScan)
    ensures exists k: nat :: FirstFailure(content, max, k)
    ensures forall k: nat :: FirstFailure(content, max, k) ==>
              (verdict == Err(TooLarge) <==> BlockEnd(content, k) > max)
  {
    var k: nat :| IsBlock(content, k) && BlocksPass(content, max, k)
      && (verdict == Err(TooLarge) <==> BlockEnd(content, k) > max) && !BlockPasses(content, max, k);
    assert FirstFailure(content, max, k);
    forall j: nat | FirstFailure(content, max, j) ensures j == k {
      assert !(j < k) && !(k < j);
    }
  }

  lemma {:induction false} SomeVerdict(content: Bytes, max: nat, n: nat)
    ensures BlocksPass(content, max, n) || exists k: nat :: FirstFailure(content, max, k)
  {
    if n > 0 {
      SomeVerdict(content, max, n - 1);
      if BlocksPass(content, max, n - 1) && !BlocksPass(content, max, n) {
        assert FirstFailure(content, max, n - 1);
      }
    }
  }

  lemma VerdictExists(content: Bytes, category: Category)
    ensures exists verdict :: IsVerdict(content, category, verdict)
  {
    var max := category.maxSizeBytes;
    SomeVerdict(content, max, |content|);
    if BlocksPass(content, max, |content|) {
      if content == [] {
        assert IsVerdict(content, category, Err(EmptyFile));
      } else if SignatureAccepts(category.signature, content) {
        assert IsVerdict(content, category, Ok(|content|));
      } else {
        assert IsVerdict(content, category, Err(SignatureMismatch));
      }
    } else {
      var k: nat :| FirstFailure(content, max, k);
      assert IsVerdict(content, category, if BlockEnd(content, k) > max then Err(TooLarge) else Err(FailedVirusScan));
    }
  }

  /** The verdict on a file: by `VerdictUnique` there is no other. */
  ghost function Verdict(content: Bytes, category: Category): (verdict: Result<nat, UploadError>)
    ensures IsVerdict(content, category, verdict)
  {
    VerdictExists(content, category);
    var verdict :| IsVerdict(content, category, verdict);
    verdict
  }

  /** Accepted files lie within 1 byte and the category's limit. */
  lemma AcceptedSize(content: Bytes, category: Category, size: nat)
    requires IsVerdict(content, category, Ok(size))
    ensures 1 <= size == |content| <= category.maxSizeBytes
  {
    var last := (|content| - 1) / CHUNK_SIZE;
    assert last * CHUNK_SIZE <= |content| - 1 < (last + 1) * CHUNK_SIZE;
    assert IsBlock(content, last) && BlockEnd(content, last) == |content|;
    assert last < |content|;
    assert BlockPasses(content, category.maxSizeBytes, last);
  }

  ghost predicate Straddles(i: nat) {
    i / CHUNK_SIZE != (i + SIGNATURE_SIZE - 1) / CHUNK_SIZE
  }

  /** No block contains the signature exactly when each occurrence in the file crosses a block boundary. */
  lemma CleanBlocksMeaning(content: Bytes)
    ensures (forall k: nat :: IsBlock(content, k) ==> ScanChunkForViruses(Block(content, k)))
            <==> (forall i: nat :: SignatureAt(content, i) ==> Straddles(i))
  {
    forall i: nat | SignatureAt(content, i) && !Straddles(i)
      ensures exists k: nat :: IsBlock(content, k) && !ScanChunkForViruses(Block(content, k))
    {
      InBlock(content, i, i / CHUNK_SIZE);
    }
    forall k: nat | IsBlock(content, k) && !ScanChunkForViruses(Block(content, k))
      ensures exists i: nat :: SignatureAt(content, i) && !Straddles(i)
    {
      var i :| 0 <= i < |Block(content, k)| && SignatureAt(Block(content, k), i);
      FromBlock(content, k, i);
    }
  }

  lemma SliceOfSlice<X>(data: seq<X>, from: nat, to: nat, at: nat, n: nat)
    requires from <= to <= |data| && at + n <= to - from
    ensures data[from..to][at..at + n] == data[from + at..from + at + n]
  {
    var outer := data[from..to];
    var inner, direct := outer[at..at + n], data[from + at..from + at + n];
    forall j | 0 <= j < n ensures inner[j] == direct[j] {
      assert inner[j] == outer[at + j] == data[from + (at + j)];
    }
  }

  lemma InBlock(content: Bytes, i: nat, k: nat)
    requires SignatureAt(content, i) && k == i / CHUNK_SIZE == (i + SIGNATURE_SIZE - 1) / CHUNK_SIZE
    ensures IsBlock(content, k) && !ScanChunkForViruses(Block(content, k))
  {
    var block, at := Block(content, k), i - k * CHUNK_SIZE;
    assert i + SIGNATURE_SIZE <= BlockEnd(content, k);
    assert block == content[k * CHUNK_SIZE..BlockEnd(content, k)] && 0 <= at && at + SIGNATURE_SIZE <= |block|;
    SliceOfSlice(content, k * CHUNK_SIZE, BlockEnd(content, k), at, SIGNATURE_SIZE);
    assert SignatureAt(block, at);
  }

  lemma FromBlock(content: Bytes, k: nat, i: nat)
    requires IsBlock(content, k) && SignatureAt(Block(content, k), i)
    ensures SignatureAt(content, k * CHUNK_SIZE + i)
    ensures !Straddles(k * CHUNK_SIZE + i)
  {
    var block, from := Block(content, k), k * CHUNK_SIZE + i;
    assert block == content[k * CHUNK_SIZE..BlockEnd(content, k)] && i + SIGNATURE_SIZE <= |block|;
    SliceOfSlice(content, k * CHUNK_SIZE, BlockEnd(content, k), i, SIGNATURE_SIZE);
    assert from / CHUNK_SIZE == k && (from + SIGNATURE_SIZE - 1) / CHUNK_SIZE == k;
  }

  lemma ConcatSuffix<X>(a: seq<X>, b: seq<X>)
    ensures (a + b)[|a|..] == b
  {
    var suffix := (a + b)[|a|..];
    forall j | 0 <= j < |b| ensures suffix[j] == b[j] {
      assert suffix[j] == (a + b)[|a| + j];
    }
  }

  lemma DropIsSlice<X>(s: seq<X>, n: nat)
    requires n <= |s|
    ensures s[n..] == s[n..|s|]
  {
  }

  /** A file whose only occurrence crosses a block boundary. */
  function Straddling(): Bytes {
    seq(CHUNK_SIZE - 10, _ => 0) + EICAR
  }

  /** The scan is per block, so such a file is accepted although it contains the signature. */
  lemma StraddlingAccepted()
    ensures SignatureAt(Straddling(), CHUNK_SIZE - 10)
    ensures IsVerdict(Straddling(), CSV, Ok(|Straddling()|))
  {
    var content := Straddling();
    ConcatSuffix(seq(CHUNK_SIZE - 10, _ => 0), EICAR);
    DropIsSlice(content, CHUNK_SIZE - 10);
    forall i: nat | SignatureAt(content, i) ensures Straddles(i) {
      assert content[i] == content[i..i + SIGNATURE_SIZE][0] == EICAR[0] == 0x58;
      assert i == CHUNK_SIZE - 10;
    }
    CleanBlocksMeaning(content);
    forall k: nat | IsBlock(content, k) ensures BlockPasses(content, CSV.maxSizeBytes, k) {
      assert ScanChunkForViruses(Block(content, k));
    }
  }

  // ---------- the loop ----------

  /** An uploaded file with a read position. */
  class UploadFile {
    const content: Bytes
    var position: nat

    constructor (content: Bytes)
      ensures this.content == content && position == 0
    {
      this.content := content;
      this.position := 0;
    }

    /** Up to `size` bytes from the position on; fewer, possibly none, at the end. */
    method Read(size: nat) returns (chunk: Bytes)
      modifies this`position
      ensures chunk == Slice(content, old(position), old(position) + size)
      ensures position == old(position) + |chunk|
    {
      chunk := Slice(content, position, position + size);
      position := position + |chunk|;
    }

    method Seek(position: nat)
      modifies this`position
      ensures this.position == position
    {
      this.position := position;
    }
  }

  /**
   * The verdict is the whole-file one. Success rewinds the upload; a refusal has read at most one block beyond
   * the category's limit.
   */
  method ReadAndValidateStream(upload: UploadFile, category: Category) returns (r: Result<nat, UploadError>)
    requires upload.position == 0
    modifies upload`position
    ensures IsVerdict(upload.content, category, r)
    ensures r.Ok? ==> upload.position == 0
    ensures r.Err? ==> upload.position <= category.maxSizeBytes + CHUNK_SIZE
  {
    var total := 0;
    var head: Bytes := [];
    ghost var k: nat := 0;
    ghost var content, max := upload.content, category.maxSizeBytes;

    while true
      invariant upload.position == total == Min(k * CHUNK_SIZE, |content|)
      invariant total <= max
      invariant head == Slice(content[..total], 0, HEAD_SIZE)
      invariant BlocksPass(content, max, k)
      decreases |content| - total
    {
      var chunk := upload.Read(CHUNK_SIZE);
      if chunk == [] {
        break;
      }
      ChunkIsBlock(content, k, total);

      total := total + |chunk|;
      if total > category.maxSizeBytes {
        return Err(TooLarge);
      }

      ExtendHeadIsPrefix(content[..total - |chunk|], chunk);
      if |head| < HEAD_SIZE {
        head := head + Slice(chunk, 0, HEAD_SIZE - |head|);
      }

      if !ScanChunkForViruses(chunk) {
        return Err(FailedVirusScan);
      }
      k := k + 1;
    }

    AllBlocksRead(content, max, k, total);
    if total == 0 {
      return Err(EmptyFile);
    }

    HeadDecidesSignature(category.signature, content);
    if category.signature != NoSignature && !SignatureAccepts(category.signature, head) {
      return Err(SignatureMismatch);
    }

    upload.Seek(0);
    return Ok(total);
  }

  /** The chunk read after `k` full blocks is block `k`. */
  lemma ChunkIsBlock(content: Bytes, k: nat, total: nat)
    requires total == Min(k * CHUNK_SIZE, |content|) < |content|
    ensures IsBlock(content, k)
    ensures
      var chunk := Slice(content, total, total + CHUNK_SIZE);
      && chunk == Block(content, k) && total + |chunk| == BlockEnd(content, k)
      && content[..total] + chunk == content[..total + |chunk|]
  {
  }

  lemma AllBlocksRead(content: Bytes, max: nat, k: nat, total: nat)
    requires total == Min(k * CHUNK_SIZE, |content|) && Slice(content, total, total + CHUNK_SIZE) == []
    requires BlocksPass(content, max, k)
    ensures content[..total] == content
    ensures BlocksPass(content, max, |content|)
  {
    assert total == |content|;
    assert forall i: nat :: IsBlock(content, i) ==> i < k;
  }

  datatype CsvError = NotUtf8 | NoRows | NoColumns

  /** The sample's first row is judged by `parse`; afterwards the upload is at its start again. */
  method ValidateCsvContent(upload: UploadFile, parse: Bytes -> Option<CsvError>) returns (r: Option<CsvError>)
    requires upload.position == 0
    modifies upload`position
    ensures upload.position == 0
    ensures r == parse(Slice(upload.content, 0, CSV_SAMPLE_SIZE))
  {
    var sample := upload.Read(CSV_SAMPLE_SIZE);
    upload.Seek(0);
    r := parse(sample);
  }
}
