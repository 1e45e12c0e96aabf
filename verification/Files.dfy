// File rows and stored objects (app/api/files.py, app/services/storage.py, app/models/file_upload.py).
//
// A handler is one atomic step. Users come and go as the rest of the service decides; deleting a user deletes
// the user's rows, not the objects.
module Files {
  import opened Wrappers
  import opened FileValidation
  import Decimal
  import Text

  datatype FileRow = FileRow(
    userId: int, filename: string, contentType: string, category: string, sizeBytes: nat, storageKey: string)

  /** `usedUploads` records the uuids drawn so far. */
  datatype Store = Store(users: set<int>, rows: map<int, FileRow>, objects: map<string, Bytes>,
                         usedUploads: set<string>)

  datatype Refusal =
    | StorageNotConfigured | UnknownCategory | ContentTypeNotAllowed
    | Rejected(error: UploadError) | CsvRejected(csvError: CsvError) | FileNotFound

  datatype Outcome = Created(row: FileRow) | Removed | Refused(refusal: Refusal)

  // ---------- object keys ----------

  function SafeName(filename: string): string {
    seq(|filename|,
        i requires 0 <= i < |filename| => if filename[i] == '/' || filename[i] == '\\' then '_' else filename[i])
  }

  /** category / user id / uuid _ name, with the uuid as 32 hexadecimal digits. */
  function ObjectKey(userId: int, category: string, filename: string, uuid: string): string {
    category + "/" + Decimal.IntText(userId) + "/" + uuid + "_" + SafeName(filename)
  }

  const UUID_LENGTH := 32

  /** Keys made with different uuids differ, whatever the file names look like. */
  lemma ObjectKeysDistinct(userId: int, category: string, filename: string, uuid: string,
                           userId': int, category': string, filename': string, uuid': string)
    requires '/' !in category && '/' !in category' && |uuid| == |uuid'| == UUID_LENGTH
    requires ObjectKey(userId, category, filename, uuid) == ObjectKey(userId', category', filename', uuid')
    ensures category == category' && userId == userId' && uuid == uuid'
  {
    var user, user' := Decimal.IntText(userId), Decimal.IntText(userId');
    var last, last' := uuid + "_" + SafeName(filename), uuid' + "_" + SafeName(filename');
    assert ObjectKey(userId, category, filename, uuid) == category + ['/'] + (user + ['/'] + last);
    assert ObjectKey(userId', category', filename', uuid') == category' + ['/'] + (user' + ['/'] + last');
    Text.SplitUnique(category, '/', user + ['/'] + last, category', user' + ['/'] + last');
    Decimal.IntTextChars(userId);
    Decimal.IntTextChars(userId');
    assert '/' !in user && '/' !in user';
    Text.SplitUnique(user, '/', last, user', last');
    Decimal.IntTextInjective(userId, userId');
    assert uuid == last[..UUID_LENGTH] && uuid' == last'[..UUID_LENGTH];
  }

  // ---------- handlers ----------

  /** An upload request; `csvError` is what parsing the sample of a CSV file finds. */
  datatype Request = Request(
    userId: int, category: string, contentType: string, filename: string, content: Bytes, csvError: Option<CsvError>)

  /** Why an upload is refused, in the order of the checks; `None` if it is accepted. */
  ghost function UploadRefusal(configured: bool, r: Request): Option<Refusal> {
    if !configured then Some(StorageNotConfigured)
    else
      match CategoryNamed(r.category)
      case None => Some(UnknownCategory)
      case Some(category) =>
        if r.contentType !in category.allowedContentTypes then Some(ContentTypeNotAllowed)
        else
          match Verdict(r.content, category)
          case Err(error) => Some(Rejected(error))
          case Ok(_) => if r.category == CSV.name && r.csvError.Some? then Some(CsvRejected(r.csvError.value)) else None
  }

  /** An empty filename is stored as "upload". */
  function StoredName(filename: string): string {
    if filename == "" then "upload" else filename
  }

  ghost function UploadFileTo(s: Store, configured: bool, r: Request, uuid: string, rowId: int): (Store, Outcome) {
    match UploadRefusal(configured, r)
    case Some(refusal) => (s, Refused(refusal))
    case None =>
      var key := ObjectKey(r.userId, r.category, StoredName(r.filename), uuid);
      var row := FileRow(r.userId, StoredName(r.filename), r.contentType, r.category, |r.content|, key);
      (Store(s.users, s.rows[rowId := row], s.objects[key := r.content], s.usedUploads + {uuid}), Created(row))
  }

  function DeleteFile(s: Store, configured: bool, userId: int, rowId: int): (Store, Outcome) {
    if rowId !in s.rows || s.rows[rowId].userId != userId then (s, Refused(FileNotFound))
    else if !configured then (s, Refused(StorageNotConfigured))
    else (s.(objects := s.objects - {s.rows[rowId].storageKey}, rows := s.rows - {rowId}), Removed)
  }

  function DeleteUsers(s: Store, ids: set<int>): Store {
    s.(users := s.users - ids, rows := map id | id in s.rows && s.rows[id].userId !in ids :: s.rows[id])
  }

  datatype Step =
    | AddUser(id: int)
    | RemoveUsers(ids: set<int>)
    | Upload(configured: bool, request: Request, uuid: string, rowId: int)
    | Delete(configured: bool, userId: int, rowId: int)

  /** Row ids and uuids are new, and the caller of an upload is an existing user. */
  predicate Enabled(s: Store, step: Step) {
    step.Upload? ==>
      step.request.userId in s.users && step.rowId !in s.rows && step.uuid !in s.usedUploads
        && |step.uuid| == UUID_LENGTH
  }

  ghost function Next(s: Store, step: Step): Store {
    match step
    case AddUser(id) => s.(users := s.users + {id})
    case RemoveUsers(ids) => DeleteUsers(s, ids)
    case Upload(configured, request, uuid, rowId) => UploadFileTo(s, configured, request, uuid, rowId).0
    case Delete(configured, userId, rowId) => DeleteFile(s, configured, userId, rowId).0
  }

  ghost predicate IsRun(stores: seq<Store>, steps: seq<Step>) {
    && |stores| == |steps| + 1 && stores[0] == Store({}, map[], map[], {})
    && forall i {:trigger steps[i]} :: 0 <= i < |steps| ==>
         Enabled(stores[i], steps[i]) && stores[i + 1] == Next(stores[i], steps[i])
  }

  // ---------- the invariant ----------

  /** A row names an existing user and a stored object of its size that its category accepts. */
  ghost predicate RowOk(s: Store, row: FileRow) {
    && row.userId in s.users
    && row.storageKey in s.objects && |s.objects[row.storageKey]| == row.sizeBytes
    && CategoryNamed(row.category).Some?
    && IsVerdict(s.objects[row.storageKey], CategoryNamed(row.category).value, Ok(row.sizeBytes))
  }

  ghost predicate RowsInv(s: Store) {
    && (forall id :: id in s.rows ==> RowOk(s, s.rows[id]))
    && (forall a, b :: a in s.rows && b in s.rows && s.rows[a].storageKey == s.rows[b].storageKey ==> a == b)
  }

  /** A key some upload has made. */
  ghost predicate MadeKey(key: string, usedUploads: set<string>) {
    exists userId, category, filename, uuid ::
      key == ObjectKey(userId, category, filename, uuid) && '/' !in category && |uuid| == UUID_LENGTH
        && uuid in usedUploads
  }

  ghost predicate KeysInv(s: Store) {
    forall key :: key in s.objects ==> MadeKey(key, s.usedUploads)
  }

  lemma CategoriesHaveNoSlash(name: string)
    requires CategoryNamed(name).Some?
    ensures '/' !in name
  {
  }

  lemma NewKeyIsUnused(s: Store, userId: int, category: string, filename: string, uuid: string)
    requires KeysInv(s) && uuid !in s.usedUploads && |uuid| == UUID_LENGTH && '/' !in category
    ensures ObjectKey(userId, category, filename, uuid) !in s.objects
  {
    var key := ObjectKey(userId, category, filename, uuid);
    if key in s.objects {
      assert MadeKey(key, s.usedUploads);
      var userId', category', filename', uuid' :|
        key == ObjectKey(userId', category', filename', uuid') && '/' !in category' && |uuid'| == UUID_LENGTH
          && uuid' in s.usedUploads;
      ObjectKeysDistinct(userId, category, filename, uuid, userId', category', filename', uuid');
    }
  }

  lemma UploadKeepsRows(s: Store, configured: bool, r: Request, uuid: string, rowId: int)
    requires RowsInv(s) && KeysInv(s) && Enabled(s, Upload(configured, r, uuid, rowId))
    ensures RowsInv(UploadFileTo(s, configured, r, uuid, rowId).0)
  {
    if UploadRefusal(configured, r).None? {
      CategoriesHaveNoSlash(r.category);
      var key := ObjectKey(r.userId, r.category, StoredName(r.filename), uuid);
      NewKeyIsUnused(s, r.userId, r.category, StoredName(r.filename), uuid);
      var row := UploadFileTo(s, configured, r, uuid, rowId).1.row;
      RowAdded(s, rowId, row, key, r.content, uuid);
    }
  }

  lemma RowAdded(s: Store, rowId: int, row: FileRow, key: string, content: Bytes, uuid: string)
    requires RowsInv(s) && rowId !in s.rows && key !in s.objects && row.storageKey == key && row.sizeBytes == |content|
    requires row.userId in s.users && CategoryNamed(row.category).Some?
    requires IsVerdict(content, CategoryNamed(row.category).value, Ok(row.sizeBytes))
    ensures RowsInv(Store(s.users, s.rows[rowId := row], s.objects[key := content], s.usedUploads + {uuid}))
  {
    var s' := Store(s.users, s.rows[rowId := row], s.objects[key := content], s.usedUploads + {uuid});
    forall id | id in s'.rows ensures RowOk(s', s'.rows[id]) {
      if id != rowId {
        assert RowOk(s, s.rows[id]);
      }
    }
    assert forall id :: id in s.rows ==> s.rows[id].storageKey in s.objects by {
      assert forall id :: id in s.rows ==> RowOk(s, s.rows[id]);
    }
  }

  lemma UploadKeepsKeys(s: Store, configured: bool, r: Request, uuid: string, rowId: int)
    requires KeysInv(s) && Enabled(s, Upload(configured, r, uuid, rowId))
    ensures KeysInv(UploadFileTo(s, configured, r, uuid, rowId).0)
  {
    if UploadRefusal(configured, r).None? {
      CategoriesHaveNoSlash(r.category);
      var s' := UploadFileTo(s, configured, r, uuid, rowId).0;
      KeyAdded(s, s', r.userId, r.category, StoredName(r.filename), uuid);
    }
  }

  lemma KeyAdded(s: Store, s': Store, userId: int, category: string, filename: string, uuid: string)
    requires KeysInv(s) && '/' !in category && |uuid| == UUID_LENGTH && s'.usedUploads == s.usedUploads + {uuid}
    requires forall key :: key in s'.objects ==> key in s.objects || key == ObjectKey(userId, category, filename, uuid)
    ensures KeysInv(s')
  {
    forall key | key in s'.objects ensures MadeKey(key, s'.usedUploads) {
      if key in s.objects {
        assert MadeKey(key, s.usedUploads);
        var u, c, f, x :| key == ObjectKey(u, c, f, x) && '/' !in c && |x| == UUID_LENGTH && x in s.usedUploads;
        assert x in s'.usedUploads;
      } else {
        assert uuid in s'.usedUploads;
      }
    }
  }

  lemma DeleteKeepsRows(s: Store, configured: bool, userId: int, rowId: int)
    requires RowsInv(s)
    ensures RowsInv(DeleteFile(s, configured, userId, rowId).0)
  {
    var s' := DeleteFile(s, configured, userId, rowId).0;
    forall id | id in s'.rows ensures RowOk(s', s'.rows[id]) {
      assert RowOk(s, s.rows[id]);
    }
  }

  lemma UserDeletionKeepsRows(s: Store, ids: set<int>)
    requires RowsInv(s)
    ensures RowsInv(DeleteUsers(s, ids))
  {
    var s' := DeleteUsers(s, ids);
    forall id | id in s'.rows ensures RowOk(s', s'.rows[id]) {
      assert RowOk(s, s.rows[id]);
    }
  }

  lemma StepKeepsInv(s: Store, step: Step)
    requires RowsInv(s) && KeysInv(s) && Enabled(s, step)
    ensures RowsInv(Next(s, step)) && KeysInv(Next(s, step))
  {
    match step
    case AddUser(id) =>
      assert forall row :: RowOk(s, row) ==> RowOk(Next(s, step), row);
    case RemoveUsers(ids) => UserDeletionKeepsRows(s, ids);
    case Upload(configured, request, uuid, rowId) =>
      UploadKeepsRows(s, configured, request, uuid, rowId);
      UploadKeepsKeys(s, configured, request, uuid, rowId);
    case Delete(configured, userId, rowId) => DeleteKeepsRows(s, configured, userId, rowId);
  }

  lemma {:induction false} RunKeepsInv(stores: seq<Store>, steps: seq<Step>, i: nat)
    requires IsRun(stores, steps) && i < |stores|
    ensures RowsInv(stores[i]) && KeysInv(stores[i])
  {
    if i > 0 {
      RunKeepsInv(stores, steps, i - 1);
      StepKeepsInv(stores[i - 1], steps[i - 1]);
    }
  }

  /**
   * In every reachable state each file row belongs to an existing user and has a stored object of exactly
   * `sizeBytes` bytes, at least 1 and at most its category's limit, without the test signature inside any block,
   * that no other row refers to.
   */
  lemma RowsHaveObjects(stores: seq<Store>, steps: seq<Step>, i: nat, id: int)
    requires IsRun(stores, steps) && i < |stores| && id in stores[i].rows
    ensures
      var row := stores[i].rows[id];
      && row.userId in stores[i].users && row.storageKey in stores[i].objects
      && var (stored, category) := (stores[i].objects[row.storageKey], CategoryNamed(row.category));
      && category.Some? && 1 <= |stored| == row.sizeBytes <= category.value.maxSizeBytes
      && (forall k: nat :: IsBlock(stored, k) ==> ScanChunkForViruses(Block(stored, k)))
      && SignatureAccepts(category.value.signature, stored)
      && (forall other :: other in stores[i].rows && stores[i].rows[other].storageKey == row.storageKey ==> other == id)
  {
    RunKeepsInv(stores, steps, i);
    var row := stores[i].rows[id];
    assert RowOk(stores[i], row);
    AcceptedObject(stores[i].objects[row.storageKey], CategoryNamed(row.category).value, row.sizeBytes);
  }

  lemma AcceptedObject(stored: Bytes, category: Category, size: nat)
    requires IsVerdict(stored, category, Ok(size))
    ensures 1 <= |stored| == size <= category.maxSizeBytes
    ensures forall k: nat :: IsBlock(stored, k) ==> ScanChunkForViruses(Block(stored, k))
    ensures SignatureAccepts(category.signature, stored)
  {
    AcceptedSize(stored, category, size);
    forall k: nat | IsBlock(stored, k) ensures ScanChunkForViruses(Block(stored, k)) {
      assert k < |stored|;
      assert BlockPasses(stored, category.maxSizeBytes, k);
    }
  }

  /** Deleting a file takes its row and its object, and no other row's object. */
  lemma DeleteRemovesExactly(stores: seq<Store>, steps: seq<Step>, i: nat, configured: bool, userId: int, rowId: int,
                             other: int)
    requires IsRun(stores, steps) && i < |stores|
    requires DeleteFile(stores[i], configured, userId, rowId).1 == Removed
    ensures
      var s, s' := stores[i], DeleteFile(stores[i], configured, userId, rowId).0;
      && rowId !in s'.rows && s.rows[rowId].storageKey !in s'.objects
      && (other in s.rows && other != rowId ==>
            other in s'.rows && s'.rows[other] == s.rows[other]
            && s.rows[other].storageKey in s'.objects
            && s'.objects[s.rows[other].storageKey] == s.objects[s.rows[other].storageKey])
  {
    RunKeepsInv(stores, steps, i);
    if other in stores[i].rows {
      assert RowOk(stores[i], stores[i].rows[other]);
    }
  }

  // ---------- the handlers as they run ----------

  class FileService {
    var users: set<int>
    var rows: map<int, FileRow>
    var objects: map<string, Bytes>
    const configured: bool
    ghost var usedUploads: set<string>

    constructor (configured: bool)
      ensures Contents() == Store({}, map[], map[], {})
      ensures this.configured == configured
    {
      users, rows, objects, usedUploads := {}, map[], map[], {};
      this.configured := configured;
    }

    ghost function Contents(): Store
      reads this
    {
      Store(users, rows, objects, usedUploads)
    }

    /** The object stored is what remains of the upload after validation, so rewinding matters. */
    method Upload(upload: UploadFile, userId: int, category: string, contentType: string, filename: string,
                  parse: Bytes -> Option<CsvError>, uuid: string, rowId: int) returns (outcome: Outcome)
      requires upload.position == 0
      modifies this, upload`position
      ensures
        var sample := Slice(upload.content, 0, CSV_SAMPLE_SIZE);
        var request := Request(userId, category, contentType, filename, upload.content, parse(sample));
        (Contents(), outcome) == UploadFileTo(old(Contents()), configured, request, uuid, rowId)
    {
      if !configured {
        return Refused(StorageNotConfigured);
      }
      var uploadCategory := CategoryNamed(category);
      if uploadCategory.None? {
        return Refused(UnknownCategory);
      }
      if contentType !in uploadCategory.value.allowedContentTypes {
        return Refused(ContentTypeNotAllowed);
      }

      var size := ReadAndValidateStream(upload, uploadCategory.value);
      VerdictUnique(upload.content, uploadCategory.value, size, Verdict(upload.content, uploadCategory.value));
      if size.Err? {
        return Refused(Rejected(size.error));
      }
      if category == CSV.name {
        var csvError := ValidateCsvContent(upload, parse);
        if csvError.Some? {
          return Refused(CsvRejected(csvError.value));
        }
      }

      var name := StoredName(filename);
      var storageKey := ObjectKey(userId, category, name, uuid);
      assert upload.content[upload.position..] == upload.content;
      objects := objects[storageKey := upload.content[upload.position..]];
      var row := FileRow(userId, name, contentType, category, size.value, storageKey);
      rows := rows[rowId := row];
      usedUploads := usedUploads + {uuid};
      return Created(row);
    }

    method Delete(userId: int, rowId: int) returns (outcome: Outcome)
      modifies this`rows, this`objects
      ensures (Contents(), outcome) == DeleteFile(old(Contents()), configured, userId, rowId)
    {
      if rowId !in rows || rows[rowId].userId != userId {
        return Refused(FileNotFound);
      }
      if !configured {
        return Refused(StorageNotConfigured);
      }
      objects := objects - {rows[rowId].storageKey};
      rows := rows - {rowId};
      return Removed;
    }
  }
}
