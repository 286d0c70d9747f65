/** The server's tables and disk files as values, and the atomic steps that change them. */
module Store {
  import opened Basics
  import opened Content

  const SMALL_OBJECT_SIZE: nat := 1024
  const LZ4_COMPRESS_THRESHOLD: nat := SMALL_OBJECT_SIZE + 2

  datatype BlobRow = BlobRow(sha256: string, storedSize: nat, uncompressedSize: nat, smallData: Option<Bytes>)

  datatype ActionRow = ActionRow(blobId: nat, altOutputId: string, createTime: int, accessTime: int)

  /** <dir>/<hh>/<hash>, without or with the ".lz4" suffix. */
  datatype DiskPath = Plain(hash: string) | Lz4(hash: string)

  /** Actions are keyed by ActionID alone: the namespace is always 0. */
  datatype Db = Db(
    blobs: map<nat, BlobRow>,
    actions: map<string, ActionRow>,
    files: map<DiskPath, Bytes>,
    nextBlobId: nat)

  const EMPTY_DB := Db(map[], map[], map[], 1)

  /** One PUT request that carries its whole body. */
  datatype Upload = Upload(actionId: string, outputId: string, content: Bytes)

  // ---- The stored form of a content ----

  predicate OnDisk(content: Bytes) {
    |content| > SMALL_OBJECT_SIZE
  }

  predicate IsCompressed(content: Bytes) {
    |content| >= LZ4_COMPRESS_THRESHOLD
  }

  function FileOf(codec: Codec, content: Bytes): DiskPath {
    if IsCompressed(content) then Lz4(codec.sha256(content)) else Plain(codec.sha256(content))
  }

  function FileBytes(codec: Codec, content: Bytes): Bytes {
    if IsCompressed(content) then codec.compress(content) else content
  }

  function RowOf(codec: Codec, content: Bytes): BlobRow {
    if OnDisk(content)
    then BlobRow(codec.sha256(content), |FileBytes(codec, content)|, |content|, None)
    else BlobRow(codec.sha256(content), |content|, |content|, Some(content))
  }

  function AltOutputId(codec: Codec, u: Upload): string {
    if codec.sha256(u.content) != u.outputId then u.outputId else ""
  }

  /** Compressed content that does not change its length: stored, but never found again. */
  predicate SameLength(codec: Codec, content: Bytes) {
    IsCompressed(content) && |codec.compress(content)| == |content|
  }

  // ---- PUT: one disk write outside the lock, two inserts inside it ----

  function WriteFile(codec: Codec, db: Db, content: Bytes): Db {
    if OnDisk(content)
    then db.(files := db.files[FileOf(codec, content) := FileBytes(codec, content)])
    else db
  }

  ghost predicate HasBlob(db: Db, hash: string) {
    exists id :: id in db.blobs && db.blobs[id].sha256 == hash
  }

  /** The row the upsert finds; the unique index on SHA256 makes it the only one. */
  ghost function BlobIdOf(blobs: map<nat, BlobRow>, hash: string): nat
    requires exists id :: id in blobs && blobs[id].sha256 == hash
  {
    var id :| id in blobs && blobs[id].sha256 == hash;
    id
  }

  /** The BlobID the upsert returns, when SQLite would hand out newId for a new row. */
  ghost function UpsertedId(codec: Codec, db: Db, content: Bytes, newId: nat): nat {
    if HasBlob(db, codec.sha256(content)) then BlobIdOf(db.blobs, codec.sha256(content)) else newId
  }

  ghost function UpsertBlob(codec: Codec, db: Db, content: Bytes, newId: nat): Db {
    if HasBlob(db, codec.sha256(content)) then db
    else db.(blobs := db.blobs[newId := RowOf(codec, content)], nextBlobId := newId + 1)
  }

  /** INSERT OR IGNORE: the first writer of an action wins. */
  function InsertAction(codec: Codec, db: Db, u: Upload, blobId: nat, now: int): Db {
    if u.actionId in db.actions then db
    else db.(actions := db.actions[u.actionId := ActionRow(blobId, AltOutputId(codec, u), now, now)])
  }

  // ---- GET: one query, then perhaps one file ----

  datatype RowView = RowView(blob: BlobRow, altOutputId: string, accessTime: int)

  function Query(db: Db, actionId: string): Option<RowView> {
    if actionId in db.actions && db.actions[actionId].blobId in db.blobs
    then Some(RowView(db.blobs[db.actions[actionId].blobId],
                      db.actions[actionId].altOutputId, db.actions[actionId].accessTime))
    else None
  }

  /** lz4Encoded is the Content-Encoding header, uncompressedLength X-Uncompressed-Length. */
  datatype Response =
    | NotFound
    | Failed(status: int)
    | Ok(outputId: string, lz4Encoded: bool, contentLength: nat, uncompressedLength: Option<nat>, body: Bytes)

  predicate InferredLz4(row: BlobRow) {
    row.storedSize != row.uncompressedSize
  }

  function PathToOpen(row: BlobRow): DiskPath {
    if InferredLz4(row) then Lz4(row.sha256) else Plain(row.sha256)
  }

  function Respond(codec: Codec, view: RowView, files: map<DiskPath, Bytes>, acceptsLz4: bool): Response {
    var row := view.blob;
    var outputId := if view.altOutputId != "" then view.altOutputId else row.sha256;
    var isLz4 := InferredLz4(row);
    var sendRaw := row.smallData.Some? || !isLz4 || acceptsLz4;
    var encoded := !row.smallData.Some? && isLz4 && acceptsLz4;
    var length := if sendRaw then row.storedSize else row.uncompressedSize;
    var header := if encoded then Some(row.uncompressedSize) else None;
    if row.storedSize == 0 && row.uncompressedSize == 0 then
      Ok(outputId, encoded, length, header, [])
    else if row.smallData.Some? then
      Ok(outputId, encoded, length, header, row.smallData.value)
    else if |row.sha256| != SHA256_HEX_LENGTH then
      Failed(500)
    else if PathToOpen(row) !in files then
      NotFound
    else if isLz4 && !acceptsLz4 then
      Ok(outputId, encoded, length, header, codec.decompress(files[PathToOpen(row)]))
    else
      Ok(outputId, encoded, length, header, files[PathToOpen(row)])
  }

  // ---- Clean: rows go in one transaction, files one by one ----

  function RemoveRows(db: Db, ids: set<nat>): Db {
    db.(blobs := db.blobs - ids,
        actions := map a | a in db.actions && db.actions[a].blobId !in ids :: db.actions[a])
  }

  /** What deleteBlobs removes for an ID; with no row left, the hash array stays zero. */
  function HashToRemove(blobs: map<nat, BlobRow>, id: nat): string {
    if id in blobs then blobs[id].sha256 else ZeroHash()
  }

  /** The same for ids[k], inside a transaction that has already deleted ids[..k]. */
  function HashAt(blobs: map<nat, BlobRow>, ids: seq<nat>, k: nat): string
    requires k < |ids|
  {
    if ids[k] in ids[..k] then ZeroHash() else HashToRemove(blobs, ids[k])
  }

  /** The StoredSize it reads for ids[k]; zero when there is no row. */
  function SizeAt(blobs: map<nat, BlobRow>, ids: seq<nat>, k: nat): nat
    requires k < |ids|
  {
    if ids[k] in ids[..k] || ids[k] !in blobs then 0 else blobs[ids[k]].storedSize
  }

  function Elements(ids: seq<nat>): set<nat> {
    set id | id in ids
  }

  lemma ElementsAtMost(ids: seq<nat>, keys: set<nat>)
    ensures |Elements(ids) * keys| <= |ids|
  {
    if ids == [] {
      assert Elements(ids) * keys == {};
    } else {
      ElementsAtMost(ids[1..], keys);
      assert ids == [ids[0]] + ids[1..];
      assert Elements(ids) * keys == Elements(ids[1..]) * keys + (if ids[0] in keys then {ids[0]} else {});
    }
  }

  /** How many IDs of a list have no row, repetitions included. */
  function StaleCount(blobs: map<nat, BlobRow>, ids: seq<nat>): nat {
    ElementsAtMost(ids, blobs.Keys);
    |ids| - |Elements(ids) * blobs.Keys|
  }

  function Sizes(blobs: map<nat, BlobRow>): map<nat, nat> {
    map id | id in blobs :: blobs[id].storedSize
  }

  function SizesAmong(blobs: map<nat, BlobRow>, ids: set<nat>): map<nat, nat> {
    map id | id in Sizes(blobs) && id in ids :: Sizes(blobs)[id]
  }

  /** The running sum of deleteBlobs: each row counts once, however often its ID is listed. */
  lemma OneMoreId(blobs: map<nat, BlobRow>, ids: seq<nat>, k: nat)
    requires k < |ids|
    ensures Sum(SizesAmong(blobs, Elements(ids[..k + 1]))) ==
              Sum(SizesAmong(blobs, Elements(ids[..k]))) + SizeAt(blobs, ids, k)
  {
    var before, after := SizesAmong(blobs, Elements(ids[..k])), SizesAmong(blobs, Elements(ids[..k + 1]));
    assert ids[..k + 1] == ids[..k] + [ids[k]];
    if ids[k] in ids[..k] || ids[k] !in blobs {
      assert after == before;
    } else {
      assert after == before[ids[k] := blobs[ids[k]].storedSize];
      SumInsert(before, ids[k], blobs[ids[k]].storedSize);
    }
  }

  function RemoveFile(db: Db, path: DiskPath): Db {
    db.(files := db.files - {path})
  }

  /** The rows usageStats counts as missing: actions whose blob does not exist. */
  function MissingBlobRows(db: Db): set<string> {
    set a | a in db.actions && db.actions[a].blobId !in db.blobs
  }

  // ---- Invariants of the tables and files ----

  ghost predicate IsStored(codec: Codec, contents: set<Bytes>, path: DiskPath, bytes: Bytes) {
    exists c :: c in contents && OnDisk(c) && path == FileOf(codec, c) && bytes == FileBytes(codec, c)
  }

  /** Every file at a content-addressed path is the stored form of a content with that hash. */
  ghost predicate FilesOk(codec: Codec, contents: set<Bytes>, files: map<DiskPath, Bytes>) {
    forall p | p in files :: IsStored(codec, contents, p, files[p])
  }

  ghost predicate IsRow(codec: Codec, contents: set<Bytes>, row: BlobRow) {
    exists c :: c in contents && row == RowOf(codec, c)
  }

  ghost predicate BlobsOk(codec: Codec, contents: set<Bytes>, db: Db) {
    && (forall id | id in db.blobs :: id < db.nextBlobId && IsRow(codec, contents, db.blobs[id]))
    && (forall i, j | i in db.blobs && j in db.blobs && db.blobs[i].sha256 == db.blobs[j].sha256 :: i == j)
  }

  /** u is the upload a row of the join was made from. */
  predicate ViewIs(codec: Codec, view: RowView, u: Upload) {
    && view.blob == RowOf(codec, u.content)
    && view.altOutputId == AltOutputId(codec, u)
  }

  ghost predicate ViewFrom(codec: Codec, uploads: set<Upload>, actionId: string, view: RowView) {
    exists u :: u in uploads && u.actionId == actionId && ViewIs(codec, view, u)
  }

  /** Every action row refers to a blob row, and the two together to one upload to that action. */
  ghost predicate ActionsOk(codec: Codec, uploads: set<Upload>, db: Db) {
    forall a | a in db.actions ::
      && db.actions[a].blobId in db.blobs
      && ViewFrom(codec, uploads, a, Query(db, a).value)
  }

  /** The all-zero hash of a deleted blob's empty SHA256 names no file. */
  lemma NoFileHasZeroHash(codec: Codec, contents: set<Bytes>, files: map<DiskPath, Bytes>)
    requires Sound(codec, contents) && FilesOk(codec, contents, files)
    ensures Plain(ZeroHash()) !in files && Lz4(ZeroHash()) !in files
  {
    forall p | p in files
      ensures p.hash != ZeroHash()
    {
      var c :| c in contents && OnDisk(c) && p == FileOf(codec, c) && files[p] == FileBytes(codec, c);
    }
  }

  // ---- What a response says ----

  /** The bytes a client ends up with. */
  function Decoded(codec: Codec, r: Response): Bytes
    requires r.Ok?
  {
    if r.lz4Encoded then codec.decompress(r.body) else r.body
  }

  /** r answers a GET with exactly the output ID and content of u, in headers that tell the truth. A client
      that accepts lz4 gets content from 1026 bytes on in its compressed form, and any other as it is. */
  predicate Faithful(codec: Codec, u: Upload, acceptsLz4: bool, r: Response) {
    && r.Ok?
    && r.outputId == u.outputId
    && Decoded(codec, r) == u.content
    && r.contentLength == |r.body|
    && (r.lz4Encoded <==> acceptsLz4 && |u.content| >= 1026)
    && r.body == (if r.lz4Encoded then codec.compress(u.content) else u.content)
    && r.uncompressedLength == (if r.lz4Encoded then Some(|u.content|) else None)
  }

  /** Whatever the files: a response for a row of u is either faithful to u or a miss, and it is
      a miss exactly when the content lives on disk and its file is gone or has the same length. */
  lemma RespondIsFaithful(codec: Codec, contents: set<Bytes>, u: Upload, view: RowView,
                          files: map<DiskPath, Bytes>, acceptsLz4: bool)
    requires Sound(codec, contents) && u.content in contents && u.outputId != ""
    requires ViewIs(codec, view, u) && FilesOk(codec, contents, files)
    ensures var r := Respond(codec, view, files, acceptsLz4);
            if OnDisk(u.content) && (FileOf(codec, u.content) !in files || SameLength(codec, u.content))
            then r == NotFound
            else Faithful(codec, u, acceptsLz4, r)
  {
    if OnDisk(u.content) {
      var path := PathToOpen(view.blob);
      if path in files {
        var c :| c in contents && OnDisk(c) && path == FileOf(codec, c) && files[path] == FileBytes(codec, c);
        assert c == u.content;
      }
    }
  }

  // ---- The atomic steps keep the invariants ----

  lemma WriteFileKeeps(codec: Codec, contents: set<Bytes>, db: Db, content: Bytes)
    requires FilesOk(codec, contents, db.files) && content in contents
    ensures FilesOk(codec, contents, WriteFile(codec, db, content).files)
  {
    if OnDisk(content) {
      assert IsStored(codec, contents, FileOf(codec, content), FileBytes(codec, content));
    }
  }

  /** The upsert ends with one row for the content, whose stored form it is, and touches no other row. */
  lemma UpsertBlobRow(codec: Codec, contents: set<Bytes>, db: Db, content: Bytes, newId: nat)
    requires Sound(codec, contents) && content in contents && newId >= db.nextBlobId
    requires BlobsOk(codec, contents, db)
    ensures var db' := UpsertBlob(codec, db, content, newId);
            var id := UpsertedId(codec, db, content, newId);
            && id in db'.blobs && db'.blobs[id] == RowOf(codec, content)
            && (forall i | i in db.blobs :: i in db'.blobs && db'.blobs[i] == db.blobs[i])
            && db'.blobs.Keys == db.blobs.Keys + {id}
  {
    if HasBlob(db, codec.sha256(content)) {
      var id := BlobIdOf(db.blobs, codec.sha256(content));
      assert IsRow(codec, contents, db.blobs[id]);
      var c :| c in contents && db.blobs[id] == RowOf(codec, c);
      assert c == content;
    } else {
      assert newId !in db.blobs;
    }
  }

  lemma UpsertBlobKeepsBlobs(codec: Codec, contents: set<Bytes>, db: Db, content: Bytes, newId: nat)
    requires content in contents && newId >= db.nextBlobId && BlobsOk(codec, contents, db)
    ensures BlobsOk(codec, contents, UpsertBlob(codec, db, content, newId))
  {
    if !HasBlob(db, codec.sha256(content)) {
      assert IsRow(codec, contents, RowOf(codec, content));
    }
  }

  /** Adding blob rows leaves every joined row as it was. */
  lemma MoreBlobsKeepActions(codec: Codec, uploads: set<Upload>, db: Db, db': Db)
    requires ActionsOk(codec, uploads, db) && db'.actions == db.actions
    requires forall i | i in db.blobs :: i in db'.blobs && db'.blobs[i] == db.blobs[i]
    ensures ActionsOk(codec, uploads, db')
  {
    forall a | a in db'.actions
      ensures db'.actions[a].blobId in db'.blobs && ViewFrom(codec, uploads, a, Query(db', a).value)
    {
      assert Query(db', a) == Query(db, a);
    }
  }

  lemma InsertActionKeeps(codec: Codec, contents: set<Bytes>, uploads: set<Upload>, db: Db, u: Upload, blobId: nat,
                          now: int)
    requires BlobsOk(codec, contents, db) && ActionsOk(codec, uploads, db)
    requires blobId in db.blobs && db.blobs[blobId] == RowOf(codec, u.content)
    ensures BlobsOk(codec, contents, InsertAction(codec, db, u, blobId, now))
    ensures ActionsOk(codec, uploads + (if u.actionId in db.actions then {} else {u}),
                      InsertAction(codec, db, u, blobId, now))
  {
    var db' := InsertAction(codec, db, u, blobId, now);
    var uploads' := uploads + (if u.actionId in db.actions then {} else {u});
    forall a | a in db'.actions
      ensures db'.actions[a].blobId in db'.blobs && ViewFrom(codec, uploads', a, Query(db', a).value)
    {
      if a in db.actions {
        assert Query(db', a) == Query(db, a);
        ViewFromGrows(codec, uploads, uploads', a, Query(db, a).value);
      } else {
        assert u in uploads' && ViewIs(codec, Query(db', a).value, u);
      }
    }
  }

  /** The row a PUT inserts: created and accessed now, and told apart from its blob only if it has to be. */
  lemma InsertedRow(codec: Codec, db: Db, u: Upload, blobId: nat, now: int)
    requires u.actionId !in db.actions
    ensures var db' := InsertAction(codec, db, u, blobId, now);
            && db' == db.(actions := db'.actions) && db'.actions.Keys == db.actions.Keys + {u.actionId}
            && (forall a | a in db.actions :: db'.actions[a] == db.actions[a])
            && var row := db'.actions[u.actionId];
               && row.blobId == blobId && row.createTime == row.accessTime == now
               && (row.altOutputId == "" <==> u.outputId == "" || u.outputId == codec.sha256(u.content))
  {
  }

  lemma ViewFromGrows(codec: Codec, uploads: set<Upload>, more: set<Upload>, actionId: string, view: RowView)
    requires ViewFrom(codec, uploads, actionId, view) && uploads <= more
    ensures ViewFrom(codec, more, actionId, view)
  {
    var u :| u in uploads && u.actionId == actionId && ViewIs(codec, view, u);
    assert u in more;
  }

  /** Deleting blob rows together with all their actions leaves no action behind without a blob. */
  lemma RemoveRowsKeeps(codec: Codec, contents: set<Bytes>, uploads: set<Upload>, db: Db, ids: set<nat>)
    requires BlobsOk(codec, contents, db) && ActionsOk(codec, uploads, db)
    ensures BlobsOk(codec, contents, RemoveRows(db, ids)) && ActionsOk(codec, uploads, RemoveRows(db, ids))
  {
    var db' := RemoveRows(db, ids);
    forall a | a in db'.actions
      ensures db'.actions[a].blobId in db'.blobs && ViewFrom(codec, uploads, a, Query(db', a).value)
    {
      assert Query(db', a) == Query(db, a);
    }
  }

  function SetAccessTime(db: Db, actionId: string, time: int): Db
    requires actionId in db.actions
  {
    db.(actions := db.actions[actionId := db.actions[actionId].(accessTime := time)])
  }

  lemma SetAccessTimeKeeps(codec: Codec, uploads: set<Upload>, db: Db, actionId: string, time: int)
    requires ActionsOk(codec, uploads, db) && actionId in db.actions
    ensures ActionsOk(codec, uploads, SetAccessTime(db, actionId, time))
  {
    var db' := SetAccessTime(db, actionId, time);
    forall a | a in db'.actions
      ensures db'.actions[a].blobId in db'.blobs && ViewFrom(codec, uploads, a, Query(db', a).value)
    {
      var u :| u in uploads && u.actionId == a && ViewIs(codec, Query(db, a).value, u);
      assert ViewIs(codec, Query(db', a).value, u);
    }
  }
}
