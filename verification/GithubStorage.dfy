/** Keyed storage on a repository: one blob file per key and one shared index file, which
    together should behave as a single map. */
module GithubStorage {
  import opened Outcomes
  import opened Text
  import opened GithubRepo

  type Files = map<Path, File>

  datatype Blob = Blob(bytes: Bytes, contentType: Option<Str>, modifiedAt: int)

  datatype Op =
    | Put(key: Str, bytes: Bytes, contentType: Option<Str>, now: int)
    | Get(key: Str)
    | Delete(key: Str)
    | List(prefix: Str)
    | Stats

  datatype Row = Row(key: Str, size: nat, modifiedAt: int)

  datatype Reply =
    | Saved(key: Str, size: nat, etag: Bytes)
    | Found(blob: Option<Blob>)
    | Removed(existed: bool)
    | Listing(rows: seq<Row>)
    | Totals(fileCount: nat, totalBytes: nat)
    | Invalid
    | TooLarge(blobWritten: bool)

  const RAW_FILE_BYTES_LIMIT: nat := 748982     // floor(MAX_FILE_BYTES / 1.4)

  predicate UnsafeKey(key: Str) {
    key == [] || key == Ascii("__proto__") || key == Ascii("constructor") || key == Ascii("prototype")
  }

  function BlobAt(key: Str): Path {
    BlobPath(Sha256(key))
  }

  function Describe(bytes: Bytes, contentType: Option<Str>, now: int): Meta {
    Meta(|bytes|, contentType, bytes, now)
  }

  function Index(files: Files): map<Str, Meta> {
    if IndexPath in files && files[IndexPath].IndexDoc? then files[IndexPath].entries else map[]
  }

  // ---------- what each operation does to the files ----------

  type JsonSize = File -> nat

  function AfterPut(size: JsonSize, files: Files, key: Str, bytes: Bytes, contentType: Option<Str>, now: int): (Files, Reply) {
    var meta := Describe(bytes, contentType, now);
    var doc := BlobDoc(key, meta, bytes);
    if UnsafeKey(key) || |bytes| > RAW_FILE_BYTES_LIMIT then (files, Invalid)
    else if size(doc) > MAX_FILE_BYTES then (files, TooLarge(false))
    else
      var stored := files[BlobAt(key) := doc];
      var index := IndexDoc(Index(stored)[key := meta]);
      if size(index) > MAX_FILE_BYTES then (stored, TooLarge(true))
      else (stored[IndexPath := index], Saved(key, |bytes|, meta.etag))
  }

  function AfterGet(files: Files, key: Str): Reply {
    if UnsafeKey(key) then Invalid
    else if BlobAt(key) in files && files[BlobAt(key)].BlobDoc? then
      var doc := files[BlobAt(key)];
      Found(Some(Blob(doc.bytes, doc.meta.contentType, doc.meta.modifiedAt)))
    else Found(None)
  }

  function AfterDelete(size: JsonSize, files: Files, key: Str): (Files, Reply) {
    if UnsafeKey(key) then (files, Invalid)
    else if BlobAt(key) !in files then (files, Removed(false))
    else
      var stored := files - {BlobAt(key)};
      if key !in Index(stored) then (stored, Removed(true))
      else
        var index := IndexDoc(Index(stored) - {key});
        if size(index) > MAX_FILE_BYTES then (stored, TooLarge(true))
        else (stored[IndexPath := index], Removed(true))
  }

  function RowOf(m: map<Str, Meta>, key: Str): Row {
    if key in m then Row(key, m[key].size, m[key].modifiedAt) else Row(key, 0, 0)
  }

  function Matching<V>(m: map<Str, V>, prefix: Str): set<Str> {
    set k | k in m && prefix <= k
  }

  predicate Ascending(rows: seq<Row>) {
    forall i, j | 0 <= i < j < |rows| :: Less(rows[i].key, rows[j].key)
  }

  // A listing: keys strictly ascending, so each once; a row for every live key with the prefix
  // and for nothing else; and with each key its size and time.
  predicate Lists(rows: seq<Row>, m: map<Str, Meta>, prefix: Str) {
    && Ascending(rows)
    && (forall row | row in rows ::
          row.key in m && prefix <= row.key && row.size == m[row.key].size && row.modifiedAt == m[row.key].modifiedAt)
    && (forall key | key in m && prefix <= key :: exists row | row in rows :: row.key == key)
  }

  lemma RowsAreListed(m: map<Str, Meta>, prefix: Str, keys: seq<Str>, rows: seq<Row>)
    requires Sorted(keys) && forall k :: k in keys <==> k in Matching(m, prefix)
    requires |rows| == |keys| && forall i | 0 <= i < |rows| :: rows[i] == RowOf(m, keys[i])
    ensures Lists(rows, m, prefix)
  {
    assert forall i | 0 <= i < |rows| :: keys[i] in keys && rows[i].key == keys[i];
    forall key | key in m && prefix <= key
      ensures exists row | row in rows :: row.key == key
    {
      assert key in keys;
      var i :| 0 <= i < |keys| && keys[i] == key;
      assert rows[i] in rows;
    }
  }

  ghost function Rows(m: map<Str, Meta>, prefix: Str): (rows: seq<Row>)
    ensures Lists(rows, m, prefix)
  {
    var keys := SortedKeys(Matching(m, prefix));
    var rows := seq(|keys|, i requires 0 <= i < |keys| => RowOf(m, keys[i]));
    RowsAreListed(m, prefix, keys, rows);
    rows
  }

  lemma RowIsOf(rows: seq<Row>, m: map<Str, Meta>, prefix: Str, row: Row)
    requires Lists(rows, m, prefix) && row in rows
    ensures row == RowOf(m, row.key)
  {
  }

  // There is only one listing.
  lemma {:induction false} ListingIsUnique(a: seq<Row>, b: seq<Row>, m: map<Str, Meta>, prefix: Str)
    requires Lists(a, m, prefix) && Lists(b, m, prefix)
    ensures a == b
  {
    var ka, kb := seq(|a|, i requires 0 <= i < |a| => a[i].key), seq(|b|, i requires 0 <= i < |b| => b[i].key);
    forall k
      ensures k in ka <==> k in kb
    {
      KeysAreLive(a, ka, m, prefix, k);
      KeysAreLive(b, kb, m, prefix, k);
    }
    SortedIsUnique(ka, kb);
    forall i | 0 <= i < |a|
      ensures a[i] == b[i]
    {
      assert a[i] in a && b[i] in b && ka[i] == kb[i];
      RowIsOf(a, m, prefix, a[i]);
      RowIsOf(b, m, prefix, b[i]);
    }
  }

  lemma KeysAreLive(rows: seq<Row>, keys: seq<Str>, m: map<Str, Meta>, prefix: Str, k: Str)
    requires Lists(rows, m, prefix) && |keys| == |rows| && forall i | 0 <= i < |rows| :: keys[i] == rows[i].key
    ensures k in keys <==> k in m && prefix <= k
  {
    if k in keys {
      var i :| 0 <= i < |keys| && keys[i] == k;
      assert rows[i] in rows;
    }
    if k in m && prefix <= k {
      var row :| row in rows && row.key == k;
      var i :| 0 <= i < |rows| && rows[i] == row;
      assert keys[i] == k;
    }
  }

  ghost function TotalSize(m: map<Str, Meta>): nat {
    if m == map[] then 0
    else
      var k :| k in m;
      m[k].size + TotalSize(m - {k})
  }

  ghost function Serve(size: JsonSize, files: Files, op: Op): (Files, Reply) {
    match op
    case Put(key, bytes, contentType, now) => AfterPut(size, files, key, bytes, contentType, now)
    case Get(key) => (files, AfterGet(files, key))
    case Delete(key) => AfterDelete(size, files, key)
    case List(prefix) => (files, Listing(Rows(Index(files), prefix)))
    case Stats => (files, Totals(|Index(files)|, TotalSize(Index(files))))
  }

  // ---------- the plain map this should behave as ----------

  type Store = map<Str, Blob>

  // A key an index kept as a JavaScript object can hold.
  predicate Accepts(key: Str) {
    key != [] && forall name | name in {"__proto__", "constructor", "prototype"} :: key != Ascii(name)
  }

  // Raw bytes that still fit into a file once they are base64 inside JSON: 1.4 times as many.
  predicate Fits(bytes: Bytes) {
    14 * |bytes| <= 10 * MAX_FILE_BYTES
  }

  predicate ListsStore(rows: seq<Row>, store: Store, prefix: Str) {
    && (forall i, j | 0 <= i < j < |rows| :: Less(rows[i].key, rows[j].key))
    && (forall row | row in rows ::
          && row.key in store && prefix <= row.key
          && row.size == |store[row.key].bytes| && row.modifiedAt == store[row.key].modifiedAt)
    && (forall key | key in store && prefix <= key :: exists row | row in rows :: row.key == key)
  }

  ghost function StoredBytes(store: Store): nat {
    if store == map[] then 0
    else
      var k :| k in store;
      |store[k].bytes| + StoredBytes(store - {k})
  }

  function MapAfter(store: Store, op: Op): Store {
    match op
    case Put(key, bytes, contentType, now) =>
      if Accepts(key) && Fits(bytes) then store[key := Blob(bytes, contentType, now)] else store
    case Delete(key) => store - {key}
    case _ => store
  }

  // What a plain map of keys to blobs would reply; an etag stands for the digest of the bytes.
  ghost predicate Answers(store: Store, op: Op, reply: Reply) {
    match op
    case Put(key, bytes, _, _) => reply == if Accepts(key) && Fits(bytes) then Saved(key, |bytes|, bytes) else Invalid
    case Get(key) =>
      reply == if !Accepts(key) then Invalid else Found(if key in store then Some(store[key]) else None)
    case Delete(key) => reply == if Accepts(key) then Removed(key in store) else Invalid
    case List(prefix) => reply.Listing? && ListsStore(reply.rows, store, prefix)
    case Stats => reply == Totals(|store|, StoredBytes(store))
  }

  predicate Describes(meta: Meta, blob: Blob) {
    && meta.size == |blob.bytes| && meta.etag == blob.bytes
    && meta.contentType == blob.contentType && meta.modifiedAt == blob.modifiedAt
  }

  predicate HoldsBlob(file: File, key: Str, blob: Blob) {
    file.BlobDoc? && file.key == key && file.bytes == blob.bytes && Describes(file.meta, blob)
  }

  ghost predicate IndexIsOf(index: map<Str, Meta>, store: Store) {
    index.Keys == store.Keys && forall key | key in store :: Describes(index[key], store[key])
  }

  // Blob files and index entries are exactly the map's keys, with the map's values; no unusable key
  // is among them.
  ghost predicate Refines(files: Files, store: Store) {
    && (forall key: Str :: BlobAt(key) in files <==> key in store)
    && (forall key | key in store :: HoldsBlob(files[BlobAt(key)], key, store[key]))
    && (forall key | key in store :: Accepts(key))
    && IndexIsOf(Index(files), store)
    && (IndexPath in files ==> files[IndexPath].IndexDoc?)
  }

  lemma AcceptedAre(key: Str, bytes: Bytes)
    ensures Accepts(key) <==> !UnsafeKey(key)
    ensures Fits(bytes) <==> |bytes| <= RAW_FILE_BYTES_LIMIT
  {
    assert "__proto__" in {"__proto__", "constructor", "prototype"};
    assert "constructor" in {"__proto__", "constructor", "prototype"};
    assert "prototype" in {"__proto__", "constructor", "prototype"};
  }

  // The two writes of a put, together.
  lemma BothWritesRefine(files: Files, store: Store, key: Str, blob: Blob, doc: File)
    requires Refines(files, store) && Accepts(key) && HoldsBlob(doc, key, blob)
    ensures Refines(files[BlobAt(key) := doc][IndexPath := IndexDoc(Index(files)[key := doc.meta])], store[key := blob])
  {
    assert forall k: Str :: BlobAt(k) == BlobAt(key) <==> k == key;
  }

  lemma PutRefines(size: JsonSize, files: Files, store: Store, key: Str, bytes: Bytes, contentType: Option<Str>, now: int)
    requires Refines(files, store)
    ensures var (after, reply) := AfterPut(size, files, key, bytes, contentType, now);
      !reply.TooLarge? ==>
        && Answers(store, Put(key, bytes, contentType, now), reply)
        && Refines(after, MapAfter(store, Put(key, bytes, contentType, now)))
  {
    AcceptedAre(key, bytes);
    if Accepts(key) {
      var doc := BlobDoc(key, Describe(bytes, contentType, now), bytes);
      assert Index(files[BlobAt(key) := doc]) == Index(files);
      BothWritesRefine(files, store, key, Blob(bytes, contentType, now), doc);
    }
  }

  lemma DeleteRefines(size: JsonSize, files: Files, store: Store, key: Str)
    requires Refines(files, store)
    ensures var (after, reply) := AfterDelete(size, files, key);
      !reply.TooLarge? ==> Answers(store, Delete(key), reply) && Refines(after, store - {key})
  {
    AcceptedAre(key, []);
    assert key !in store ==> store - {key} == store;
  }

  lemma ListIsOfStore(rows: seq<Row>, m: map<Str, Meta>, store: Store, prefix: Str)
    requires IndexIsOf(m, store) && Lists(rows, m, prefix)
    ensures ListsStore(rows, store, prefix)
  {
  }

  lemma {:induction false} SizesAre(m: map<Str, Meta>, store: Store)
    requires IndexIsOf(m, store)
    ensures TotalSize(m) == StoredBytes(store)
    decreases |store|
  {
    if store != map[] {
      var k :| k in store && StoredBytes(store) == |store[k].bytes| + StoredBytes(store - {k});
      assert k in m;
      TotalSizeAt(m, k);
      SizesAre(m - {k}, store - {k});
    } else {
      assert m == map[];
    }
  }

  lemma CountsAre(m: map<Str, Meta>, store: Store)
    requires m.Keys == store.Keys
    ensures |m| == |store|
  {
    assert |m| == |m.Keys| && |store| == |store.Keys|;
  }

  lemma ServeRefines(size: JsonSize, files: Files, store: Store, op: Op)
    requires Refines(files, store)
    ensures var (after, reply) := Serve(size, files, op);
      !reply.TooLarge? ==> Answers(store, op, reply) && Refines(after, MapAfter(store, op))
  {
    match op
    case Put(key, bytes, contentType, now) => PutRefines(size, files, store, key, bytes, contentType, now);
    case Get(key) => AcceptedAre(key, []);
    case Delete(key) => DeleteRefines(size, files, store, key);
    case List(prefix) => ListIsOfStore(Rows(Index(files), prefix), Index(files), store, prefix);
    case Stats =>
      CountsAre(Index(files), store);
      SizesAre(Index(files), store);
  }

  ghost function ServeAll(size: JsonSize, files: Files, ops: seq<Op>): (Files, seq<Reply>)
    decreases |ops|
  {
    if ops == [] then (files, [])
    else
      var (after, reply) := Serve(size, files, ops[0]);
      var (last, replies) := ServeAll(size, after, ops[1..]);
      (last, [reply] + replies)
  }

  function MapAfterAll(store: Store, ops: seq<Op>): Store
    decreases |ops|
  {
    if ops == [] then store else MapAfterAll(MapAfter(store, ops[0]), ops[1..])
  }

  ghost predicate AllAnswer(store: Store, ops: seq<Op>, replies: seq<Reply>)
    decreases |ops|
  {
    && |replies| == |ops|
    && (ops != [] ==> Answers(store, ops[0], replies[0]) && AllAnswer(MapAfter(store, ops[0]), ops[1..], replies[1..]))
  }

  // Over any sequence of operations none of which hits the file size ceiling, every reply is what
  // the plain map would reply and the files still are that map.
  lemma {:induction false} StorageIsAMap(size: JsonSize, files: Files, store: Store, ops: seq<Op>)
    requires Refines(files, store)
    requires forall reply | reply in ServeAll(size, files, ops).1 :: !reply.TooLarge?
    ensures AllAnswer(store, ops, ServeAll(size, files, ops).1)
    ensures Refines(ServeAll(size, files, ops).0, MapAfterAll(store, ops))
    decreases |ops|
  {
    if ops != [] {
      var (after, reply) := Serve(size, files, ops[0]);
      var (last, replies) := ServeAll(size, after, ops[1..]);
      assert reply in ServeAll(size, files, ops).1;
      assert forall r | r in replies :: r in ServeAll(size, files, ops).1;
      assert ([reply] + replies)[1..] == replies;
      ServeRefines(size, files, store, ops[0]);
      StorageIsAMap(size, after, MapAfter(store, ops[0]), ops[1..]);
    }
  }

  // ---------- operations cut short between their two writes ----------

  // A key in the index without its blob: what a delete leaves when it is interrupted.
  ghost predicate Dangling(files: Files, key: Str) {
    BlobAt(key) !in files && key in Index(files)
  }

  // It is what a delete of a live key leaves when it stops after its first write.
  lemma InterruptedDeleteDangles(files: Files, store: Store, key: Str)
    requires Refines(files, store) && key in store
    ensures Dangling(files - {BlobAt(key)}, key)
  {
  }

  // A delete that completes clears its key from the index exactly when the key was not dangling:
  // it looks at the blob alone.
  lemma DeleteClearsIff(size: JsonSize, files: Files, key: Str)
    ensures var (after, reply) := AfterDelete(size, files, key);
      reply.Removed? ==> (key !in Index(after) <==> !Dangling(files, key))
  {
  }

  // Whether an operation gets the key's blob written, from the operation alone.
  predicate WritesBlob(size: JsonSize, op: Op, key: Str) {
    && op.Put? && op.key == key && !UnsafeKey(key) && |op.bytes| <= RAW_FILE_BYTES_LIMIT
    && size(BlobDoc(key, Describe(op.bytes, op.contentType, op.now), op.bytes)) <= MAX_FILE_BYTES
  }

  lemma DanglingStep(size: JsonSize, files: Files, key: Str, op: Op)
    requires Dangling(files, key)
    ensures Dangling(Serve(size, files, op).0, key) <==> !WritesBlob(size, op, key)
  {
  }

  ghost predicate DanglingThroughout(size: JsonSize, files: Files, key: Str, ops: seq<Op>)
    decreases |ops|
  {
    Dangling(files, key) && (ops != [] ==> DanglingThroughout(size, Serve(size, files, ops[0]).0, key, ops[1..]))
  }

  // Through any operations, deletes of the key among them, a dangling key stays in the index and
  // without its blob exactly as long as no put of it gets its blob written.
  lemma {:induction false} DanglingUntilPut(size: JsonSize, files: Files, key: Str, ops: seq<Op>)
    requires Dangling(files, key)
    ensures DanglingThroughout(size, files, key, ops) <==> forall op | op in ops :: !WritesBlob(size, op, key)
    decreases |ops|
  {
    if ops != [] {
      assert ops == [ops[0]] + ops[1..];
      DanglingStep(size, files, key, ops[0]);
      if !WritesBlob(size, ops[0], key) {
        DanglingUntilPut(size, Serve(size, files, ops[0]).0, key, ops[1..]);
      }
    }
  }

  lemma NotDanglingStep(size: JsonSize, files: Files, key: Str, op: Op)
    requires !Dangling(files, key) && !Serve(size, files, op).1.TooLarge?
    ensures !Dangling(Serve(size, files, op).0, key)
  {
  }

  // And it is still dangling after operations that meet no size ceiling exactly when none of them
  // wrote its blob: once cleared it never dangles again.
  lemma {:induction false} StillDanglingIff(size: JsonSize, files: Files, key: Str, ops: seq<Op>)
    requires forall reply | reply in ServeAll(size, files, ops).1 :: !reply.TooLarge?
    ensures Dangling(ServeAll(size, files, ops).0, key) <==>
            Dangling(files, key) && forall op | op in ops :: !WritesBlob(size, op, key)
    decreases |ops|
  {
    if ops != [] {
      var (after, reply) := Serve(size, files, ops[0]);
      var (last, replies) := ServeAll(size, after, ops[1..]);
      assert reply in ServeAll(size, files, ops).1;
      assert forall r | r in replies :: r in ServeAll(size, files, ops).1;
      assert ops == [ops[0]] + ops[1..];
      StillDanglingIff(size, after, key, ops[1..]);
      if Dangling(files, key) {
        DanglingStep(size, files, key, ops[0]);
      } else {
        NotDanglingStep(size, files, key, ops[0]);
      }
    }
  }

  // A completed put brings blob and index together on its key, whatever was there, and a
  // delete after it clears both.
  lemma PutThenDeleteClears(size: JsonSize, files: Files, key: Str, bytes: Bytes, contentType: Option<Str>, now: int)
    ensures var (mid, put) := AfterPut(size, files, key, bytes, contentType, now);
      var (after, deleted) := AfterDelete(size, mid, key);
      && (put.Saved? ==> BlobAt(key) in mid && mid[BlobAt(key)] == BlobDoc(key, Index(mid)[key], bytes))
      && (put.Saved? && deleted.Removed? ==> deleted.existed && BlobAt(key) !in after && key !in Index(after))
  {
  }

  // ---------- the operations themselves ----------

  const RETRIES: nat := 6

  function AddEntry(key: Str, meta: Meta): Mutate {
    (current: Option<File>) =>
      Some(IndexDoc((if current.Some? && current.value.IndexDoc? then current.value.entries else map[])[key := meta]))
  }

  function DropEntry(key: Str): Mutate {
    (current: Option<File>) =>
      if current.None? || !current.value.IndexDoc? || key !in current.value.entries then None
      else Some(IndexDoc(current.value.entries - {key}))
  }

  method StoragePut(repo: Repo, key: Str, bytes: Bytes, contentType: Option<Str>, now: int) returns (reply: Reply)
    modifies repo
    ensures (repo.files, reply) == AfterPut(repo.jsonSize, old(repo.files), key, bytes, contentType, now)
  {
    if UnsafeKey(key) || |bytes| > RAW_FILE_BYTES_LIMIT {
      return Invalid;
    }
    var meta := Describe(bytes, contentType, now);
    var existing := repo.GetFileRaw(BlobAt(key), None);
    var sha := if existing.value.None? then None else Some(existing.value.value.1);
    var put := repo.PutFileRaw(BlobAt(key), BlobDoc(key, meta, bytes), sha, None);
    if put.Broke? {
      return TooLarge(false);
    }
    ghost var stored := repo.files;
    var index, _ := repo.UpsertJson(IndexPath, AddEntry(key, meta), RETRIES, []);
    if index.Broke? {
      return TooLarge(true);
    }
    assert repo.files == stored[IndexPath := IndexDoc(Index(stored)[key := meta])];
    return Saved(key, |bytes|, meta.etag);
  }

  method StorageGet(repo: Repo, key: Str) returns (reply: Reply)
    ensures reply == AfterGet(repo.files, key)
  {
    if UnsafeKey(key) {
      return Invalid;
    }
    var existing := repo.GetFileRaw(BlobAt(key), None);
    if existing.value.None? || !existing.value.value.0.BlobDoc? {
      return Found(None);
    }
    var doc := existing.value.value.0;
    return Found(Some(Blob(doc.bytes, doc.meta.contentType, doc.meta.modifiedAt)));
  }

  method StorageDelete(repo: Repo, key: Str) returns (reply: Reply)
    modifies repo
    ensures (repo.files, reply) == AfterDelete(repo.jsonSize, old(repo.files), key)
  {
    if UnsafeKey(key) {
      return Invalid;
    }
    var existing := repo.GetFileRaw(BlobAt(key), None);
    if existing.value.None? {
      return Removed(false);
    }
    var _ := repo.DeleteFileRaw(BlobAt(key), Some(existing.value.value.1), None);
    ghost var stored := repo.files;
    var index, _ := repo.UpsertJson(IndexPath, DropEntry(key), RETRIES, []);
    if index.Broke? {
      return TooLarge(true);
    }
    assert repo.files == if key in Index(stored) then stored[IndexPath := IndexDoc(Index(stored) - {key})] else stored;
    return Removed(true);
  }

  method StorageList(repo: Repo, prefix: Str) returns (rows: seq<Row>)
    ensures rows == Rows(Index(repo.files), prefix)
  {
    var index := Index(repo.files);
    var todo := Matching(index, prefix);
    var keys: seq<Str> := [];
    while todo != {}
      invariant Sorted(keys)
      invariant forall k :: k in keys || k in todo <==> k in Matching(index, prefix)
      invariant forall k | k in todo :: k !in keys
    {
      var k :| k in todo;
      todo := todo - {k};
      keys := Insert(keys, k);
    }
    SortedIsUnique(keys, SortedKeys(Matching(index, prefix)));
    rows := [];
    while |rows| < |keys|
      invariant |rows| <= |keys| && forall i | 0 <= i < |rows| :: rows[i] == RowOf(index, keys[i])
    {
      rows := rows + [RowOf(index, keys[|rows|])];
    }
    assert rows == Rows(index, prefix);
  }

  // Insertion into a sorted sequence.
  function Insert(keys: seq<Str>, key: Str): (r: seq<Str>)
    requires Sorted(keys) && key !in keys
    ensures Sorted(r)
    ensures forall k :: k in r <==> k in keys || k == key
  {
    if keys == [] then [key]
    else
      LessIsStrict(key, keys[0]);
      if Less(key, keys[0]) then
        assert forall j | 0 <= j < |keys| :: Less(key, keys[j]) by {
          forall j | 0 < j < |keys| ensures Less(key, keys[j]) {
            LessIsTransitive(key, keys[0], keys[j]);
          }
        }
        [key] + keys
      else
        var rest := Insert(keys[1..], key);
        assert forall j | 0 <= j < |rest| :: Less(keys[0], rest[j]) by {
          forall j | 0 <= j < |rest| ensures Less(keys[0], rest[j]) {
            assert rest[j] in rest;
          }
        }
        [keys[0]] + rest
  }

  lemma {:induction false} TotalSizeAt(m: map<Str, Meta>, key: Str)
    requires key in m
    ensures TotalSize(m) == m[key].size + TotalSize(m - {key})
    decreases |m|
  {
    var k :| k in m && TotalSize(m) == m[k].size + TotalSize(m - {k});
    if k != key {
      TotalSizeAt(m - {k}, key);
      TotalSizeAt(m - {key}, k);
      assert m - {k} - {key} == m - {key} - {k};
    }
  }

  method GetStats(repo: Repo) returns (fileCount: nat, totalBytes: nat, userCount: nat)
    ensures fileCount == |Index(repo.files)| && totalBytes == TotalSize(Index(repo.files))
    ensures userCount == |set p | p in repo.files && p.UserPath?|
  {
    var index := Index(repo.files);
    userCount := |set p | p in repo.files && p.UserPath?|;
    fileCount, totalBytes := |index|, 0;
    var left := index;
    while left != map[]
      invariant totalBytes + TotalSize(left) == TotalSize(index)
      decreases |left|
    {
      var k :| k in left;
      TotalSizeAt(left, k);
      totalBytes := totalBytes + left[k].size;
      assert left == (left - {k})[k := left[k]];
      left := left - {k};
    }
  }
}
