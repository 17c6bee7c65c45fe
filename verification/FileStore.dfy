/** Files in the keyspace. Every file is a value node and a metadata node written in one
    transaction; the relation `Represents` ties the keyspace to the plain filesystem. */
module FileStore {
  import opened Text
  import opened Base64
  import opened Etcd
  import opened Paths
  import opened Names
  import opened FileSystem

  /** What all clients share: the key prefix, the hash function (SHA-1) and the lock timeout. */
  datatype Setup = Setup(prefix: Path, hash: Bytes -> Digest, timeout: Time) {
    function KeyPrefix(): string { Abs(prefix) }
    function ValueNode(q: Path): string { Node(prefix, q) }
    function MetaNode(q: Path): string { Node(prefix, MdPath(q)) }
    function LockNode(q: Path): string { Node(prefix, LockPath(q)) }
    predicate Valid() { Proper(prefix) }
  }

  type Locks = map<Path, Lock>

  function NewMetadata(c: Setup, key: string, data: Bytes, now: Time): Metadata {
    Metadata(key, |data|, now, c.hash(data), false)
  }

  function StoredMetadata(c: Setup, f: FileRec): Metadata {
    NewMetadata(c, f.path, f.data, f.stamp)
  }

  // --------------------------------------------------------- what the calls do

  /** The transaction of Store: both nodes at once. */
  function StoreKeys(c: Setup, kv: Keyspace, key: string, data: Bytes, md: Metadata): Keyspace {
    kv[StorageKey(c.KeyPrefix(), key) := File(Encode(data))]
      [MetadataKey(c.KeyPrefix(), key) := Meta(md)]
  }

  /** The transaction of Delete. */
  function DeleteKeys(c: Setup, kv: Keyspace, key: string): Keyspace {
    kv - {StorageKey(c.KeyPrefix(), key), MetadataKey(c.KeyPrefix(), key)}
  }

  datatype LoadResult = Loaded(data: Bytes) | LoadNotExist | LoadCorrupt | LoadNoValue | LoadFailedChecksum

  /** Load reads the metadata node in one state of the keyspace and the value node in another. */
  function LoadFrom(c: Setup, atMetadata: Keyspace, atValue: Keyspace, key: string): LoadResult {
    match Lookup(atMetadata, MetadataKey(c.KeyPrefix(), key))
    case None => LoadNotExist
    case Some(Meta(md)) =>
      (match Lookup(atValue, StorageKey(c.KeyPrefix(), key))
       case None => LoadNoValue
       case Some(File(text)) =>
         (match Decode(text)
          case None => LoadCorrupt
          case Some(data) => if c.hash(data) == md.hash then Loaded(data) else LoadFailedChecksum)
       case Some(_) => LoadCorrupt)
    case Some(_) => LoadCorrupt
  }

  datatype StatResult = Stat(md: Metadata) | StatNotExist | StatCorrupt

  /** The loop of Metadata over the children found; values that do not decode are skipped. */
  function Aggregate(kvs: seq<KeyValue>): Sum {
    if kvs == [] then ZERO
    else
      var before := Aggregate(kvs[..|kvs| - 1]);
      match kvs[|kvs| - 1].value
      case Meta(md) => before.Plus(Sum(md.size, md.timestamp))
      case _ => before
  }

  /** The directory branch: nothing found means there is no such path. */
  function DirectoryStat(key: string, children: seq<KeyValue>, now: Time): StatResult {
    if children == [] then StatNotExist
    else
      var sum := Aggregate(children);
      Stat(Metadata(key, sum.size, if sum.latest == 0 then now else sum.latest, ZERO_HASH, true))
  }

  /** Metadata reads the metadata node in one state of the keyspace and, if there is none, scans
      beneath it in another; `key` need not name a file. */
  function MetadataFrom(c: Setup, atNode: Keyspace, atScan: Keyspace, key: string, now: Time): StatResult {
    match Lookup(atNode, MetadataKey(c.KeyPrefix(), key))
    case Some(Meta(md)) => Stat(md.(path := key))
    case Some(_) => StatCorrupt
    case None => DirectoryStat(key, Range(atScan, MetadataKey(c.KeyPrefix(), key) + "/"), now)
  }

  function MetadataOf(c: Setup, kv: Keyspace, key: string, now: Time): StatResult {
    MetadataFrom(c, kv, kv, key, now)
  }

  // ----------------------------------------------------------- the representation

  ghost predicate FileNodes(c: Setup, kv: Keyspace, files: Files) {
    forall q | q in files ::
      && FilePath(q)
      && files[q].stamp > 0
      && Lookup(kv, c.ValueNode(q)) == Some(File(Encode(files[q].data)))
      && Lookup(kv, c.MetaNode(q)) == Some(Meta(StoredMetadata(c, files[q])))
  }

  ghost predicate LockNodes(c: Setup, kv: Keyspace, locks: Locks) {
    forall q | q in locks :: LockName(q) && Lookup(kv, c.LockNode(q)) == Some(Mutex(locks[q]))
  }

  /** A key of somebody else: not even a raw string extension of the key prefix. */
  predicate Foreign(c: Setup, k: string) {
    !(c.KeyPrefix() <= k)
  }

  ghost predicate Accounted(c: Setup, files: Files, locks: Locks, k: string) {
    || Foreign(c, k)
    || (exists q :: q in files && (k == c.ValueNode(q) || k == c.MetaNode(q)))
    || (exists q :: q in locks && k == c.LockNode(q))
  }

  /** The keyspace holds exactly two nodes per file, one per lock, and foreign keys. */
  ghost predicate Represents(c: Setup, kv: Keyspace, files: Files, locks: Locks) {
    && c.Valid()
    && FileNodes(c, kv, files)
    && LockNodes(c, kv, locks)
    && forall k | k in kv :: Accounted(c, files, locks, k)
  }

  lemma FilePathNodes(c: Setup, q: Path, r: Path)
    requires c.Valid() && FilePath(q) && Proper(r)
    ensures c.ValueNode(q) == c.ValueNode(r) <==> q == r
    ensures c.MetaNode(q) == c.MetaNode(r) <==> q == r
    ensures c.ValueNode(q) != c.MetaNode(r) && c.ValueNode(q) != c.LockNode(r)
    ensures c.MetaNode(q) != c.LockNode(r) && c.MetaNode(r) != c.LockNode(q)
    ensures !Foreign(c, c.ValueNode(q)) && !Foreign(c, c.MetaNode(q))
  {
    SeparateNodes(c.prefix, q, r);
    SeparateNodes(c.prefix, r, q);
    NodeUnderPrefix(c.prefix, q);
    NodeUnderPrefix(c.prefix, MdPath(q));
  }

  lemma LockNodesApart(c: Setup, q: Path, r: Path)
    requires c.Valid() && Proper(q) && Proper(r)
    ensures c.LockNode(q) == c.LockNode(r) <==> q == r
    ensures c.MetaNode(q) != c.LockNode(r)
    ensures FilePath(q) ==> c.ValueNode(q) != c.LockNode(r)
    ensures !Foreign(c, c.LockNode(q))
  {
    SeparateNodes(c.prefix, q, r);
    NodeUnderPrefix(c.prefix, LockPath(q));
  }

  /** A value node exists if and only if its metadata node does, and then both belong to the
      file: Size and Hash are those of the decoded value. */
  lemma NodesInStep(c: Setup, kv: Keyspace, files: Files, locks: Locks, q: Path)
    requires Represents(c, kv, files, locks) && FilePath(q)
    ensures c.ValueNode(q) in kv <==> q in files
    ensures c.MetaNode(q) in kv <==> q in files
    ensures q in files ==>
      && kv[c.ValueNode(q)].File? && kv[c.MetaNode(q)].Meta?
      && Decode(kv[c.ValueNode(q)].text) == Some(files[q].data)
      && kv[c.MetaNode(q)].md.size == |files[q].data|
      && kv[c.MetaNode(q)].md.hash == c.hash(files[q].data)
  {
    if q in files {
      DecodeEncode(files[q].data);
    } else {
      OnlyFilesHaveNodes(c, files, locks, q, kv);
    }
  }

  lemma OnlyFilesHaveNodes(c: Setup, files: Files, locks: Locks, q: Path, kv: Keyspace)
    requires Represents(c, kv, files, locks) && FilePath(q) && q !in files
    ensures c.ValueNode(q) !in kv && c.MetaNode(q) !in kv
  {
    forall r | r in files ensures c.ValueNode(q) != c.ValueNode(r) && c.ValueNode(q) != c.MetaNode(r)
        && c.MetaNode(q) != c.ValueNode(r) && c.MetaNode(q) != c.MetaNode(r) {
      FilePathNodes(c, q, r);
      FilePathNodes(c, r, q);
    }
    forall r | r in locks ensures c.ValueNode(q) != c.LockNode(r) && c.MetaNode(q) != c.LockNode(r) {
      FilePathNodes(c, q, r);
    }
    FilePathNodes(c, q, q);
  }

  lemma LockNodesInStep(c: Setup, kv: Keyspace, files: Files, locks: Locks, q: Path)
    requires Represents(c, kv, files, locks) && LockName(q)
    ensures c.LockNode(q) in kv <==> q in locks
    ensures q in locks ==> kv[c.LockNode(q)] == Mutex(locks[q])
  {
    if q !in locks && c.LockNode(q) in kv {
      assert Accounted(c, files, locks, c.LockNode(q));
      LockNodesApart(c, q, q);
      if r :| r in files && (c.LockNode(q) == c.ValueNode(r) || c.LockNode(q) == c.MetaNode(r)) {
        LockNodesApart(c, r, q);
      } else {
        var r :| r in locks && c.LockNode(q) == c.LockNode(r);
        LockNodesApart(c, q, r);
      }
    }
  }

  // ------------------------------------------------------------ steps refine it

  lemma StoreRefines(c: Setup, kv: Keyspace, files: Files, locks: Locks, key: string, f: FileRec)
    requires Represents(c, kv, files, locks)
    requires NoDotDot(key) && FilePath(Components(key)) && f.stamp > 0 && f.path == key
    ensures Represents(c, StoreKeys(c, kv, key, f.data, NewMetadata(c, key, f.data, f.stamp)),
                       files[Components(key) := f], locks)
  {
    NodesOfKey(c.prefix, key);
    StoreNodes(c, kv, files, locks, Components(key), f);
  }

  lemma StoreNodes(c: Setup, kv: Keyspace, files: Files, locks: Locks, q: Path, f: FileRec)
    requires Represents(c, kv, files, locks) && FilePath(q) && f.stamp > 0
    ensures Represents(c, kv[c.ValueNode(q) := File(Encode(f.data))][c.MetaNode(q) := Meta(StoredMetadata(c, f))],
                       files[q := f], locks)
  {
    var kv' := kv[c.ValueNode(q) := File(Encode(f.data))][c.MetaNode(q) := Meta(StoredMetadata(c, f))];
    FilePathNodes(c, q, q);
    forall r | r in files && r != q ensures Lookup(kv', c.ValueNode(r)) == Lookup(kv, c.ValueNode(r))
        && Lookup(kv', c.MetaNode(r)) == Lookup(kv, c.MetaNode(r)) {
      FilePathNodes(c, r, q);
      FilePathNodes(c, q, r);
    }
    assert FileNodes(c, kv', files[q := f]);
    forall r | r in locks ensures Lookup(kv', c.LockNode(r)) == Lookup(kv, c.LockNode(r)) {
      FilePathNodes(c, q, r);
    }
    assert LockNodes(c, kv', locks);
    forall k | k in kv' ensures Accounted(c, files[q := f], locks, k) {
      StoreAccounts(c, kv, files, locks, q, f, k);
    }
  }

  lemma StoreAccounts(c: Setup, kv: Keyspace, files: Files, locks: Locks, q: Path, f: FileRec, k: string)
    requires k == c.ValueNode(q) || k == c.MetaNode(q) || Accounted(c, files, locks, k)
    ensures Accounted(c, files[q := f], locks, k)
  {
    if k == c.ValueNode(q) || k == c.MetaNode(q) {
      assert q in files[q := f];
    } else {
      AccountedMonotone(c, files, files[q := f], locks, locks, k);
    }
  }

  lemma AccountedMonotone(c: Setup, files: Files, files': Files, locks: Locks, locks': Locks, k: string)
    requires Accounted(c, files, locks, k)
    requires files.Keys <= files'.Keys && locks.Keys <= locks'.Keys
    ensures Accounted(c, files', locks', k)
  {
    if q :| q in files && (k == c.ValueNode(q) || k == c.MetaNode(q)) {
      assert q in files';
    } else if q :| q in locks && k == c.LockNode(q) {
      assert q in locks';
    }
  }

  lemma DeleteRefines(c: Setup, kv: Keyspace, files: Files, locks: Locks, key: string)
    requires Represents(c, kv, files, locks)
    requires NoDotDot(key) && FilePath(Components(key))
    ensures Represents(c, DeleteKeys(c, kv, key), files - {Components(key)}, locks)
  {
    NodesOfKey(c.prefix, key);
    DeleteNodes(c, kv, files, locks, Components(key));
  }

  lemma DeleteNodes(c: Setup, kv: Keyspace, files: Files, locks: Locks, q: Path)
    requires Represents(c, kv, files, locks) && FilePath(q)
    ensures Represents(c, kv - {c.ValueNode(q), c.MetaNode(q)}, files - {q}, locks)
  {
    var v, m := c.ValueNode(q), c.MetaNode(q);
    var kv', files' := kv - {v, m}, files - {q};
    forall r | r in files' ensures Lookup(kv', c.ValueNode(r)) == Lookup(kv, c.ValueNode(r))
        && Lookup(kv', c.MetaNode(r)) == Lookup(kv, c.MetaNode(r)) {
      FilePathNodes(c, r, q);
      FilePathNodes(c, q, r);
      LookupWithout(kv, v, m, c.ValueNode(r));
      LookupWithout(kv, v, m, c.MetaNode(r));
    }
    assert FileNodes(c, kv', files');
    forall r | r in locks ensures Lookup(kv', c.LockNode(r)) == Lookup(kv, c.LockNode(r)) {
      FilePathNodes(c, q, r);
      LookupWithout(kv, v, m, c.LockNode(r));
    }
    assert LockNodes(c, kv', locks);
    NothingElseLeft(c, kv, files, locks, q);
  }

  lemma LookupWithout(kv: Keyspace, a: string, b: string, k: string)
    requires k != a && k != b
    ensures Lookup(kv - {a, b}, k) == Lookup(kv, k)
  {
  }

  lemma NothingElseLeft(c: Setup, kv: Keyspace, files: Files, locks: Locks, q: Path)
    requires forall k | k in kv :: Accounted(c, files, locks, k)
    ensures forall k | k in kv - {c.ValueNode(q), c.MetaNode(q)} :: Accounted(c, files - {q}, locks, k)
  {
    forall k | k in kv - {c.ValueNode(q), c.MetaNode(q)} ensures Accounted(c, files - {q}, locks, k) {
      AccountedWithout(c, files, locks, q, k);
    }
  }

  lemma AccountedWithout(c: Setup, files: Files, locks: Locks, q: Path, k: string)
    requires Accounted(c, files, locks, k) && k != c.ValueNode(q) && k != c.MetaNode(q)
    ensures Accounted(c, files - {q}, locks, k)
  {
    if r :| r in files && (k == c.ValueNode(r) || k == c.MetaNode(r)) {
      assert r in files - {q};
    }
  }

  lemma LockRefines(c: Setup, kv: Keyspace, files: Files, locks: Locks, q: Path, lock: Lock)
    requires Represents(c, kv, files, locks) && LockName(q)
    ensures Represents(c, kv[c.LockNode(q) := Mutex(lock)], files, locks[q := lock])
  {
    var kv', locks' := kv[c.LockNode(q) := Mutex(lock)], locks[q := lock];
    forall r | r in files ensures Lookup(kv', c.ValueNode(r)) == Lookup(kv, c.ValueNode(r))
        && Lookup(kv', c.MetaNode(r)) == Lookup(kv, c.MetaNode(r)) {
      LockNodesApart(c, r, q);
    }
    forall r | r in locks && r != q ensures Lookup(kv', c.LockNode(r)) == Lookup(kv, c.LockNode(r)) {
      LockNodesApart(c, r, q);
    }
    forall k | k in kv' ensures Accounted(c, files, locks', k) {
      if k == c.LockNode(q) {
        assert q in locks';
      } else {
        AccountedMonotone(c, files, files, locks, locks', k);
      }
    }
  }

  /** The keys of others hold what they held. */
  ghost predicate ForeignSame(c: Setup, kv: Keyspace, kv': Keyspace) {
    forall k | Foreign(c, k) :: Lookup(kv', k) == Lookup(kv, k)
  }

  /** No key that a call reads or writes belongs to somebody else. */
  lemma KeysAreOwn(c: Setup, key: string)
    requires c.Valid() && NoDotDot(key) && Components(key) != []
    ensures !Foreign(c, StorageKey(c.KeyPrefix(), key))
    ensures !Foreign(c, MetadataKey(c.KeyPrefix(), key))
    ensures !Foreign(c, LockKey(c.KeyPrefix(), key))
  {
    var q := Components(key);
    NodesOfKey(c.prefix, key);
    NodeUnderPrefix(c.prefix, q);
    NodeUnderPrefix(c.prefix, MdPath(q));
    NodeUnderPrefix(c.prefix, LockPath(q));
  }

  lemma ForeignKept(c: Setup, kv: Keyspace, key: string)
    requires c.Valid() && NoDotDot(key) && Components(key) != []
    ensures ForeignSame(c, kv, DeleteKeys(c, kv, key))
  {
    KeysAreOwn(c, key);
    forall k | Foreign(c, k) ensures Lookup(DeleteKeys(c, kv, key), k) == Lookup(kv, k) {
      LookupWithout(kv, StorageKey(c.KeyPrefix(), key), MetadataKey(c.KeyPrefix(), key), k);
    }
  }

  /** Foreign writes are invisible. */
  lemma ForeignRefines(c: Setup, kv: Keyspace, files: Files, locks: Locks, k: string, v: Value)
    requires Represents(c, kv, files, locks) && Foreign(c, k)
    ensures Represents(c, kv[k := v], files, locks)
  {
    var kv' := kv[k := v];
    forall r | r in files ensures k != c.ValueNode(r) && k != c.MetaNode(r) {
      NodeUnderPrefix(c.prefix, r);
      NodeUnderPrefix(c.prefix, MdPath(r));
    }
    forall r | r in locks ensures k != c.LockNode(r) {
      NodeUnderPrefix(c.prefix, LockPath(r));
    }
    assert FileNodes(c, kv', files);
    assert LockNodes(c, kv', locks);
    forall k' | k' in kv' ensures Accounted(c, files, locks, k') {
      assert k' == k || k' in kv;
    }
  }
}
