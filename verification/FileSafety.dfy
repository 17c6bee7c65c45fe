/** What the file calls guarantee while any number of clients store, delete and lock. */
module FileSafety {
  import opened Text
  import opened Base64
  import opened Etcd
  import opened Paths
  import opened Names
  import opened FileSystem
  import opened FileStore
  import opened Queries
  import opened Protocol
  import opened Invariants

  /** In every reachable state a value node exists if and only if its metadata node exists,
      and Size and Hash are the length and the hash of the decoded value. */
  lemma NodesInStepAlways(c: Setup, trace: seq<State>, acts: seq<Action>, i: nat, key: string)
    requires IsRun(c, trace, acts) && i < |trace|
    requires NoDotDot(key) && FilePath(Components(key))
    ensures var (kv, v, m) := (trace[i].store.kv, StorageKey(c.KeyPrefix(), key), MetadataKey(c.KeyPrefix(), key));
      && (v in kv <==> m in kv)
      && (v in kv ==>
           && kv[v].File? && kv[m].Meta? && Decode(kv[v].text).Some?
           && kv[m].md.size == |Decode(kv[v].text).value|
           && kv[m].md.hash == c.hash(Decode(kv[v].text).value))
  {
    var s := trace[i];
    RunKeepsBase(c, trace, acts, i);
    NodesOfKey(c.prefix, key);
    NodesInStep(c, s.store.kv, s.files, Current(s.history), Components(key));
  }

  /** The action commits a Store or Delete of the file q. */
  predicate WritesFile(s: State, a: Action, q: Path) {
    || (a.CommitStore? && s.Proc(a.p).Storing? && Components(s.Proc(a.p).key) == q)
    || (a.Delete? && Components(a.key) == q)
  }

  function FileAt(s: State, q: Path): Option<FileRec> {
    if q in s.files then Some(s.files[q]) else None
  }

  lemma StepKeepsFile(c: Setup, s: State, a: Action, s': State, q: Path)
    requires Next(c, s, a, s') && !WritesFile(s, a, q)
    ensures FileAt(s', q) == FileAt(s, q)
  {
  }

  lemma {:induction false} FileStays(c: Setup, trace: seq<State>, acts: seq<Action>, i: nat, j: nat, q: Path)
    requires IsRun(c, trace, acts) && i <= j < |trace|
    requires forall m | i <= m < j :: !WritesFile(trace[m], acts[m], q)
    ensures FileAt(trace[j], q) == FileAt(trace[i], q)
    decreases j
  {
    if i < j {
      FileStays(c, trace, acts, i, j - 1, q);
      StepKeepsFile(c, trace[j - 1], acts[j - 1], trace[j], q);
    }
  }

  /** What a file's two nodes hold is decided by the file. */
  lemma NodesOfFile(c: Setup, s: State, key: string)
    requires Base(c, s) && NoDotDot(key) && FilePath(Components(key))
    ensures var f := FileAt(s, Components(key));
      && Lookup(s.store.kv, StorageKey(c.KeyPrefix(), key)) ==
           (if f.None? then None else Some(File(Encode(f.value.data))))
      && Lookup(s.store.kv, MetadataKey(c.KeyPrefix(), key)) ==
           (if f.None? then None else Some(Meta(StoredMetadata(c, f.value))))
  {
    NodesOfKey(c.prefix, key);
    NodesInStep(c, s.store.kv, s.files, Current(s.history), Components(key));
  }

  /** The stored nodes of a file change only by a commit of Store or Delete of this very file. */
  lemma NodesStay(c: Setup, trace: seq<State>, acts: seq<Action>, i: nat, j: nat, key: string)
    requires IsRun(c, trace, acts) && i <= j < |trace|
    requires NoDotDot(key) && FilePath(Components(key))
    requires forall m | i <= m < j :: !WritesFile(trace[m], acts[m], Components(key))
    ensures var (v, m) := (StorageKey(c.KeyPrefix(), key), MetadataKey(c.KeyPrefix(), key));
      && Lookup(trace[j].store.kv, v) == Lookup(trace[i].store.kv, v)
      && Lookup(trace[j].store.kv, m) == Lookup(trace[i].store.kv, m)
  {
    FileStays(c, trace, acts, i, j, Components(key));
    RunKeepsBase(c, trace, acts, i);
    RunKeepsBase(c, trace, acts, j);
    NodesOfFile(c, trace[i], key);
    NodesOfFile(c, trace[j], key);
  }

  /** Load whose two reads fall into states i and j of a run. If the hash separates what the file
      held at the two reads, then a returned value was the file's content at both, NotExist means
      absent at the first, nothing is ever undecodable, and every other failure means that a write
      to this very file was committed in between. */
  lemma LoadDuringRun(c: Setup, trace: seq<State>, acts: seq<Action>, i: nat, j: nat, key: string)
    requires IsRun(c, trace, acts) && i <= j < |trace| && NoDotDot(key)
    requires var (f, g) := (FileAt(trace[i], Components(key)), FileAt(trace[j], Components(key)));
      f.Some? && g.Some? && c.hash(f.value.data) == c.hash(g.value.data) ==> f.value.data == g.value.data
    ensures var q := Components(key);
      match LoadFrom(c, trace[i].store.kv, trace[j].store.kv, key)
      case Loaded(data) => q in trace[i].files && trace[i].files[q].data == data
                        && q in trace[j].files && trace[j].files[q].data == data
      case LoadNotExist => q !in trace[i].files
      case LoadCorrupt => false
      case _ => q in trace[i].files && exists m :: i <= m < j && WritesFile(trace[m], acts[m], q)
  {
    var q, s, t := Components(key), trace[i], trace[j];
    RunKeepsBase(c, trace, acts, i);
    RunKeepsBase(c, trace, acts, j);
    LoadExact(c, s.store.kv, s.files, Current(s.history), t.store.kv, t.files, Current(t.history), key);
    if forall m | i <= m < j :: !WritesFile(trace[m], acts[m], q) {
      FileStays(c, trace, acts, i, j, q);
      assert FileAt(s, q) == FileAt(t, q);
    }
  }

  /** Without a concurrent write to the file, Load returns exactly the file, or NotExist. */
  lemma LoadUndisturbed(c: Setup, trace: seq<State>, acts: seq<Action>, i: nat, j: nat, key: string)
    requires IsRun(c, trace, acts) && i <= j < |trace| && NoDotDot(key)
    requires forall m | i <= m < j :: !WritesFile(trace[m], acts[m], Components(key))
    ensures var q := Components(key);
      LoadFrom(c, trace[i].store.kv, trace[j].store.kv, key)
        == if q in trace[i].files then Loaded(trace[i].files[q].data) else LoadNotExist
  {
    var s, t := trace[i], trace[j];
    RunKeepsBase(c, trace, acts, i);
    RunKeepsBase(c, trace, acts, j);
    LoadExact(c, s.store.kv, s.files, Current(s.history), t.store.kv, t.files, Current(t.history), key);
    FileStays(c, trace, acts, i, j, Components(key));
    assert FileAt(s, Components(key)) == FileAt(t, Components(key));
  }

  // -------------------------------------------------------------------- Metadata

  /** The action commits a Store or Delete of q or of a file beneath it. */
  predicate WritesWithin(s: State, a: Action, q: Path) {
    || (a.CommitStore? && s.Proc(a.p).Storing? && q <= Components(s.Proc(a.p).key))
    || (a.Delete? && q <= Components(a.key))
  }

  /** The path is a file or a directory. */
  predicate Present(s: State, q: Path) {
    q in s.files || IsDir(s.files, q)
  }

  lemma TreeStays(c: Setup, trace: seq<State>, acts: seq<Action>, i: nat, j: nat, q: Path)
    requires IsRun(c, trace, acts) && i <= j < |trace|
    requires forall m | i <= m < j :: !WritesWithin(trace[m], acts[m], q)
    ensures FileAt(trace[j], q) == FileAt(trace[i], q)
    ensures Beneath(trace[j].files, q) == Beneath(trace[i].files, q)
    ensures SumOf(trace[j].files, Beneath(trace[j].files, q)) == SumOf(trace[i].files, Beneath(trace[i].files, q))
  {
    forall r | q <= r ensures FileAt(trace[j], r) == FileAt(trace[i], r) {
      forall m | i <= m < j ensures !WritesFile(trace[m], acts[m], r) {
        assert !WritesWithin(trace[m], acts[m], q);
      }
      FileStays(c, trace, acts, i, j, r);
    }
    SameTree(trace[i], trace[j], q);
  }

  lemma SameTree(s: State, t: State, q: Path)
    requires forall r | q <= r :: FileAt(t, r) == FileAt(s, r)
    ensures Beneath(t.files, q) == Beneath(s.files, q)
    ensures SumOf(t.files, Beneath(t.files, q)) == SumOf(s.files, Beneath(s.files, q))
  {
    forall r | q < r ensures r in s.files <==> r in t.files {
      assert FileAt(t, r) == FileAt(s, r);
    }
    assert Beneath(t.files, q) == Beneath(s.files, q);
    forall r | r in Beneath(s.files, q) ensures t.files[r] == s.files[r] {
      assert FileAt(t, r) == FileAt(s, r);
    }
    SumFrame(s.files, t.files, Beneath(s.files, q));
  }

  /** Metadata whose two reads fall into states i and j of a run. A file is reported as it was at the
      first read, a directory as it was at the second, nothing is ever undecodable; without a write
      at or beneath the path in between, the answer is that of state i. NotExist means no file at the
      first and nothing beneath at the second read. It can be wrong about both states, and is so
      exactly if a directory at the first read was a file with nothing beneath it at the second. */
  lemma MetadataDuringRun(c: Setup, trace: seq<State>, acts: seq<Action>, i: nat, j: nat, key: string, now: Time)
    requires IsRun(c, trace, acts) && i <= j < |trace| && NoDotDot(key)
    ensures var (q, f, g) := (Components(key), trace[i].files, trace[j].files);
      match MetadataFrom(c, trace[i].store.kv, trace[j].store.kv, key, now)
      case Stat(md) =>
        if md.isDir then q !in f && Beneath(g, q) != {} && Sum(md.size, md.timestamp) == SumOf(g, Beneath(g, q))
        else q in f && md == Metadata(key, |f[q].data|, f[q].stamp, c.hash(f[q].data), false)
      case StatNotExist =>
        && q !in f && Beneath(g, q) == {}
        && (Present(trace[i], q) && Present(trace[j], q) <==> IsDir(f, q) && q in g)
      case StatCorrupt => false
    ensures (forall m | i <= m < j :: !WritesWithin(trace[m], acts[m], Components(key))) ==>
      MetadataFrom(c, trace[i].store.kv, trace[j].store.kv, key, now) == MetadataOf(c, trace[i].store.kv, key, now)
  {
    var s, t := trace[i], trace[j];
    RunKeepsBase(c, trace, acts, i);
    RunKeepsBase(c, trace, acts, j);
    MetadataExact(c, s.store.kv, s.files, Current(s.history), t.store.kv, t.files, Current(t.history), key, now);
    if forall m | i <= m < j :: !WritesWithin(trace[m], acts[m], Components(key)) {
      TreeStays(c, trace, acts, i, j, Components(key));
      MetadataAtOnce(c, s.store.kv, s.files, Current(s.history), key, now);
    }
  }
}
