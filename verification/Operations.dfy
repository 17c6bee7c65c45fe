/** `getMD`, the retryable operation that fills a metadata record in place. */
module Operations {
  import opened Text
  import opened Base64
  import opened Etcd
  import opened Paths
  import opened Names
  import opened FileSystem
  import opened FileStore
  import opened Queries
  import Pipeline
  import Client

  const ZERO_METADATA := Metadata("", 0, 0, ZERO_HASH, false)

  /** What follows the first "/md/", or nothing if there is none. */
  function AfterMd(s: string): Option<string> {
    if "/md/" <= s then Some(s[4..]) else if s == "" then None else AfterMd(s[1..])
  }

  datatype Failure = Absent | Malformed | Unreachable

  /** The record after a successful getMD on record m, or why it fails; a failure leaves m alone. */
  function GetMD(kv: Keyspace, key: string, m: Metadata, now: Time): (r: (Option<Failure>, Metadata))
    ensures r.0.Some? ==> r.1 == m
  {
    match Lookup(kv, key)
    case Some(Meta(md)) => (None, md)
    case Some(_) => (Some(Malformed), m)
    case None =>
      var children := Range(kv, key + "/");
      if children == [] then (Some(Absent), m)
      else
        var start := Sum(m.size, now);
        var total := start.Plus(Aggregate(children));
        var path := if AfterMd(key).Some? then AfterMd(key).value else key;
        (None, Metadata(path, total.size, total.latest, m.hash, true))
  }

  /** The caller's record. */
  class Record {
    var md: Metadata

    constructor ()
      ensures md == ZERO_METADATA
    {
      md := ZERO_METADATA;
    }
  }

  method RunGetMD(cli: Client.EtcdClient, key: string, m: Record) returns (err: Option<Failure>, ghost now: Time)
    modifies cli`now, cli`failures, m
    ensures cli.failures == old(cli.failures) + (if err == Some(Unreachable) then 1 else 0)
    ensures old(cli.now) <= now <= cli.now
    ensures err == Some(Unreachable) ==> m.md == old(m.md)
    ensures err != Some(Unreachable) ==> (err, m.md) == GetMD(cli.db.kv, key, old(m.md), now)
  {
    var resp := cli.Get(key);
    now := cli.now;
    if resp.Err? {
      return Some(Unreachable), now;
    }
    if resp.value.Some? {
      if !resp.value.value.Meta? {
        return Some(Malformed), now;
      }
      m.md := resp.value.value.md;
      return None, now;
    }
    var dir := cli.GetPrefix(key + "/");
    now := cli.now;
    if dir.Err? {
      return Some(Unreachable), now;
    }
    if dir.value == [] {
      return Some(Absent), now;
    }
    var path := if AfterMd(key).Some? then AfterMd(key).value else key;
    m.md := Metadata(path, m.md.size, cli.now, m.md.hash, true);
    AddChildren(dir.value, m);
    err := None;
  }

  function Totals(m: Metadata): Sum {
    Sum(m.size, m.timestamp)
  }

  /** The loop that adds the children's sizes and keeps the latest time, in place. */
  method AddChildren(kvs: seq<KeyValue>, m: Record)
    modifies m
    ensures Totals(m.md) == Totals(old(m.md)).Plus(Aggregate(kvs))
    ensures m.md.path == old(m.md.path) && m.md.hash == old(m.md.hash) && m.md.isDir == old(m.md.isDir)
  {
    ghost var start := Totals(m.md);
    assert start.Plus(ZERO) == start;
    for i := 0 to |kvs|
      invariant Totals(m.md) == start.Plus(Aggregate(kvs[..i]))
      invariant m.md.path == old(m.md.path) && m.md.hash == old(m.md.hash) && m.md.isDir == old(m.md.isDir)
    {
      assert kvs[..i + 1][..i] == kvs[..i];
      if kvs[i].value.Meta? {
        var child := kvs[i].value.md;
        PlusSwap(start, Aggregate(kvs[..i]), Totals(child));
        m.md := m.md.(size := m.md.size + child.size);
        if child.timestamp > m.md.timestamp {
          m.md := m.md.(timestamp := child.timestamp);
        }
      }
    }
    assert kvs[..|kvs|] == kvs;
  }

  /** On a zeroed record getMD and Metadata agree: on existence, Size, Hash and IsDir always, on the
      time for files; for a directory getMD reports the later of now and Metadata's time. */
  lemma GetMDAgrees(c: Setup, kv: Keyspace, files: Files, locks: Locks, key: string, now: Time)
    requires Represents(c, kv, files, locks) && NoDotDot(key)
    ensures var (err, m) := GetMD(kv, MetadataKey(c.KeyPrefix(), key), ZERO_METADATA, now);
      match MetadataOf(c, kv, key, now)
      case Stat(md) =>
        && err.None? && m.size == md.size && m.hash == md.hash && m.isDir == md.isDir
        && m.timestamp == if md.isDir && now > md.timestamp then now else md.timestamp
      case StatNotExist => err == Some(Absent)
      case StatCorrupt => false
  {
    MetadataAtOnce(c, kv, files, locks, key, now);
    var q := Components(key);
    NodesOfKey(c.prefix, key);
    ComponentsProper(key);
    if q !in files {
      if c.MetaNode(q) in kv {
        NoStrayMetadata(c, kv, files, locks, q);
      }
      DirectoryExact(c, kv, files, locks, q);
    }
  }

  /** What follows the first occurrence, and only the first. */
  lemma {:induction false} AfterMdFirst(u: string, v: string)
    requires !Contains(u + "/md", "/md/")
    ensures AfterMd(u + "/md/" + v) == Some(v)
  {
    var s := u + "/md/" + v;
    if u == "" {
      assert s == "/md/" + v;
    } else {
      assert s[..4] == (u + "/md")[..4];
      assert !("/md/" <= u + "/md");
      assert (u + "/md")[1..] == u[1..] + "/md";
      AfterMdFirst(u[1..], v);
      assert s[1..] == u[1..] + "/md/" + v;
    }
  }

  /** The Path that getMD reports for a directory other than the root is the clean name beneath the key
      prefix, without its leading slash, unless the prefix itself has a component "md". */
  lemma DirectoryPath(c: Setup, kv: Keyspace, files: Files, locks: Locks, key: string, m: Metadata, now: Time)
    requires Represents(c, kv, files, locks) && NoDotDot(key) && Components(key) != []
    requires IsDir(files, Components(key)) && "md" !in c.prefix
    ensures GetMD(kv, MetadataKey(c.KeyPrefix(), key), m, now).0.None?
    ensures GetMD(kv, MetadataKey(c.KeyPrefix(), key), m, now).1.path == Render(Components(key))[1..]
  {
    var q := Components(key);
    MetadataNodeExact(c, kv, files, locks, key);
    DirectoryTotals(c, kv, files, locks, key);
    NodesOfKey(c.prefix, key);
    ComponentsProper(key);
    NodeAfterMd(c.prefix, q);
  }

  lemma NodeAfterMd(prefix: Path, q: Path)
    requires Proper(prefix) && Proper(q) && q != [] && "md" !in prefix
    ensures AfterMd(Node(prefix, MdPath(q))) == Some(Render(q)[1..])
  {
    NodeText(prefix, q);
    ProperParts(prefix, ["md"]);
    RenderSnoc(prefix, "md");
    NoEarlierMd(prefix);
    ContainsMdIff(prefix + ["md"]);
    assert Render(prefix) + "/" + "md" == Render(prefix) + "/md";
    AfterMdFirst(Render(prefix), Render(q)[1..]);
  }

  lemma NodeText(prefix: Path, q: Path)
    requires q != []
    ensures Render(q) != "" && Node(prefix, MdPath(q)) == Render(prefix) + "/md/" + Render(q)[1..]
  {
    RenderAppend(prefix, MdPath(q));
    assert MdPath(q)[1..] == q && Render(MdPath(q)) == "/md" + Render(q);
    assert Render(q)[0] == '/';
  }

  lemma NoEarlierMd(prefix: Path)
    requires "md" !in prefix
    ensures !HasMdDir(prefix + ["md"])
  {
    forall i: nat | i < |prefix| ensures (prefix + ["md"])[i] != "md" {
      assert prefix[i] in prefix;
    }
  }

  // ----------------------------------------------------------------- under retry

  /** The keyspace, the record, whether etcd fails the coming calls, and the clock. */
  datatype World = World(kv: Keyspace, m: Metadata, faults: seq<bool>, now: Time) {
    predicate Fails() {
      faults != [] && faults[0]
    }

    /** One call later. */
    function Called(): World {
      this.(faults := if faults == [] then [] else faults[1..], now := now + 1)
    }
  }

  /** The operation on an unreliable etcd: one Get for a file, a second one for a directory. */
  function Attempt(key: string, w: World): Pipeline.Result<World> {
    var w1 := w.Called();
    if w.Fails() then Pipeline.Result(w1, Some(Pipeline.Failed(0)))
    else
      match Lookup(w.kv, key)
      case Some(Meta(md)) => Pipeline.Result(w1.(m := md), None)
      case Some(_) => Pipeline.Result(w1, Some(Pipeline.Failed(1)))
      case None => Pipeline.Result(Scan(key, w1), if ScanFails(key, w1) then Some(Pipeline.Failed(2)) else None)
  }

  predicate ScanFails(key: string, w: World) {
    w.Fails() || Range(w.kv, key + "/") == []
  }

  /** From the second Get on: only after it has answered with children is the record written. */
  function Scan(key: string, w: World): World {
    if ScanFails(key, w) then w.Called()
    else w.Called().(m := GetMD(w.kv, key, w.m, w.now).1)
  }

  function Op(key: string): Pipeline.Operation<World> {
    (w: World) => Attempt(key, w)
  }

  const SizeOf: World -> (Keyspace, nat) := (w: World) => (w.kv, w.m.size)

  /** The size in a record that held `size` before, after one successful getMD. */
  function SizeAfter(kv: Keyspace, key: string, size: nat): nat {
    match Lookup(kv, key)
    case Some(Meta(md)) => md.size
    case Some(_) => size
    case None => size + Aggregate(Range(kv, key + "/")).size
  }

  function CountSize(key: string): ((Keyspace, nat)) -> (Keyspace, nat) {
    (v: (Keyspace, nat)) => (v.0, SizeAfter(v.0, key, v.1))
  }

  lemma OpDoes(key: string)
    ensures Pipeline.Does(Op(key), SizeOf, CountSize(key))
  {
    forall w ensures SizeOf(Op(key)(w).world) == if Op(key)(w).err.Some? then SizeOf(w) else CountSize(key)(SizeOf(w)) {
      OpCounts(key, w);
    }
  }

  lemma OpCounts(key: string, w: World)
    ensures SizeOf(Op(key)(w).world) == if Op(key)(w).err.Some? then SizeOf(w) else CountSize(key)(SizeOf(w))
  {
    AttemptCounts(key, w);
  }

  lemma AttemptCounts(key: string, w: World)
    ensures var r := Attempt(key, w);
      && r.world.kv == w.kv && (r.err.Some? ==> r.world.m == w.m)
      && r.world.m.size == if r.err.Some? then w.m.size else SizeAfter(w.kv, key, w.m.size)
  {
    if !w.Fails() && Lookup(w.kv, key).None? {
      ScanCounts(key, w.Called());
    }
  }

  /** When both calls are answered, the attempt is getMD at the time of the second one. */
  lemma AttemptIsGetMD(key: string, w: World)
    requires !w.Fails() && !w.Called().Fails()
    ensures var (r, (err, m)) := (Attempt(key, w), GetMD(w.kv, key, w.m, w.now + 1));
      r.world.m == m && (r.err.Some? <==> err.Some?)
  {
  }

  lemma ScanCounts(key: string, w: World)
    requires Lookup(w.kv, key).None?
    ensures Scan(key, w).kv == w.kv
    ensures Scan(key, w).m.size == w.m.size + if ScanFails(key, w) then 0 else Aggregate(Range(w.kv, key + "/")).size
  {
  }

  /** However many attempts fail before one succeeds, the sizes of the children are added once. */
  lemma RetryCountsOnce(key: string, b: Pipeline.BackOff<World>, w: World)
    ensures var r := Pipeline.Retry(Op(key), b, w);
      (r.world.kv, r.world.m.size) == if r.err.Some? then (w.kv, w.m.size) else CountSize(key)((w.kv, w.m.size))
  {
    OpDoes(key);
    Pipeline.RetryDoes(Op(key), b, SizeOf, CountSize(key), w, 0);
  }

  /** But the record has to be zeroed: a second successful getMD of a directory into the same record
      counts right if and only if everything beneath is empty. */
  lemma SecondCallDoubles(c: Setup, kv: Keyspace, files: Files, locks: Locks, key: string, now: Time, later: Time)
    requires Represents(c, kv, files, locks) && NoDotDot(key) && IsDir(files, Components(key))
    ensures var node := MetadataKey(c.KeyPrefix(), key);
      var size := SumOf(files, Beneath(files, Components(key))).size;
      var first := GetMD(kv, node, ZERO_METADATA, now).1;
      var second := GetMD(kv, node, first, later).1;
      first.size == size && second.size == 2 * size && (second.size == size <==> size == 0)
  {
    var q := Components(key);
    NodesOfKey(c.prefix, key);
    ComponentsProper(key);
    if c.MetaNode(q) in kv {
      NoStrayMetadata(c, kv, files, locks, q);
    }
    DirectoryExact(c, kv, files, locks, q);
  }
}
