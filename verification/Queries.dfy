/** What Load, Metadata, Exists and Stat report, in terms of the plain filesystem. */
module Queries {
  import opened Text
  import opened Base64
  import opened Etcd
  import opened Paths
  import opened Names
  import opened FileSystem
  import opened FileStore

  // ------------------------------------------------------------------------ Load

  /** Load's two reads, in two states of the filesystem: it reports exactly what the file
      was at the first read and at the second, as far as the hash can tell. */
  lemma LoadExact(c: Setup, kv1: Keyspace, files1: Files, locks1: Locks,
                  kv2: Keyspace, files2: Files, locks2: Locks, key: string)
    requires Represents(c, kv1, files1, locks1) && Represents(c, kv2, files2, locks2)
    requires NoDotDot(key)
    ensures var q := Components(key);
      LoadFrom(c, kv1, kv2, key) ==
        if q !in files1 then LoadNotExist
        else if q !in files2 then LoadNoValue
        else if c.hash(files1[q].data) == c.hash(files2[q].data) then Loaded(files2[q].data)
        else LoadFailedChecksum
  {
    var q := Components(key);
    NodesOfKey(c.prefix, key);
    ComponentsProper(key);
    if q in files1 {
      NodesInStep(c, kv1, files1, locks1, q);
      NodesInStep(c, kv2, files2, locks2, q);
    } else if c.MetaNode(q) in kv1 {
      NoStrayMetadata(c, kv1, files1, locks1, q);
    }
  }

  // -------------------------------------------------------------------- Metadata

  /** The path beneath the metadata root that a metadata node belongs to. */
  function MetaPath(c: Setup, node: string): Path {
    var q := Components(node);
    if |q| > |c.prefix| then q[|c.prefix| + 1..] else []
  }

  lemma MetaPathOfNode(c: Setup, q: Path)
    requires c.Valid() && Proper(q)
    ensures MetaPath(c, c.MetaNode(q)) == q
  {
    ProperParts(c.prefix, MdPath(q));
    ComponentsAbs(c.prefix + MdPath(q));
    assert (c.prefix + MdPath(q))[|c.prefix| + 1..] == q;
  }

  /** A key found by the directory scan of d is the metadata node of a file beneath d. */
  lemma ScanFinds(c: Setup, kv: Keyspace, files: Files, locks: Locks, d: Path, k: string)
    requires Represents(c, kv, files, locks) && Proper(d)
    requires k in kv && c.MetaNode(d) + "/" <= k
    ensures var q := MetaPath(c, k);
      q in Beneath(files, d) && k == c.MetaNode(q) && kv[k] == Meta(StoredMetadata(c, files[q]))
  {
    NodeUnderPrefix(c.prefix, MdPath(d));
    assert !Foreign(c, k);
    if q :| q in files && k == c.MetaNode(q) {
      MetaPathOfNode(c, q);
      MetaNodesBeneath(c, d, q);
    } else if q :| q in files && k == c.ValueNode(q) {
      FileNodeOutside(c, d, q);
      assert false;
    } else {
      var q :| q in locks && k == c.LockNode(q);
      LockNodeOutside(c, d, q);
      assert false;
    }
  }

  lemma MetaNodesBeneath(c: Setup, d: Path, q: Path)
    requires c.Valid() && Proper(d) && Proper(q)
    ensures c.MetaNode(d) + "/" <= c.MetaNode(q) <==> d < q
  {
    NodeBeneath(c.prefix, MdPath(d), MdPath(q));
    assert MdPath(d)[1..] == d && MdPath(q)[1..] == q;
  }

  /** The metadata tree holds neither value nodes nor lock nodes. */
  lemma FileNodeOutside(c: Setup, d: Path, q: Path)
    requires c.Valid() && Proper(d) && FilePath(q)
    ensures !(c.MetaNode(d) + "/" <= c.ValueNode(q))
  {
    NodeBeneath(c.prefix, MdPath(d), q);
  }

  lemma LockNodeOutside(c: Setup, d: Path, q: Path)
    requires c.Valid() && Proper(d) && Proper(q)
    ensures !(c.MetaNode(d) + "/" <= c.LockNode(q))
  {
    NodeBeneath(c.prefix, MdPath(d), LockPath(q));
    assert MdPath(d)[0] == "md" && LockPath(q)[0] == "lock";
  }

  function HitPaths(c: Setup, kvs: seq<KeyValue>): set<Path> {
    if kvs == [] then {} else HitPaths(c, kvs[..|kvs| - 1]) + {MetaPath(c, kvs[|kvs| - 1].key)}
  }

  lemma {:induction false} HitPathsMember(c: Setup, kvs: seq<KeyValue>, q: Path)
    ensures q in HitPaths(c, kvs) <==> exists i :: 0 <= i < |kvs| && MetaPath(c, kvs[i].key) == q
  {
    if kvs != [] {
      var front := kvs[..|kvs| - 1];
      HitPathsMember(c, front, q);
      if i :| 0 <= i < |front| && MetaPath(c, front[i].key) == q {
        assert kvs[i] == front[i];
      }
      if i :| 0 <= i < |kvs| && MetaPath(c, kvs[i].key) == q && i < |front| {
        assert kvs[i] == front[i];
      }
    }
  }

  /** A hit of the directory scan: the metadata node of a file. */
  predicate Hit(c: Setup, files: Files, e: KeyValue) {
    var q := MetaPath(c, e.key);
    q in files && e == KeyValue(c.MetaNode(q), Meta(StoredMetadata(c, files[q])))
  }

  /** The scan's hits, one per file beneath d, add up to the filesystem's sum. */
  lemma {:induction false} AggregateIsSum(c: Setup, files: Files, kvs: seq<KeyValue>)
    requires forall i | 0 <= i < |kvs| :: Hit(c, files, kvs[i])
    requires forall i, j | 0 <= i < j < |kvs| :: Below(kvs[i].key, kvs[j].key)
    ensures HitPaths(c, kvs) <= files.Keys && Aggregate(kvs) == SumOf(files, HitPaths(c, kvs))
  {
    if kvs != [] {
      var n := |kvs| - 1;
      var front, q := kvs[..n], MetaPath(c, kvs[n].key);
      AggregateIsSum(c, files, front);
      HitPathsMember(c, front, q);
      if i :| 0 <= i < |front| && MetaPath(c, front[i].key) == q {
        assert Hit(c, files, kvs[i]) && Hit(c, files, kvs[n]) && Below(kvs[i].key, kvs[n].key);
        BelowIrreflexive(kvs[n].key);
      }
      assert Hit(c, files, kvs[n]);
      assert HitPaths(c, kvs) - {q} == HitPaths(c, front);
      SumTake(files, HitPaths(c, kvs), q);
      PlusCommutes(Weight(files[q]), Aggregate(front));
    }
  }

  lemma PlusCommutes(a: Sum, b: Sum)
    ensures a.Plus(b) == b.Plus(a)
  {
  }

  /** The directory scan finds the metadata nodes of exactly the files beneath d. */
  lemma ScanIsBeneath(c: Setup, kv: Keyspace, files: Files, locks: Locks, d: Path)
    requires Represents(c, kv, files, locks) && Proper(d)
    ensures var found := Range(kv, c.MetaNode(d) + "/");
      HitPaths(c, found) == Beneath(files, d) && (found == [] <==> Beneath(files, d) == {})
  {
    var found := Range(kv, c.MetaNode(d) + "/");
    forall q ensures q in HitPaths(c, found) <==> q in Beneath(files, d) {
      if q in Beneath(files, d) {
        BeneathIsHit(c, kv, files, locks, d, q);
      } else if q in HitPaths(c, found) {
        HitIsBeneath(c, kv, files, locks, d, q);
      }
    }
    if found != [] {
      ScanFinds(c, kv, files, locks, d, found[0].key);
    }
  }

  lemma HitIsBeneath(c: Setup, kv: Keyspace, files: Files, locks: Locks, d: Path, q: Path)
    requires Represents(c, kv, files, locks) && Proper(d) && q in HitPaths(c, Range(kv, c.MetaNode(d) + "/"))
    ensures q in Beneath(files, d)
  {
    var found := Range(kv, c.MetaNode(d) + "/");
    HitPathsMember(c, found, q);
    var i :| 0 <= i < |found| && MetaPath(c, found[i].key) == q;
    ScanFinds(c, kv, files, locks, d, found[i].key);
  }

  /** The directory scan finds something iff there are files beneath d, and its totals are theirs. */
  lemma DirectoryExact(c: Setup, kv: Keyspace, files: Files, locks: Locks, d: Path)
    requires Represents(c, kv, files, locks) && Proper(d)
    ensures var found := Range(kv, c.MetaNode(d) + "/");
      && (found == [] <==> Beneath(files, d) == {})
      && Aggregate(found) == SumOf(files, Beneath(files, d))
  {
    var found := Range(kv, c.MetaNode(d) + "/");
    ScanIsBeneath(c, kv, files, locks, d);
    forall i | 0 <= i < |found| ensures Hit(c, files, found[i]) {
      ScanFinds(c, kv, files, locks, d, found[i].key);
    }
    AggregateIsSum(c, files, found);
  }

  lemma BeneathIsHit(c: Setup, kv: Keyspace, files: Files, locks: Locks, d: Path, q: Path)
    requires Represents(c, kv, files, locks) && Proper(d) && q in Beneath(files, d)
    ensures q in HitPaths(c, Range(kv, c.MetaNode(d) + "/"))
  {
    var found := Range(kv, c.MetaNode(d) + "/");
    var i := BeneathIsFound(c, kv, files, locks, d, q);
    MetaPathOfNode(c, q);
    assert MetaPath(c, found[i].key) == q;
    HitPathsMember(c, found, q);
  }

  lemma BeneathIsFound(c: Setup, kv: Keyspace, files: Files, locks: Locks, d: Path, q: Path) returns (i: nat)
    requires Represents(c, kv, files, locks) && Proper(d) && q in Beneath(files, d)
    ensures i < |Range(kv, c.MetaNode(d) + "/")| && Range(kv, c.MetaNode(d) + "/")[i].key == c.MetaNode(q)
  {
    NodeBeneath(c.prefix, MdPath(d), MdPath(q));
    assert MdPath(q) == MdPath(d) + q[|d|..];
    i := RangeComplete(kv, c.MetaNode(d) + "/", c.MetaNode(q));
  }

  lemma LatestPositive(files: Files, s: set<Path>)
    requires s <= files.Keys && s != {} && forall q | q in s :: files[q].stamp > 0
    ensures SumOf(files, s).latest > 0
  {
    var q :| q in s;
    SumTake(files, s, q);
  }

  /** The first read of Metadata. */
  lemma MetadataNodeExact(c: Setup, kv: Keyspace, files: Files, locks: Locks, key: string)
    requires Represents(c, kv, files, locks) && NoDotDot(key)
    ensures var q := Components(key);
      Lookup(kv, MetadataKey(c.KeyPrefix(), key))
        == if q in files then Some(Meta(StoredMetadata(c, files[q]))) else None
  {
    var q := Components(key);
    NodesOfKey(c.prefix, key);
    ComponentsProper(key);
    if q !in files && c.MetaNode(q) in kv {
      NoStrayMetadata(c, kv, files, locks, q);
    }
  }

  /** The second read of Metadata, and the totals of what it finds. */
  lemma DirectoryTotals(c: Setup, kv: Keyspace, files: Files, locks: Locks, key: string)
    requires Represents(c, kv, files, locks) && NoDotDot(key)
    ensures var (q, found) := (Components(key), Range(kv, MetadataKey(c.KeyPrefix(), key) + "/"));
      && (found == [] <==> Beneath(files, q) == {})
      && Aggregate(found) == SumOf(files, Beneath(files, q))
      && (found != [] ==> Aggregate(found).latest > 0)
  {
    var q := Components(key);
    NodesOfKey(c.prefix, key);
    ComponentsProper(key);
    DirectoryExact(c, kv, files, locks, q);
    if Beneath(files, q) != {} {
      LatestPositive(files, Beneath(files, q));
    }
  }

  /** Metadata's two reads, in two states of the filesystem, for any path without "..": a file's own
      record as of the first read; else the total size and latest time of all files beneath it as of
      the second; else NotExist. The clock never shows and nothing fails to decode. */
  lemma MetadataExact(c: Setup, kv1: Keyspace, files1: Files, locks1: Locks,
                      kv2: Keyspace, files2: Files, locks2: Locks, key: string, now: Time)
    requires Represents(c, kv1, files1, locks1) && Represents(c, kv2, files2, locks2)
    requires NoDotDot(key)
    ensures var q := Components(key);
      MetadataFrom(c, kv1, kv2, key, now) ==
        if q in files1 then Stat(Metadata(key, |files1[q].data|, files1[q].stamp, c.hash(files1[q].data), false))
        else if Beneath(files2, q) == {} then StatNotExist
        else var sum := SumOf(files2, Beneath(files2, q));
             Stat(Metadata(key, sum.size, sum.latest, ZERO_HASH, true))
  {
    MetadataNodeExact(c, kv1, files1, locks1, key);
    DirectoryTotals(c, kv2, files2, locks2, key);
  }

  /** The same with both reads in one state. */
  lemma MetadataAtOnce(c: Setup, kv: Keyspace, files: Files, locks: Locks, key: string, now: Time)
    requires Represents(c, kv, files, locks) && NoDotDot(key)
    ensures var q := Components(key);
      MetadataOf(c, kv, key, now) ==
        if q in files then Stat(Metadata(key, |files[q].data|, files[q].stamp, c.hash(files[q].data), false))
        else if Beneath(files, q) == {} then StatNotExist
        else var sum := SumOf(files, Beneath(files, q));
             Stat(Metadata(key, sum.size, sum.latest, ZERO_HASH, true))
  {
    MetadataExact(c, kv, files, locks, kv, files, locks, key, now);
  }

  /** The directory branch of Metadata against the recursive tree: its totals are the tree fold and the
      files beneath other files; without such files they are the tree fold. */
  lemma MetadataIsTree(c: Setup, kv: Keyspace, files: Files, locks: Locks, key: string, now: Time, height: nat)
    requires Represents(c, kv, files, locks) && NoDotDot(key) && forall q | q in files :: |q| <= height
    ensures var (q, r) := (Components(key), MetadataOf(c, kv, key, now));
      r.Stat? ==>
        var (totals, tree) := (Sum(r.md.size, r.md.timestamp), TreeSum(files, q, height));
        && (r.md.isDir ==> totals == tree.Plus(SumOf(files, ShadowedBeneath(files, q))))
        && (!r.md.isDir || NoNesting(files) ==> totals == tree)
  {
    MetadataAtOnce(c, kv, files, locks, key, now);
    if Components(key) !in files {
      TreeEqualsFlatIff(files, Components(key), height);
    }
    if NoNesting(files) {
      TreeEqualsFlat(files, Components(key), height);
    }
  }

  lemma NoStrayMetadata(c: Setup, kv: Keyspace, files: Files, locks: Locks, q: Path)
    requires Represents(c, kv, files, locks) && Proper(q) && c.MetaNode(q) in kv
    ensures q in files
  {
    NodeUnderPrefix(c.prefix, MdPath(q));
    assert Accounted(c, files, locks, c.MetaNode(q));
    if r :| r in files && (c.MetaNode(q) == c.ValueNode(r) || c.MetaNode(q) == c.MetaNode(r)) {
      FilePathNodes(c, r, q);
    } else {
      var r :| r in locks && c.MetaNode(q) == c.LockNode(r);
      LockNodesApart(c, q, r);
    }
  }
}
