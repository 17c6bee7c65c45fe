/** Listings: a raw prefix scan, cut and filtered. */
module Listing {
  import opened Text
  import opened Base64
  import opened Etcd
  import opened Paths
  import opened Names
  import opened FileSystem
  import opened FileStore

  type Filter = KeyValue -> bool

  function FilterRemoveDirectories(): Filter {
    (e: KeyValue) => !EmptyValue(e.value)
  }

  function FilterExactPrefix(prefix: string, cut: string): Filter {
    (e: KeyValue) =>
      !EmptyValue(e.value) && (var dir := SplitDir(TrimPrefix(e.key, cut)); dir == prefix || dir == prefix + "/")
  }

  predicate PassesAll(filters: seq<Filter>, e: KeyValue) {
    forall i | 0 <= i < |filters| :: filters[i](e)
  }

  function SearchKey(keyPrefix: string, key: string): string {
    Join2(keyPrefix, if "/" <= key then key else "/" + key)
  }

  /** One round of List's loop: what the pair contributes to the output. */
  function Listed(keyPrefix: string, e: KeyValue, filters: seq<Filter>): seq<string> {
    if |e.key| <= |keyPrefix| then []
    else
      var relative := e.key[|keyPrefix|..];
      if Contains(relative, "/md/") || !PassesAll(filters, e) then []
      else if "/" <= relative then [relative]
      else ["/" + relative]
  }

  function ListedAll(keyPrefix: string, kvs: seq<KeyValue>, filters: seq<Filter>): seq<string> {
    if kvs == [] then []
    else ListedAll(keyPrefix, kvs[..|kvs| - 1], filters) + Listed(keyPrefix, kvs[|kvs| - 1], filters)
  }

  /** `etcdsrv.List`. */
  function ListKeys(keyPrefix: string, kv: Keyspace, key: string, filters: seq<Filter>): seq<string> {
    ListedAll(keyPrefix, Range(kv, SearchKey(keyPrefix, key)), filters)
  }

  /** The prefix argument with a leading slash and without one trailing slash. */
  function Normalize(prefix: string): string {
    TrimSuffix(if "/" <= prefix then prefix else "/" + prefix, '/')
  }

  function ClusterFilters(keyPrefix: string, prefix: string, recursive: bool): seq<Filter> {
    if recursive then [FilterRemoveDirectories()]
    else [FilterExactPrefix(Normalize(prefix) + "/", keyPrefix)]
  }

  /** `Cluster.List`. */
  function ClusterList(keyPrefix: string, kv: Keyspace, prefix: string, recursive: bool): seq<string> {
    ListKeys(keyPrefix, kv, Normalize(prefix), ClusterFilters(keyPrefix, prefix, recursive))
  }

  // --------------------------------------------------------- what can be listed

  /** The nodes a listing can ever show: non-empty files and lock records without a directory "md". */
  ghost predicate Visible(files: Files, locks: Locks, n: Path) {
    && !HasMdDir(n)
    && ((n in files && files[n].data != []) || (n != [] && n[0] == "lock" && n[1..] in locks))
  }

  /** Under a non-root prefix, the keys are exactly the nodes; the cut leaves the rendered path. */
  lemma CutNode(prefix: Path, n: Path)
    requires prefix != [] && n != []
    ensures var k := Node(prefix, n);
      |k| > |Abs(prefix)| && Abs(prefix) <= k && k[|Abs(prefix)|..] == Render(n)
  {
    RenderAppend(prefix, n);
  }

  /** What a node contributes to a listing. */
  lemma NodeListed(c: Setup, n: Path, v: Value, filters: seq<Filter>)
    requires c.Valid() && c.prefix != [] && Proper(n) && n != []
    ensures var e := KeyValue(Node(c.prefix, n), v);
      Listed(c.KeyPrefix(), e, filters) == if HasMdDir(n) || !PassesAll(filters, e) then [] else [Render(n)]
  {
    CutNode(c.prefix, n);
    ContainsMdIff(n);
    assert Render(n)[0] == '/';
  }

  /** Every listable key belongs to a node path. */
  lemma NodeOfKey(c: Setup, kv: Keyspace, files: Files, locks: Locks, k: string) returns (n: Path)
    requires Represents(c, kv, files, locks) && k in kv && !Foreign(c, k)
    ensures Proper(n) && n != [] && k == Node(c.prefix, n)
    ensures !HasMdDir(n) && !EmptyValue(kv[k]) <==> Visible(files, locks, n)
  {
    if q :| q in files && k == c.ValueNode(q) {
      n := q;
      ValueNodeShown(c, files, locks, q);
    } else if q :| q in files && k == c.MetaNode(q) {
      n := MdPath(q);
      MetaNodeHidden(files, locks, q);
    } else {
      var q :| q in locks && k == c.LockNode(q);
      n := LockPath(q);
      LockNodeShown(files, locks, q);
    }
  }

  lemma ValueNodeShown(c: Setup, files: Files, locks: Locks, q: Path)
    requires q in files && FilePath(q)
    ensures Proper(q) && q != []
    ensures Visible(files, locks, q) <==> !HasMdDir(q) && !EmptyValue(File(Encode(files[q].data)))
  {
    EncodeEmptyIff(files[q].data);
  }

  lemma MetaNodeHidden(files: Files, locks: Locks, q: Path)
    requires FilePath(q)
    ensures Proper(MdPath(q)) && MdPath(q) != [] && HasMdDir(MdPath(q)) && !Visible(files, locks, MdPath(q))
  {
    ProperParts(["md"], q);
    assert MdPath(q)[0] == "md";
  }

  lemma LockNodeShown(files: Files, locks: Locks, q: Path)
    requires q in locks && LockName(q)
    ensures Proper(LockPath(q)) && LockPath(q) != [] && (Visible(files, locks, LockPath(q)) <==> !HasMdDir(LockPath(q)))
  {
    ProperParts(["lock"], q);
    assert LockPath(q)[1..] == q && LockPath(q)[0] == "lock";
  }

  /** Every visible path has its node. */
  lemma KeyOfNode(c: Setup, kv: Keyspace, files: Files, locks: Locks, n: Path)
    requires Represents(c, kv, files, locks) && Visible(files, locks, n)
    ensures Proper(n) && n != [] && Node(c.prefix, n) in kv && !EmptyValue(kv[Node(c.prefix, n)])
  {
    if n in files && files[n].data != [] {
      EncodeEmptyIff(files[n].data);
    } else {
      assert n == LockPath(n[1..]);
      assert LockName(n[1..]);
    }
  }

  // ---------------------------------------------------------------- list algebra

  lemma {:induction false} ListedMember(kp: string, kvs: seq<KeyValue>, filters: seq<Filter>, s: string)
    ensures s in ListedAll(kp, kvs, filters) <==> exists i :: 0 <= i < |kvs| && s in Listed(kp, kvs[i], filters)
  {
    if kvs != [] {
      var n := |kvs| - 1;
      ListedMember(kp, kvs[..n], filters, s);
      assert forall i | 0 <= i < n :: kvs[..n][i] == kvs[i];
      assert s in ListedAll(kp, kvs, filters) <==>
        s in ListedAll(kp, kvs[..n], filters) || s in Listed(kp, kvs[n], filters);
    }
  }

  /** An entry of the range that is listed at all is listed as its cut key. */
  predicate CutsClean(kp: string, e: KeyValue) {
    kp <= e.key && |kp| < |e.key| && e.key[|kp|] == '/'
  }

  lemma {:induction false} ListedAscends(kp: string, kvs: seq<KeyValue>, filters: seq<Filter>)
    requires forall i | 0 <= i < |kvs| :: CutsClean(kp, kvs[i])
    requires forall i, j | 0 <= i < j < |kvs| :: Below(kvs[i].key, kvs[j].key)
    ensures Ascending(ListedAll(kp, kvs, filters))
  {
    if kvs != [] {
      var n := |kvs| - 1;
      var front := kvs[..n];
      ListedAscends(kp, front, filters);
      var before := ListedAll(kp, front, filters);
      forall s | s in before && Listed(kp, kvs[n], filters) != [] ensures Below(s, Listed(kp, kvs[n], filters)[0]) {
        ListedBelow(kp, front, filters, s, kvs[n]);
      }
      AscendingAppend(before, Listed(kp, kvs[n], filters));
    }
  }

  lemma ListedBelow(kp: string, kvs: seq<KeyValue>, filters: seq<Filter>, s: string, e: KeyValue)
    requires s in ListedAll(kp, kvs, filters) && Listed(kp, e, filters) != []
    requires CutsClean(kp, e) && forall i | 0 <= i < |kvs| :: CutsClean(kp, kvs[i]) && Below(kvs[i].key, e.key)
    ensures Below(s, Listed(kp, e, filters)[0])
  {
    ListedMember(kp, kvs, filters, s);
    var i :| 0 <= i < |kvs| && s in Listed(kp, kvs[i], filters);
    CutsInOrder(kp, kvs[i], e);
  }

  lemma AscendingAppend(ks: seq<string>, last: seq<string>)
    requires Ascending(ks) && |last| <= 1
    requires forall s | s in ks && last != [] :: Below(s, last[0])
    ensures Ascending(ks + last)
  {
  }

  lemma CutsInOrder(kp: string, a: KeyValue, b: KeyValue)
    requires CutsClean(kp, a) && CutsClean(kp, b) && Below(a.key, b.key)
    ensures "/" <= a.key[|kp|..] && "/" <= b.key[|kp|..]
    ensures Below(a.key[|kp|..], b.key[|kp|..])
  {
    BelowCut(kp, a.key[|kp|..], b.key[|kp|..]);
    assert kp + a.key[|kp|..] == a.key && kp + b.key[|kp|..] == b.key;
  }

  // ----------------------------------------------------------- exact listings

  lemma SearchKeyOf(c: Setup, key: string)
    requires c.Valid() && NoDotDot(key)
    ensures SearchKey(c.KeyPrefix(), key) == Abs(c.prefix + Components(key))
  {
    SlashIrrelevant(key);
    JoinAbs(c.prefix, if "/" <= key then key else "/" + key);
  }

  lemma SlashIrrelevant(s: string)
    ensures Components("/" + s) == Components(s)
    ensures Components(s + "/") == Components(s)
  {
    ComponentsConcat("", s);
    ComponentsConcat(s, "");
    assert "/" + s == "" + "/" + s && s + "/" == s + "/" + "";
    assert Split("", '/') == [""];
  }

  lemma NormalizeComponents(s: string)
    ensures Components(Normalize(s)) == Components(s)
  {
    SlashIrrelevant(s);
    var t := if "/" <= s then s else "/" + s;
    SlashIrrelevant(t[..|t| - 1]);
    if t[|t| - 1] == '/' {
      assert t == t[..|t| - 1] + "/";
    }
  }

  /** For any filters, a listing under a non-root prefix is ascending and shows exactly the
      nodes under the search string, outside "md" directories, that pass the filters. */
  lemma ListExact(c: Setup, kv: Keyspace, files: Files, locks: Locks, key: string, filters: seq<Filter>)
    requires Represents(c, kv, files, locks) && c.prefix != [] && NoDotDot(key)
    ensures var out := ListKeys(c.KeyPrefix(), kv, key, filters);
      && Ascending(out)
      && forall s :: s in out <==> exists n :: Shows(c, kv, Components(key), filters, n, s)
  {
    SearchKeyOf(c, key);
    var p := Components(key);
    var kvs := Range(kv, Abs(c.prefix + p));
    ScanCutsClean(c, kv, files, locks, p);
    ListedAscends(c.KeyPrefix(), kvs, filters);
    forall s ensures s in ListedAll(c.KeyPrefix(), kvs, filters) <==> exists n :: Shows(c, kv, p, filters, n, s) {
      if s in ListedAll(c.KeyPrefix(), kvs, filters) {
        var n := ListedShows(c, kv, files, locks, p, filters, s);
      }
      if n :| Shows(c, kv, p, filters, n, s) {
        ShownListed(c, kv, p, filters, n, s);
      }
    }
  }

  lemma ScanCutsClean(c: Setup, kv: Keyspace, files: Files, locks: Locks, p: Path)
    requires Represents(c, kv, files, locks) && c.prefix != []
    ensures var kvs := Range(kv, Abs(c.prefix + p));
      forall i | 0 <= i < |kvs| :: CutsClean(c.KeyPrefix(), kvs[i])
  {
    var kvs := Range(kv, Abs(c.prefix + p));
    RenderAppend(c.prefix, p);
    forall i | 0 <= i < |kvs| ensures CutsClean(c.KeyPrefix(), kvs[i]) {
      var n := NodeOfKey(c, kv, files, locks, kvs[i].key);
      CutNode(c.prefix, n);
    }
  }

  lemma ListedShows(c: Setup, kv: Keyspace, files: Files, locks: Locks, p: Path, filters: seq<Filter>, s: string)
      returns (n: Path)
    requires Represents(c, kv, files, locks) && c.prefix != []
    requires s in ListedAll(c.KeyPrefix(), Range(kv, Abs(c.prefix + p)), filters)
    ensures Shows(c, kv, p, filters, n, s)
  {
    var kvs := Range(kv, Abs(c.prefix + p));
    ListedMember(c.KeyPrefix(), kvs, filters, s);
    var i :| 0 <= i < |kvs| && s in Listed(c.KeyPrefix(), kvs[i], filters);
    n := EntryShows(c, kv, files, locks, p, filters, kvs[i].key, s);
  }

  lemma EntryShows(c: Setup, kv: Keyspace, files: Files, locks: Locks, p: Path, filters: seq<Filter>,
                   k: string, s: string)
      returns (n: Path)
    requires Represents(c, kv, files, locks) && c.prefix != []
    requires k in kv && Abs(c.prefix + p) <= k && s in Listed(c.KeyPrefix(), KeyValue(k, kv[k]), filters)
    ensures Shows(c, kv, p, filters, n, s)
  {
    RenderAppend(c.prefix, p);
    n := NodeOfKey(c, kv, files, locks, k);
    NodeListed(c, n, kv[k], filters);
  }

  lemma ShownListed(c: Setup, kv: Keyspace, p: Path, filters: seq<Filter>, n: Path, s: string)
    requires c.Valid() && c.prefix != [] && Shows(c, kv, p, filters, n, s)
    ensures s in ListedAll(c.KeyPrefix(), Range(kv, Abs(c.prefix + p)), filters)
  {
    var kvs := Range(kv, Abs(c.prefix + p));
    var i := RangeComplete(kv, Abs(c.prefix + p), Node(c.prefix, n));
    NodeListed(c, n, kv[Node(c.prefix, n)], filters);
    assert s in Listed(c.KeyPrefix(), kvs[i], filters);
    ListedMember(c.KeyPrefix(), kvs, filters, s);
  }

  /** Node n is listed as s by a search for p. */
  ghost predicate Shows(c: Setup, kv: Keyspace, p: Path, filters: seq<Filter>, n: Path, s: string) {
    var k := Node(c.prefix, n);
    && Proper(n) && n != [] && !HasMdDir(n)
    && k in kv && Abs(c.prefix + p) <= k && PassesAll(filters, KeyValue(k, kv[k]))
    && s == Render(n)
  }

  lemma VisibleIff(c: Setup, kv: Keyspace, files: Files, locks: Locks, n: Path)
    requires Represents(c, kv, files, locks) && c.prefix != []
    ensures Visible(files, locks, n) <==>
      Proper(n) && n != [] && !HasMdDir(n) && Node(c.prefix, n) in kv && !EmptyValue(kv[Node(c.prefix, n)])
  {
    if Visible(files, locks, n) {
      KeyOfNode(c, kv, files, locks, n);
    } else if Proper(n) && n != [] && Node(c.prefix, n) in kv {
      NodeUnderPrefix(c.prefix, n);
      var m := NodeOfKey(c, kv, files, locks, Node(c.prefix, n));
      NodeInjective(c.prefix, m, n);
    }
  }

  function Parent(n: Path): Path
    requires n != []
  {
    n[..|n| - 1]
  }

  /** The exact-prefix filter compares the rendered parent with the argument as spelled. */
  lemma ExactFilter(c: Setup, n: Path, v: Value, dir: string)
    requires c.Valid() && c.prefix != [] && Proper(n) && n != []
    ensures FilterExactPrefix(dir + "/", c.KeyPrefix())(KeyValue(Node(c.prefix, n), v))
            <==> !EmptyValue(v) && Render(Parent(n)) == dir
  {
    CutNode(c.prefix, n);
    SplitDirRender(n);
    var up := Render(Parent(n));
    assert up + "/" == dir + "/" ==> up == (up + "/")[..|up|] == (dir + "/")[..|dir|] == dir;
    if up + "/" == dir + "/" + "/" {
      assert (dir + "/" + "/")[|dir|] == (up + "/")[|up| - 1] == '/';
      RenderEnd(Parent(n));
      assert false;
    }
  }

  lemma RootsRelative(prefix: Path, p: Path, n: Path)
    requires prefix != []
    ensures Abs(prefix + p) <= Node(prefix, n) <==> Render(p) <= Render(n)
  {
    RenderAppend(prefix, p);
    RenderAppend(prefix, n);
    var root := Render(prefix);
    if root + Render(p) <= root + Render(n) {
      assert Render(p) == (root + Render(p))[|root|..];
      assert Render(n) == (root + Render(n))[|root|..];
    }
  }

  lemma PassesOne(f: Filter, e: KeyValue)
    ensures PassesAll([f], e) <==> f(e)
  {
    assert [f][0] == f;
  }

  lemma ShowsNonRecursive(c: Setup, kv: Keyspace, files: Files, locks: Locks, prefix: string, n: Path, s: string)
    requires Represents(c, kv, files, locks) && c.prefix != [] && NoDotDot(prefix)
    ensures Shows(c, kv, Components(prefix), ClusterFilters(c.KeyPrefix(), prefix, false), n, s)
      <==> Visible(files, locks, n) && n != [] && Render(Parent(n)) == Normalize(prefix) && s == Render(n)
  {
    var dir, p := Normalize(prefix), Components(prefix);
    NormalizeComponents(prefix);
    VisibleIff(c, kv, files, locks, n);
    if Proper(n) && n != [] && Node(c.prefix, n) in kv {
      ExactFilter(c, n, kv[Node(c.prefix, n)], dir);
      PassesOne(FilterExactPrefix(dir + "/", c.KeyPrefix()), KeyValue(Node(c.prefix, n), kv[Node(c.prefix, n)]));
      if Render(Parent(n)) == dir {
        assert Proper(Parent(n)) && n == Parent(n) + [n[|n| - 1]];
        ComponentsAbs(Parent(n));
        RenderAppend(Parent(n), [n[|n| - 1]]);
        RootsRelative(c.prefix, p, n);
      }
    }
  }

  /** Non-recursive List: in ascending order without repetition, exactly the visible nodes whose
      parent renders as the (slash-normalised) argument. An argument that is not spelled cleanly
      lists nothing. */
  lemma NonRecursiveExact(c: Setup, kv: Keyspace, files: Files, locks: Locks, prefix: string)
    requires Represents(c, kv, files, locks) && c.prefix != [] && NoDotDot(prefix)
    ensures var out := ClusterList(c.KeyPrefix(), kv, prefix, false);
      && Ascending(out)
      && forall s :: s in out <==>
           exists n :: Visible(files, locks, n) && n != [] && Render(Parent(n)) == Normalize(prefix) && s == Render(n)
  {
    var dir, filters := Normalize(prefix), ClusterFilters(c.KeyPrefix(), prefix, false);
    NormalizeComponents(prefix);
    ListExact(c, kv, files, locks, dir, filters);
    var out := ClusterList(c.KeyPrefix(), kv, prefix, false);
    forall s ensures s in out <==>
        exists n :: Visible(files, locks, n) && n != [] && Render(Parent(n)) == dir && s == Render(n) {
      if n :| Shows(c, kv, Components(prefix), filters, n, s) {
        ShowsNonRecursive(c, kv, files, locks, prefix, n, s);
      }
      if n :| Visible(files, locks, n) && n != [] && Render(Parent(n)) == dir && s == Render(n) {
        ShowsNonRecursive(c, kv, files, locks, prefix, n, s);
      }
    }
  }

  lemma ShowsRecursive(c: Setup, kv: Keyspace, files: Files, locks: Locks, prefix: string, n: Path, s: string)
    requires Represents(c, kv, files, locks) && c.prefix != [] && NoDotDot(prefix)
    ensures Shows(c, kv, Components(prefix), ClusterFilters(c.KeyPrefix(), prefix, true), n, s)
      <==> Visible(files, locks, n) && Render(Components(prefix)) <= Render(n) && s == Render(n)
  {
    VisibleIff(c, kv, files, locks, n);
    RootsRelative(c.prefix, Components(prefix), n);
    if Node(c.prefix, n) in kv {
      PassesOne(FilterRemoveDirectories(), KeyValue(Node(c.prefix, n), kv[Node(c.prefix, n)]));
    }
  }

  /** Recursive List: exactly the visible nodes whose rendering extends the argument's as a raw string. */
  lemma RecursiveExact(c: Setup, kv: Keyspace, files: Files, locks: Locks, prefix: string)
    requires Represents(c, kv, files, locks) && c.prefix != [] && NoDotDot(prefix)
    ensures var out := ClusterList(c.KeyPrefix(), kv, prefix, true);
      && Ascending(out)
      && forall s :: s in out <==>
           exists n :: Visible(files, locks, n) && Render(Components(prefix)) <= Render(n) && s == Render(n)
  {
    var p, filters := Components(prefix), ClusterFilters(c.KeyPrefix(), prefix, true);
    NormalizeComponents(prefix);
    ListExact(c, kv, files, locks, Normalize(prefix), filters);
    var out := ClusterList(c.KeyPrefix(), kv, prefix, true);
    forall s ensures s in out <==> exists n :: Visible(files, locks, n) && Render(p) <= Render(n) && s == Render(n) {
      if n :| Shows(c, kv, p, filters, n, s) {
        ShowsRecursive(c, kv, files, locks, prefix, n, s);
      }
      if n :| Visible(files, locks, n) && Render(p) <= Render(n) && s == Render(n) {
        ShowsRecursive(c, kv, files, locks, prefix, n, s);
      }
    }
  }

  // ------------------------------------------------------- recursion partitions

  /** The listing of the clean directory d, as its caller would ask for it. */
  function ListDir(c: Setup, kv: Keyspace, d: Path): seq<string> {
    ClusterList(c.KeyPrefix(), kv, Render(d), false)
  }

  lemma NormalizeRender(d: Path)
    requires Proper(d)
    ensures Normalize(Render(d)) == Render(d) && Components(Render(d)) == d && NoDotDot(Render(d))
  {
    ComponentsAbs(d);
    if d == [] {
      assert Normalize("") == "";
    } else {
      assert Render(d)[0] == '/';
      RenderEnd(d);
    }
  }

  /** A directory may be asked for with or without a slash at either end. A second slash at the end
      makes another argument, that of no directory. */
  lemma NormalizeSpellings(d: Path)
    requires Proper(d) && d != []
    ensures var s := Render(d);
      && Normalize(s) == Normalize(s[1..]) == Normalize(s + "/") == Normalize(s[1..] + "/") == s
      && Normalize(s + "//") == s + "/"
      && forall e: Path | Proper(e) :: Normalize(s + "//") != Render(e)
  {
    var s := Render(d);
    NormalizeRender(d);
    RenderEnd(d);
    assert s == "/" + s[1..] && s[1..][0] == d[0][0];
    assert Atom(d[0]);
    assert "/" + (s[1..] + "/") == s + "/";
    assert (s + "//")[..|s| + 1] == s + "/";
    forall e: Path | Proper(e) ensures s + "/" != Render(e) {
      if e != [] {
        RenderEnd(e);
      }
    }
  }

  /** List of a clean directory d is exactly the visible children of d. */
  lemma ListDirExact(c: Setup, kv: Keyspace, files: Files, locks: Locks, d: Path, n: Path)
    requires Represents(c, kv, files, locks) && c.prefix != [] && Proper(d)
    requires Proper(n) && n != []
    ensures Ascending(ListDir(c, kv, d))
    ensures Render(n) in ListDir(c, kv, d) <==> Visible(files, locks, n) && Parent(n) == d
  {
    NormalizeRender(d);
    NonRecursiveExact(c, kv, files, locks, Render(d));
    AbsInjective(Parent(n), d);
    if m :| Visible(files, locks, m) && m != [] && Render(Parent(m)) == Render(d) && Render(n) == Render(m) {
      KeyOfNode(c, kv, files, locks, m);
      AbsInjective(n, m);
    }
  }

  /** The part of the recursive listing strictly beneath p is the disjoint union of the plain
      listings of p and of every directory beneath it: each of its entries is in the listing of
      exactly one directory at or below p, its parent, and every entry of those listings is in it.
      No listing repeats an entry. */
  lemma RecursivePartition(c: Setup, kv: Keyspace, files: Files, locks: Locks, p: Path, n: Path)
    requires Represents(c, kv, files, locks) && c.prefix != [] && Proper(p)
    requires Proper(n) && n != []
    ensures var all := ClusterList(c.KeyPrefix(), kv, Render(p), true);
      && Ascending(all)
      && (p < n && Render(n) in all <==> exists d :: Proper(d) && p <= d && Render(n) in ListDir(c, kv, d))
      && (forall d | Proper(d) && Render(n) in ListDir(c, kv, d) :: d == Parent(n))
  {
    RecursiveDirExact(c, kv, files, locks, p, n);
    assert Proper(Parent(n));
    forall d | Proper(d) ensures Render(n) in ListDir(c, kv, d) <==> Visible(files, locks, n) && Parent(n) == d {
      ListDirExact(c, kv, files, locks, d, n);
    }
    BelowParent(p, n);
  }

  /** The recursive listing of a clean directory, for one node. */
  lemma RecursiveDirExact(c: Setup, kv: Keyspace, files: Files, locks: Locks, p: Path, n: Path)
    requires Represents(c, kv, files, locks) && c.prefix != [] && Proper(p)
    requires Proper(n) && n != []
    ensures var all := ClusterList(c.KeyPrefix(), kv, Render(p), true);
      Ascending(all) && (Render(n) in all <==> Visible(files, locks, n) && Render(p) <= Render(n))
  {
    NormalizeRender(p);
    RecursiveExact(c, kv, files, locks, Render(p));
    if m :| Visible(files, locks, m) && Render(n) == Render(m) {
      KeyOfNode(c, kv, files, locks, m);
      AbsInjective(n, m);
    }
  }

  lemma BelowParent(p: Path, n: Path)
    requires Proper(p) && Proper(n) && n != []
    ensures p < n <==> p <= Parent(n)
    ensures p < n ==> Render(p) <= Render(n)
  {
    if p < n {
      BeneathIsPrefix(p, n);
      assert p == n[..|p|] == Parent(n)[..|p|];
    }
    if p <= Parent(n) {
      assert p == Parent(n)[..|p|] == n[..|p|];
    }
  }

  // --------------------------------------------------- metadata nodes never show

  lemma MdHidden(n: Path, q: Path)
    requires Proper(n) && FilePath(q) && Render(n) == Render(MdPath(q))
    ensures HasMdDir(n)
  {
    ProperParts(["md"], q);
    AbsInjective(n, MdPath(q));
    assert MdPath(q)[0] == "md";
  }

  /** Under a non-root prefix no listing, whatever the filters, shows a metadata node. */
  lemma MetadataHidden(c: Setup, kv: Keyspace, files: Files, locks: Locks, key: string, filters: seq<Filter>, q: Path)
    requires Represents(c, kv, files, locks) && c.prefix != [] && NoDotDot(key) && FilePath(q)
    ensures Render(MdPath(q)) !in ListKeys(c.KeyPrefix(), kv, key, filters)
  {
    ListExact(c, kv, files, locks, key, filters);
    if n :| Shows(c, kv, Components(key), filters, n, Render(MdPath(q))) {
      MdHidden(n, q);
    }
  }

  /** Under the prefix "/" the cut removes the leading slash of "/md/", and the metadata node of a
      top-level file is listed. */
  lemma MetadataShownAtRoot(c: Setup) returns (kv: Keyspace, files: Files)
    requires c.prefix == []
    ensures Represents(c, kv, files, map[]) && FilePath(["a"]) && ["a"] in files
    ensures Render(MdPath(["a"])) in ClusterList(c.KeyPrefix(), kv, "", true)
  {
    var f := FileRec([7], 1, "a");
    files := map[["a"] := f];
    assert Represents(c, map[], map[], map[]);
    StoreNodes(c, map[], map[], map[], ["a"], f);
    kv := map[][c.ValueNode(["a"]) := File(Encode([7]))][c.MetaNode(["a"]) := Meta(StoredMetadata(c, f))];
    assert files == map[][["a"] := f];
    RootMetadataListed(c, kv, f);
  }

  lemma RootMetadataListed(c: Setup, kv: Keyspace, f: FileRec)
    requires c.prefix == [] && c.MetaNode(["a"]) in kv && kv[c.MetaNode(["a"])] == Meta(StoredMetadata(c, f))
    ensures Render(MdPath(["a"])) in ClusterList(c.KeyPrefix(), kv, "", true)
  {
    var filters := ClusterFilters("/", "", true);
    RootNames(c);
    var k := "/md/a";
    PassesOne(FilterRemoveDirectories(), KeyValue(k, kv[k]));
    RootScan(c);
    var i := RangeComplete(kv, "/", k);
    CutAtRoot(KeyValue(k, kv[k]), filters);
    ListedMember("/", Range(kv, "/"), filters, k);
  }

  lemma RootNames(c: Setup)
    requires c.prefix == []
    ensures c.MetaNode(["a"]) == Render(MdPath(["a"])) == "/md/a"
  {
    assert Render(["a"]) == "/" + "a" + Render([]) == "/a";
    assert MdPath(["a"])[1..] == ["a"];
    assert Render(MdPath(["a"])) == "/" + "md" + "/a" == "/md/a";
    assert c.prefix + MdPath(["a"]) == MdPath(["a"]);
  }

  lemma RootScan(c: Setup)
    requires c.prefix == []
    ensures Normalize("") == "" && SearchKey(c.KeyPrefix(), "") == "/"
  {
    SlashIrrelevant("");
    assert Split("", '/') == [""];
    SearchKeyOf(c, "");
    assert c.prefix + Components("") == [];
  }

  lemma CutAtRoot(e: KeyValue, filters: seq<Filter>)
    requires e.key == "/md/a" && PassesAll(filters, e)
    ensures "/md/a" in Listed("/", e, filters)
  {
    var r := e.key[1..];
    assert r == "md/a" && r[0] == 'm';
    ShortContains(r, "/md/");
    assert "/" + r == "/md/a";
  }

  lemma ShortContains(s: string, sub: string)
    requires |s| == |sub| && s != [] && s[0] != sub[0]
    ensures !Contains(s, sub)
  {
    TooShort(s[1..], sub);
  }

  lemma {:induction false} TooShort(s: string, sub: string)
    requires |s| < |sub|
    ensures !Contains(s, sub)
  {
    if s != [] {
      TooShort(s[1..], sub);
    }
  }

  ghost predicate HidesMetadata(c: Setup) {
    forall kv, files, locks, prefix, recursive, q |
      Represents(c, kv, files, locks) && NoDotDot(prefix) && FilePath(q) ::
      Render(MdPath(q)) !in ClusterList(c.KeyPrefix(), kv, prefix, recursive)
  }

  /** Cluster.List keeps metadata nodes out of sight if and only if the key prefix is not "/". */
  lemma HidesMetadataIff(c: Setup)
    requires c.Valid()
    ensures HidesMetadata(c) <==> c.prefix != []
  {
    if c.prefix == [] {
      var kv, files := MetadataShownAtRoot(c);
      assert Split("", '/') == [""];
      assert NoDotDot("");
      assert FilePath(["a"]) && Represents(c, kv, files, map[]);
    } else {
      forall kv, files, locks, prefix, recursive, q |
        Represents(c, kv, files, locks) && NoDotDot(prefix) && FilePath(q)
        ensures Render(MdPath(q)) !in ClusterList(c.KeyPrefix(), kv, prefix, recursive)
      {
        NormalizeComponents(prefix);
        MetadataHidden(c, kv, files, locks, Normalize(prefix), ClusterFilters(c.KeyPrefix(), prefix, recursive), q);
      }
    }
  }
}
