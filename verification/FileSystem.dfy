/** The filesystem a user of the storage should see: a finite map from component paths to
    files. Directories exist only as strict ancestors of files. */
module FileSystem {
  import opened Base64
  import opened Etcd
  import opened Paths

  /** `path` is the key as the caller spelled it in the latest Store. */
  datatype FileRec = FileRec(data: Bytes, stamp: Time, path: string)

  type Files = map<Path, FileRec>

  /** Size and latest modification of a set of files; the directory aggregate. */
  datatype Sum = Sum(size: nat, latest: Time) {
    function Plus(other: Sum): Sum {
      Sum(size + other.size, if other.latest > latest then other.latest else latest)
    }
  }

  const ZERO := Sum(0, 0)

  function Weight(f: FileRec): Sum {
    Sum(|f.data|, f.stamp)
  }

  function Beneath(files: Files, d: Path): set<Path> {
    set q | q in files && d < q
  }

  function AtOrBelow(files: Files, d: Path): set<Path> {
    set q | q in files && d <= q
  }

  predicate IsDir(files: Files, d: Path) {
    d !in files && Beneath(files, d) != {}
  }

  /** No file is a strict ancestor of another. */
  ghost predicate NoNesting(files: Files) {
    forall q, r | q in files && r in files :: !(q < r)
  }

  ghost function SumOf(files: Files, s: set<Path>): Sum
    requires s <= files.Keys
  {
    if s == {} then ZERO else
      var q :| q in s;
      Weight(files[q]).Plus(SumOf(files, s - {q}))
  }

  // ------------------------------------------------------------ algebra of sums

  lemma PlusSwap(a: Sum, b: Sum, c: Sum)
    ensures a.Plus(b.Plus(c)) == b.Plus(a.Plus(c))
    ensures a.Plus(b).Plus(c) == a.Plus(b.Plus(c))
  {
  }

  lemma {:induction false} SumTake(files: Files, s: set<Path>, q: Path)
    requires s <= files.Keys && q in s
    ensures SumOf(files, s) == Weight(files[q]).Plus(SumOf(files, s - {q}))
  {
    var p :| p in s && SumOf(files, s) == Weight(files[p]).Plus(SumOf(files, s - {p}));
    if p != q {
      SumTake(files, s - {p}, q);
      SumTake(files, s - {q}, p);
      assert s - {p} - {q} == s - {q} - {p};
      PlusSwap(Weight(files[p]), Weight(files[q]), SumOf(files, s - {p} - {q}));
    }
  }

  lemma {:induction false} SumUnion(files: Files, a: set<Path>, b: set<Path>)
    requires a <= files.Keys && b <= files.Keys && a !! b
    ensures SumOf(files, a + b) == SumOf(files, a).Plus(SumOf(files, b))
  {
    if a == {} {
      assert a + b == b;
    } else {
      var q :| q in a;
      SumTake(files, a, q);
      SumTake(files, a + b, q);
      assert a + b - {q} == (a - {q}) + b;
      SumUnion(files, a - {q}, b);
    }
  }

  lemma {:induction false} SumFrame(files: Files, files': Files, s: set<Path>)
    requires s <= files.Keys && s <= files'.Keys
    requires forall q | q in s :: Weight(files[q]) == Weight(files'[q])
    ensures SumOf(files, s) == SumOf(files', s)
  {
    if s != {} {
      var q :| q in s;
      SumTake(files, s, q);
      SumTake(files', s, q);
      SumFrame(files, files', s - {q});
    }
  }

  /** The latest time of a set of files is that of one of them, and none is later. */
  lemma {:induction false} LatestIsMaximum(files: Files, s: set<Path>)
    requires s <= files.Keys && s != {}
    ensures forall q | q in s :: files[q].stamp <= SumOf(files, s).latest
    ensures exists q :: q in s && files[q].stamp == SumOf(files, s).latest
    decreases s
  {
    var q :| q in s;
    SumTake(files, s, q);
    var rest := s - {q};
    if rest != {} {
      LatestIsMaximum(files, rest);
      var r :| r in rest && files[r].stamp == SumOf(files, rest).latest;
      assert r in s;
    } else {
      assert s == {q};
    }
  }

  // ------------------------------------------------- what a change does to sizes

  /** Storing at k: each strict ancestor changes by new length minus old, no other directory
      changes at all. */
  lemma StoreMovesAncestors(files: Files, k: Path, f: FileRec, d: Path)
    ensures var files' := files[k := f];
      && (d < k ==> SumOf(files', Beneath(files', d)).size + (if k in files then |files[k].data| else 0)
                    == SumOf(files, Beneath(files, d)).size + |f.data|)
      && (d < k ==> Beneath(files', d) != {})
      && (!(d < k) ==> Beneath(files', d) == Beneath(files, d)
                       && SumOf(files', Beneath(files', d)) == SumOf(files, Beneath(files, d)))
  {
    var files' := files[k := f];
    var below, below' := Beneath(files, d), Beneath(files', d);
    SumFrame(files, files', below - {k});
    if d < k {
      assert below' == below + {k};
      SumTake(files', below', k);
      assert below' - {k} == below - {k};
      if k in files {
        SumTake(files, below, k);
      } else {
        assert below - {k} == below;
      }
    } else {
      assert below' == below && below - {k} == below;
    }
  }

  /** Deleting k: each strict ancestor loses the old length, and is no directory any more
      exactly if k was the only file beneath it. */
  lemma DeleteMovesAncestors(files: Files, k: Path, d: Path)
    ensures var files' := files - {k};
      && (d < k ==> SumOf(files', Beneath(files', d)).size + (if k in files then |files[k].data| else 0)
                    == SumOf(files, Beneath(files, d)).size)
      && (d < k && k in files ==> (Beneath(files', d) == {} <==> Beneath(files, d) == {k}))
      && (!(d < k) ==> Beneath(files', d) == Beneath(files, d)
                       && SumOf(files', Beneath(files', d)) == SumOf(files, Beneath(files, d)))
  {
    var files' := files - {k};
    var below, below' := Beneath(files, d), Beneath(files', d);
    assert below' == below - {k};
    SumFrame(files, files', below');
    if k in below {
      SumTake(files, below, k);
    } else {
      assert below - {k} == below;
    }
  }

  // ------------------------------------------------------ the recursive tree fold

  /** The names of the immediate children of d, files and sub-directories alike. */
  function Children(files: Files, d: Path): set<string> {
    set q | q in Beneath(files, d) :: q[|d|]
  }

  function BeneathVia(files: Files, d: Path, names: set<string>): set<Path> {
    set q | q in files && d < q && q[|d|] in names
  }

  lemma BeneathViaAll(files: Files, d: Path)
    ensures BeneathVia(files, d, Children(files, d)) == Beneath(files, d)
  {
  }

  lemma BeneathViaOne(files: Files, d: Path, c: string, names: set<string>)
    requires c in names
    ensures BeneathVia(files, d, names) == AtOrBelow(files, d + [c]) + BeneathVia(files, d, names - {c})
    ensures AtOrBelow(files, d + [c]) !! BeneathVia(files, d, names - {c})
  {
    forall q: Path ensures d + [c] <= q <==> d < q && q[|d|] == c {
      if d < q && q[|d|] == c {
        assert q == d + [c] + q[|d| + 1..];
      }
      if d + [c] <= q {
        assert q[|d|] == (d + [c])[|d|] == c;
      }
    }
  }

  /** What Stat reports for e: a file by itself, else everything beneath. */
  ghost function StatSum(files: Files, e: Path): Sum {
    if e in files then Weight(files[e]) else SumOf(files, Beneath(files, e))
  }

  ghost function Pick(names: set<string>): (c: string)
    requires names != {}
    ensures c in names
  {
    var c :| c in names; c
  }

  ghost function StatSums(files: Files, d: Path, names: set<string>): Sum {
    if names == {} then ZERO else
      var c := Pick(names);
      StatSum(files, d + [c]).Plus(StatSums(files, d, names - {c}))
  }

  /** What no child's own entry shows: the files strictly beneath children that are files themselves. */
  ghost function HiddenSum(files: Files, d: Path, names: set<string>): Sum {
    if names == {} then ZERO else
      var c := Pick(names);
      (if d + [c] in files then SumOf(files, Beneath(files, d + [c])) else ZERO).Plus(HiddenSum(files, d, names - {c}))
  }

  lemma PrefixCases(e: Path, q: Path)
    ensures e <= q <==> e == q || e < q
  {
    if e <= q && |e| == |q| {
      assert e == q[..|e|] == q;
    }
  }

  lemma ViaStep(files: Files, d: Path, c: string, names: set<string>)
    requires c in names
    ensures SumOf(files, BeneathVia(files, d, names))
            == SumOf(files, AtOrBelow(files, d + [c])).Plus(SumOf(files, BeneathVia(files, d, names - {c})))
  {
    BeneathViaOne(files, d, c, names);
    SumUnion(files, AtOrBelow(files, d + [c]), BeneathVia(files, d, names - {c}));
  }

  lemma AtOrBelowSum(files: Files, e: Path)
    ensures SumOf(files, AtOrBelow(files, e)) ==
      if e in files then Weight(files[e]).Plus(SumOf(files, Beneath(files, e))) else StatSum(files, e)
  {
    forall q | q in files {
      PrefixCases(e, q);
    }
    if e in files {
      assert AtOrBelow(files, e) == Beneath(files, e) + {e};
      SumTake(files, AtOrBelow(files, e), e);
      assert AtOrBelow(files, e) - {e} == Beneath(files, e);
    } else {
      assert AtOrBelow(files, e) == Beneath(files, e);
    }
  }

  lemma PlusPairs(a: Sum, b: Sum, c: Sum, d: Sum)
    ensures a.Plus(b).Plus(c.Plus(d)) == a.Plus(c).Plus(b.Plus(d))
    ensures a.Plus(ZERO) == a
  {
  }

  /** In every filesystem, the flat scan counts what the children report plus exactly what is hidden. */
  lemma {:induction false} FlatScanSum(files: Files, d: Path, names: set<string>)
    ensures SumOf(files, BeneathVia(files, d, names)) == StatSums(files, d, names).Plus(HiddenSum(files, d, names))
  {
    if names == {} {
      assert BeneathVia(files, d, names) == {};
    } else {
      var c := Pick(names);
      var rest := names - {c};
      var hidden := if d + [c] in files then SumOf(files, Beneath(files, d + [c])) else ZERO;
      ViaStep(files, d, c, names);
      AtOrBelowSum(files, d + [c]);
      FlatScanSum(files, d, rest);
      PlusPairs(StatSum(files, d + [c]), hidden, StatSums(files, d, rest), HiddenSum(files, d, rest));
      PlusPairs(StatSum(files, d + [c]), ZERO, ZERO, ZERO);
    }
  }

  /** A directory's Size is the sum over its immediate children if and only if no bytes hide
      beneath a child that is itself a file; its time is the latest of theirs if and only if
      nothing hidden is later. */
  lemma DirectorySumIff(files: Files, d: Path)
    ensures var (all, names) := (SumOf(files, Beneath(files, d)), Children(files, d));
      var (shown, hidden) := (StatSums(files, d, names), HiddenSum(files, d, names));
      && all == shown.Plus(hidden)
      && (all.size == shown.size <==> hidden.size == 0)
      && (all.latest == shown.latest <==> hidden.latest <= shown.latest)
  {
    BeneathViaAll(files, d);
    FlatScanSum(files, d, Children(files, d));
  }

  /** The tree fold: a file is its own sum, a directory the sum over its immediate children.
      `height` bounds the length of the paths, so that the recursion ends. */
  ghost function TreeSum(files: Files, d: Path, height: nat): Sum
    requires forall q | q in files :: |q| <= height
    decreases if |d| <= height then height - |d| else 0, 1
  {
    if d in files then Weight(files[d]) else TreeSums(files, d, Children(files, d), height)
  }

  ghost function TreeSums(files: Files, d: Path, names: set<string>, height: nat): Sum
    requires forall q | q in files :: |q| <= height
    requires names <= Children(files, d)
    decreases if |d| <= height then height - |d| else 0, 0, names
  {
    if names == {} then ZERO else
      var c := Pick(names);
      assert exists q :: q in Beneath(files, d) && q[|d|] == c;
      TreeSum(files, d + [c], height).Plus(TreeSums(files, d, names - {c}, height))
  }

  /** Another file lies on the way from d to q. */
  ghost predicate Shadowed(files: Files, d: Path, q: Path) {
    exists r :: r in files && d < r < q
  }

  ghost function ShownVia(files: Files, d: Path, names: set<string>): set<Path> {
    set q | q in BeneathVia(files, d, names) && !Shadowed(files, d, q)
  }

  ghost function ShadowedBeneath(files: Files, d: Path): set<Path> {
    set q | q in Beneath(files, d) && Shadowed(files, d, q)
  }

  /** The unshadowed files at or beneath the child e of a directory. */
  ghost function ShownAt(files: Files, e: Path): set<Path> {
    if e in files then {e} else ShownVia(files, e, Children(files, e))
  }

  lemma ShadowStep(files: Files, d: Path, c: string, q: Path)
    requires q in files && d + [c] <= q
    ensures !Shadowed(files, d, q) <==> q in ShownAt(files, d + [c])
  {
    var e := d + [c];
    PrefixCases(e, q);
    forall r | r in files && d < r < q ensures r == e || e < r {
      assert r == q[..|r|] && e == q[..|e|];
    }
    if e in files {
      assert e < q ==> d < e < q;
    } else {
      BeneathViaAll(files, e);
      assert forall r | r in files && e < r < q :: d < r < q;
    }
  }

  lemma ShownViaOne(files: Files, d: Path, c: string, names: set<string>)
    requires c in names
    ensures ShownVia(files, d, names) == ShownAt(files, d + [c]) + ShownVia(files, d, names - {c})
    ensures ShownAt(files, d + [c]) !! ShownVia(files, d, names - {c})
  {
    BeneathViaOne(files, d, c, names);
    forall q | q in AtOrBelow(files, d + [c]) ensures !Shadowed(files, d, q) <==> q in ShownAt(files, d + [c]) {
      ShadowStep(files, d, c, q);
    }
    assert ShownAt(files, d + [c]) <= AtOrBelow(files, d + [c]);
  }

  /** In every filesystem, the tree fold of a directory sums exactly the unshadowed files beneath it. */
  lemma {:induction false} TreeSumIsShown(files: Files, d: Path, height: nat)
    requires forall q | q in files :: |q| <= height
    ensures TreeSum(files, d, height) == SumOf(files, ShownAt(files, d))
    decreases if |d| <= height then height - |d| else 0, 1
  {
    if d in files {
      SumTake(files, {d}, d);
      assert {d} - {d} == {};
    } else {
      TreeSumsAreShown(files, d, Children(files, d), height);
    }
  }

  lemma {:induction false} TreeSumsAreShown(files: Files, d: Path, names: set<string>, height: nat)
    requires forall q | q in files :: |q| <= height
    requires names <= Children(files, d)
    ensures TreeSums(files, d, names, height) == SumOf(files, ShownVia(files, d, names))
    decreases if |d| <= height then height - |d| else 0, 0, names
  {
    if names == {} {
      assert ShownVia(files, d, names) == {};
    } else {
      var c := Pick(names);
      assert exists q :: q in Beneath(files, d) && q[|d|] == c;
      TreeSumIsShown(files, d + [c], height);
      TreeSumsAreShown(files, d, names - {c}, height);
      ShownViaOne(files, d, c, names);
      SumUnion(files, ShownAt(files, d + [c]), ShownVia(files, d, names - {c}));
    }
  }

  /** The flat scan of a directory is the tree fold plus exactly the shadowed files. So its Size is the
      tree's if and only if all shadowed files are empty, and its time if and only if none is later. */
  lemma TreeEqualsFlatIff(files: Files, d: Path, height: nat)
    requires forall q | q in files :: |q| <= height
    requires d !in files
    ensures var (flat, tree, extra) :=
        (SumOf(files, Beneath(files, d)), TreeSum(files, d, height), SumOf(files, ShadowedBeneath(files, d)));
      && flat == tree.Plus(extra)
      && (flat.size == tree.size <==> extra.size == 0)
      && (flat.latest == tree.latest <==> extra.latest <= tree.latest)
  {
    TreeSumIsShown(files, d, height);
    BeneathViaAll(files, d);
    var shown, shadowed := ShownVia(files, d, Children(files, d)), ShadowedBeneath(files, d);
    assert Beneath(files, d) == shown + shadowed;
    SumUnion(files, shown, shadowed);
  }

  /** In particular the two agree when no file is a strict ancestor of another. */
  lemma TreeEqualsFlat(files: Files, d: Path, height: nat)
    requires forall q | q in files :: |q| <= height
    requires NoNesting(files)
    ensures TreeSum(files, d, height) == StatSum(files, d)
  {
    if d !in files {
      TreeEqualsFlatIff(files, d, height);
      assert ShadowedBeneath(files, d) == {};
    }
  }
}
