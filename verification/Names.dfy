/** Where the service puts things: the three namespaces under the configured key prefix. */
module Names {
  import opened Text
  import opened Paths

  // -------------------------------------------------- the names the code computes

  function MdPrefix(keyPrefix: string): string {
    Clean(keyPrefix + "/md")
  }

  function LockRoot(keyPrefix: string): string {
    Join2(keyPrefix, "/lock")
  }

  function StorageKey(keyPrefix: string, key: string): string {
    Join2(keyPrefix, key)
  }

  function MetadataKey(keyPrefix: string, key: string): string {
    Join2(MdPrefix(keyPrefix), key)
  }

  function LockKey(keyPrefix: string, key: string): string {
    Join2(LockRoot(keyPrefix), key)
  }

  // ------------------------------------------------------- the same, on components

  /** The node of path q under the prefix. A file q has the nodes q and md/q, a lock q the node lock/q. */
  function Node(prefix: Path, q: Path): string {
    Abs(prefix + q)
  }

  function MdPath(q: Path): Path { ["md"] + q }

  function LockPath(q: Path): Path { ["lock"] + q }

  /** A key that names a file: at least one component, none of them "..", outside the md and lock trees. */
  predicate FilePath(q: Path) {
    Proper(q) && q != [] && q[0] != "md" && q[0] != "lock"
  }

  predicate LockName(q: Path) {
    Proper(q) && q != []
  }

  lemma ProperParts(a: Path, b: Path)
    ensures Proper(a + b) <==> Proper(a) && Proper(b)
  {
    if Proper(a + b) {
      forall i | 0 <= i < |a| ensures Atom(a[i]) { assert (a + b)[i] == a[i]; }
      forall i | 0 <= i < |b| ensures Atom(b[i]) { assert (a + b)[|a| + i] == b[i]; }
    }
  }

  /** The code's string joins compute exactly the component-wise nodes. */
  lemma NodesOfKey(prefix: Path, key: string)
    requires Proper(prefix) && NoDotDot(key)
    ensures StorageKey(Abs(prefix), key) == Node(prefix, Components(key))
    ensures MetadataKey(Abs(prefix), key) == Node(prefix, MdPath(Components(key)))
    ensures LockKey(Abs(prefix), key) == Node(prefix, LockPath(Components(key)))
  {
    JoinAbs(prefix, key);
    Roots(prefix);
    TreeNode(prefix, "md", key);
    TreeNode(prefix, "lock", key);
  }

  lemma TreeNode(prefix: Path, tree: string, key: string)
    requires Proper(prefix) && Atom(tree) && NoDotDot(key)
    ensures Join2(Abs(prefix + [tree]), key) == Node(prefix, [tree] + Components(key))
  {
    ProperParts(prefix, [tree]);
    JoinAbs(prefix + [tree], key);
    assert prefix + ([tree] + Components(key)) == prefix + [tree] + Components(key);
  }

  lemma Roots(prefix: Path)
    requires Proper(prefix)
    ensures MdPrefix(Abs(prefix)) == Abs(prefix + ["md"])
    ensures LockRoot(Abs(prefix)) == Abs(prefix + ["lock"])
  {
    assert Render(["md"]) == "/md" && Render(["lock"]) == "/lock";
    ComponentsAbs(["md"]);
    ComponentsAbs(["lock"]);
    ComponentsAbs(prefix);
    JoinAbs(prefix, "/lock");
    var s := Abs(prefix) + "/md";
    assert s == Abs(prefix) + "/" + "md";
    ComponentsConcat(Abs(prefix), "md");
    SplitAtom("md", '/');
    assert Components("md") == ["md"];
    ProperParts(prefix, ["md"]);
    var q := CleanRooted(s);
  }

  lemma NodeInjective(prefix: Path, a: Path, b: Path)
    requires Proper(prefix) && Proper(a) && Proper(b)
    ensures Node(prefix, a) == Node(prefix, b) <==> a == b
  {
    ProperParts(prefix, a);
    ProperParts(prefix, b);
    AbsInjective(prefix + a, prefix + b);
    if prefix + a == prefix + b {
      assert a == (prefix + a)[|prefix|..] == (prefix + b)[|prefix|..] == b;
    }
  }

  lemma NodeUnderPrefix(prefix: Path, q: Path)
    requires q != []
    ensures Abs(prefix) <= Node(prefix, q)
  {
    RenderAppend(prefix, q);
    if prefix == [] {
      assert prefix + q == q;
    }
  }

  /** The scan for `path + "/"` finds exactly the nodes of strict descendants. */
  lemma NodeBeneath(prefix: Path, a: Path, b: Path)
    requires Proper(prefix) && Proper(a) && Proper(b) && a != [] && b != []
    ensures Node(prefix, a) + "/" <= Node(prefix, b) <==> a < b
  {
    ProperParts(prefix, a);
    ProperParts(prefix, b);
    BeneathIffPrefix(prefix + a, prefix + b);
    if prefix + a < prefix + b {
      assert b == (prefix + b)[|prefix|..];
      assert a == (prefix + a)[|prefix|..];
    }
    if a < b {
      assert prefix + b == prefix + a + b[|a|..];
    }
  }

  /** For every clean prefix the three key maps are injective on components, the metadata and
      lock nodes never meet, and a storage node is a metadata (lock) node exactly when the
      user's key goes into the md (lock) directory. */
  lemma Separation(prefix: Path, key1: string, key2: string)
    requires Proper(prefix) && NoDotDot(key1) && NoDotDot(key2)
    ensures var (kp, a, b) := (Abs(prefix), Components(key1), Components(key2));
      && (StorageKey(kp, key1) == StorageKey(kp, key2) <==> a == b)
      && (MetadataKey(kp, key1) == MetadataKey(kp, key2) <==> a == b)
      && (LockKey(kp, key1) == LockKey(kp, key2) <==> a == b)
      && MetadataKey(kp, key1) != LockKey(kp, key2)
      && (StorageKey(kp, key1) == MetadataKey(kp, key2) <==> a != [] && a[0] == "md" && a[1..] == b)
      && (StorageKey(kp, key1) == LockKey(kp, key2) <==> a != [] && a[0] == "lock" && a[1..] == b)
  {
    var a, b := Components(key1), Components(key2);
    NodesOfKey(prefix, key1);
    NodesOfKey(prefix, key2);
    ComponentsProper(key1);
    ComponentsProper(key2);
    SeparateNodes(prefix, a, b);
  }

  lemma SeparateNodes(prefix: Path, a: Path, b: Path)
    requires Proper(prefix) && Proper(a) && Proper(b)
    ensures Node(prefix, a) == Node(prefix, b) <==> a == b
    ensures Node(prefix, MdPath(a)) == Node(prefix, MdPath(b)) <==> a == b
    ensures Node(prefix, LockPath(a)) == Node(prefix, LockPath(b)) <==> a == b
    ensures Node(prefix, MdPath(a)) != Node(prefix, LockPath(b))
    ensures Node(prefix, a) == Node(prefix, MdPath(b)) <==> a != [] && a[0] == "md" && a[1..] == b
    ensures Node(prefix, a) == Node(prefix, LockPath(b)) <==> a != [] && a[0] == "lock" && a[1..] == b
  {
    NodeInjective(prefix, a, b);
    NodeInjective(prefix, MdPath(a), MdPath(b));
    NodeInjective(prefix, LockPath(a), LockPath(b));
    NodeInjective(prefix, MdPath(a), LockPath(b));
    NodeInjective(prefix, a, MdPath(b));
    NodeInjective(prefix, a, LockPath(b));
    assert MdPath(a)[1..] == a && MdPath(b)[1..] == b && MdPath(a)[0] == "md";
    assert LockPath(a)[1..] == a && LockPath(b)[1..] == b && LockPath(b)[0] == "lock";
    assert a != [] ==> a == [a[0]] + a[1..];
  }
}
