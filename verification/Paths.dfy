/** Go's `path` package on slash-separated names, and the correspondence between
    clean rooted names and sequences of components. */
module Paths {
  import opened Text

  type Path = seq<string>

  /** A component that `path.Clean` keeps as it is. */
  predicate Atom(c: string) {
    c != "" && c != "." && c != ".." && '/' !in c
  }

  predicate Proper(q: Path) {
    forall i | 0 <= i < |q| :: Atom(q[i])
  }

  /** The parts `Keep` lets through: proper components and "..". */
  predicate Named(q: Path) {
    forall i | 0 <= i < |q| :: q[i] == ".." || Atom(q[i])
  }

  /** The parts that matter to `path.Clean`: everything but empty parts and ".". */
  function Keep(parts: seq<string>): Path {
    if parts == [] then []
    else if parts[0] == "" || parts[0] == "." then Keep(parts[1..])
    else [parts[0]] + Keep(parts[1..])
  }

  function Components(s: string): Path {
    Keep(Split(s, '/'))
  }

  predicate NoDotDot(s: string) {
    ".." !in Components(s)
  }

  /** Resolution of ".." from left to right; `done` is what has been output so far. */
  function Resolve(done: Path, todo: Path, rooted: bool): Path
    decreases |todo|
  {
    if todo == [] then done
    else if todo[0] != ".." then Resolve(done + [todo[0]], todo[1..], rooted)
    else if done != [] && done[|done| - 1] != ".." then Resolve(done[..|done| - 1], todo[1..], rooted)
    else if rooted then Resolve(done, todo[1..], rooted)
    else Resolve(done + [".."], todo[1..], rooted)
  }

  /** "/a/b/c" for [a, b, c]; empty for the empty path. */
  function Render(q: Path): string {
    if q == [] then "" else "/" + q[0] + Render(q[1..])
  }

  /** The clean rooted name of a path. */
  function Abs(q: Path): string {
    if q == [] then "/" else Render(q)
  }

  /** `path.Clean`. */
  function Clean(s: string): string {
    if s != "" && s[0] == '/' then Abs(Resolve([], Components(s), true))
    else
      var r := Resolve([], Components(s), false);
      if r == [] then "." else Render(r)[1..]
  }

  /** `path.Join` of two elements. */
  function Join2(a: string, b: string): string {
    if a == "" && b == "" then ""
    else if a == "" then Clean(b)
    else Clean(a + "/" + b)
  }

  /** The directory part of `path.Split`: up to and including the last slash. */
  function SplitDir(s: string): string {
    if s == "" || s[|s| - 1] == '/' then s else SplitDir(s[..|s| - 1])
  }

  // ---------------------------------------------------------------- components

  lemma {:induction false} KeepAppend(a: seq<string>, b: seq<string>)
    ensures Keep(a + b) == Keep(a) + Keep(b)
  {
    if a == [] {
      assert a + b == b;
    } else {
      KeepAppend(a[1..], b);
      assert (a + b)[1..] == a[1..] + b;
    }
  }

  lemma {:induction false} KeepNamed(q: Path)
    requires Named(q)
    ensures Keep(q) == q
  {
    if q != [] {
      KeepNamed(q[1..]);
    }
  }

  lemma {:induction false} KeepParts(parts: seq<string>)
    requires forall p | p in parts :: '/' !in p
    ensures Named(Keep(parts))
  {
    if parts != [] {
      KeepParts(parts[1..]);
      assert '/' !in parts[0];
    }
  }

  lemma ComponentsProper(s: string)
    requires NoDotDot(s)
    ensures Proper(Components(s))
  {
    KeepParts(Split(s, '/'));
    var q := Components(s);
    forall i | 0 <= i < |q| ensures Atom(q[i]) {
      assert q[i] in q;
    }
  }

  lemma ComponentsConcat(a: string, b: string)
    ensures Components(a + "/" + b) == Components(a) + Components(b)
  {
    SplitConcat(a, b, '/');
    KeepAppend(Split(a, '/'), Split(b, '/'));
  }

  lemma {:induction false} RenderAppend(a: Path, b: Path)
    ensures Render(a + b) == Render(a) + Render(b)
  {
    if a == [] {
      assert a + b == b;
    } else {
      RenderAppend(a[1..], b);
      assert (a + b)[1..] == a[1..] + b;
    }
  }

  lemma RenderSnoc(parent: Path, name: string)
    ensures Render(parent + [name]) == Render(parent) + "/" + name
  {
    RenderAppend(parent, [name]);
    assert Render([name]) == "/" + name + Render([]);
  }

  lemma RenderEnd(q: Path)
    requires Proper(q) && q != []
    ensures Render(q) != "" && Render(q)[|Render(q)| - 1] != '/'
  {
    RenderSnoc(q[..|q| - 1], q[|q| - 1]);
    assert q == q[..|q| - 1] + [q[|q| - 1]] && Atom(q[|q| - 1]);
  }

  lemma {:induction false} SplitRender(q: Path)
    requires Named(q)
    ensures Split(Render(q), '/') == [""] + q
  {
    if q != [] {
      var last := |q| - 1;
      SplitRender(q[..last]);
      RenderSnoc(q[..last], q[last]);
      assert q[..last] + [q[last]] == q;
      SplitConcat(Render(q[..last]), q[last], '/');
      assert q[last] == ".." || Atom(q[last]);
      SplitAtom(q[last], '/');
      assert [""] + q == ([""] + q[..last]) + [q[last]];
    }
  }

  lemma ComponentsAbs(q: Path)
    requires Proper(q)
    ensures Components(Render(q)) == q && Components(Abs(q)) == q
  {
    SplitRender(q);
    KeepNamed(q);
    assert ([""] + q)[1..] == q;
    if q == [] {
      SplitConcat("", "", '/');
      assert Abs(q) == "" + ['/'] + "";
      assert Split("", '/') == [""];
    }
  }

  lemma AbsInjective(a: Path, b: Path)
    requires Proper(a) && Proper(b)
    ensures Abs(a) == Abs(b) <==> a == b
    ensures Render(a) == Render(b) <==> a == b
  {
    ComponentsAbs(a);
    ComponentsAbs(b);
  }

  lemma {:induction false} ResolveProper(done: Path, todo: Path, rooted: bool)
    requires ".." !in todo
    ensures Resolve(done, todo, rooted) == done + todo
    decreases |todo|
  {
    if todo != [] {
      ResolveProper(done + [todo[0]], todo[1..], rooted);
      assert done + [todo[0]] + todo[1..] == done + todo;
    }
  }

  /** A rooted resolution leaves no "..", so `Clean` of a rooted name is proper. */
  lemma {:induction false} ResolveRooted(done: Path, todo: Path)
    requires Proper(done)
    requires Named(todo)
    ensures Proper(Resolve(done, todo, true))
    decreases |todo|
  {
    if todo != [] {
      assert Named(todo[1..]);
      if todo[0] != ".." {
        assert Atom(todo[0]);
        ResolveRooted(done + [todo[0]], todo[1..]);
      } else if done != [] {
        ResolveRooted(done[..|done| - 1], todo[1..]);
      } else {
        ResolveRooted(done, todo[1..]);
      }
    }
  }

  lemma CleanRooted(s: string) returns (q: Path)
    requires s != "" && s[0] == '/'
    ensures Proper(q) && Clean(s) == Abs(q)
    ensures NoDotDot(s) ==> q == Components(s)
  {
    KeepParts(Split(s, '/'));
    ResolveRooted([], Components(s));
    q := Resolve([], Components(s), true);
    if NoDotDot(s) {
      ResolveProper([], Components(s), true);
    }
  }

  /** Joining a key without ".." to a clean root appends its components. */
  lemma JoinAbs(root: Path, key: string)
    requires Proper(root) && NoDotDot(key)
    ensures Join2(Abs(root), key) == Abs(root + Components(key))
  {
    var s := Abs(root) + "/" + key;
    ComponentsConcat(Abs(root), key);
    ComponentsAbs(root);
    var q := CleanRooted(s);
  }

  lemma ResolveParent(q: Path)
    requires Proper(q)
    ensures Resolve([], q + [".."], true) == if q == [] then [] else q[..|q| - 1]
  {
    ResolveAppend([], q, [".."], true);
    ResolveProper([], q, true);
    assert [] + q == q;
    ResolveOne(q, "..");
    if q != [] {
      assert Atom(q[|q| - 1]);
    }
  }

  /** ".." at the end leads to the parent; the root is its own parent. */
  lemma CleanParent(q: Path)
    requires Proper(q)
    ensures Clean(Render(q) + "/..") == Abs(if q == [] then [] else q[..|q| - 1])
  {
    DotDotComponents();
    ComponentsConcat(Render(q), "..");
    ComponentsAbs(q);
    ResolveParent(q);
    assert Render(q) + "/" + ".." == Render(q) + "/..";
    RootedStart(q);
  }

  lemma DotDotComponents()
    ensures Components("..") == [".."]
  {
    SplitAtom("..", '/');
  }

  lemma RootedStart(q: Path)
    ensures (Render(q) + "/..")[0] == '/'
  {
  }

  // ------------------------------------------------------ names relative to others

  lemma {:induction false} ResolveAppend(done: Path, a: Path, b: Path, rooted: bool)
    ensures Resolve(done, a + b, rooted) == Resolve(Resolve(done, a, rooted), b, rooted)
    decreases |a|
  {
    if a == [] {
      assert a + b == b;
    } else {
      assert (a + b)[0] == a[0] && (a + b)[1..] == a[1..] + b;
      if a[0] != ".." {
        ResolveAppend(done + [a[0]], a[1..], b, rooted);
      } else if done != [] && done[|done| - 1] != ".." {
        ResolveAppend(done[..|done| - 1], a[1..], b, rooted);
      } else if rooted {
        ResolveAppend(done, a[1..], b, rooted);
      } else {
        ResolveAppend(done + [".."], a[1..], b, rooted);
      }
    }
  }

  lemma ResolveOne(done: Path, name: string)
    ensures name != ".." ==> Resolve(done, [name], true) == done + [name]
    ensures name == ".." ==>
      Resolve(done, [name], true) == if done != [] && done[|done| - 1] != ".." then done[..|done| - 1] else done
  {
    assert Resolve(done + [name], [], true) == done + [name];
  }

  /** Resolving a relative name first, and then from a directory, is resolving it from the directory. */
  lemma {:induction false} ResolveRelative(dir: Path, done: Path, todo: Path)
    ensures Resolve(dir, Resolve(done, todo, false), true) == Resolve(Resolve(dir, done, true), todo, true)
    decreases |todo|
  {
    if todo != [] {
      var name, rest := todo[0], todo[1..];
      assert todo == [name] + rest;
      ResolveAppend(Resolve(dir, done, true), [name], rest, true);
      if name == ".." && done != [] && done[|done| - 1] != ".." {
        var front, last := done[..|done| - 1], done[|done| - 1];
        assert done == front + [last];
        ResolveRelative(dir, front, rest);
        ResolveAppend(dir, front, [last], true);
        ResolveOne(Resolve(dir, front, true), last);
        ResolveOne(Resolve(dir, done, true), name);
      } else {
        ResolveRelative(dir, done + [name], rest);
        ResolveAppend(dir, done, [name], true);
      }
    }
  }

  lemma {:induction false} ResolveNamed(done: Path, todo: Path)
    requires Named(done) && Named(todo)
    ensures Named(Resolve(done, todo, false))
    decreases |todo|
  {
    if todo != [] {
      assert Named(todo[1..]);
      if todo[0] != ".." {
        ResolveNamed(done + [todo[0]], todo[1..]);
      } else if done != [] && done[|done| - 1] != ".." {
        ResolveNamed(done[..|done| - 1], todo[1..]);
      } else {
        ResolveNamed(done + [".."], todo[1..]);
      }
    }
  }

  /** The clean form of a relative name is relative and keeps its resolved components. */
  lemma CleanRelative(s: string)
    requires !("/" <= s)
    ensures Components(Clean(s)) == Resolve([], Components(s), false)
    ensures Clean(s) != "" && !("/" <= Clean(s))
  {
    KeepParts(Split(s, '/'));
    ResolveNamed([], Components(s));
    var r := Resolve([], Components(s), false);
    if r == [] {
      SplitAtom(".", '/');
    } else {
      var t := Render(r)[1..];
      assert r[0] != "" && t[0] == r[0][0];
      SplitRender(r);
      SplitConcat("", t, '/');
      assert "" + ['/'] + t == Render(r);
      assert Split(t, '/') == ([""] + Split(t, '/'))[1..] == ([""] + r)[1..] == r;
      KeepNamed(r);
    }
  }

  /** Joining the clean form of a relative name to a rooted directory resolves both as one name. */
  lemma JoinRelative(dir: string, s: string)
    requires "/" <= dir && !("/" <= s)
    ensures Join2(dir, Clean(s)) == Abs(Resolve([], Components(dir) + Components(s), true))
  {
    CleanRelative(s);
    ComponentsConcat(dir, Clean(s));
    var (d, r) := (Components(dir), Resolve([], Components(s), false));
    ResolveAppend([], d, r, true);
    ResolveRelative(Resolve([], d, true), [], Components(s));
    ResolveAppend([], d, Components(s), true);
  }

  // ------------------------------------------------------- prefixes and parents

  lemma BeneathIsPrefix(a: Path, b: Path)
    requires a < b
    ensures Render(a) + "/" <= Render(b)
  {
    var rest := b[|a|..];
    RenderAppend(a, rest);
    assert a + rest == b;
    assert Render(rest)[0] == '/';
    assert Render(b) == Render(a) + "/" + Render(rest)[1..];
  }

  lemma PrefixIsBeneath(a: Path, b: Path, t: string)
    requires Proper(a) && Proper(b) && Render(b) == Render(a) + ['/'] + t
    ensures a < b
  {
    SplitConcat(Render(a), t, '/');
    SplitRender(a);
    SplitRender(b);
    DropFirst(a, b, Split(t, '/'));
  }

  lemma DropFirst(a: Path, b: Path, ts: seq<string>)
    requires ts != [] && [""] + b == [""] + a + ts
    ensures a < b
  {
    assert b == ([""] + b)[1..] == ([""] + a + ts)[1..] == a + ts;
  }

  /** Raw string prefix up to a slash is exactly strict component-wise prefix. */
  lemma BeneathIffPrefix(a: Path, b: Path)
    requires Proper(a) && Proper(b)
    ensures Render(a) + "/" <= Render(b) <==> a < b
  {
    if a < b {
      BeneathIsPrefix(a, b);
    }
    if Render(a) + "/" <= Render(b) {
      PrefixIsBeneath(a, b, Render(b)[|Render(a)| + 1..]);
    }
  }

  lemma {:induction false} SplitDirAppend(x: string, name: string)
    requires '/' !in name
    ensures SplitDir(x + "/" + name) == x + "/"
  {
    var s := x + "/" + name;
    if name == "" {
      assert s == x + "/";
    } else {
      SplitDirAppend(x, name[..|name| - 1]);
      assert s[..|s| - 1] == x + "/" + name[..|name| - 1];
    }
  }

  lemma SplitDirSnoc(parent: Path, name: string)
    requires Atom(name)
    ensures SplitDir(Render(parent + [name])) == Render(parent) + "/"
  {
    RenderSnoc(parent, name);
    SplitDirAppend(Render(parent), name);
  }

  lemma FrontAndLast(q: Path)
    requires Proper(q) && q != []
    ensures q == q[..|q| - 1] + [q[|q| - 1]] && Atom(q[|q| - 1])
  {
  }

  /** The directory part of a rendered path is its parent. */
  lemma SplitDirRender(q: Path)
    requires Proper(q) && q != []
    ensures SplitDir(Render(q)) == Render(q[..|q| - 1]) + "/"
  {
    FrontAndLast(q);
    SplitDirSnoc(q[..|q| - 1], q[|q| - 1]);
  }

  /** "md" as a directory component. */
  predicate HasMdDir(q: Path) {
    exists i: nat :: i + 1 < |q| && q[i] == "md"
  }

  /** Containing "/md/" as text is the same as having a non-final component "md". */
  lemma ContainsMdIff(q: Path)
    requires Proper(q)
    ensures Contains(Render(q), "/md/") <==> HasMdDir(q)
  {
    if HasMdDir(q) {
      var i: nat :| i + 1 < |q| && q[i] == "md";
      var before, after := q[..i], q[i + 1..];
      assert q == before + (["md"] + after);
      RenderAppend(before, ["md"] + after);
      assert (["md"] + after)[1..] == after;
      var tail := Render(after);
      assert tail[0] == '/';
      assert Render(["md"] + after) == "/md" + tail;
      assert Render(q) == Render(before) + "/md/" + tail[1..];
      ContainsMiddle(Render(before), "/md/", tail[1..]);
    }
    if Contains(Render(q), "/md/") {
      var u, v := ContainsParts(Render(q), "/md/");
      MdComponent(q, u, v);
    }
  }

  lemma MdComponent(q: Path, u: string, v: string)
    requires Proper(q) && Render(q) == u + "/md/" + v
    ensures HasMdDir(q)
  {
    SplitRender(q);
    assert Render(q) == u + ['/'] + ("md" + ['/'] + v);
    SplitConcat(u, "md" + ['/'] + v, '/');
    SplitConcat("md", v, '/');
    SplitAtom("md", '/');
    var us, vs := Split(u, '/'), Split(v, '/');
    assert [""] + q == us + (["md"] + vs);
    var i := |us| - 1;
    assert q[i] == ([""] + q)[i + 1] == "md";
  }
}
