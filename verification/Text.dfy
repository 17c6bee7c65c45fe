/** The string operations of Go's `strings` package that the storage plugin uses.
    A key is a sequence of characters; the store orders keys lexicographically. */
module Text {

  datatype Option<+T> = None | Some(value: T)

  /** Strict lexicographic order, the order in which a range read returns keys. */
  predicate Below(a: string, b: string) {
    b != [] && (a == [] || a[0] < b[0] || (a[0] == b[0] && Below(a[1..], b[1..])))
  }

  lemma {:induction false} BelowIrreflexive(a: string)
    ensures !Below(a, a)
  {
    if a != [] {
      BelowIrreflexive(a[1..]);
    }
  }

  lemma {:induction false} BelowTransitive(a: string, b: string, c: string)
    requires Below(a, b) && Below(b, c)
    ensures Below(a, c)
  {
    if a != [] && a[0] == b[0] && b[0] == c[0] {
      BelowTransitive(a[1..], b[1..], c[1..]);
    }
  }

  lemma {:induction false} BelowTotal(a: string, b: string)
    ensures a == b || Below(a, b) || Below(b, a)
  {
    if a != [] && b != [] && a[0] == b[0] {
      BelowTotal(a[1..], b[1..]);
      assert a == [a[0]] + a[1..] && b == [b[0]] + b[1..];
    }
  }

  lemma {:induction false} BelowCut(p: string, a: string, b: string)
    ensures Below(p + a, p + b) <==> Below(a, b)
  {
    if p == [] {
      assert p + a == a && p + b == b;
    } else {
      BelowCut(p[1..], a, b);
      assert (p + a)[1..] == p[1..] + a && (p + b)[1..] == p[1..] + b;
    }
  }

  predicate Ascending(ks: seq<string>) {
    forall i, j | 0 <= i < j < |ks| :: Below(ks[i], ks[j])
  }

  /** `strings.Split` for a one-character separator. */
  function Split(s: string, sep: char): (parts: seq<string>)
    ensures parts != []
    ensures forall p | p in parts :: sep !in p
  {
    if s == [] then [[]] else PrependTo(s[0], Split(s[1..], sep), sep)
  }

  /** One more character at the front: a new part, or part of the first. */
  function PrependTo(c: char, parts: seq<string>, sep: char): seq<string>
    requires parts != []
  {
    if c == sep then [[]] + parts else [[c] + parts[0]] + parts[1..]
  }

  lemma PrependConcat(c: char, a: seq<string>, b: seq<string>, sep: char)
    requires a != []
    ensures PrependTo(c, a + b, sep) == PrependTo(c, a, sep) + b
  {
    assert (a + b)[1..] == a[1..] + b;
    assert [[]] + (a + b) == [[]] + a + b;
  }

  /** `strings.Join` for a one-character separator. */
  function Join(parts: seq<string>, sep: char): string {
    if parts == [] then []
    else if |parts| == 1 then parts[0]
    else parts[0] + [sep] + Join(parts[1..], sep)
  }

  lemma {:induction false} SplitAtom(s: string, sep: char)
    requires sep !in s
    ensures Split(s, sep) == [s]
  {
    if s != [] {
      SplitAtom(s[1..], sep);
      assert s == [s[0]] + s[1..];
    }
  }

  lemma SplitCons(c: char, s: string, sep: char)
    ensures Split([c] + s, sep) == PrependTo(c, Split(s, sep), sep)
  {
    assert ([c] + s)[1..] == s;
  }

  /** Splitting at one particular separator splits both sides. */
  lemma {:induction false} SplitConcat(a: string, b: string, sep: char)
    ensures Split(a + [sep] + b, sep) == Split(a, sep) + Split(b, sep)
  {
    if a == [] {
      assert a + [sep] + b == [sep] + b;
      SplitCons(sep, b, sep);
    } else {
      var rest := a[1..];
      SplitConcat(rest, b, sep);
      assert a + [sep] + b == [a[0]] + (rest + [sep] + b);
      SplitCons(a[0], rest + [sep] + b, sep);
      PrependConcat(a[0], Split(rest, sep), Split(b, sep), sep);
    }
  }

  lemma {:induction false} SplitJoin(parts: seq<string>, sep: char)
    requires parts != []
    requires forall p | p in parts :: sep !in p
    ensures Split(Join(parts, sep), sep) == parts
  {
    SplitAtom(parts[0], sep);
    if |parts| > 1 {
      SplitJoin(parts[1..], sep);
      SplitConcat(parts[0], Join(parts[1..], sep), sep);
    }
  }

  lemma {:induction false} JoinMember(parts: seq<string>, sep: char, c: char)
    requires exists p :: p in parts && c in p
    ensures c in Join(parts, sep)
  {
    if |parts| > 1 && c !in parts[0] {
      var p :| p in parts && c in p;
      assert p in parts[1..];
      JoinMember(parts[1..], sep, c);
    }
  }

  lemma {:induction false} JoinAvoids(parts: seq<string>, sep: char, c: char)
    requires c != sep && forall p | p in parts :: c !in p
    ensures c !in Join(parts, sep)
  {
    if |parts| > 1 {
      JoinAvoids(parts[1..], sep, c);
    }
  }

  /** `strings.Contains`. */
  predicate Contains(s: string, sub: string) {
    sub <= s || (s != [] && Contains(s[1..], sub))
  }

  lemma {:induction false} ContainsMiddle(u: string, sub: string, v: string)
    ensures Contains(u + sub + v, sub)
  {
    if u == [] {
      assert u + sub + v == sub + v;
    } else {
      ContainsMiddle(u[1..], sub, v);
      assert (u + sub + v)[1..] == u[1..] + sub + v;
    }
  }

  lemma {:induction false} ContainsParts(s: string, sub: string) returns (u: string, v: string)
    requires Contains(s, sub)
    ensures s == u + sub + v
  {
    if sub <= s {
      u, v := [], s[|sub|..];
    } else {
      u, v := ContainsParts(s[1..], sub);
      u := [s[0]] + u;
    }
  }

  /** `strings.TrimPrefix`; `p <= s` is Dafny's prefix test. */
  function TrimPrefix(s: string, p: string): string {
    if p <= s then s[|p|..] else s
  }

  function TrimSuffix(s: string, c: char): string {
    if s != [] && s[|s| - 1] == c then s[..|s| - 1] else s
  }
}
