/** The two options with a normal form of their own: the endpoint list and the key prefix. */
module Config {
  import opened Text
  import opened Base64
  import opened Paths

  /** What the surroundings answer: Go's duration and URL parsers, lower-casing, the file system.
      `schemeOf` is None when the URL does not parse. */
  datatype Host = Host(
    parseDuration: string -> Option<int>,
    schemeOf: string -> Option<string>,
    hostOf: string -> string,
    lower: string -> string,
    fileExists: string -> bool,
    cwd: Option<string>,
    readFile: string -> Option<Bytes>)

  // ------------------------------------------------------------------- endpoints

  /** `unicode.IsSpace`. */
  predicate IsSpace(c: char) {
    || '\t' <= c <= '\r' || c == ' ' || c == '\U{0085}' || c == '\U{00A0}' || c == '\U{1680}'
    || '\U{2000}' <= c <= '\U{200A}' || c == '\U{2028}' || c == '\U{2029}' || c == '\U{202F}'
    || c == '\U{205F}' || c == '\U{3000}'
  }

  function TrimLeft(s: string): string {
    if s != "" && IsSpace(s[0]) then TrimLeft(s[1..]) else s
  }

  function TrimRight(s: string): string {
    if s != "" && IsSpace(s[|s| - 1]) then TrimRight(s[..|s| - 1]) else s
  }

  function TrimSpace(s: string): string {
    TrimRight(TrimLeft(s))
  }

  predicate Accepted(h: Host, server: string) {
    h.schemeOf(server) == Some("http") || h.schemeOf(server) == Some("https")
  }

  function Separator(s: string): char {
    if ';' in s then ';' else ','
  }

  /** The servers of a list, trimmed; None when one of them is not accepted. */
  function TrimAll(h: Host, parts: seq<string>): Option<seq<string>> {
    if parts == [] then Some([])
    else if !Accepted(h, TrimSpace(parts[0])) then None
    else match TrimAll(h, parts[1..]) case None => None case Some(rest) => Some([TrimSpace(parts[0])] + rest)
  }

  function ParseServers(h: Host, s: string): Option<seq<string>> {
    TrimAll(h, Split(s, Separator(s)))
  }

  /** WithServers. */
  method WithServers(h: Host, s: string) returns (servers: Option<seq<string>>)
    ensures servers == ParseServers(h, s)
  {
    var srvs := Split(s, Separator(s));
    var out: seq<string> := [];
    assert srvs[0..] == srvs;
    ghost var all := TrimAll(h, srvs);
    assert all.Some? ==> out + all.value == all.value;
    for i := 0 to |srvs|
      invariant ParseServers(h, s) == Prepend(out, TrimAll(h, srvs[i..]))
    {
      var csrv := TrimSpace(srvs[i]);
      if !Accepted(h, csrv) {
        return None;
      }
      assert srvs[i..][1..] == srvs[i + 1..];
      PrependOne(out, csrv, TrimAll(h, srvs[i + 1..]));
      out := out + [csrv];
    }
    assert srvs[|srvs|..] == [] && out + [] == out;
    servers := Some(out);
  }

  function Prepend(front: seq<string>, rest: Option<seq<string>>): Option<seq<string>> {
    if rest.None? then None else Some(front + rest.value)
  }

  lemma PrependOne(front: seq<string>, x: string, rest: Option<seq<string>>)
    ensures Prepend(front, if rest.None? then None else Some([x] + rest.value)) == Prepend(front + [x], rest)
  {
    if rest.Some? {
      assert front + ([x] + rest.value) == front + [x] + rest.value;
    }
  }

  // What trimming and parsing mean, in terms of the characters and the URL parser alone.

  /** Blanks and line ends are spaces, visible ASCII characters are not. */
  lemma CommonSpaces(c: char)
    ensures c in " \t\n\r" ==> IsSpace(c)
    ensures '!' <= c <= '~' ==> !IsSpace(c)
  {
  }

  predicate Spaces(s: string) {
    forall i | 0 <= i < |s| :: IsSpace(s[i])
  }

  predicate Trimmed(s: string) {
    s != "" ==> !IsSpace(s[0]) && !IsSpace(s[|s| - 1])
  }

  lemma {:induction false} TrimRightPadded(t: string, post: string)
    requires Spaces(post) && (t != "" ==> !IsSpace(t[|t| - 1]))
    ensures TrimRight(t + post) == t
  {
    if post == "" {
      assert t + post == t;
    } else {
      TrimRightPadded(t, post[..|post| - 1]);
      assert (t + post)[..|t + post| - 1] == t + post[..|post| - 1];
      assert (t + post)[|t + post| - 1] == post[|post| - 1];
    }
  }

  lemma {:induction false} TrimLeftPadded(pre: string, t: string)
    requires Spaces(pre) && (t != "" ==> !IsSpace(t[0]))
    ensures TrimLeft(pre + t) == t
  {
    if pre == "" {
      assert pre + t == t;
    } else {
      TrimLeftPadded(pre[1..], t);
      assert (pre + t)[1..] == pre[1..] + t;
    }
  }

  /** Trimming removes exactly the spaces around a text that neither starts nor ends with one. */
  lemma TrimPadded(pre: string, t: string, post: string)
    requires Spaces(pre) && Spaces(post) && Trimmed(t)
    ensures TrimSpace(pre + t + post) == t
  {
    if t == "" {
      assert pre + t + post == (pre + post) + "";
      TrimLeftPadded(pre + post, "");
      TrimRightPadded("", "");
    } else {
      assert pre + t + post == pre + (t + post);
      TrimLeftPadded(pre, t + post);
      TrimRightPadded(t, post);
    }
  }

  /** The schemes etcd endpoints may have. */
  predicate HttpScheme(h: Host, e: string) {
    h.schemeOf(e) in {Some("http"), Some("https")}
  }

  lemma {:induction false} TrimAllExact(h: Host, parts: seq<string>, es: seq<string>)
    requires |es| == |parts| && forall i | 0 <= i < |parts| :: TrimSpace(parts[i]) == es[i]
    ensures TrimAll(h, parts) == if forall e | e in es :: HttpScheme(h, e) then Some(es) else None
  {
    if parts == [] {
      assert es == [];
    } else {
      var rest := es[1..];
      assert es == [es[0]] + rest && es[0] in es && TrimSpace(parts[0]) == es[0];
      TrimAllExact(h, parts[1..], rest);
      assert (forall e | e in es :: HttpScheme(h, e))
        <==> HttpScheme(h, es[0]) && forall e | e in rest :: HttpScheme(h, e);
    }
  }

  predicate Free(parts: seq<string>, c: char) {
    forall i | 0 <= i < |parts| :: c !in parts[i]
  }

  /** What WithServers makes of any list of pieces, in terms of the URL parser: the trimmed pieces if all have
      scheme http or https, else a failure. The pieces may be joined by commas if they hold neither
      separator, and two or more by semicolons if they hold no semicolon. */
  lemma ServersExact(h: Host, pieces: seq<string>, es: seq<string>)
    requires pieces != [] && |es| == |pieces| && forall i | 0 <= i < |pieces| :: TrimSpace(pieces[i]) == es[i]
    ensures var r := if forall e | e in es :: HttpScheme(h, e) then Some(es) else None;
      && (Free(pieces, ',') && Free(pieces, ';') ==> ParseServers(h, Join(pieces, ',')) == r)
      && (Free(pieces, ';') && |pieces| > 1 ==> ParseServers(h, Join(pieces, ';')) == r)
  {
    TrimAllExact(h, pieces, es);
    if Free(pieces, ',') && Free(pieces, ';') {
      JoinAvoids(pieces, ',', ';');
      SplitJoin(pieces, ',');
    }
    if Free(pieces, ';') && |pieces| > 1 {
      assert Join(pieces, ';')[|pieces[0]|] == ';';
      SplitJoin(pieces, ';');
    }
  }

  /** One endpoint, possibly with spaces around it. */
  lemma OneServer(h: Host, pre: string, e: string, post: string)
    requires Spaces(pre) && Spaces(post) && Trimmed(e) && ',' !in e && ';' !in e
    ensures ParseServers(h, pre + e + post) == Some([e]) <==> HttpScheme(h, e)
  {
    var piece := pre + e + post;
    TrimPadded(pre, e, post);
    SpaceIsNoSeparator(pre);
    SpaceIsNoSeparator(post);
    assert Free([piece], ',') && Free([piece], ';');
    ServersExact(h, [piece], [e]);
    assert Join([piece], ',') == piece;
    assert HttpScheme(h, e) <==> forall x | x in [e] :: HttpScheme(h, x);
  }

  lemma SpaceIsNoSeparator(s: string)
    requires Spaces(s)
    ensures ',' !in s && ';' !in s
  {
  }

  /** An endpoint that survives both separators. */
  predicate PlainEndpoint(h: Host, e: string) {
    TrimSpace(e) == e && Accepted(h, e) && ',' !in e && ';' !in e
  }

  lemma {:induction false} TrimAllFixed(h: Host, es: seq<string>)
    ensures TrimAll(h, es) == Some(es) <==> forall e | e in es :: TrimSpace(e) == e && Accepted(h, e)
  {
    if es != [] {
      TrimAllFixed(h, es[1..]);
      assert es == [es[0]] + es[1..];
    }
  }

  lemma {:induction false} TrimAllPieces(h: Host, parts: seq<string>, c: char)
    requires forall p | p in parts :: c !in p
    ensures var all := TrimAll(h, parts);
      all.Some? ==> |all.value| == |parts| && forall e | e in all.value :: c !in e
  {
    if parts != [] {
      assert parts[0] in parts;
      TrimSpaceWithin(parts[0], c);
      TrimAllPieces(h, parts[1..], c);
    }
  }

  lemma {:induction false} TrimRightWithin(s: string, c: char)
    requires c !in s
    ensures c !in TrimRight(s)
  {
    if s != "" {
      TrimRightWithin(s[..|s| - 1], c);
    }
  }

  lemma {:induction false} TrimSpaceWithin(s: string, c: char)
    requires c !in s
    ensures c !in TrimSpace(s)
    decreases |s|
  {
    if s != "" && IsSpace(s[0]) {
      TrimSpaceWithin(s[1..], c);
    } else {
      TrimRightWithin(s, c);
    }
  }

  /** WithServers undoes the join with commas (or semicolons) exactly for the non-empty lists of
      trimmed, accepted endpoints without comma or semicolon; for every other list it does not. */
  lemma ServersRoundTrip(h: Host, es: seq<string>)
    ensures ParseServers(h, Join(es, ',')) == Some(es) <==> es != [] && forall e | e in es :: PlainEndpoint(h, e)
  {
    var s := Join(es, ',');
    if ';' in s {
      TrimAllPieces(h, Split(s, ';'), ';');
      if forall e | e in es :: ';' !in e {
        JoinAvoids(es, ',', ';');
      }
    } else if es == [] {
    } else if forall e | e in es :: ',' !in e {
      SplitJoin(es, ',');
      TrimAllFixed(h, es);
      NoSemicolons(es);
    } else {
      TrimAllPieces(h, Split(s, ','), ',');
    }
  }

  lemma NoSemicolons(es: seq<string>)
    requires ';' !in Join(es, ',')
    ensures forall e | e in es :: ';' !in e
  {
    if exists e :: e in es && ';' in e {
      JoinMember(es, ',', ';');
    }
  }

  lemma SemicolonsParseToo(h: Host, es: seq<string>)
    requires es != [] && forall e | e in es :: PlainEndpoint(h, e)
    ensures ParseServers(h, Join(es, ';')) == ParseServers(h, Join(es, ',')) == Some(es)
  {
    ServersRoundTrip(h, es);
    TrimAllFixed(h, es);
    if |es| == 1 {
      JoinAvoids(es, ',', ';');
    } else {
      assert Join(es, ';')[|es[0]|] == ';';
      SplitJoin(es, ';');
    }
  }

  // ---------------------------------------------------------------------- prefix

  function Slashes(s: string): string {
    if s == "" then "" else [if s[0] == '\\' then '/' else s[0]] + Slashes(s[1..])
  }

  function TrimSlashes(s: string): string {
    if s != "" && s[0] == '/' then TrimSlashes(s[1..])
    else if s != "" && s[|s| - 1] == '/' then TrimSlashes(s[..|s| - 1])
    else s
  }

  /** WithPrefix. */
  function NormalPrefix(s: string): string {
    Clean("/" + TrimSlashes(Slashes(s)))
  }

  lemma {:induction false} SlashesClean(s: string)
    ensures '\\' !in Slashes(s)
    ensures '\\' !in s ==> Slashes(s) == s
  {
    if s != "" {
      SlashesClean(s[1..]);
    }
  }

  lemma {:induction false} TrimSlashesWithin(s: string, c: char)
    requires c !in s
    ensures c !in TrimSlashes(s)
    decreases |s|
  {
    if s != "" && s[0] == '/' {
      TrimSlashesWithin(s[1..], c);
    } else if s != "" && s[|s| - 1] == '/' {
      TrimSlashesWithin(s[..|s| - 1], c);
    }
  }

  predicate Without(q: seq<string>, c: char) {
    forall i | 0 <= i < |q| :: c !in q[i]
  }

  lemma {:induction false} ComponentsWithout(s: string, c: char)
    requires c !in s
    ensures Without(Split(s, '/'), c)
  {
    if s != "" {
      ComponentsWithout(s[1..], c);
    }
  }

  lemma {:induction false} KeepWithout(parts: seq<string>, c: char)
    requires Without(parts, c)
    ensures Without(Keep(parts), c)
  {
    if parts != [] {
      KeepWithout(parts[1..], c);
    }
  }

  lemma {:induction false} ResolveWithout(done: Path, todo: Path, c: char)
    requires Without(done, c) && Without(todo, c)
    ensures Without(Resolve(done, todo, true), c)
    decreases |todo|
  {
    if todo != [] {
      if todo[0] != ".." {
        ResolveWithout(done + [todo[0]], todo[1..], c);
      } else if done != [] && done[|done| - 1] != ".." {
        ResolveWithout(done[..|done| - 1], todo[1..], c);
      } else {
        ResolveWithout(done, todo[1..], c);
      }
    }
  }

  lemma {:induction false} RenderWithout(q: Path, c: char)
    requires Without(q, c) && c != '/'
    ensures c !in Render(q)
  {
    if q != [] {
      RenderWithout(q[1..], c);
    }
  }

  /** The normalised prefix is a clean rooted path, without backslash, empty, "." or ".." component. */
  lemma PrefixIsClean(s: string) returns (q: Path)
    ensures Proper(q) && NormalPrefix(s) == Abs(q) && '\\' !in NormalPrefix(s)
  {
    var t := "/" + TrimSlashes(Slashes(s));
    SlashesClean(s);
    TrimSlashesWithin(Slashes(s), '\\');
    ComponentsWithout(t, '\\');
    KeepWithout(Split(t, '/'), '\\');
    ResolveWithout([], Components(t), '\\');
    q := CleanRooted(t);
    CleanWithout(t);
  }

  lemma CleanWithout(t: string)
    requires t != "" && t[0] == '/' && Without(Resolve([], Components(t), true), '\\')
    ensures '\\' !in Clean(t)
  {
    RenderWithout(Resolve([], Components(t), true), '\\');
  }

  lemma CleanPrefixFixed(q: Path)
    requires Proper(q) && '\\' !in Abs(q)
    ensures NormalPrefix(Abs(q)) == Abs(q)
  {
    SlashesClean(Abs(q));
    ComponentsAbs(q);
    assert ".." !in q;
    ResolveProper([], q, true);
    if q == [] {
      assert TrimSlashes("/") == TrimSlashes("/"[1..]) == "";
      assert "/" + "" == "/";
    } else {
      RenderEnd(q);
      RenderInner(q);
      assert "/" + Render(q)[1..] == Render(q);
    }
    assert "/" + TrimSlashes(Abs(q)) == Abs(q);
    assert Clean(Abs(q)) == Abs([] + q);
    assert [] + q == q;
  }

  lemma RenderInner(q: Path)
    requires Proper(q) && q != [] && Render(q)[|Render(q)| - 1] != '/'
    ensures TrimSlashes(Render(q)) == Render(q)[1..] && Render(q)[0] == '/'
  {
    assert Atom(q[0]);
    var r := Render(q);
    assert r == "/" + q[0] + Render(q[1..]);
    assert r[1] == q[0][0];
    assert TrimSlashes(r) == TrimSlashes(r[1..]);
    assert r[1..][0] != '/' && r[1..][|r[1..]| - 1] != '/';
  }

  lemma PrefixIdempotent(s: string)
    ensures NormalPrefix(NormalPrefix(s)) == NormalPrefix(s)
  {
    var q := PrefixIsClean(s);
    CleanPrefixFixed(q);
  }

  /** Backslashes become slashes, every other character stays. */
  lemma {:induction false} SlashesAt(s: string, i: nat)
    requires i < |s|
    ensures |Slashes(s)| == |s| && Slashes(s)[i] == if s[i] == '\\' then '/' else s[i]
  {
    if i == 0 {
      SlashesLength(s[1..]);
    } else {
      SlashesAt(s[1..], i - 1);
    }
  }

  lemma {:induction false} SlashesLength(s: string)
    ensures |Slashes(s)| == |s|
  {
    if s != "" {
      SlashesLength(s[1..]);
    }
  }

  /** Slashes at the ends separate nothing. */
  lemma {:induction false} TrimSlashesComponents(s: string)
    ensures Components(TrimSlashes(s)) == Components(s)
    decreases |s|
  {
    assert Split("", '/') == [""];
    if s != "" && s[0] == '/' {
      TrimSlashesComponents(s[1..]);
      ComponentsConcat("", s[1..]);
      assert s == "" + "/" + s[1..];
    } else if s != "" && s[|s| - 1] == '/' {
      TrimSlashesComponents(s[..|s| - 1]);
      ComponentsConcat(s[..|s| - 1], "");
      assert s == s[..|s| - 1] + "/" + "";
    }
  }

  /** The normalised prefix, on components: those of the argument with backslashes read as slashes,
      resolved from the root. */
  lemma PrefixComponents(s: string)
    ensures NormalPrefix(s) == Abs(Resolve([], Components(Slashes(s)), true))
    ensures '\\' !in s && NoDotDot(s) ==> NormalPrefix(s) == Abs(Components(s))
  {
    var t := TrimSlashes(Slashes(s));
    TrimSlashesComponents(Slashes(s));
    ComponentsConcat("", t);
    assert "/" + t == "" + "/" + t;
    assert Split("", '/') == [""];
    if '\\' !in s && NoDotDot(s) {
      SlashesClean(s);
      ResolveProper([], Components(s), true);
      assert [] + Components(s) == Components(s);
    }
  }
}
