/** The configuration record: options write its fields one after the other, in whatever order
    Go's map iteration yields them, and the result is validated at the end. */
module Options {
  import opened Text
  import opened Base64
  import opened Paths
  import opened Config

  const SECOND: int := 1_000_000_000
  const MINUTE: int := 60_000_000_000

  datatype TLS = TLS(certFile: string, keyFile: string, caFile: string, serverName: string, skipVerify: bool)

  datatype Auth = Auth(username: string, password: string)

  datatype Connection = Connection(
    dialTimeout: int, keepAliveTime: int, keepAliveTimeout: int, autoSyncInterval: int, requestTimeout: int,
    rejectOldCluster: bool)

  datatype Settings = Settings(
    keyPrefix: string, serverIP: seq<string>, lockTimeout: int,
    caddyFile: Bytes, caddyFilePath: string, disableCaddyLoad: bool,
    tls: TLS, auth: Auth, connection: Connection)

  const DEFAULT := Settings(
    "/caddy", [], 5 * MINUTE, [], "", false, TLS("", "", "", "", false), Auth("", ""),
    Connection(5 * SECOND, 30 * SECOND, 20 * SECOND, 5 * MINUTE, 30 * SECOND, true))

  /** The recognised environment variables, without their common prefix CADDY_CLUSTERING_ETCD_. */
  datatype Var =
    | SERVERS | PREFIX | TIMEOUT | CADDYFILE | CADDYFILE_LOADER
    | TLS_CERT | TLS_KEY | TLS_CA | TLS_SERVER_NAME | TLS_SKIP_VERIFY | USERNAME | PASSWORD
    | DIAL_TIMEOUT | KEEPALIVE_TIME | KEEPALIVE_TIMEOUT | AUTO_SYNC | REQUEST_TIMEOUT | REJECT_OLD

  /** A value of type ConfigOption: the closure of one variable's constructor over its argument. */
  datatype Opt = Opt(v: Var, s: string)

  // --------------------------------------------------------------------- options

  function OrElse<T>(o: Option<T>, default: T): T {
    if o.Some? then o.value else default
  }

  predicate LongEnough(h: Host, s: string) {
    h.parseDuration(s).Some? && h.parseDuration(s).value >= SECOND
  }

  function IsTrue(h: Host, s: string): bool {
    h.lower(s) == "true"
  }

  function Duration(h: Host, s: string): int {
    OrElse(h.parseDuration(s), 0)
  }

  datatype Source = Source(path: string, content: Bytes)

  /** The bootstrap Caddyfile, when it can be read. */
  function ReadCaddyfile(h: Host, s: string): Option<Source> {
    var p := Clean(s);
    if !("/" <= p) && h.cwd.None? then None
    else
      var full := if "/" <= p then p else Join2(h.cwd.value, p);
      match h.readFile(full) case None => None case Some(bytes) => Some(Source(full, bytes))
  }

  /** The working directory, if it is known, is rooted. */
  predicate RootedDir(h: Host) {
    h.cwd.Some? ==> "/" <= h.cwd.value
  }

  /** The rooted clean name of the bootstrap Caddyfile: the components of the working directory, unless
      the argument is rooted itself, and those of the argument, resolved as one. */
  function CaddyfileAt(h: Host, s: string): Option<string> {
    if "/" <= s then Some(Abs(Resolve([], Components(s), true)))
    else if h.cwd.None? then None
    else Some(Abs(Resolve([], Components(h.cwd.value) + Components(s), true)))
  }

  /** Cleaning the argument before it is joined makes no difference to the file read. */
  lemma CaddyfileRead(h: Host, s: string)
    requires RootedDir(h)
    ensures var at := CaddyfileAt(h, s);
      ReadCaddyfile(h, s) ==
        if at.Some? && h.readFile(at.value).Some? then Some(Source(at.value, h.readFile(at.value).value)) else None
  {
    if "/" <= s {
      var q := CleanRooted(s);
    } else {
      CleanRelative(s);
      if h.cwd.Some? {
        JoinRelative(h.cwd.value, s);
      }
    }
  }

  /** The argument is one the option accepts. */
  predicate Fits(h: Host, o: Opt) {
    match o.v
    case SERVERS => ParseServers(h, o.s).Some?
    case TIMEOUT => h.parseDuration(o.s).Some?
    case CADDYFILE_LOADER => h.lower(TrimSpace(o.s)) in {"disable", "enable", ""}
    case TLS_CERT => h.fileExists(o.s)
    case TLS_KEY => h.fileExists(o.s)
    case TLS_CA => h.fileExists(o.s)
    case DIAL_TIMEOUT => LongEnough(h, o.s)
    case KEEPALIVE_TIME => LongEnough(h, o.s)
    case KEEPALIVE_TIMEOUT => LongEnough(h, o.s)
    case AUTO_SYNC => LongEnough(h, o.s)
    case REQUEST_TIMEOUT => LongEnough(h, o.s)
    case _ => true
  }

  /** The fields an accepted option leaves behind. */
  function Written(h: Host, o: Opt, c: Settings): Settings
    requires Fits(h, o)
  {
    match o.v
    case SERVERS => c.(serverIP := ParseServers(h, o.s).value)
    case PREFIX => c.(keyPrefix := NormalPrefix(o.s))
    case TIMEOUT => c.(lockTimeout := Duration(h, o.s))
    case CADDYFILE =>
      (match ReadCaddyfile(h, o.s)
       case None => c
       case Some(source) => c.(caddyFilePath := source.path, caddyFile := source.content))
    case CADDYFILE_LOADER => if h.lower(TrimSpace(o.s)) == "disable" then c.(disableCaddyLoad := true) else c
    case TLS_CERT => c.(tls := c.tls.(certFile := o.s))
    case TLS_KEY => c.(tls := c.tls.(keyFile := o.s))
    case TLS_CA => c.(tls := c.tls.(caFile := o.s))
    case TLS_SERVER_NAME => c.(tls := c.tls.(serverName := o.s))
    case TLS_SKIP_VERIFY => c.(tls := c.tls.(skipVerify := IsTrue(h, o.s)))
    case USERNAME => c.(auth := c.auth.(username := o.s))
    case PASSWORD => c.(auth := c.auth.(password := o.s))
    case DIAL_TIMEOUT => c.(connection := c.connection.(dialTimeout := Duration(h, o.s)))
    case KEEPALIVE_TIME => c.(connection := c.connection.(keepAliveTime := Duration(h, o.s)))
    case KEEPALIVE_TIMEOUT => c.(connection := c.connection.(keepAliveTimeout := Duration(h, o.s)))
    case AUTO_SYNC => c.(connection := c.connection.(autoSyncInterval := Duration(h, o.s)))
    case REQUEST_TIMEOUT => c.(connection := c.connection.(requestTimeout := Duration(h, o.s)))
    case REJECT_OLD => c.(connection := c.connection.(rejectOldCluster := IsTrue(h, o.s)))
  }

  /** Options applied from left to right; None once one of them fails. */
  function Folded(h: Host, opts: seq<Opt>, c: Settings): Option<Settings> {
    if opts == [] then Some(c)
    else if Fits(h, opts[0]) then Folded(h, opts[1..], Written(h, opts[0], c))
    else None
  }

  // ------------------------------------------------------------------ validation

  predicate GoodServer(h: Host, server: string) {
    Accepted(h, server) && h.hostOf(server) != ""
  }

  /** Validate; `given` says whether there were any options. */
  predicate Validated(h: Host, c: Settings, given: bool) {
    && (c.tls.certFile != "" ==>
          c.tls.keyFile != "" && h.fileExists(c.tls.certFile) && h.fileExists(c.tls.keyFile))
    && (c.tls.caFile != "" ==> h.fileExists(c.tls.caFile))
    && (c.auth.username == "" <==> c.auth.password == "")
    && (forall server | server in c.serverIP :: GoodServer(h, server))
    && (given ==> c.serverIP != [])
    && c.lockTimeout >= SECOND
  }

  function Built(h: Host, opts: seq<Opt>): Option<Settings> {
    match Folded(h, opts, DEFAULT)
    case None => None
    case Some(c) => if Validated(h, c, opts != []) then Some(c) else None
  }

  class ClusterConfig {
    var keyPrefix: string
    var serverIP: seq<string>
    var lockTimeout: int
    var caddyFile: Bytes
    var caddyFilePath: string
    var disableCaddyLoad: bool
    var tls: TLS
    var auth: Auth
    var connection: Connection
    var options: seq<Opt>

    function Value(): Settings
      reads this
    {
      Settings(keyPrefix, serverIP, lockTimeout, caddyFile, caddyFilePath, disableCaddyLoad, tls, auth, connection)
    }

    constructor ()
      ensures Value() == DEFAULT && options == []
    {
      keyPrefix, serverIP, lockTimeout := "/caddy", [], 5 * MINUTE;
      caddyFile, caddyFilePath, disableCaddyLoad := [], "", false;
      tls, auth := TLS("", "", "", "", false), Auth("", "");
      connection := Connection(5 * SECOND, 30 * SECOND, 20 * SECOND, 5 * MINUTE, 30 * SECOND, true);
      options := [];
    }

    /** The file that is read is the one named by the working directory and the argument together. When
        it can be read, its path and content are recorded; else nothing changes, nor does any other field. */
    method WithCaddyFile(h: Host, s: string)
      modifies this`caddyFile, this`caddyFilePath
      ensures Value() == Written(h, Opt(CADDYFILE, s), old(Value()))
      ensures var at := CaddyfileAt(h, s);
        RootedDir(h) ==>
          if at.Some? && h.readFile(at.value).Some?
          then caddyFilePath == at.value && h.readFile(caddyFilePath) == Some(caddyFile)
          else caddyFilePath == old(caddyFilePath) && caddyFile == old(caddyFile)
    {
      if RootedDir(h) {
        CaddyfileRead(h, s);
      }
      var p := Clean(s);
      if !("/" <= p) {
        if h.cwd.None? {
          return;
        }
        p := Join2(h.cwd.value, p);
      }
      match h.readFile(p)
      case None =>
        return;
      case Some(content) =>
        caddyFilePath := p;
        caddyFile := content;
    }

    /** The timing options of the connection and the lock. */
    method WithDuration(h: Host, v: Var, s: string) returns (ok: bool)
      requires v in {TIMEOUT, DIAL_TIMEOUT, KEEPALIVE_TIME, KEEPALIVE_TIMEOUT, AUTO_SYNC, REQUEST_TIMEOUT}
      modifies this
      ensures options == old(options)
      ensures ok == Fits(h, Opt(v, s))
      ensures Value() == if ok then Written(h, Opt(v, s), old(Value())) else old(Value())
    {
      match h.parseDuration(s)
      case None =>
        return false;
      case Some(d) =>
        if v != TIMEOUT && d < SECOND {
          return false;
        }
        match v {
          case TIMEOUT => lockTimeout := d;
          case DIAL_TIMEOUT => connection := connection.(dialTimeout := d);
          case KEEPALIVE_TIME => connection := connection.(keepAliveTime := d);
          case KEEPALIVE_TIMEOUT => connection := connection.(keepAliveTimeout := d);
          case AUTO_SYNC => connection := connection.(autoSyncInterval := d);
          case REQUEST_TIMEOUT => connection := connection.(requestTimeout := d);
        }
        return true;
    }

    /** Runs one option's closure; after a failure the record is discarded by the caller. */
    method Apply(h: Host, o: Opt) returns (ok: bool)
      modifies this
      ensures options == old(options)
      ensures ok == Fits(h, o)
      ensures ok ==> Value() == Written(h, o, old(Value()))
    {
      match o.v {
      case SERVERS =>
        var servers := WithServers(h, o.s);
        serverIP := OrElse(servers, []);
        return servers.Some?;
      case PREFIX =>
        keyPrefix := NormalPrefix(o.s);
      case CADDYFILE =>
        WithCaddyFile(h, o.s);
      case CADDYFILE_LOADER =>
        var value := h.lower(TrimSpace(o.s));
        if value == "disable" {
          disableCaddyLoad := true;
        } else if value != "enable" && value != "" {
          return false;
        }
      case TLS_CERT =>
        if !h.fileExists(o.s) { return false; }
        tls := tls.(certFile := o.s);
      case TLS_KEY =>
        if !h.fileExists(o.s) { return false; }
        tls := tls.(keyFile := o.s);
      case TLS_CA =>
        if !h.fileExists(o.s) { return false; }
        tls := tls.(caFile := o.s);
      case TLS_SERVER_NAME =>
        tls := tls.(serverName := o.s);
      case TLS_SKIP_VERIFY =>
        tls := tls.(skipVerify := h.lower(o.s) == "true");
      case USERNAME =>
        auth := auth.(username := o.s);
      case PASSWORD =>
        auth := auth.(password := o.s);
      case REJECT_OLD =>
        connection := connection.(rejectOldCluster := h.lower(o.s) == "true");
      case _ =>
        ok := WithDuration(h, o.v, o.s);
        return;
      }
      return true;
    }

    method Validate(h: Host) returns (ok: bool)
      ensures ok == Validated(h, Value(), options != [])
    {
      if tls.certFile != "" {
        if tls.keyFile == "" || !h.fileExists(tls.certFile) || !h.fileExists(tls.keyFile) {
          return false;
        }
      }
      if tls.caFile != "" && !h.fileExists(tls.caFile) {
        return false;
      }
      if (auth.username == "") != (auth.password == "") {
        return false;
      }
      for i := 0 to |serverIP|
        invariant forall j | 0 <= j < i :: GoodServer(h, serverIP[j])
      {
        if !GoodServer(h, serverIP[i]) {
          return false;
        }
      }
      if serverIP == [] && |options| > 0 {
        return false;
      }
      return lockTimeout >= SECOND;
    }
  }

  /** A configuration, or None for an error. */
  method NewClusterConfig(h: Host, opts: seq<Opt>) returns (c: ClusterConfig, ok: bool)
    ensures ok == Built(h, opts).Some?
    ensures ok ==> c.Value() == Built(h, opts).value && c.options == opts
  {
    c := new ClusterConfig();
    assert opts[0..] == opts;
    for i := 0 to |opts|
      invariant Folded(h, opts, DEFAULT) == Folded(h, opts[i..], c.Value())
      invariant fresh(c)
    {
      assert opts[i..][1..] == opts[i + 1..];
      ok := c.Apply(h, opts[i]);
      if !ok {
        return;
      }
    }
    c.options := opts;
    ok := c.Validate(h);
  }

  // ----------------------------------------------------------------- environment

  /** The process environment; an unset variable reads as the empty string. */
  type Env = Var -> string

  /** What Go's iteration over the table of variables may yield. */
  predicate Iterates(order: seq<Var>) {
    && (forall v: Var :: v in order)
    && (forall i, j | 0 <= i < j < |order| :: order[i] != order[j])
  }

  predicate PairsSet(env: Env) {
    && (env(TLS_CERT) == "" <==> env(TLS_KEY) == "")
    && (env(USERNAME) == "" <==> env(PASSWORD) == "")
  }

  /** The variables that are set, in the given order, with their values. */
  function Given(env: Env, order: seq<Var>): seq<Opt> {
    if order == [] then []
    else if env(order[0]) == "" then Given(env, order[1..])
    else [Opt(order[0], env(order[0]))] + Given(env, order[1..])
  }

  function Lookup(vars: map<Var, string>, v: Var): string {
    if v in vars then vars[v] else ""
  }

  /** validateEnvPairs. */
  predicate ValidateEnvPairs(vars: map<Var, string>) {
    && (Lookup(vars, TLS_CERT) != "" <==> Lookup(vars, TLS_KEY) != "")
    && (Lookup(vars, USERNAME) != "" <==> Lookup(vars, PASSWORD) != "")
  }

  /** ConfigOptsFromEnvironment; `first` and `second` are the orders of its two map iterations. */
  method ConfigOptsFromEnvironment(env: Env, first: seq<Var>, second: seq<Var>) returns (opts: Option<seq<Opt>>)
    requires Iterates(first) && Iterates(second)
    ensures opts == if PairsSet(env) then Some(Given(env, second)) else None
  {
    var vars: map<Var, string> := map[];
    for i := 0 to |first|
      invariant forall v :: v in vars <==> v in first[..i] && env(v) != ""
      invariant forall v | v in vars :: vars[v] == env(v)
    {
      if env(first[i]) != "" {
        vars := vars[first[i] := env(first[i])];
      }
    }
    assert first[..|first|] == first;
    assert forall v: Var :: Lookup(vars, v) == env(v);
    if !ValidateEnvPairs(vars) {
      return None;
    }
    var out := [];
    assert second[0..] == second;
    for i := 0 to |second|
      invariant Given(env, second) == out + Given(env, second[i..])
    {
      assert second[i..][1..] == second[i + 1..];
      if second[i] in vars {
        out := out + [Opt(second[i], vars[second[i]])];
      }
    }
    assert Given(env, second) == out + [] == out;
    opts := Some(out);
  }

  /** The options as one simultaneous assignment: each field from its own variable, or as before. */
  ghost function Fields(h: Host, vars: map<Var, string>): Settings
    requires AllFit(h, vars)
  {
    var caddy := if CADDYFILE in vars then ReadCaddyfile(h, vars[CADDYFILE]) else None;
    Settings(
      if PREFIX in vars then NormalPrefix(vars[PREFIX]) else DEFAULT.keyPrefix,
      if SERVERS in vars then ParseServers(h, vars[SERVERS]).value else DEFAULT.serverIP,
      DurationOf(h, vars, TIMEOUT, DEFAULT.lockTimeout),
      if caddy.Some? then caddy.value.content else DEFAULT.caddyFile,
      if caddy.Some? then caddy.value.path else DEFAULT.caddyFilePath,
      CADDYFILE_LOADER in vars && h.lower(TrimSpace(vars[CADDYFILE_LOADER])) == "disable",
      TLSFields(h, vars), AuthFields(vars), ConnectionFields(h, vars))
  }

  function TLSFields(h: Host, vars: map<Var, string>): TLS {
    TLS(Lookup(vars, TLS_CERT), Lookup(vars, TLS_KEY), Lookup(vars, TLS_CA), Lookup(vars, TLS_SERVER_NAME),
        TLS_SKIP_VERIFY in vars && IsTrue(h, vars[TLS_SKIP_VERIFY]))
  }

  function AuthFields(vars: map<Var, string>): Auth {
    Auth(Lookup(vars, USERNAME), Lookup(vars, PASSWORD))
  }

  function ConnectionFields(h: Host, vars: map<Var, string>): Connection {
    Connection(
      DurationOf(h, vars, DIAL_TIMEOUT, DEFAULT.connection.dialTimeout),
      DurationOf(h, vars, KEEPALIVE_TIME, DEFAULT.connection.keepAliveTime),
      DurationOf(h, vars, KEEPALIVE_TIMEOUT, DEFAULT.connection.keepAliveTimeout),
      DurationOf(h, vars, AUTO_SYNC, DEFAULT.connection.autoSyncInterval),
      DurationOf(h, vars, REQUEST_TIMEOUT, DEFAULT.connection.requestTimeout),
      REJECT_OLD !in vars || IsTrue(h, vars[REJECT_OLD]))
  }

  ghost predicate AllFit(h: Host, vars: map<Var, string>) {
    forall v | v in vars :: Fits(h, Opt(v, vars[v]))
  }

  function DurationOf(h: Host, vars: map<Var, string>, v: Var, default: int): int {
    if v in vars then Duration(h, vars[v]) else default
  }

  /** The environment as a finite map. */
  ghost function VarsOf(env: Env): map<Var, string> {
    map v: Var | env(v) != "" :: env(v)
  }

  /** The configuration an environment describes, without any order. */
  ghost function FromEnvironment(h: Host, env: Env): Option<Settings> {
    var vars := VarsOf(env);
    if PairsSet(env) && AllFit(h, vars) && Validated(h, Fields(h, vars), vars != map[])
    then Some(Fields(h, vars)) else None
  }

  ghost predicate Distinct(opts: seq<Opt>) {
    forall i, j | 0 <= i < j < |opts| :: opts[i].v != opts[j].v
  }

  ghost predicate Apart(vars: map<Var, string>, opts: seq<Opt>) {
    forall i | 0 <= i < |opts| :: opts[i].v !in vars
  }

  ghost function Together(vars: map<Var, string>, opts: seq<Opt>): map<Var, string>
    decreases |opts|
  {
    if opts == [] then vars else Together(vars[opts[0].v := opts[0].s], opts[1..])
  }

  lemma {:induction false} TogetherKeeps(vars: map<Var, string>, opts: seq<Opt>, v: Var)
    requires Distinct(opts) && Apart(vars, opts) && v in vars
    ensures v in Together(vars, opts) && Together(vars, opts)[v] == vars[v]
    decreases |opts|
  {
    if opts != [] {
      TogetherKeeps(vars[opts[0].v := opts[0].s], opts[1..], v);
    }
  }

  lemma FieldsStart(h: Host)
    ensures Fields(h, map[]) == DEFAULT
  {
  }

  predicate InTLS(v: Var) {
    v.TLS_CERT? || v.TLS_KEY? || v.TLS_CA? || v.TLS_SERVER_NAME? || v.TLS_SKIP_VERIFY?
  }

  predicate InAuth(v: Var) {
    v.USERNAME? || v.PASSWORD?
  }

  predicate InConnection(v: Var) {
    || v.DIAL_TIMEOUT? || v.KEEPALIVE_TIME? || v.KEEPALIVE_TIMEOUT? || v.AUTO_SYNC? || v.REQUEST_TIMEOUT?
    || v.REJECT_OLD?
  }

  lemma WriteTLS(h: Host, vars: map<Var, string>, o: Opt, c: Settings)
    requires Fits(h, o) && o.v !in vars && c.tls == TLSFields(h, vars)
    ensures Written(h, o, c).tls == TLSFields(h, vars[o.v := o.s])
    ensures InTLS(o.v) ==> Written(h, o, c) == c.(tls := Written(h, o, c).tls)
  {
  }

  lemma WriteAuth(h: Host, vars: map<Var, string>, o: Opt, c: Settings)
    requires Fits(h, o) && o.v !in vars && c.auth == AuthFields(vars)
    ensures Written(h, o, c).auth == AuthFields(vars[o.v := o.s])
    ensures InAuth(o.v) ==> Written(h, o, c) == c.(auth := Written(h, o, c).auth)
  {
  }

  lemma WriteConnection(h: Host, vars: map<Var, string>, o: Opt, c: Settings)
    requires Fits(h, o) && o.v !in vars && c.connection == ConnectionFields(h, vars)
    ensures Written(h, o, c).connection == ConnectionFields(h, vars[o.v := o.s])
    ensures InConnection(o.v) ==> Written(h, o, c) == c.(connection := Written(h, o, c).connection)
  {
  }

  lemma WriteOthers(h: Host, vars: map<Var, string>, o: Opt, c: Settings, more: map<Var, string>)
    requires AllFit(h, vars) && Fits(h, o) && o.v !in vars && c == Fields(h, vars)
    requires more == vars[o.v := o.s] && AllFit(h, more)
    ensures Written(h, o, c).(tls := c.tls, auth := c.auth, connection := c.connection)
      == Fields(h, more).(tls := c.tls, auth := c.auth, connection := c.connection)
  {
  }

  /** An option whose variable has not been seen extends the simultaneous assignment. */
  lemma WriteExtends(h: Host, vars: map<Var, string>, o: Opt)
    requires AllFit(h, vars) && Fits(h, o) && o.v !in vars
    ensures AllFit(h, vars[o.v := o.s])
    ensures Written(h, o, Fields(h, vars)) == Fields(h, vars[o.v := o.s])
  {
    var c := Fields(h, vars);
    WriteTLS(h, vars, o, c);
    WriteAuth(h, vars, o, c);
    WriteConnection(h, vars, o, c);
    assert AllFit(h, vars[o.v := o.s]);
    WriteOthers(h, vars, o, c, vars[o.v := o.s]);
  }

  lemma {:induction false} FoldedIsFields(h: Host, vars: map<Var, string>, opts: seq<Opt>)
    requires AllFit(h, vars) && Distinct(opts) && Apart(vars, opts)
    ensures var all := Together(vars, opts);
      Folded(h, opts, Fields(h, vars)) == if AllFit(h, all) then Some(Fields(h, all)) else None
    decreases |opts|
  {
    if opts != [] {
      var o := opts[0];
      var more := vars[o.v := o.s];
      if Fits(h, o) {
        WriteExtends(h, vars, o);
        FoldedIsFields(h, more, opts[1..]);
      } else {
        TogetherKeeps(more, opts[1..], o.v);
      }
    }
  }

  lemma {:induction false} GivenTogether(env: Env, order: seq<Var>, vars: map<Var, string>)
    requires forall i, j | 0 <= i < j < |order| :: order[i] != order[j]
    requires forall i | 0 <= i < |order| :: order[i] !in vars
    ensures var opts := Given(env, order);
      && Distinct(opts) && Apart(vars, opts)
      && (forall o | o in opts :: o.v in order)
      && (forall v: Var :: v in Together(vars, opts) <==> v in vars || (v in order && env(v) != ""))
      && (forall v: Var | v in Together(vars, opts) :: Together(vars, opts)[v] == if v in vars then vars[v] else env(v))
    decreases |order|
  {
    if order != [] {
      var v := order[0];
      if env(v) == "" {
        GivenTogether(env, order[1..], vars);
      } else {
        GivenTogether(env, order[1..], vars[v := env(v)]);
      }
    }
  }

  /** Whatever order Go's map iteration takes, the configuration is the one the environment describes. */
  lemma OrderIrrelevant(h: Host, env: Env, order: seq<Var>)
    requires Iterates(order) && PairsSet(env)
    ensures Built(h, Given(env, order)) == FromEnvironment(h, env)
  {
    GivenIsEnvironment(env, order);
    FieldsStart(h);
    FoldedIsFields(h, map[], Given(env, order));
  }

  lemma GivenIsEnvironment(env: Env, order: seq<Var>)
    requires Iterates(order)
    ensures var opts := Given(env, order);
      && Distinct(opts) && Together(map[], opts) == VarsOf(env) && (opts == [] <==> VarsOf(env) == map[])
  {
    var opts := Given(env, order);
    GivenTogether(env, order, map[]);
    assert Together(map[], opts) == VarsOf(env);
    if opts != [] {
      TogetherKeeps(map[][opts[0].v := opts[0].s], opts[1..], opts[0].v);
    }
  }

  // ------------------------------------------------------------------ guarantees

  predicate Durable(c: Connection) {
    && c.dialTimeout >= SECOND && c.keepAliveTime >= SECOND && c.keepAliveTimeout >= SECOND
    && c.autoSyncInterval >= SECOND && c.requestTimeout >= SECOND
  }

  ghost predicate CleanPrefix(prefix: string) {
    exists q: Path :: Proper(q) && prefix == Abs(q)
  }

  lemma DefaultPrefixClean()
    ensures CleanPrefix(DEFAULT.keyPrefix)
  {
    var q := ["caddy"];
    assert Proper(q) && Abs(q) == "/" + "caddy" + Abs([])[1..];
  }

  lemma WrittenKeeps(h: Host, o: Opt, c: Settings)
    requires Fits(h, o) && Durable(c.connection) && CleanPrefix(c.keyPrefix)
    ensures Durable(Written(h, o, c).connection) && CleanPrefix(Written(h, o, c).keyPrefix)
  {
    if o.v == PREFIX {
      var q := PrefixIsClean(o.s);
    }
  }

  lemma {:induction false} FoldedKeeps(h: Host, opts: seq<Opt>, c: Settings)
    requires Durable(c.connection) && CleanPrefix(c.keyPrefix) && Folded(h, opts, c).Some?
    ensures Durable(Folded(h, opts, c).value.connection) && CleanPrefix(Folded(h, opts, c).value.keyPrefix)
    decreases |opts|
  {
    if opts != [] {
      WrittenKeeps(h, opts[0], c);
      FoldedKeeps(h, opts[1..], Written(h, opts[0], c));
    }
  }

  /** What NewClusterConfig guarantees for any options in any order, repeated or not. */
  lemma BuiltGuarantees(h: Host, opts: seq<Opt>)
    requires Built(h, opts).Some?
    ensures var c := Built(h, opts).value;
      && c.lockTimeout >= SECOND && Durable(c.connection) && CleanPrefix(c.keyPrefix)
      && (c.tls.certFile != "" ==> c.tls.keyFile != "")
      && (c.auth.username == "" <==> c.auth.password == "")
      && (opts != [] ==> c.serverIP != [])
      && (forall server | server in c.serverIP :: GoodServer(h, server))
  {
    DefaultPrefixClean();
    FoldedKeeps(h, opts, DEFAULT);
  }

  /** The argument of the last option for v, or the empty string. */
  function LastArgument(opts: seq<Opt>, v: Var): string {
    if opts == [] then ""
    else if opts[|opts| - 1].v == v then opts[|opts| - 1].s
    else LastArgument(opts[..|opts| - 1], v)
  }

  lemma {:induction false} FoldedSnoc(h: Host, opts: seq<Opt>, o: Opt, c: Settings)
    ensures var before := Folded(h, opts, c);
      Folded(h, opts + [o], c) ==
        if before.None? || !Fits(h, o) then None else Some(Written(h, o, before.value))
    decreases |opts|
  {
    if opts == [] {
      assert opts + [o] == [o];
      assert Folded(h, [o][1..], c) == Some(c);
      if Fits(h, o) {
        assert Folded(h, [o][1..], Written(h, o, c)) == Some(Written(h, o, c));
      }
    } else {
      assert (opts + [o])[0] == opts[0] && (opts + [o])[1..] == opts[1..] + [o];
      if Fits(h, opts[0]) {
        FoldedSnoc(h, opts[1..], o, Written(h, opts[0], c));
      }
    }
  }

  lemma {:induction false} LastFilesWin(h: Host, opts: seq<Opt>)
    requires Folded(h, opts, DEFAULT).Some?
    ensures var tls := Folded(h, opts, DEFAULT).value.tls;
      tls.certFile == LastArgument(opts, TLS_CERT) && tls.keyFile == LastArgument(opts, TLS_KEY)
    decreases |opts|
  {
    if opts != [] {
      var front, o := opts[..|opts| - 1], opts[|opts| - 1];
      assert opts == front + [o];
      FoldedSnoc(h, front, o, DEFAULT);
      LastFilesWin(h, front);
      TLSWritten(h, o, Folded(h, front, DEFAULT).value);
    }
  }

  lemma TLSWritten(h: Host, o: Opt, c: Settings)
    requires Fits(h, o)
    ensures Written(h, o, c).tls.certFile == if o.v == TLS_CERT then o.s else c.tls.certFile
    ensures Written(h, o, c).tls.keyFile == if o.v == TLS_KEY then o.s else c.tls.keyFile
  {
  }

  /** Exactly which accepted option lists give certificate and key together: the last key given is
      empty, or there is none, or the last certificate given is not empty. */
  lemma CertificatePairIff(h: Host, opts: seq<Opt>)
    requires Built(h, opts).Some?
    ensures var tls := Built(h, opts).value.tls;
      (tls.certFile == "" <==> tls.keyFile == "") <==>
        LastArgument(opts, TLS_KEY) == "" || LastArgument(opts, TLS_CERT) != ""
  {
    LastFilesWin(h, opts);
  }

  /** From the environment, certificate and key come together in both directions. */
  lemma EnvironmentGuarantees(h: Host, env: Env, order: seq<Var>)
    requires Iterates(order) && PairsSet(env) && Built(h, Given(env, order)).Some?
    ensures var c := Built(h, Given(env, order)).value;
      && (c.tls.certFile == "" <==> c.tls.keyFile == "")
      && (c.tls.certFile != "" ==> h.fileExists(c.tls.certFile) && h.fileExists(c.tls.keyFile))
      && (c.auth.username == "" <==> c.auth.password == "")
      && ((exists v: Var :: env(v) != "") ==> c.serverIP != [])
  {
    OrderIrrelevant(h, env, order);
    assert forall v: Var :: Lookup(VarsOf(env), v) == env(v);
    assert forall v: Var | env(v) != "" :: v in VarsOf(env);
  }

  /** Other lists exist: one key file and one endpoint make a valid configuration. */
  lemma KeyWithoutCertificate(h: Host, key: string, server: string)
    requires key != "" && h.fileExists(key) && GoodServer(h, server) && PlainEndpoint(h, server)
    ensures var b := Built(h, [Opt(SERVERS, server), Opt(TLS_KEY, key)]);
      b.Some? && b.value.tls.keyFile == key && b.value.tls.certFile == ""
  {
    var opts := [Opt(SERVERS, server), Opt(TLS_KEY, key)];
    assert Join([server], ',') == server;
    ServersRoundTrip(h, [server]);
    assert ParseServers(h, server) == Some([server]);
    assert opts[1..] == [Opt(TLS_KEY, key)] && opts[1..][1..] == [];
    var c := DEFAULT.(serverIP := [server], tls := DEFAULT.tls.(keyFile := key));
    assert Written(h, opts[1], Written(h, opts[0], DEFAULT)) == c;
    assert Folded(h, [], c) == Some(c);
    assert Folded(h, opts[1..], Written(h, opts[0], DEFAULT)) == Some(c);
    assert Folded(h, opts, DEFAULT) == Some(c);
  }

  // ------------------------------------- the environment, in terms of the host alone

  /** A duration variable, unset or of a second or more. */
  predicate DurationOk(h: Host, s: string) {
    s != "" ==> h.parseDuration(s).Some? && h.parseDuration(s).value >= 1_000_000_000
  }

  predicate FileOk(h: Host, s: string) {
    s != "" ==> h.fileExists(s)
  }

  /** The pieces of the endpoint list. */
  function Pieces(s: string): seq<string> {
    Split(s, if ';' in s then ';' else ',')
  }

  /** Both pairs whole; endpoints given whenever anything is, all with scheme http or https and a host;
      durations of a second or more; files that exist; a known word for the loader. */
  predicate Acceptable(h: Host, env: Env) {
    && (env(TLS_CERT) == "" <==> env(TLS_KEY) == "")
    && (env(USERNAME) == "" <==> env(PASSWORD) == "")
    && (forall v: Var | env(v) != "" :: env(SERVERS) != "")
    && (env(SERVERS) != "" ==> forall p | p in Pieces(env(SERVERS)) ::
          var e := TrimSpace(p); h.schemeOf(e) in {Some("http"), Some("https")} && h.hostOf(e) != "")
    && DurationOk(h, env(TIMEOUT)) && DurationOk(h, env(DIAL_TIMEOUT)) && DurationOk(h, env(KEEPALIVE_TIME))
    && DurationOk(h, env(KEEPALIVE_TIMEOUT)) && DurationOk(h, env(AUTO_SYNC)) && DurationOk(h, env(REQUEST_TIMEOUT))
    && FileOk(h, env(TLS_CERT)) && FileOk(h, env(TLS_KEY)) && FileOk(h, env(TLS_CA))
    && (env(CADDYFILE_LOADER) != "" ==> h.lower(TrimSpace(env(CADDYFILE_LOADER))) in {"disable", "enable", ""})
  }

  /** Every environment that is accepted, and no other, in whatever order its variables are read. */
  lemma EnvironmentAcceptedIff(h: Host, env: Env, order: seq<Var>)
    requires Iterates(order)
    ensures (PairsSet(env) && Built(h, Given(env, order)).Some?) <==> Acceptable(h, env)
  {
    if PairsSet(env) {
      OrderIrrelevant(h, env, order);
      if forall v: Var | env(v) != "" :: Fits(h, Opt(v, env(v))) {
        FittingAccepted(h, env);
      } else {
        var v: Var :| env(v) != "" && !Fits(h, Opt(v, env(v)));
        assert v in VarsOf(env);
        if Acceptable(h, env) {
          AcceptableFits(h, env);
        }
      }
    }
  }

  lemma FittingAccepted(h: Host, env: Env)
    requires PairsSet(env) && forall v: Var | env(v) != "" :: Fits(h, Opt(v, env(v)))
    ensures FromEnvironment(h, env).Some? <==> Acceptable(h, env)
  {
    var vars := VarsOf(env);
    assert AllFit(h, vars);
    if env(SERVERS) != "" {
      assert Fits(h, Opt(SERVERS, env(SERVERS)));
      ParsedAccepted(h, Pieces(env(SERVERS)));
    }
    AcceptedFields(h, env, vars);
    AcceptableWhenFitting(h, env);
  }

  lemma {:induction false} ServersAcceptedIff(h: Host, parts: seq<string>)
    ensures TrimAll(h, parts).Some?
      <==> forall p | p in parts :: h.schemeOf(TrimSpace(p)) in {Some("http"), Some("https")}
    ensures TrimAll(h, parts).Some? ==> var es := TrimAll(h, parts).value;
      |es| == |parts| && forall i | 0 <= i < |parts| :: es[i] == TrimSpace(parts[i])
  {
    if parts != [] {
      ServersAcceptedIff(h, parts[1..]);
      assert parts == [parts[0]] + parts[1..];
    }
  }

  lemma AcceptableFits(h: Host, env: Env)
    requires Acceptable(h, env)
    ensures forall v: Var | env(v) != "" :: Fits(h, Opt(v, env(v)))
  {
    forall v: Var | env(v) != "" ensures Fits(h, Opt(v, env(v))) {
      if v == SERVERS {
        ServersAcceptedIff(h, Pieces(env(SERVERS)));
      }
    }
  }

  lemma AcceptableWhenFitting(h: Host, env: Env)
    requires PairsSet(env) && forall v: Var | env(v) != "" :: Fits(h, Opt(v, env(v)))
    ensures Acceptable(h, env) <==>
      && (forall v: Var | env(v) != "" :: env(SERVERS) != "")
      && (env(SERVERS) != "" ==> forall e | e in OrElse(ParseServers(h, env(SERVERS)), []) :: h.hostOf(e) != "")
      && (env(TIMEOUT) != "" ==> Duration(h, env(TIMEOUT)) >= SECOND)
  {
    EachFits(h, env);
    if env(SERVERS) != "" {
      ServersAcceptedIff(h, Pieces(env(SERVERS)));
      var parts, es := Pieces(env(SERVERS)), ParseServers(h, env(SERVERS)).value;
      if forall e | e in es :: h.hostOf(e) != "" {
        forall p | p in parts ensures h.hostOf(TrimSpace(p)) != "" {
          var i :| 0 <= i < |parts| && parts[i] == p;
          assert es[i] in es;
        }
      } else {
        var i :| 0 <= i < |es| && h.hostOf(es[i]) == "";
        assert parts[i] in parts;
      }
    }
  }

  /** What fitting says for each variable that the test is not about. */
  lemma EachFits(h: Host, env: Env)
    requires forall v: Var | env(v) != "" :: Fits(h, Opt(v, env(v)))
    ensures env(SERVERS) != "" ==> ParseServers(h, env(SERVERS)).Some?
    ensures env(TIMEOUT) != "" ==> h.parseDuration(env(TIMEOUT)).Some?
    ensures DurationOk(h, env(DIAL_TIMEOUT)) && DurationOk(h, env(KEEPALIVE_TIME))
    ensures DurationOk(h, env(KEEPALIVE_TIMEOUT)) && DurationOk(h, env(AUTO_SYNC))
    ensures DurationOk(h, env(REQUEST_TIMEOUT))
    ensures FileOk(h, env(TLS_CERT)) && FileOk(h, env(TLS_KEY)) && FileOk(h, env(TLS_CA))
    ensures env(CADDYFILE_LOADER) != "" ==> h.lower(TrimSpace(env(CADDYFILE_LOADER))) in {"disable", "enable", ""}
  {
    forall v: Var | env(v) != "" ensures Fits(h, Opt(v, env(v))) {
    }
  }

  function DurationOr(h: Host, s: string, default: int): int {
    match h.parseDuration(s)
    case Some(d) => if s == "" then default else d
    case None => default
  }

  /** The fields of a configuration built from the environment: each from its own variable, or its default. */
  lemma EnvironmentFields(h: Host, env: Env, order: seq<Var>)
    requires Iterates(order) && PairsSet(env) && Built(h, Given(env, order)).Some?
    ensures var c := Built(h, Given(env, order)).value;
      && c.lockTimeout == DurationOr(h, env(TIMEOUT), 300_000_000_000)
      && c.disableCaddyLoad == (env(CADDYFILE_LOADER) != "" && h.lower(TrimSpace(env(CADDYFILE_LOADER))) == "disable")
      && c.tls == TLS(env(TLS_CERT), env(TLS_KEY), env(TLS_CA), env(TLS_SERVER_NAME),
                      env(TLS_SKIP_VERIFY) != "" && h.lower(env(TLS_SKIP_VERIFY)) == "true")
      && c.auth == Auth(env(USERNAME), env(PASSWORD))
      && c.connection == Connection(
           DurationOr(h, env(DIAL_TIMEOUT), 5_000_000_000), DurationOr(h, env(KEEPALIVE_TIME), 30_000_000_000),
           DurationOr(h, env(KEEPALIVE_TIMEOUT), 20_000_000_000), DurationOr(h, env(AUTO_SYNC), 300_000_000_000),
           DurationOr(h, env(REQUEST_TIMEOUT), 30_000_000_000),
           env(REJECT_OLD) == "" || h.lower(env(REJECT_OLD)) == "true")
  {
    OrderIrrelevant(h, env, order);
    RawFields(h, env, VarsOf(env));
  }

  lemma RawFields(h: Host, env: Env, vars: map<Var, string>)
    requires vars == VarsOf(env) && AllFit(h, vars)
    ensures var c := Fields(h, vars);
      && c.lockTimeout == DurationOr(h, env(TIMEOUT), 300_000_000_000)
      && c.disableCaddyLoad == (env(CADDYFILE_LOADER) != "" && h.lower(TrimSpace(env(CADDYFILE_LOADER))) == "disable")
      && c.tls == TLS(env(TLS_CERT), env(TLS_KEY), env(TLS_CA), env(TLS_SERVER_NAME),
                      env(TLS_SKIP_VERIFY) != "" && h.lower(env(TLS_SKIP_VERIFY)) == "true")
      && c.auth == Auth(env(USERNAME), env(PASSWORD))
      && c.connection == Connection(
           DurationOr(h, env(DIAL_TIMEOUT), 5_000_000_000), DurationOr(h, env(KEEPALIVE_TIME), 30_000_000_000),
           DurationOr(h, env(KEEPALIVE_TIMEOUT), 20_000_000_000), DurationOr(h, env(AUTO_SYNC), 300_000_000_000),
           DurationOr(h, env(REQUEST_TIMEOUT), 30_000_000_000),
           env(REJECT_OLD) == "" || h.lower(env(REJECT_OLD)) == "true")
  {
    assert forall v: Var :: v in vars <==> env(v) != "";
    assert forall v: Var :: Lookup(vars, v) == env(v);
    forall v | v in {TIMEOUT, DIAL_TIMEOUT, KEEPALIVE_TIME, KEEPALIVE_TIMEOUT, AUTO_SYNC, REQUEST_TIMEOUT}
      ensures forall default :: DurationOf(h, vars, v, default) == DurationOr(h, env(v), default)
    {
      assert v in vars ==> Fits(h, Opt(v, vars[v]));
    }
  }

  /** The remaining fields: the prefix on components, the endpoints as the trimmed pieces in order, and the
      Caddyfile that the working directory and the argument name together. */
  lemma EnvironmentNames(h: Host, env: Env, order: seq<Var>)
    requires Iterates(order) && PairsSet(env) && Built(h, Given(env, order)).Some?
    ensures var (c, pieces) := (Built(h, Given(env, order)).value, Pieces(env(SERVERS)));
      && c.keyPrefix ==
           (if env(PREFIX) == "" then "/caddy" else Abs(Resolve([], Components(Slashes(env(PREFIX))), true)))
      && (if env(SERVERS) == "" then c.serverIP == []
          else |c.serverIP| == |pieces| && forall i | 0 <= i < |pieces| :: c.serverIP[i] == TrimSpace(pieces[i]))
    ensures RootedDir(h) ==>
      var c := Built(h, Given(env, order)).value;
      var at := CaddyfileAt(h, env(CADDYFILE));
      if env(CADDYFILE) != "" && at.Some? && h.readFile(at.value).Some?
      then c.caddyFilePath == at.value && c.caddyFile == h.readFile(at.value).value
      else c.caddyFilePath == "" && c.caddyFile == []
  {
    OrderIrrelevant(h, env, order);
    var vars := VarsOf(env);
    assert forall v: Var :: v in vars <==> env(v) != "";
    PrefixComponents(env(PREFIX));
    if env(SERVERS) != "" {
      assert Fits(h, Opt(SERVERS, vars[SERVERS]));
      ServersAcceptedIff(h, Pieces(env(SERVERS)));
    }
    if RootedDir(h) {
      CaddyfileRead(h, env(CADDYFILE));
    }
  }

  lemma AcceptedFields(h: Host, env: Env, vars: map<Var, string>)
    requires PairsSet(env) && vars == VarsOf(env) && AllFit(h, vars)
    requires env(SERVERS) != "" ==>
      forall e | e in OrElse(ParseServers(h, env(SERVERS)), []) :: Accepted(h, e)
    requires env(SERVERS) != "" ==> ParseServers(h, env(SERVERS)) != Some([])
    ensures Validated(h, Fields(h, vars), vars != map[]) <==>
      && (forall v: Var | env(v) != "" :: env(SERVERS) != "")
      && (env(SERVERS) != "" ==> forall e | e in OrElse(ParseServers(h, env(SERVERS)), []) :: h.hostOf(e) != "")
      && (env(TIMEOUT) != "" ==> Duration(h, env(TIMEOUT)) >= SECOND)
  {
    assert forall v: Var :: v in vars <==> env(v) != "";
    assert forall v: Var | v in vars :: Fits(h, Opt(v, env(v)));
    assert Fits(h, Opt(TLS_CERT, env(TLS_CERT))) || env(TLS_CERT) == "";
    assert Fits(h, Opt(TLS_KEY, env(TLS_KEY))) || env(TLS_KEY) == "";
    assert Fits(h, Opt(TLS_CA, env(TLS_CA))) || env(TLS_CA) == "";
    if vars != map[] {
      var v :| v in vars;
    }
  }

  lemma {:induction false} ParsedAccepted(h: Host, parts: seq<string>)
    requires TrimAll(h, parts).Some?
    ensures |TrimAll(h, parts).value| == |parts|
    ensures forall e | e in TrimAll(h, parts).value :: Accepted(h, e)
  {
    if parts != [] {
      ParsedAccepted(h, parts[1..]);
    }
  }
}
