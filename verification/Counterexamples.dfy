/** Runs that show why the results about locks need their hypotheses. */
module Counterexamples {
  import opened Text
  import opened Etcd
  import opened Paths
  import opened Base64
  import opened Names
  import opened FileSystem
  import opened FileStore
  import opened Protocol
  import opened Invariants
  import opened LockSafety
  import opened FileSafety

  datatype Run = Run(trace: seq<State>, acts: seq<Action>) {
    ghost predicate Valid(c: Setup) {
      IsRun(c, trace, acts)
    }

    function Last(): State
      requires trace != []
    {
      trace[|trace| - 1]
    }
  }

  const KEY := "k"

  lemma Step(c: Setup, r: Run, a: Action) returns (r': Run)
    requires r.Valid(c) && Enabled(c, r.Last(), a)
    ensures r'.Valid(c) && r'.Last() == Apply(c, r.Last(), a) && r'.trace == r.trace + [r'.Last()]
  {
    var s' := Apply(c, r.Last(), a);
    assert Next(c, r.Last(), a, s');
    r' := Run(r.trace + [s'], r.acts + [a]);
    Extended(c, r, a, s');
  }

  lemma Extended(c: Setup, r: Run, a: Action, s': State)
    requires r.Valid(c) && Next(c, r.Last(), a, s')
    ensures IsRun(c, r.trace + [s'], r.acts + [a])
  {
    var trace, acts := r.trace + [s'], r.acts + [a];
    forall i | 0 <= i < |acts| ensures Next(c, trace[i], acts[i], trace[i + 1]) {
      if i < |r.acts| {
        assert trace[i] == r.trace[i] && trace[i + 1] == r.trace[i + 1] && acts[i] == r.acts[i];
      }
    }
  }

  lemma KeyIsProper()
    ensures NoDotDot(KEY) && Components(KEY) == ["k"]
  {
    SplitAtom(KEY, '/');
  }

  lemma ReadsLatest(c: Setup, r: Run)
    requires r.Valid(c)
    ensures Decodable(LockValue(c, r.Last(), KEY)) && Decoded(LockValue(c, r.Last(), KEY)) == Latest(r.Last(), ["k"])
  {
    KeyIsProper();
    RunKeepsBase(c, r.trace, r.acts, |r.trace| - 1);
    LockValueIsLatest(c, r.Last(), KEY);
  }

  lemma Start(c: Setup) returns (r: Run)
    requires c.Valid()
    ensures r.Valid(c) && Init(c, r.Last())
  {
    r := Run([State(Store(map[], map[], {}), 1, map[], map[], map[], map[], map[])], []);
  }

  lemma UpToGrant(c: Setup, r: Run, p: Pid, token: Token, id: LeaseId) returns (r': Run)
    requires r.Valid(c) && r.Last().Proc(p).Idle? && id !in r.Last().grants
    ensures r'.Valid(c)
    ensures var (s, s') := (r.Last(), r'.Last());
      s' == s.(store := s.store.Grant(id), grants := s.grants[id := Grant(token, ["k"], s.now)])
             .Goto(p, LockGranted(token, KEY, id))
  {
    KeyIsProper();
    r' := Step(c, r, CallLock(p, token, KEY));
    r' := Step(c, r', GrantLease(p, id));
  }

  /** An acquire up to its Get. */
  lemma UpToGet(c: Setup, r: Run, p: Pid, token: Token, id: LeaseId) returns (r': Run)
    requires r.Valid(c) && r.Last().Proc(p).Idle? && id !in r.Last().grants
    ensures r'.Valid(c)
    ensures var (s, s') := (r.Last(), r'.Last());
      s' == s.(store := s.store.Grant(id), grants := s.grants[id := Grant(token, ["k"], s.now)])
             .Goto(p, LockRead(token, KEY, id, Latest(s, ["k"])))
  {
    KeyIsProper();
    r' := UpToGrant(c, r, p, token, id);
    var s := r'.Last();
    assert Latest(s, ["k"]) == Latest(r.Last(), ["k"]);
    ReadsLatest(c, r');
    r' := Step(c, r', ReadLock(p));
    assert r'.Last() == s.Goto(p, LockRead(token, KEY, id, Latest(s, ["k"])));
  }

  /** The rest of an acquire that saw no record. */
  lemma UpToPut(c: Setup, r: Run, p: Pid, token: Token, id: LeaseId) returns (r': Run)
    requires r.Valid(c) && r.Last().Proc(p) == LockRead(token, KEY, id, None)
    ensures r'.Valid(c)
    ensures var (s, s') := (r.Last(), r'.Last());
      && s'.now == s.now && s'.procs == s.procs[p := Idle] && s'.grants == s.grants && s'.store.leases == s.store.leases
      && s'.holders == s.holders[Holder(["k"], token) := s.now]
      && s'.history == s.history[["k"] := s.Records(["k"]) + [Lock(token, s.now, KEY, id)]]
  {
    KeyIsProper();
    r' := Step(c, r, Approve(p));
    r' := Step(c, r', StampLock(p));
    r' := Step(c, r', PutLock(p, true));
  }

  /** Two acquires whose windows overlap both succeed, and two tokens hold the lock at once; the
      second Put comes when its guard is no longer true. */
  lemma OverlapBreaksExclusion(c: Setup) returns (r: Run)
    requires c.Valid() && c.timeout > 0
    ensures r.Valid(c) && !Orderly(r.trace) && !Serial(c, r.trace, r.acts)
    ensures Holds(c, r.Last(), Holder(["k"], "a")) && Holds(c, r.Last(), Holder(["k"], "b"))
  {
    r := Start(c);
    r := UpToGet(c, r, 1, "a", 1);
    r := UpToGet(c, r, 2, "b", 2);
    r := UpToPut(c, r, 1, "a", 1);
    r := UpToPut(c, r, 2, "b", 2);
    var a, b := Holder(["k"], "a"), Holder(["k"], "b");
    assert a.token != b.token;
    if Orderly(r.trace) {
      OrderlyIsSerial(c, r.trace, r.acts);
    }
    if Serial(c, r.trace, r.acts) {
      MutualExclusion(c, r.trace, r.acts, |r.trace| - 1, Holder(["k"], "a"), Holder(["k"], "b"));
    }
  }

  /** The owner of the only record unlocks, and its call returns nil. */
  lemma WholeUnlock(c: Setup, r: Run, p: Pid, l: Lock) returns (r': Run)
    requires r.Valid(c) && r.Last().Proc(p).Idle? && l.lease in r.Last().store.leases
    requires Latest(r.Last(), ["k"]) == Some(l)
    ensures r'.Valid(c)
    ensures var (s, s') := (r.Last(), r'.Last());
      s'.now == s.now && s'.history == s.history && s'.grants == s.grants
      && s'.procs == s.procs[p := Idle] && s'.holders == s.holders - {Holder(["k"], l.token)}
  {
    r' := UpToUnlockGet(c, r, p, l);
    KeyIsProper();
    r' := Step(c, r', Revoke(p, true));
  }

  lemma UpToUnlockGet(c: Setup, r: Run, p: Pid, l: Lock) returns (r': Run)
    requires r.Valid(c) && r.Last().Proc(p).Idle?
    requires Latest(r.Last(), ["k"]) == Some(l)
    ensures r'.Valid(c) && r'.Last() == r.Last().Goto(p, UnlockRevoking(l.token, KEY, l.lease))
  {
    KeyIsProper();
    r' := Step(c, r, CallUnlock(p, l.token, KEY));
    var s := r'.Last();
    assert s == r.Last().Goto(p, UnlockBegin(l.token, KEY));
    ReadsLatest(c, r');
    r' := Step(c, r', ReadUnlock(p));
    assert r'.Last() == s.Goto(p, UnlockRevoking(l.token, KEY, l.lease));
    assert s.procs[p := r'.Last().procs[p]] == r.Last().procs[p := r'.Last().procs[p]];
  }

  /** After a lock and an Unlock that both returned nil nobody holds the lock, yet the record is
      still there and another client's acquire is refused. */
  lemma UnlockedButRefused(c: Setup) returns (r: Run)
    requires c.Valid() && c.timeout > 0
    ensures r.Valid(c) && r.Last().holders == map[]
    ensures r.Last().Proc(2).LockRead? && r.Last().Proc(2).token == "b" && !Enabled(c, r.Last(), Approve(2))
  {
    r := Start(c);
    r := UpToGet(c, r, 1, "a", 1);
    r := UpToPut(c, r, 1, "a", 1);
    var l := Lock("a", r.Last().now, KEY, 1);
    r := WholeUnlock(c, r, 1, l);
    r := UpToGet(c, r, 2, "b", 2);
  }

  // -------------------------------------------------------------------- Metadata

  lemma Stored(c: Setup, r: Run, p: Pid, key: string, data: Bytes) returns (r': Run)
    requires r.Valid(c) && r.Last().Proc(p).Idle? && NoDotDot(key) && FilePath(Components(key))
    ensures r'.Valid(c) && r'.Last().procs == r.Last().procs[p := Idle]
    ensures r'.Last().files == r.Last().files[Components(key) := FileRec(data, r.Last().now, key)]
    ensures |r'.trace| == |r.trace| + 2 && r'.trace[..|r.trace|] == r.trace
    ensures r'.trace[|r.trace|].files == r.Last().files
  {
    r' := Step(c, r, CallStore(p, key, data));
    r' := Step(c, r', CommitStore(p));
  }

  lemma NestedKeys()
    ensures NoDotDot("a") && FilePath(Components("a")) && Components("a") == ["a"]
    ensures NoDotDot("a/b") && FilePath(Components("a/b")) && Components("a/b") == ["a", "b"]
  {
    SplitAtom("a", '/');
    SplitAtom("b", '/');
    SplitConcat("a", "b", '/');
    assert "a" + ['/'] + "b" == "a/b" && ["a"] + ["b"] == ["a", "b"];
    assert Components("a/b") == ["a", "b"];
  }

  /** One file stored beneath "a". */
  lemma DirectoryStored(c: Setup) returns (r: Run)
    requires c.Valid()
    ensures r.Valid(c) && r.Last().procs == map[1 := Idle] && r.Last().files.Keys == {["a", "b"]}
  {
    NestedKeys();
    r := Start(c);
    r := Stored(c, r, 1, "a/b", []);
  }

  /** Then a file at "a", and the file beneath it deleted. */
  lemma DirectoryReplaced(c: Setup) returns (r: Run, i: nat)
    requires c.Valid()
    ensures r.Valid(c) && |r.trace| == i + 4
    ensures r.trace[i].files.Keys == r.trace[i + 1].files.Keys == {["a", "b"]}
    ensures r.trace[i + 2].files.Keys == {["a"], ["a", "b"]} && r.trace[i + 3].files.Keys == {["a"]}
  {
    NestedKeys();
    var r1 := DirectoryStored(c);
    i := |r1.trace| - 1;
    var r2 := Stored(c, r1, 1, "a", []);
    assert r2.trace[i] == r2.trace[..i + 1][i] == r1.Last();
    assert r2.Last().files.Keys == {["a"], ["a", "b"]};
    r := Step(c, r2, Delete("a/b"));
    assert r.Last().files == r2.Last().files - {["a", "b"]};
  }

  lemma OneNested(s: State)
    ensures s.files.Keys == {["a", "b"]} ==> IsDir(s.files, ["a"])
    ensures ["a"] in s.files ==> Present(s, ["a"])
    ensures s.files.Keys == {["a"]} ==> Beneath(s.files, ["a"]) == {}
  {
    var d: Path, q: Path := ["a"], ["a", "b"];
    assert d < q;
    if s.files.Keys == {q} {
      assert q in Beneath(s.files, d);
    }
  }

  /** A directory that is replaced by a file between the two reads of Metadata is reported as
      NotExist, although the path exists in every state from the first read to the second. */
  lemma ReplacedDirectory(c: Setup, now: Time) returns (r: Run, i: nat)
    requires c.Valid()
    ensures r.Valid(c) && i < |r.trace|
    ensures MetadataFrom(c, r.trace[i].store.kv, r.Last().store.kv, "a", now) == StatNotExist
    ensures forall m | i <= m < |r.trace| :: Present(r.trace[m], ["a"])
  {
    NestedKeys();
    r, i := DirectoryReplaced(c);
    forall m | i <= m < |r.trace| ensures Present(r.trace[m], ["a"]) {
      OneNested(r.trace[m]);
      assert m == i || m == i + 1 || m == i + 2 || m == i + 3;
    }
    OneNested(r.trace[i]);
    OneNested(r.Last());
    MetadataDuringRun(c, r.trace, r.acts, i, i + 3, "a", now);
  }
}
