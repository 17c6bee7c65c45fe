/** What the lock protocol guarantees, and under which condition. */
module LockSafety {
  import opened Text
  import opened Etcd
  import opened Paths
  import opened Names
  import opened FileStore
  import opened Protocol
  import opened Invariants

  // --------------------------------------------------- without any restriction

  /** Unlock only ever revokes a lease that was granted to its own token for its own path,
      even when the record was overwritten since it was read; and the revocation deletes nothing. */
  lemma RevokesOwnLease(c: Setup, trace: seq<State>, acts: seq<Action>, i: nat)
    requires IsRun(c, trace, acts) && i < |acts| && acts[i].Revoke?
    ensures var pc := trace[i].Proc(acts[i].p);
      && pc.UnlockRevoking?
      && Granted(trace[i].grants, pc.lease, pc.token, Components(pc.key))
      && trace[i + 1].store.kv == trace[i].store.kv
      && trace[i + 1].store.leases == trace[i].store.leases - {pc.lease}
  {
    RunKeepsBase(c, trace, acts, i);
    assert ProcOk(trace[i].grants, trace[i].Proc(acts[i].p));
    EndLeaseKeepsKeys(trace[i].store, trace[i].Proc(acts[i].p).lease);
  }

  /** Every stored lock record carries a lease granted to its own token on its own path. */
  lemma RecordCarriesOwnLease(c: Setup, trace: seq<State>, acts: seq<Action>, i: nat, key: string)
    requires IsRun(c, trace, acts) && i < |trace|
    requires NoDotDot(key) && Components(key) != [] && LockValue(c, trace[i], key).Some?
    ensures LockValue(c, trace[i], key).value.Mutex?
    ensures var l := LockValue(c, trace[i], key).value.lock;
      Granted(trace[i].grants, l.lease, l.token, Components(key))
  {
    RunKeepsBase(c, trace, acts, i);
    LockValueIsLatest(c, trace[i], key);
    LatestGranted(c, trace[i], Components(key));
  }

  /** The action writes a record at the lock path q. */
  predicate WritesLock(s: State, a: Action, q: Path) {
    a.PutLock? && s.Proc(a.p).LockStamped? && Components(s.Proc(a.p).key) == q
  }

  lemma StepKeepsRecords(c: Setup, s: State, a: Action, q: Path)
    requires Enabled(c, s, a)
    ensures WritesLock(s, a, q) ==> Apply(c, s, a).Records(q) == s.Records(q) + [Written(s.Proc(a.p))]
    ensures !WritesLock(s, a, q) ==> Apply(c, s, a).Records(q) == s.Records(q)
  {
  }

  lemma {:induction false} HistoryGrows(c: Setup, trace: seq<State>, acts: seq<Action>, i: nat, j: nat, q: Path)
    requires IsRun(c, trace, acts) && i <= j < |trace|
    ensures trace[i].Records(q) <= trace[j].Records(q)
    ensures (forall m | i <= m < j :: !WritesLock(trace[m], acts[m], q)) ==> trace[j].Records(q) == trace[i].Records(q)
    decreases j
  {
    if i < j {
      HistoryGrows(c, trace, acts, i, j - 1, q);
      assert Next(c, trace[j - 1], acts[j - 1], trace[j]);
      StepKeepsRecords(c, trace[j - 1], acts[j - 1], q);
    }
  }

  /** Nothing ever removes a stored lock record: whatever happens in between, Unlock and lease expiry
      included, a lock key once present is present in every later state, with the same value unless
      some client has put another record there. */
  lemma RecordsStay(c: Setup, trace: seq<State>, acts: seq<Action>, i: nat, j: nat, key: string)
    requires IsRun(c, trace, acts) && i <= j < |trace|
    requires NoDotDot(key) && Components(key) != []
    ensures LockValue(c, trace[i], key).Some? ==> LockValue(c, trace[j], key).Some?
    ensures (forall m | i <= m < j :: !WritesLock(trace[m], acts[m], Components(key))) ==>
      LockValue(c, trace[j], key) == LockValue(c, trace[i], key)
  {
    HistoryGrows(c, trace, acts, i, j, Components(key));
    RunKeepsBase(c, trace, acts, i);
    RunKeepsBase(c, trace, acts, j);
    LockNodeIsLatest(c, trace[i], key);
    LockNodeIsLatest(c, trace[j], key);
  }

  /** What another acquire of the key would decide in this state. */
  predicate MayTake(c: Setup, s: State, key: string, token: Token) {
    OkToSet(c, Decoded(LockValue(c, s, key)), token, s.now)
  }

  predicate StepOf(a: Action, p: Pid) {
    !(a.Tick? || a.ForeignWrite? || a.Expire? || a.Delete?) && a.p == p
  }

  /** An Unlock attempt of client p that returns nil: its Get is step i, its last step is j. Other
      clients may take any steps in between. */
  ghost predicate UnlockReturns(c: Setup, trace: seq<State>, acts: seq<Action>, p: Pid, i: nat, j: nat)
    requires |trace| == |acts| + 1
  {
    && i <= j < |acts|
    && acts[i] == ReadUnlock(p) && trace[i].Proc(p).UnlockBegin?
    && if LockValue(c, trace[i], trace[i].Proc(p).key).None? then j == i
       else i < j && acts[j] == Revoke(p, true) && forall m | i < m < j :: !StepOf(acts[m], p)
  }

  /** Unlock is meant to free the lock. Whatever other clients do in between, its last step changes
      nothing about who may take the lock. If nobody writes the record meanwhile, then afterwards the
      record is still stored as read, and another token may take the lock if and only if there was no
      record or it is LockTimeout old by then: exactly if it could have without the Unlock. */
  lemma UnlockFreesIff(c: Setup, trace: seq<State>, acts: seq<Action>, p: Pid, i: nat, j: nat, other: Token)
    requires IsRun(c, trace, acts) && UnlockReturns(c, trace, acts, p, i, j) && other != trace[i].Proc(p).token
    ensures var key := trace[i].Proc(p).key;
      && LockValue(c, trace[j + 1], key) == LockValue(c, trace[j], key)
      && (MayTake(c, trace[j + 1], key, other) <==> MayTake(c, trace[j], key, other))
      && ((forall m | i <= m < j :: !WritesLock(trace[m], acts[m], Components(key))) ==>
           && LockValue(c, trace[j + 1], key) == LockValue(c, trace[i], key)
           && (MayTake(c, trace[j + 1], key, other) <==>
                var l := Decoded(LockValue(c, trace[i], key));
                l.None? || trace[j + 1].now - l.value.obtained >= c.timeout))
  {
    UnlockedKey(c, trace, acts, i);
    UnlockKeepsRecord(c, trace, acts, j, trace[i].Proc(p).key);
    RecordsStay(c, trace, acts, i, j, trace[i].Proc(p).key);
  }

  lemma UnlockKeepsRecord(c: Setup, trace: seq<State>, acts: seq<Action>, j: nat, key: string)
    requires IsRun(c, trace, acts) && j < |acts| && (acts[j].ReadUnlock? || acts[j].Revoke?)
    requires NoDotDot(key) && Components(key) != []
    ensures LockValue(c, trace[j + 1], key) == LockValue(c, trace[j], key) && trace[j + 1].now == trace[j].now
  {
    assert Next(c, trace[j], acts[j], trace[j + 1]);
    assert !WritesLock(trace[j], acts[j], Components(key));
    RecordsStay(c, trace, acts, j, j + 1, key);
  }

  lemma UnlockedKey(c: Setup, trace: seq<State>, acts: seq<Action>, i: nat)
    requires IsRun(c, trace, acts) && i < |acts| && acts[i].ReadUnlock?
    ensures var pc := trace[i].Proc(acts[i].p); pc.UnlockBegin? && NoDotDot(pc.key) && Components(pc.key) != []
    ensures var pc := trace[i].Proc(acts[i].p);
      var l := Decoded(LockValue(c, trace[i], pc.key)); l.Some? ==> l.value.token == pc.token
  {
    RunKeepsBase(c, trace, acts, i);
    assert Enabled(c, trace[i], acts[i]);
    assert ProcOk(trace[i].grants, trace[i].Proc(acts[i].p));
  }

  /** A lease goes only by the revocation of a client that carries it, or when it has run out: whole
      seconds after its grant, less than one second short of LockTimeout. */
  lemma LeaseGone(c: Setup, trace: seq<State>, acts: seq<Action>, i: nat, id: LeaseId)
    requires IsRun(c, trace, acts) && i < |acts|
    requires id in trace[i].store.leases && id !in trace[i + 1].store.leases
    ensures (acts[i].Revoke? && trace[i].Proc(acts[i].p).UnlockRevoking? && trace[i].Proc(acts[i].p).lease == id)
      || (id in trace[i].grants
          && trace[i].now >= trace[i].grants[id].at + c.timeout / 1_000_000_000 * 1_000_000_000
          && trace[i].now + 1_000_000_000 > trace[i].grants[id].at + c.timeout)
  {
    assert Next(c, trace[i], acts[i], trace[i + 1]);
    if !acts[i].Revoke? && acts[i] != Expire(id) {
      LeaseKept(c, trace[i], acts[i], id);
    }
  }

  lemma LeaseKept(c: Setup, s: State, a: Action, id: LeaseId)
    requires Enabled(c, s, a) && id in s.store.leases && !a.Revoke? && a != Expire(id)
    ensures id in Apply(c, s, a).store.leases
  {
  }

  /** What a client may do once it has read the lock key: go on exactly if there is no record, or the
      record is its own, or it is LockTimeout old. So a token may always renew its own record. */
  lemma ApprovedIff(c: Setup, trace: seq<State>, acts: seq<Action>, i: nat)
    requires IsRun(c, trace, acts) && i < |acts| && acts[i].ReadLock?
    ensures var p := acts[i].p;
      var (token, v) := (trace[i].Proc(p).token, LockValue(c, trace[i], trace[i].Proc(p).key));
      Enabled(c, trace[i + 1], Approve(p)) <==>
        || v.None?
        || (v.value.Mutex? && v.value.lock.token == token)
        || (v.value.Mutex? && trace[i].now - v.value.lock.obtained >= c.timeout)
  {
    assert Next(c, trace[i], acts[i], trace[i + 1]);
  }

  // ------------------------------------------------ when every Put finds its guard

  /** The acquire's guard, evaluated at its Put against the record stored there: the stamp is not
      earlier, and if the record is another token's, it is at least LockTimeout old. */
  predicate GuardHolds(c: Setup, s: State, a: Action) {
    a.PutLock? && s.Proc(a.p).LockStamped? ==>
      var pc := s.Proc(a.p);
      var l := Decoded(LockValue(c, s, pc.key));
      l.Some? ==> MayFollow(c, l.value, pc.token, pc.stamp)
  }

  ghost predicate Serial(c: Setup, trace: seq<State>, acts: seq<Action>)
    requires |trace| == |acts| + 1
  {
    forall i {:trigger acts[i]} | 0 <= i < |acts| :: GuardHolds(c, trace[i], acts[i])
  }

  /** Stamps never decrease, and records of different tokens, adjacent or not, are at least
      LockTimeout apart. */
  predicate Spaced(c: Setup, records: seq<Lock>) {
    forall i, j | 0 <= i < j < |records| :: MayFollow(c, records[i], records[j].token, records[j].obtained)
  }

  lemma AppendSpaced(c: Setup, records: seq<Lock>, l: Lock)
    requires Spaced(c, records)
    ensures Spaced(c, records + [l]) <==>
      (records != [] ==> MayFollow(c, records[|records| - 1], l.token, l.obtained))
  {
    var n, records' := |records|, records + [l];
    if records != [] {
      assert records'[n - 1] == records[n - 1] && records'[n] == l;
      if MayFollow(c, records[n - 1], l.token, l.obtained) {
        forall i, j | 0 <= i < j < |records'|
          ensures MayFollow(c, records'[i], records'[j].token, records'[j].obtained)
        {
          if j == n && i < n - 1 {
            assert MayFollow(c, records[i], records[n - 1].token, records[n - 1].obtained);
          }
        }
      }
    }
  }

  lemma StepSpacedIff(c: Setup, s: State, a: Action, q: Path)
    requires Base(c, s) && Enabled(c, s, a) && Spaced(c, s.Records(q))
    ensures Spaced(c, Apply(c, s, a).Records(q)) <==> (WritesLock(s, a, q) ==> GuardHolds(c, s, a))
  {
    StepKeepsRecords(c, s, a, q);
    if WritesLock(s, a, q) {
      var pc := s.Proc(a.p);
      assert ProcOk(s.grants, pc);
      LockValueIsLatest(c, s, pc.key);
      AppendSpaced(c, s.Records(q), Written(pc));
    }
  }

  lemma {:induction false} SerialSpaced(c: Setup, trace: seq<State>, acts: seq<Action>, i: nat, q: Path)
    requires IsRun(c, trace, acts) && Serial(c, trace, acts) && i < |trace|
    ensures Spaced(c, trace[i].Records(q))
  {
    if i > 0 {
      SerialSpaced(c, trace, acts, i - 1, q);
      assert GuardHolds(c, trace[i - 1], acts[i - 1]);
      RunSpacedIff(c, trace, acts, i - 1, q);
    }
  }

  lemma RunSpacedIff(c: Setup, trace: seq<State>, acts: seq<Action>, i: nat, q: Path)
    requires IsRun(c, trace, acts) && i < |acts| && Spaced(c, trace[i].Records(q))
    ensures Spaced(c, trace[i + 1].Records(q))
      <==> (WritesLock(trace[i], acts[i], q) ==> GuardHolds(c, trace[i], acts[i]))
  {
    RunKeepsBase(c, trace, acts, i);
    assert Next(c, trace[i], acts[i], trace[i + 1]);
    StepSpacedIff(c, trace[i], acts[i], q);
  }

  /** Over the whole history of every lock path, stamps never decrease and records of different
      tokens, adjacent or not, are at least LockTimeout apart, if and only if every Put found its
      guard still true. */
  lemma HistorySpacedIff(c: Setup, trace: seq<State>, acts: seq<Action>)
    requires IsRun(c, trace, acts)
    ensures (forall i, q | 0 <= i < |trace| :: Spaced(c, trace[i].Records(q))) <==> Serial(c, trace, acts)
  {
    if Serial(c, trace, acts) {
      forall i, q | 0 <= i < |trace| ensures Spaced(c, trace[i].Records(q)) {
        SerialSpaced(c, trace, acts, i, q);
      }
    } else {
      var i :| 0 <= i < |acts| && !GuardHolds(c, trace[i], acts[i]);
      var q := Components(trace[i].Proc(acts[i].p).key);
      if Spaced(c, trace[i].Records(q)) {
        RunSpacedIff(c, trace, acts, i, q);
        assert !Spaced(c, trace[i + 1].Records(q));
      }
    }
  }

  /** The same for any two records of one path in one state of such a run. */
  lemma HistorySpaced(c: Setup, trace: seq<State>, acts: seq<Action>, i: nat, q: Path, j: nat, k: nat)
    requires IsRun(c, trace, acts) && Serial(c, trace, acts) && i < |trace| && j < k < |trace[i].Records(q)|
    ensures var (l, m) := (trace[i].Records(q)[j], trace[i].Records(q)[k]);
      l.obtained <= m.obtained && (l.token != m.token ==> l.obtained + c.timeout <= m.obtained)
  {
    SerialSpaced(c, trace, acts, i, q);
  }

  // -------------------------------------------------------------- mutual exclusion

  /** The token holds the lock: its lock() returned nil, its Unlock has not returned nil since,
      and LockTimeout has not passed since its latest stamp. */
  predicate Holds(c: Setup, s: State, h: Holder) {
    h in s.holders && s.now < s.holders[h] + c.timeout
  }

  /** At most one of the two holds. */
  predicate Apart(c: Setup, s: State, a: Holder, b: Holder) {
    Holds(c, s, a) && Holds(c, s, b) && a.path == b.path ==> a.token == b.token
  }

  ghost predicate Exclusive(c: Setup, s: State) {
    forall a, b | a in s.holders && b in s.holders :: Apart(c, s, a, b)
  }

  /** A Put whose lock() returns nil finds no other token still holding the lock, or comes so late
      that its own stamp is already LockTimeout old. */
  ghost predicate NobodyElseHolds(c: Setup, s: State, a: Action) {
    a.PutLock? && a.reported && s.Proc(a.p).LockStamped? ==>
      var pc := s.Proc(a.p);
      s.now < pc.stamp + c.timeout ==>
        forall h | h in s.holders :: Holds(c, s, h) && h.path == Components(pc.key) ==> h.token == pc.token
  }

  lemma TimePasses(c: Setup, s: State, a: Action)
    requires Enabled(c, s, a)
    ensures if a.Tick? then s.now <= Apply(c, s, a).now else s.now == Apply(c, s, a).now
  {
  }

  /** How one step changes a holder: it is as before, or it is the one whose Put just returned nil. */
  lemma StepHolder(c: Setup, s: State, a: Action, h: Holder)
    requires Enabled(c, s, a) && h in Apply(c, s, a).holders
    ensures var s' := Apply(c, s, a);
      if a.PutLock? && a.reported && h == Holder(Components(s.Proc(a.p).key), s.Proc(a.p).token)
      then s'.holders[h] == s.Proc(a.p).stamp
      else h in s.holders && s'.holders[h] == s.holders[h]
  {
    if !(a.PutLock? || a.ReadUnlock? || a.Revoke?) {
      HoldersStay(c, s, a);
    }
  }

  lemma HoldersStay(c: Setup, s: State, a: Action)
    requires Enabled(c, s, a) && !(a.PutLock? || a.ReadUnlock? || a.Revoke?)
    ensures Apply(c, s, a).holders == s.holders
  {
  }

  lemma StepKeepsApart(c: Setup, s: State, a: Action, g: Holder, h: Holder)
    requires Enabled(c, s, a) && Exclusive(c, s) && NobodyElseHolds(c, s, a)
    ensures Apart(c, Apply(c, s, a), g, h)
  {
    var s' := Apply(c, s, a);
    if Holds(c, s', g) && Holds(c, s', h) && g.path == h.path && g.token != h.token {
      TimePasses(c, s, a);
      StepHolder(c, s, a, g);
      StepHolder(c, s, a, h);
    }
  }

  lemma {:induction false} AdmittedExclusive(c: Setup, trace: seq<State>, acts: seq<Action>, i: nat)
    requires IsRun(c, trace, acts) && i < |trace|
    requires forall m {:trigger acts[m]} | 0 <= m < |acts| :: NobodyElseHolds(c, trace[m], acts[m])
    ensures Exclusive(c, trace[i])
  {
    if i > 0 {
      AdmittedExclusive(c, trace, acts, i - 1);
      assert Next(c, trace[i - 1], acts[i - 1], trace[i]);
      assert NobodyElseHolds(c, trace[i - 1], acts[i - 1]);
      forall g, h | g in trace[i].holders && h in trace[i].holders ensures Apart(c, trace[i], g, h) {
        StepKeepsApart(c, trace[i - 1], acts[i - 1], g, h);
      }
    }
  }

  lemma PutAdmitted(c: Setup, s: State, a: Action)
    requires Enabled(c, s, a) && Exclusive(c, Apply(c, s, a))
    ensures NobodyElseHolds(c, s, a)
  {
    if a.PutLock? && a.reported {
      var s', pc := Apply(c, s, a), s.Proc(a.p);
      var mine := Holder(Components(pc.key), pc.token);
      forall h | h in s.holders
        ensures s.now < pc.stamp + c.timeout && Holds(c, s, h) && h.path == mine.path ==> h.token == pc.token
      {
        assert Apart(c, s', mine, h);
      }
    }
  }

  /** Exclusion as a condition on who holds the lock at each Put. */
  lemma AdmittedIff(c: Setup, trace: seq<State>, acts: seq<Action>)
    requires IsRun(c, trace, acts)
    ensures (forall i | 0 <= i < |trace| :: Exclusive(c, trace[i]))
      <==> forall m {:trigger acts[m]} | 0 <= m < |acts| :: NobodyElseHolds(c, trace[m], acts[m])
  {
    if forall m {:trigger acts[m]} | 0 <= m < |acts| :: NobodyElseHolds(c, trace[m], acts[m]) {
      forall i | 0 <= i < |trace| ensures Exclusive(c, trace[i]) {
        AdmittedExclusive(c, trace, acts, i);
      }
    } else {
      var m :| 0 <= m < |acts| && !NobodyElseHolds(c, trace[m], acts[m]);
      assert Next(c, trace[m], acts[m], trace[m + 1]);
      if Exclusive(c, trace[m + 1]) {
        PutAdmitted(c, trace[m], acts[m]);
      }
    }
  }

  /** As long as its stamp is younger than LockTimeout, the holder's token is on the latest record. */
  predicate HolderOk(c: Setup, s: State, h: Holder) {
    Holds(c, s, h) ==>
      (var l := Latest(s, h.path); l.Some? && l.value.token == h.token && s.holders[h] <= l.value.obtained)
  }

  predicate StampOk(s: State, p: Pid) {
    s.Proc(p).LockStamped? ==> s.Proc(p).stamp <= s.now
  }

  lemma {:induction false} StampsPast(c: Setup, trace: seq<State>, acts: seq<Action>, i: nat, p: Pid)
    requires IsRun(c, trace, acts) && i < |trace|
    ensures StampOk(trace[i], p)
  {
    if i > 0 {
      StampsPast(c, trace, acts, i - 1, p);
      assert Next(c, trace[i - 1], acts[i - 1], trace[i]);
      StepKeepsStamp(c, trace[i - 1], acts[i - 1], p);
    }
  }

  lemma GivenStamp(c: Setup, trace: seq<State>, acts: seq<Action>, i: nat)
    requires IsRun(c, trace, acts) && i < |acts|
    ensures acts[i].PutLock? ==> StampOk(trace[i], acts[i].p)
  {
    if acts[i].PutLock? {
      StampsPast(c, trace, acts, i, acts[i].p);
    }
  }

  lemma StepKeepsStamp(c: Setup, s: State, a: Action, p: Pid)
    requires Enabled(c, s, a) && StampOk(s, p)
    ensures StampOk(Apply(c, s, a), p)
  {
  }

  /** A Put whose guard is no longer true spares the owner of the stored record: the owner does not hold
      the lock any more, or it is the same token, which then either learns of its new stamp or has none
      that is later. */
  predicate SparesHolder(c: Setup, s: State, a: Action) {
    a.PutLock? && s.Proc(a.p).LockStamped? && !GuardHolds(c, s, a) ==>
      var pc := s.Proc(a.p);
      var l := Decoded(LockValue(c, s, pc.key));
      l.Some? ==>
        var h := Holder(Components(pc.key), l.value.token);
        Holds(c, s, h) ==> h.token == pc.token && (a.reported || s.holders[h] <= pc.stamp)
  }

  ghost predicate Sparing(c: Setup, trace: seq<State>, acts: seq<Action>)
    requires |trace| == |acts| + 1
  {
    forall i {:trigger acts[i]} | 0 <= i < |acts| :: SparesHolder(c, trace[i], acts[i])
  }

  lemma StepKeepsHolder(c: Setup, s: State, a: Action, h: Holder)
    requires Base(c, s) && Enabled(c, s, a) && SparesHolder(c, s, a) && HolderOk(c, s, h)
    requires a.PutLock? ==> StampOk(s, a.p)
    ensures HolderOk(c, Apply(c, s, a), h)
  {
    var s' := Apply(c, s, a);
    if Holds(c, s', h) {
      TimePasses(c, s, a);
      StepHolder(c, s, a, h);
      StepKeepsRecords(c, s, a, h.path);
      if WritesLock(s, a, h.path) {
        assert ProcOk(s.grants, s.Proc(a.p));
        LockValueIsLatest(c, s, s.Proc(a.p).key);
      }
    }
  }

  lemma {:induction false} SparingHolder(c: Setup, trace: seq<State>, acts: seq<Action>, i: nat, h: Holder)
    requires IsRun(c, trace, acts) && Sparing(c, trace, acts) && i < |trace|
    ensures HolderOk(c, trace[i], h)
  {
    if i > 0 {
      var s, a := trace[i - 1], acts[i - 1];
      SparingHolder(c, trace, acts, i - 1, h);
      RunKeepsBase(c, trace, acts, i - 1);
      assert Next(c, s, a, trace[i]) && SparesHolder(c, s, a);
      GivenStamp(c, trace, acts, i - 1);
      StepKeepsHolder(c, s, a, h);
    }
  }

  lemma SparingExclusive(c: Setup, trace: seq<State>, acts: seq<Action>, i: nat)
    requires IsRun(c, trace, acts) && Sparing(c, trace, acts) && i < |trace|
    ensures Exclusive(c, trace[i])
  {
    forall a, b | a in trace[i].holders && b in trace[i].holders ensures Apart(c, trace[i], a, b) {
      SparingHolder(c, trace, acts, i, a);
      SparingHolder(c, trace, acts, i, b);
    }
  }

  /** A Put that does not spare the owner takes its record away. */
  lemma UnsparedLosesRecord(c: Setup, s: State, a: Action)
    requires Base(c, s) && Enabled(c, s, a) && !SparesHolder(c, s, a)
    ensures exists h :: h in Apply(c, s, a).holders && !HolderOk(c, Apply(c, s, a), h)
  {
    var pc := s.Proc(a.p);
    var q := Components(pc.key);
    var h := Holder(q, Decoded(LockValue(c, s, pc.key)).value.token);
    var s' := Apply(c, s, a);
    StepKeepsRecords(c, s, a, q);
    assert s'.holders == if a.reported then s.holders[Holder(q, pc.token) := pc.stamp] else s.holders;
    assert s'.now == s.now && Latest(s', q) == Some(Written(pc));
    assert h in s'.holders && !HolderOk(c, s', h);
  }

  /** Over every run: whoever holds a lock has its own token on the latest record, with no earlier stamp,
      in every state, if and only if every Put finds the acquire's guard true or spares the owner. */
  lemma RecordKeptIff(c: Setup, trace: seq<State>, acts: seq<Action>)
    requires IsRun(c, trace, acts)
    ensures (forall i, h | 0 <= i < |trace| && h in trace[i].holders :: HolderOk(c, trace[i], h))
      <==> Sparing(c, trace, acts)
  {
    if Sparing(c, trace, acts) {
      forall i, h | 0 <= i < |trace| && h in trace[i].holders ensures HolderOk(c, trace[i], h) {
        SparingHolder(c, trace, acts, i, h);
      }
    } else {
      var m :| 0 <= m < |acts| && !SparesHolder(c, trace[m], acts[m]);
      RunKeepsBase(c, trace, acts, m);
      assert Next(c, trace[m], acts[m], trace[m + 1]);
      UnsparedLosesRecord(c, trace[m], acts[m]);
    }
  }

  /** A Put past its guard makes its token a holder: lock() returns nil, before its stamp is LockTimeout old. */
  predicate Effective(c: Setup, s: State, a: Action) {
    a.PutLock? && s.Proc(a.p).LockStamped? && !GuardHolds(c, s, a) ==>
      a.reported && s.now < s.Proc(a.p).stamp + c.timeout
  }

  /** The exact condition for mutual exclusion. In runs whose Puts past their guard all take effect for
      their client (any other Put may be late or lose its reply), at most one token holds each lock in
      every state if and only if each Put finds the acquire's guard still true of the stored record, or
      the owner of that record does not hold the lock any more or is the same token. */
  lemma ExclusionIff(c: Setup, trace: seq<State>, acts: seq<Action>)
    requires IsRun(c, trace, acts)
    requires forall m {:trigger acts[m]} | 0 <= m < |acts| :: Effective(c, trace[m], acts[m])
    ensures (forall i | 0 <= i < |trace| :: Exclusive(c, trace[i])) <==> Sparing(c, trace, acts)
  {
    if Sparing(c, trace, acts) {
      forall i | 0 <= i < |trace| ensures Exclusive(c, trace[i]) {
        SparingExclusive(c, trace, acts, i);
      }
    } else {
      var m :| 0 <= m < |acts| && !SparesHolder(c, trace[m], acts[m]);
      assert Effective(c, trace[m], acts[m]) && Next(c, trace[m], acts[m], trace[m + 1]);
      if Exclusive(c, trace[m + 1]) {
        PutAdmitted(c, trace[m], acts[m]);
      }
    }
  }

  /** Mutual exclusion: in every state of every run whose Puts all find their guard still true, at
      most one token holds a lock path. */
  lemma MutualExclusion(c: Setup, trace: seq<State>, acts: seq<Action>, i: nat, a: Holder, b: Holder)
    requires IsRun(c, trace, acts) && Serial(c, trace, acts) && i < |trace|
    requires Holds(c, trace[i], a) && Holds(c, trace[i], b) && a.path == b.path
    ensures a.token == b.token
  {
    forall m | 0 <= m < |acts| ensures SparesHolder(c, trace[m], acts[m]) {
      assert GuardHolds(c, trace[m], acts[m]);
    }
    SparingHolder(c, trace, acts, i, a);
    SparingHolder(c, trace, acts, i, b);
  }

  // ------------------------------------------- when acquire windows do not overlap

  /** No two clients are between the Get and the Put of an acquire on the same path. */
  predicate NoOverlap(s: State) {
    forall p, r | p in s.procs && r in s.procs && p != r && s.procs[p].InWindow() && s.procs[r].InWindow() ::
      Components(s.procs[p].key) != Components(s.procs[r].key)
  }

  ghost predicate Orderly(trace: seq<State>) {
    forall i | 0 <= i < |trace| :: NoOverlap(trace[i])
  }

  predicate Past(l: Option<Lock>, now: Time) {
    l.Some? ==> l.value.obtained <= now
  }

  /** What client p saw is still the latest record, and its check of it still holds. */
  predicate WindowOk(c: Setup, s: State, p: Pid) {
    var pc := s.Proc(p);
    pc.InWindow() ==>
      && pc.seen == Latest(s, Components(pc.key)) && Past(pc.seen, s.now)
      && (pc.LockApproved? && pc.seen.Some? ==> MayFollow(c, pc.seen.value, pc.token, s.now))
      && (pc.LockStamped? ==> pc.stamp <= s.now && (pc.seen.Some? ==> MayFollow(c, pc.seen.value, pc.token, pc.stamp)))
  }

  lemma LatestPast(c: Setup, trace: seq<State>, acts: seq<Action>, i: nat, q: Path)
    requires IsRun(c, trace, acts) && i < |trace|
    ensures Past(Latest(trace[i], q), trace[i].now)
  {
    if i > 0 {
      var s, a := trace[i - 1], acts[i - 1];
      LatestPast(c, trace, acts, i - 1, q);
      assert Next(c, s, a, trace[i]);
      GivenStamp(c, trace, acts, i - 1);
      StepKeepsPast(c, s, a, q);
    }
  }

  lemma StepKeepsPast(c: Setup, s: State, a: Action, q: Path)
    requires Enabled(c, s, a) && Past(Latest(s, q), s.now)
    requires a.PutLock? ==> StampOk(s, a.p)
    ensures Past(Latest(Apply(c, s, a), q), Apply(c, s, a).now)
  {
    StepKeepsRecords(c, s, a, q);
    TimePasses(c, s, a);
  }

  /** A step of p itself, inside its window or into it. */
  lemma OwnStepKeepsWindow(c: Setup, s: State, a: Action, p: Pid)
    requires Base(c, s) && Enabled(c, s, a) && StepOf(a, p) && WindowOk(c, s, p)
    requires s.Proc(p).LockGranted? ==> Past(Latest(s, Components(s.Proc(p).key)), s.now)
    ensures WindowOk(c, Apply(c, s, a), p)
  {
    if a.ReadLock? {
      assert ProcOk(s.grants, s.Proc(p));
      LockValueIsLatest(c, s, s.Proc(p).key);
    } else if a.Approve? || a.StampLock? {
      CheckedInWindow(c, s, a, p);
    } else {
      LeavesWindow(c, s, a, p);
    }
  }

  lemma CheckedInWindow(c: Setup, s: State, a: Action, p: Pid)
    requires Enabled(c, s, a) && (a.Approve? || a.StampLock?) && a.p == p && WindowOk(c, s, p)
    ensures WindowOk(c, Apply(c, s, a), p)
  {
  }

  lemma LeavesWindow(c: Setup, s: State, a: Action, p: Pid)
    requires Enabled(c, s, a) && StepOf(a, p) && !(a.ReadLock? || a.Approve? || a.StampLock?)
    ensures !Apply(c, s, a).Proc(p).InWindow()
  {
  }

  /** A step of somebody else: a Put goes to another path, since windows do not overlap. */
  lemma OtherStepKeepsWindow(c: Setup, s: State, a: Action, p: Pid)
    requires NoOverlap(s) && Enabled(c, s, a) && !StepOf(a, p) && WindowOk(c, s, p)
    ensures WindowOk(c, Apply(c, s, a), p)
  {
    OtherStays(c, s, a, p);
    TimePasses(c, s, a);
    if s.Proc(p).InWindow() {
      WritesElsewhere(c, s, a, p);
      StepKeepsRecords(c, s, a, Components(s.Proc(p).key));
    }
  }

  lemma OtherStays(c: Setup, s: State, a: Action, p: Pid)
    requires Enabled(c, s, a) && !StepOf(a, p)
    ensures Apply(c, s, a).Proc(p) == s.Proc(p)
  {
    if a.PutLock? || a.ReadUnlock? || a.Revoke? || a.CommitStore? || a.GrantLease? {
      EndsElsewhere(c, s, a, p);
    }
  }

  lemma EndsElsewhere(c: Setup, s: State, a: Action, p: Pid)
    requires a.PutLock? || a.ReadUnlock? || a.Revoke? || a.CommitStore? || a.GrantLease?
    requires Enabled(c, s, a) && a.p != p
    ensures Apply(c, s, a).Proc(p) == s.Proc(p)
  {
  }

  lemma WritesElsewhere(c: Setup, s: State, a: Action, p: Pid)
    requires NoOverlap(s) && Enabled(c, s, a) && !StepOf(a, p) && s.Proc(p).InWindow()
    ensures !WritesLock(s, a, Components(s.Proc(p).key))
  {
  }

  lemma {:induction false} OrderlyWindow(c: Setup, trace: seq<State>, acts: seq<Action>, i: nat, p: Pid)
    requires IsRun(c, trace, acts) && Orderly(trace) && i < |trace|
    ensures WindowOk(c, trace[i], p)
  {
    if i > 0 {
      var s, a := trace[i - 1], acts[i - 1];
      OrderlyWindow(c, trace, acts, i - 1, p);
      assert Next(c, s, a, trace[i]);
      if StepOf(a, p) {
        RunKeepsBase(c, trace, acts, i - 1);
        if s.Proc(p).LockGranted? {
          LatestPast(c, trace, acts, i - 1, Components(s.Proc(p).key));
        }
        OwnStepKeepsWindow(c, s, a, p);
      } else {
        assert NoOverlap(s);
        OtherStepKeepsWindow(c, s, a, p);
      }
    }
  }

  /** If acquire windows on one path never overlap, every Put finds its guard still true; so mutual
      exclusion and the spacing of records hold in such runs. */
  lemma OrderlyIsSerial(c: Setup, trace: seq<State>, acts: seq<Action>)
    requires IsRun(c, trace, acts) && Orderly(trace)
    ensures Serial(c, trace, acts)
  {
    forall i | 0 <= i < |acts| ensures GuardHolds(c, trace[i], acts[i]) {
      var s, a := trace[i], acts[i];
      if a.PutLock? && s.Proc(a.p).LockStamped? {
        OrderlyWindow(c, trace, acts, i, a.p);
        RunKeepsBase(c, trace, acts, i);
        assert ProcOk(s.grants, s.Proc(a.p));
        LockValueIsLatest(c, s, s.Proc(a.p).key);
      }
    }
  }

  /** Mutual exclusion under the hypothesis on windows. */
  lemma OrderlyExclusion(c: Setup, trace: seq<State>, acts: seq<Action>, i: nat, a: Holder, b: Holder)
    requires IsRun(c, trace, acts) && Orderly(trace) && i < |trace|
    requires Holds(c, trace[i], a) && Holds(c, trace[i], b) && a.path == b.path
    ensures a.token == b.token
  {
    OrderlyIsSerial(c, trace, acts);
    MutualExclusion(c, trace, acts, i, a, b);
  }
}
