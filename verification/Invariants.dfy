/** What every step keeps, with no restriction on how clients interleave: the keyspace
    represents the files and the latest lock records, no key is ever attached to a lease,
    and every lock record carries a lease granted to its own token for its own path. */
module Invariants {
  import opened Text
  import opened Base64
  import opened Etcd
  import opened Paths
  import opened Names
  import opened FileSystem
  import opened FileStore
  import opened Protocol

  /** The latest record of each lock path. */
  function Current(h: History): Locks {
    map q | q in h && h[q] != [] :: h[q][|h[q]| - 1]
  }

  function Latest(s: State, q: Path): Option<Lock> {
    var records := s.Records(q);
    if records == [] then None else Some(records[|records| - 1])
  }

  predicate Granted(grants: map<LeaseId, Grant>, id: LeaseId, token: Token, q: Path) {
    id in grants && grants[id].token == token && grants[id].path == q
  }

  /** A client works on proper keys, and the lease it carries was granted to its token for its path. */
  predicate ProcOk(grants: map<LeaseId, Grant>, pc: Proc) {
    && (pc.Locking() || pc.Unlocking() ==> NoDotDot(pc.key) && Components(pc.key) != [])
    && (pc.HasLease() ==> Granted(grants, pc.lease, pc.token, Components(pc.key)))
    && (pc.Storing? ==> NoDotDot(pc.key) && FilePath(Components(pc.key)) && pc.stamp > 0)
  }

  predicate RecordsOk(grants: map<LeaseId, Grant>, h: History) {
    forall q | q in h :: forall i | 0 <= i < |h[q]| :: Granted(grants, h[q][i].lease, h[q][i].token, q)
  }

  ghost predicate Base(c: Setup, s: State) {
    && Represents(c, s.store.kv, s.files, Current(s.history))
    && s.now > 0
    && s.store.attached == map[]
    && s.store.leases <= s.grants.Keys
    && RecordsOk(s.grants, s.history)
    && forall p | p in s.procs :: ProcOk(s.grants, s.procs[p])
  }

  lemma LockPathOf(c: Setup, key: string)
    requires c.Valid() && NoDotDot(key)
    ensures Proper(Components(key)) && LockKey(c.KeyPrefix(), key) == c.LockNode(Components(key))
  {
    NodesOfKey(c.prefix, key);
    ComponentsProper(key);
  }

  /** Reading the lock key returns the latest record. */
  lemma LockValueIsLatest(c: Setup, s: State, key: string)
    requires Base(c, s) && NoDotDot(key) && Components(key) != []
    ensures Decodable(LockValue(c, s, key)) && Decoded(LockValue(c, s, key)) == Latest(s, Components(key))
  {
    LockPathOf(c, key);
    LockNodesInStep(c, s.store.kv, s.files, Current(s.history), Components(key));
  }

  /** The lock node holds the latest record, or is absent if there is none. */
  lemma LockNodeIsLatest(c: Setup, s: State, key: string)
    requires Base(c, s) && NoDotDot(key) && Components(key) != []
    ensures var l := Latest(s, Components(key));
      LockValue(c, s, key) == if l.None? then None else Some(Mutex(l.value))
  {
    LockValueIsLatest(c, s, key);
  }

  lemma InitBase(c: Setup, s: State)
    requires Init(c, s)
    ensures Base(c, s)
  {
    assert Current(s.history) == map[];
  }

  /** With nothing attached, the end of a lease deletes nothing. */
  lemma EndLeaseKeepsKeys(st: Store, id: LeaseId)
    requires st.attached == map[]
    ensures st.EndLease(id) == Store(st.kv, map[], st.leases - {id})
  {
    assert st.AttachedTo(id) <= st.attached.Keys == {};
    assert st.kv - st.AttachedTo(id) == st.kv;
    assert st.attached - st.AttachedTo(id) == map[];
  }

  lemma PutUnattached(st: Store, k: string, v: Value)
    requires st.attached == map[]
    ensures st.Put(k, v, None) == Store(st.kv[k := v], map[], st.leases)
  {
    assert st.attached - {k} == map[];
  }

  lemma ProcsKept(grants: map<LeaseId, Grant>, grants': map<LeaseId, Grant>, pc: Proc)
    requires ProcOk(grants, pc)
    requires forall id | id in grants :: id in grants' && grants'[id] == grants[id]
    ensures ProcOk(grants', pc)
  {
  }

  lemma LockStepsKeepBase(c: Setup, s: State, a: Action)
    requires Base(c, s) && Enabled(c, s, a)
    requires a.CallLock? || a.GrantLease? || a.ReadLock? || a.Approve? || a.StampLock? || a.CallUnlock?
      || a.Retry? || a.GiveUp?
    ensures Base(c, Apply(c, s, a))
  {
    if a.GrantLease? {
      GrantKeepsBase(c, s, a.p, a.id);
    } else {
      var pc := Apply(c, s, a).procs[a.p];
      MovesOnly(c, s, a, pc);
      assert ProcOk(s.grants, s.Proc(a.p));
      MoveOk(c, s.grants, s, a, pc);
      GotoKeepsBase(c, s, a.p, pc);
    }
  }

  lemma MovesOnly(c: Setup, s: State, a: Action, pc: Proc)
    requires Enabled(c, s, a)
    requires a.CallLock? || a.ReadLock? || a.Approve? || a.StampLock? || a.CallUnlock? || a.Retry? || a.GiveUp?
    requires pc == Apply(c, s, a).procs[a.p]
    ensures Apply(c, s, a) == s.Goto(a.p, pc)
  {
  }

  /** The step keeps the key, the token and the lease a client carries. */
  lemma MoveOk(c: Setup, grants: map<LeaseId, Grant>, s: State, a: Action, pc: Proc)
    requires a.CallLock? || a.ReadLock? || a.Approve? || a.StampLock? || a.CallUnlock? || a.Retry? || a.GiveUp?
    requires Enabled(c, s, a) && ProcOk(grants, s.Proc(a.p))
    requires pc == Apply(c, s, a).procs[a.p]
    ensures ProcOk(grants, pc)
  {
  }

  lemma GrantKeepsBase(c: Setup, s: State, p: Pid, id: LeaseId)
    requires Base(c, s) && Enabled(c, s, GrantLease(p, id))
    ensures Base(c, Apply(c, s, GrantLease(p, id)))
  {
    var s' := Apply(c, s, GrantLease(p, id));
    assert ProcOk(s.grants, s.Proc(p));
    forall q | q in s'.procs ensures ProcOk(s'.grants, s'.procs[q]) {
      if q in s.procs {
        ProcsKept(s.grants, s'.grants, s.procs[q]);
      }
    }
  }

  lemma GotoKeepsBase(c: Setup, s: State, p: Pid, pc: Proc)
    requires Base(c, s) && ProcOk(s.grants, pc)
    ensures Base(c, s.Goto(p, pc))
  {
  }

  lemma ReadUnlockKeepsBase(c: Setup, s: State, p: Pid)
    requires Base(c, s) && Enabled(c, s, ReadUnlock(p))
    ensures Base(c, Apply(c, s, ReadUnlock(p)))
  {
    var pc := s.Proc(p);
    assert ProcOk(s.grants, pc);
    LockValueIsLatest(c, s, pc.key);
    LatestGranted(c, s, Components(pc.key));
    match Decoded(LockValue(c, s, pc.key))
    case None => ReleaseKeepsBase(c, s, p);
    case Some(l) => GotoKeepsBase(c, s, p, UnlockRevoking(pc.token, pc.key, l.lease));
  }

  lemma EndLeaseKeepsBase(c: Setup, s: State, id: LeaseId)
    requires Base(c, s)
    ensures Base(c, s.(store := s.store.EndLease(id)))
  {
    EndLeaseKeepsKeys(s.store, id);
  }

  lemma ReleaseKeepsBase(c: Setup, s: State, p: Pid)
    requires Base(c, s) && s.Proc(p).Unlocking()
    ensures Base(c, Released(s, p))
  {
  }

  lemma RevokeKeepsBase(c: Setup, s: State, p: Pid, reported: bool)
    requires Base(c, s) && s.Proc(p).UnlockRevoking?
    ensures Base(c, AfterRevoke(s, p, reported))
  {
    var pc := s.Proc(p);
    var s1 := s.(store := s.store.EndLease(pc.lease));
    EndLeaseKeepsBase(c, s, pc.lease);
    if reported {
      ReleaseKeepsBase(c, s1, p);
    } else {
      assert ProcOk(s.grants, pc);
      GotoKeepsBase(c, s1, p, UnlockBegin(pc.token, pc.key));
    }
  }

  lemma LatestGranted(c: Setup, s: State, q: Path)
    requires Base(c, s)
    ensures var l := Latest(s, q); l.Some? ==> Granted(s.grants, l.value.lease, l.value.token, q)
  {
    if s.Records(q) != [] {
      assert Granted(s.grants, s.history[q][|s.history[q]| - 1].lease, s.history[q][|s.history[q]| - 1].token, q);
    }
  }

  /** Appending a record makes it the current one and leaves all others as they are. */
  lemma AppendRecord(grants: map<LeaseId, Grant>, h: History, q: Path, l: Lock)
    requires RecordsOk(grants, h) && Granted(grants, l.lease, l.token, q)
    ensures var h' := h[q := (if q in h then h[q] else []) + [l]];
      Current(h') == Current(h)[q := l] && RecordsOk(grants, h')
  {
    var h' := h[q := (if q in h then h[q] else []) + [l]];
    assert Current(h') == Current(h)[q := l];
  }

  lemma WriteRecordKeepsBase(c: Setup, s: State, q: Path, l: Lock, holders: map<Holder, Time>)
    requires Base(c, s) && LockName(q) && Granted(s.grants, l.lease, l.token, q)
    ensures Base(c, s.(store := s.store.Put(c.LockNode(q), Mutex(l), None),
                       history := s.history[q := s.Records(q) + [l]], holders := holders))
  {
    PutUnattached(s.store, c.LockNode(q), Mutex(l));
    LockRefines(c, s.store.kv, s.files, Current(s.history), q, l);
    AppendRecord(s.grants, s.history, q, l);
  }

  lemma PutLockKeepsBase(c: Setup, s: State, p: Pid, reported: bool)
    requires Base(c, s) && s.Proc(p).LockStamped?
    ensures Base(c, AfterPut(c, s, p, reported))
  {
    var pc := s.Proc(p);
    var q, l := Components(pc.key), Written(pc);
    assert ProcOk(s.grants, pc);
    LockPathOf(c, pc.key);
    var holders := if reported then s.holders[Holder(q, pc.token) := pc.stamp] else s.holders;
    WriteRecordKeepsBase(c, s, q, l, holders);
    var s1 := s.(store := s.store.Put(c.LockNode(q), Mutex(l), None),
                 history := s.history[q := s.Records(q) + [l]], holders := holders);
    GotoKeepsBase(c, s1, p, if reported then Idle else LockBegin(pc.token, pc.key));
  }

  lemma CommitKeepsBase(c: Setup, s: State, p: Pid)
    requires Base(c, s) && s.Proc(p).Storing?
    ensures Base(c, AfterCommit(c, s, p))
  {
    var pc := s.Proc(p);
    assert ProcOk(s.grants, pc);
    var f := FileRec(pc.data, pc.stamp, pc.key);
    StoreRefines(c, s.store.kv, s.files, Current(s.history), pc.key, f);
    TwoPuts(c, s.store, pc.key, pc.data, NewMetadata(c, pc.key, pc.data, pc.stamp));
    var s1 := s.(store := AfterCommit(c, s, p).store, files := s.files[Components(pc.key) := f]);
    GotoKeepsBase(c, s1, p, Idle);
  }

  lemma TwoPuts(c: Setup, st: Store, key: string, data: Bytes, md: Metadata)
    requires st.attached == map[]
    ensures st.Put(StorageKey(c.KeyPrefix(), key), File(Encode(data)), None)
              .Put(MetadataKey(c.KeyPrefix(), key), Meta(md), None)
      == Store(StoreKeys(c, st.kv, key, data, md), map[], st.leases)
  {
    var v, m := StorageKey(c.KeyPrefix(), key), MetadataKey(c.KeyPrefix(), key);
    PutUnattached(st, v, File(Encode(data)));
    PutUnattached(st.Put(v, File(Encode(data)), None), m, Meta(md));
  }

  lemma OtherStepsKeepBase(c: Setup, s: State, a: Action)
    requires Base(c, s) && Enabled(c, s, a)
    requires a.Tick? || a.ForeignWrite? || a.CallStore? || a.Delete?
    ensures Base(c, Apply(c, s, a))
  {
    if a.ForeignWrite? {
      PutUnattached(s.store, a.k, a.v);
      ForeignRefines(c, s.store.kv, s.files, Current(s.history), a.k, a.v);
    } else if a.Delete? {
      DeleteRefines(c, s.store.kv, s.files, Current(s.history), a.key);
      assert s.store.attached - {StorageKey(c.KeyPrefix(), a.key), MetadataKey(c.KeyPrefix(), a.key)} == map[];
    }
  }

  lemma StepKeepsBase(c: Setup, s: State, a: Action)
    requires Base(c, s) && Enabled(c, s, a)
    ensures Base(c, Apply(c, s, a))
  {
    match a
    case PutLock(p, reported) => PutLockKeepsBase(c, s, p, reported);
    case CommitStore(p) => CommitKeepsBase(c, s, p);
    case ReadUnlock(p) => ReadUnlockKeepsBase(c, s, p);
    case Revoke(p, reported) => RevokeKeepsBase(c, s, p, reported);
    case Expire(id) => EndLeaseKeepsBase(c, s, id);
    case Tick(_) => OtherStepsKeepBase(c, s, a);
    case ForeignWrite(_, _) => OtherStepsKeepBase(c, s, a);
    case CallStore(_, _, _) => OtherStepsKeepBase(c, s, a);
    case Delete(_) => OtherStepsKeepBase(c, s, a);
    case _ => LockStepsKeepBase(c, s, a);
  }

  lemma {:induction false} RunKeepsBase(c: Setup, trace: seq<State>, acts: seq<Action>, i: nat)
    requires IsRun(c, trace, acts) && i < |trace|
    ensures Base(c, trace[i])
  {
    if i == 0 {
      InitBase(c, trace[0]);
    } else {
      RunKeepsBase(c, trace, acts, i - 1);
      StepKeepsBase(c, trace[i - 1], acts[i - 1]);
    }
  }
}
