/** All clients of one cluster as a state machine. Every call to etcd is one step; the steps of
    any number of clients interleave freely, calls may fail and be retried, leases may run out. */
module Protocol {
  import opened Text
  import opened Base64
  import opened Etcd
  import opened Paths
  import opened Names
  import opened FileSystem
  import opened FileStore

  type Pid = nat

  const SECOND: nat := 1_000_000_000

  /** Where a client is inside lock, Unlock or Store. */
  datatype Proc =
    | Idle
    | LockBegin(token: Token, key: string)
    | LockGranted(token: Token, key: string, lease: LeaseId)
    | LockRead(token: Token, key: string, lease: LeaseId, seen: Option<Lock>)
    | LockApproved(token: Token, key: string, lease: LeaseId, seen: Option<Lock>)
    | LockStamped(token: Token, key: string, lease: LeaseId, seen: Option<Lock>, stamp: Time)
    | UnlockBegin(token: Token, key: string)
    | UnlockRevoking(token: Token, key: string, lease: LeaseId)
    | Storing(key: string, data: Bytes, stamp: Time)
  {
    predicate Locking() {
      LockBegin? || LockGranted? || LockRead? || LockApproved? || LockStamped?
    }

    predicate Unlocking() {
      UnlockBegin? || UnlockRevoking?
    }

    predicate HasLease() {
      LockGranted? || LockRead? || LockApproved? || LockStamped? || UnlockRevoking?
    }

    /** Between the Get and the Put of an acquire. */
    predicate InWindow() {
      LockRead? || LockApproved? || LockStamped?
    }
  }

  datatype Grant = Grant(token: Token, path: Path, at: Time)

  datatype Holder = Holder(path: Path, token: Token)

  type History = map<Path, seq<Lock>>

  /** `store`, `now` and `procs` are the system. The rest is bookkeeping for the theorems:
      every grant ever made, the files as a user sees them, every lock record ever written,
      and who returned from lock with success (with which stamp) and not yet from Unlock. */
  datatype State = State(store: Store, now: Time, procs: map<Pid, Proc>,
                         grants: map<LeaseId, Grant>, files: Files, history: History, holders: map<Holder, Time>) {
    function Proc(p: Pid): Proc {
      if p in procs then procs[p] else Idle
    }

    function Goto(p: Pid, pc: Proc): State {
      this.(procs := procs[p := pc])
    }

    function Records(q: Path): seq<Lock> {
      if q in history then history[q] else []
    }
  }

  datatype Action =
    | Tick(d: nat)
    | ForeignWrite(k: string, v: Value)
    | Expire(id: LeaseId)
    | CallLock(p: Pid, token: Token, key: string)
    | GrantLease(p: Pid, id: LeaseId)
    | ReadLock(p: Pid)
    | Approve(p: Pid)
    | StampLock(p: Pid)
    | PutLock(p: Pid, reported: bool)
    | CallUnlock(p: Pid, token: Token, key: string)
    | ReadUnlock(p: Pid)
    | Revoke(p: Pid, reported: bool)
    | CallStore(p: Pid, key: string, data: Bytes)
    | CommitStore(p: Pid)
    | Delete(key: string)
    | Retry(p: Pid)
    | GiveUp(p: Pid)

  /** A lock may be taken when nobody has a record, on one's own record, or when the record is
      at least LockTimeout old. */
  predicate OkToSet(c: Setup, seen: Option<Lock>, token: Token, now: Time) {
    seen.None? || seen.value.token == token || now - seen.value.obtained >= c.timeout
  }

  /** A record by `token` with that stamp may come after record l. */
  predicate MayFollow(c: Setup, l: Lock, token: Token, stamp: Time) {
    l.obtained <= stamp && (l.token == token || l.obtained + c.timeout <= stamp)
  }

  /** The lease runs for whole seconds. */
  function LeaseEnd(c: Setup, g: Grant): Time {
    g.at + c.timeout / SECOND * SECOND
  }

  /** What a Get of the lock key decodes to; false if it is no lock record. */
  predicate Decodable(v: Option<Value>) {
    v.Some? ==> v.value.Mutex?
  }

  function Decoded(v: Option<Value>): Option<Lock> {
    match v
    case Some(Mutex(l)) => Some(l)
    case _ => None
  }

  function LockValue(c: Setup, s: State, key: string): Option<Value> {
    Lookup(s.store.kv, LockKey(c.KeyPrefix(), key))
  }

  predicate Enabled(c: Setup, s: State, a: Action) {
    match a
    case Tick(_) => true
    case ForeignWrite(k, _) => Foreign(c, k)
    case Expire(id) => id in s.store.leases && id in s.grants && s.now >= LeaseEnd(c, s.grants[id])
    case CallLock(p, _, key) => s.Proc(p).Idle? && NoDotDot(key) && Components(key) != []
    case GrantLease(p, id) => s.Proc(p).LockBegin? && id !in s.grants
    case ReadLock(p) => s.Proc(p).LockGranted? && Decodable(LockValue(c, s, s.Proc(p).key))
    case Approve(p) => s.Proc(p).LockRead? && OkToSet(c, s.Proc(p).seen, s.Proc(p).token, s.now)
    case StampLock(p) => s.Proc(p).LockApproved?
    case PutLock(p, _) => s.Proc(p).LockStamped?
    case CallUnlock(p, _, key) => s.Proc(p).Idle? && NoDotDot(key) && Components(key) != []
    case ReadUnlock(p) =>
      && s.Proc(p).UnlockBegin?
      && (var v := LockValue(c, s, s.Proc(p).key); Decodable(v) && (v.Some? ==> v.value.lock.token == s.Proc(p).token))
    case Revoke(p, _) => s.Proc(p).UnlockRevoking? && s.Proc(p).lease in s.store.leases
    case CallStore(p, key, _) => s.Proc(p).Idle? && NoDotDot(key) && FilePath(Components(key))
    case CommitStore(p) => s.Proc(p).Storing?
    case Delete(key) => NoDotDot(key) && FilePath(Components(key))
    case Retry(p) => s.Proc(p).Locking() || s.Proc(p).Unlocking()
    case GiveUp(p) => true
  }

  function Written(pc: Proc): Lock
    requires pc.LockStamped?
  {
    Lock(pc.token, pc.stamp, pc.key, pc.lease)
  }

  /** The Put of a lock record names no lease to attach the key to. */
  function AfterPut(c: Setup, s: State, p: Pid, reported: bool): State
    requires s.Proc(p).LockStamped?
  {
    var pc := s.Proc(p);
    var q := Components(pc.key);
    var s1 := s.(store := s.store.Put(LockKey(c.KeyPrefix(), pc.key), Mutex(Written(pc)), None),
                 history := s.history[q := s.Records(q) + [Written(pc)]]);
    if reported then s1.(holders := s.holders[Holder(q, pc.token) := pc.stamp]).Goto(p, Idle)
    else s1.Goto(p, LockBegin(pc.token, pc.key))
  }

  function Released(s: State, p: Pid): State
    requires s.Proc(p).Unlocking()
  {
    s.(holders := s.holders - {Holder(Components(s.Proc(p).key), s.Proc(p).token)}).Goto(p, Idle)
  }

  /** A revocation that took effect; when its reply is lost the client starts over. */
  function AfterRevoke(s: State, p: Pid, reported: bool): State
    requires s.Proc(p).UnlockRevoking?
  {
    var pc := s.Proc(p);
    var s1 := s.(store := s.store.EndLease(pc.lease));
    if reported then Released(s1, p) else s1.Goto(p, UnlockBegin(pc.token, pc.key))
  }

  function AfterCommit(c: Setup, s: State, p: Pid): State
    requires s.Proc(p).Storing?
  {
    var pc := s.Proc(p);
    s.(store := s.store.Put(StorageKey(c.KeyPrefix(), pc.key), File(Encode(pc.data)), None)
                       .Put(MetadataKey(c.KeyPrefix(), pc.key), Meta(NewMetadata(c, pc.key, pc.data, pc.stamp)), None),
       files := s.files[Components(pc.key) := FileRec(pc.data, pc.stamp, pc.key)]).Goto(p, Idle)
  }

  function Apply(c: Setup, s: State, a: Action): State
    requires Enabled(c, s, a)
  {
    match a
    case Tick(d) => s.(now := s.now + d)
    case ForeignWrite(k, v) => s.(store := s.store.Put(k, v, None))
    case Expire(id) => s.(store := s.store.EndLease(id))
    case CallLock(p, token, key) => s.Goto(p, LockBegin(token, key))
    case GrantLease(p, id) =>
      var pc := s.Proc(p);
      s.(store := s.store.Grant(id), grants := s.grants[id := Grant(pc.token, Components(pc.key), s.now)])
       .Goto(p, LockGranted(pc.token, pc.key, id))
    case ReadLock(p) =>
      var pc := s.Proc(p);
      s.Goto(p, LockRead(pc.token, pc.key, pc.lease, Decoded(LockValue(c, s, pc.key))))
    case Approve(p) =>
      var pc := s.Proc(p);
      s.Goto(p, LockApproved(pc.token, pc.key, pc.lease, pc.seen))
    case StampLock(p) =>
      var pc := s.Proc(p);
      s.Goto(p, LockStamped(pc.token, pc.key, pc.lease, pc.seen, s.now))
    case PutLock(p, reported) => AfterPut(c, s, p, reported)
    case CallUnlock(p, token, key) => s.Goto(p, UnlockBegin(token, key))
    case ReadUnlock(p) =>
      var pc := s.Proc(p);
      (match Decoded(LockValue(c, s, pc.key))
       case None => Released(s, p)
       case Some(l) => s.Goto(p, UnlockRevoking(pc.token, pc.key, l.lease)))
    case Revoke(p, reported) => AfterRevoke(s, p, reported)
    case CallStore(p, key, data) => s.Goto(p, Storing(key, data, s.now))
    case CommitStore(p) => AfterCommit(c, s, p)
    case Delete(key) =>
      s.(store := s.store.Delete({StorageKey(c.KeyPrefix(), key), MetadataKey(c.KeyPrefix(), key)}),
         files := s.files - {Components(key)})
    case Retry(p) =>
      var pc := s.Proc(p);
      s.Goto(p, if pc.Locking() then LockBegin(pc.token, pc.key) else UnlockBegin(pc.token, pc.key))
    case GiveUp(p) => s.Goto(p, Idle)
  }

  ghost predicate Init(c: Setup, s: State) {
    && c.Valid()
    && s.store == Store(map[], map[], {})
    && s.now > 0
    && s.procs == map[] && s.grants == map[] && s.files == map[] && s.history == map[] && s.holders == map[]
  }

  ghost predicate Next(c: Setup, s: State, a: Action, s': State) {
    Enabled(c, s, a) && s' == Apply(c, s, a)
  }

  /** A run: any finite interleaving, with the state before and after each action. */
  ghost predicate IsRun(c: Setup, trace: seq<State>, acts: seq<Action>) {
    && |trace| == |acts| + 1
    && Init(c, trace[0])
    && forall i {:trigger acts[i]} | 0 <= i < |acts| :: Next(c, trace[i], acts[i], trace[i + 1])
  }
}
