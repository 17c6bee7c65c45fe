/** Pipelines of single-key writes: the operations `set` and `del` on an unreliable etcd. */
module PipelineKeys {
  import opened Text
  import opened Base64
  import opened Etcd
  import opened Pipeline

  /** What becomes of a call: it takes effect and is answered, it fails, or it takes effect and the
      answer is lost. */
  datatype Fate = Answered | Refused | ReplyLost

  /** The keyspace, and the fates of the coming calls (calls beyond are answered). */
  datatype World = World(kv: Keyspace, fates: seq<Fate>)

  const Keys: World -> Keyspace := (w: World) => w.kv

  datatype Request = Set(key: string, value: Bytes) | Del(key: string) {
    /** What the key holds afterwards; a value is stored base64-encoded. */
    function Leaves(): Option<Value> {
      if Set? then Some(File(Encode(value))) else None
    }
  }

  function Write(k: string, v: Option<Value>): Keyspace -> Keyspace {
    (kv: Keyspace) => if v.Some? then kv[k := v.value] else kv - {k}
  }

  function Effect(q: Request): Keyspace -> Keyspace {
    Write(q.key, q.Leaves())
  }

  function Attempt(q: Request, w: World): Result<World> {
    var fate := if w.fates == [] then Answered else w.fates[0];
    Result(World(if fate == Refused then w.kv else Effect(q)(w.kv), if w.fates == [] then [] else w.fates[1..]),
           if fate == Answered then None else Some(Failed(0)))
  }

  /** `set` and `del`. */
  function Op(q: Request): Operation<World> {
    (w: World) => Attempt(q, w)
  }

  function Ops(qs: seq<Request>): (os: seq<Operation<World>>)
    ensures |os| == |qs| && forall i | 0 <= i < |qs| :: os[i] == Op(qs[i])
  {
    if qs == [] then [] else Ops(qs[..|qs| - 1]) + [Op(qs[|qs| - 1])]
  }

  function EffectsOf(qs: seq<Request>): (es: seq<Keyspace -> Keyspace>)
    ensures |es| == |qs| && forall i | 0 <= i < |qs| :: es[i] == Effect(qs[i])
  {
    if qs == [] then [] else EffectsOf(qs[..|qs| - 1]) + [Effect(qs[|qs| - 1])]
  }

  /** Under every back-off and whatever fates its attempts meet, a request that succeeds has taken
      effect, one that fails has or has not, and no other key is touched. */
  lemma RequestDone(q: Request, b: BackOff<World>)
    ensures Done(Op(q), b, Keys, Effect(q))
  {
    assert MayDo(Op(q), Keys, Effect(q));
    forall kv: Keyspace ensures Effect(q)(Effect(q)(kv)) == Effect(q)(kv) {
    }
    forall w ensures var r := Retry(Op(q), b, w);
        Keys(r.world) == Effect(q)(Keys(w)) || (r.err.Some? && Keys(r.world) == Keys(w)) {
      RetryIdempotent(Op(q), b, Keys, Effect(q), w, 0);
    }
  }

  // -------------------------------------------------------------------- patience

  /** The number of coming calls that are not answered. */
  function Troubles(fates: seq<Fate>): nat {
    if fates == [] then 0 else (if fates[0] == Answered then 0 else 1) + Troubles(fates[1..])
  }

  /** A back-off that goes on until its limit. */
  ghost predicate Persistent(b: BackOff<World>) {
    forall n, w :: b.again(n, w)
  }

  lemma {:induction false} WorldAfter(q: Request, w: World, n: nat)
    ensures Attempted(Op(q), w, n).fates == if n <= |w.fates| then w.fates[n..] else []
  {
    if n > 0 {
      WorldAfter(q, w, n - 1);
    }
  }

  lemma {:induction false} TroublesSuffix(fates: seq<Fate>, n: nat)
    requires n <= |fates| && forall i | 0 <= i < n :: fates[i] != Answered
    ensures Troubles(fates) == n + Troubles(fates[n..])
  {
    if n > 0 {
      TroublesSuffix(fates[1..], n - 1);
      assert fates[1..][n - 1..] == fates[n..];
    }
  }

  /** If the next n calls are not answered, the one after is, and a persistent back-off allows n retries,
      then set or del succeeds at exactly that attempt and its key holds what it leaves. */
  lemma SucceedsAt(q: Request, b: BackOff<World>, w: World, n: nat)
    requires Persistent(b) && n <= b.limit && n <= |w.fates|
    requires (forall i | 0 <= i < n :: w.fates[i] != Answered) && (n < |w.fates| ==> w.fates[n] == Answered)
    ensures var r := Retry(Op(q), b, w);
      && r.err.None? && Lookup(r.world.kv, q.key) == q.Leaves()
      && r.world.fates == w.fates[if n < |w.fates| then n + 1 else n..]
  {
    forall k | 0 <= k < n ensures GoesOn(Op(q), b, w, k) {
      WorldAfter(q, w, k);
    }
    WorldAfter(q, w, n);
    RetryStopsAt(Op(q), b, w, n);
  }

  /** The next calls that are not answered. */
  function Ahead(fates: seq<Fate>): (n: nat)
    ensures n <= |fates| && (forall i | 0 <= i < n :: fates[i] != Answered) && (n < |fates| ==> fates[n] == Answered)
  {
    if fates == [] || fates[0] == Answered then 0 else 1 + Ahead(fates[1..])
  }

  lemma PatientRequest(q: Request, b: BackOff<World>, w: World)
    requires Persistent(b) && Troubles(w.fates) <= b.limit
    ensures var r := Retry(Op(q), b, w);
      r.err.None? && r.world.kv == Effect(q)(w.kv) && Troubles(r.world.fates) <= b.limit
  {
    var n := Ahead(w.fates);
    TroublesSuffix(w.fates, n);
    SucceedsAt(q, b, w, n);
    RequestDone(q, b);
    assert Keys(Retry(Op(q), b, w).world) == Effect(q)(Keys(w));
    if n < |w.fates| {
      assert w.fates[n..][1..] == w.fates[n + 1..];
    }
  }

  /** A pipeline of set and del whose persistent back-off allows as many retries as there are calls that
      fail or lose their reply always succeeds, with all effects in order. */
  lemma {:induction false} PatientPipeline(commits: seq<Request>, rollbacks: seq<Request>, b: BackOff<World>, w: World,
      i: nat)
    requires Persistent(b) && Troubles(w.fates) <= b.limit && i <= |commits|
    ensures var r := CommitFrom(Ops(commits), Ops(rollbacks), b, w, i);
      r.err.None? && r.world.kv == Effects(EffectsOf(commits[i..]), w.kv)
    decreases |commits| - i
  {
    if i == |commits| {
      assert commits[i..] == [];
    } else {
      var w1 := Retry(Op(commits[i]), b, w).world;
      PatientRequest(commits[i], b, w);
      PatientPipeline(commits, rollbacks, b, w1, i + 1);
      assert commits[i..] == [commits[i]] + commits[i + 1..];
      EffectsFront(commits[i], commits[i + 1..], w.kv);
    }
  }

  lemma {:induction false} EffectsFront(q: Request, qs: seq<Request>, kv: Keyspace)
    ensures Effects(EffectsOf([q] + qs), kv) == Effects(EffectsOf(qs), Effect(q)(kv))
    decreases |qs|
  {
    var all := [q] + qs;
    EffectsLast(all, kv);
    if qs == [] {
      assert all[..0] == [];
    } else {
      EffectsFront(q, qs[..|qs| - 1], kv);
      EffectsLast(qs, Effect(q)(kv));
      assert all[..|all| - 1] == [q] + qs[..|qs| - 1];
    }
  }

  lemma EffectsLast(qs: seq<Request>, kv: Keyspace)
    requires qs != []
    ensures Effects(EffectsOf(qs), kv) == Effect(qs[|qs| - 1])(Effects(EffectsOf(qs[..|qs| - 1]), kv))
  {
    var front := EffectsOf(qs[..|qs| - 1]);
    assert EffectsOf(qs) == front + [Effect(qs[|qs| - 1])];
    assert EffectsOf(qs)[..|qs| - 1] == front;
  }

  // -------------------------------------------------------------- all or nothing

  /** Rollback j writes back what its key held just before commit j, in a run from `start`. */
  ghost predicate TakesBack(commits: seq<Request>, rollbacks: seq<Request>, start: Keyspace) {
    forall j | 0 <= j < |rollbacks| && j < |commits| ::
      && rollbacks[j].key == commits[j].key
      && rollbacks[j].Leaves() == Lookup(Effects(EffectsOf(commits)[..j], start), commits[j].key)
  }

  lemma WriteBack(kv: Keyspace, k: string, v: Option<Value>)
    ensures Write(k, Lookup(kv, k))(Write(k, v)(kv)) == kv
  {
    if k in kv {
      assert kv[k := kv[k]] == kv;
    }
  }

  lemma TakenBack(commits: seq<Request>, rollbacks: seq<Request>, start: Keyspace, j: nat)
    requires TakesBack(commits, rollbacks, start) && j < |rollbacks| && j < |commits|
    ensures var es := EffectsOf(commits);
      EffectsOf(rollbacks)[j](Effects(es[..j + 1], start)) == Effects(es[..j], start)
  {
    var es := EffectsOf(commits);
    assert es[..j + 1][..j] == es[..j];
    WriteBack(Effects(es[..j], start), commits[j].key, commits[j].Leaves());
  }

  /** A pipeline of set and del with a rollback for every commit but the last, on keys that may repeat:
      without an error every write is there; if the error is exactly the failed commit's, and that
      commit left no trace, the keyspace is as before. */
  lemma WritesAllOrNothing(commits: seq<Request>, rollbacks: seq<Request>, b: BackOff<World>, w: World)
    requires |rollbacks| + 1 >= |commits| && TakesBack(commits, rollbacks, w.kv)
    ensures var (r, first) := (CommitFrom(Ops(commits), Ops(rollbacks), b, w, 0), FirstError(Ops(commits), b, w, 0));
      && (r.err.None? ==> r.world.kv == Effects(EffectsOf(commits), w.kv))
      && (r.err.Some? && r.err == first && FailsCleanly(Ops(commits), b, Keys, w, 0) ==> r.world.kv == w.kv)
  {
    forall q: Request ensures Done(Op(q), b, Keys, Effect(q)) {
      RequestDone(q, b);
    }
    forall j | 0 <= j < |rollbacks| && j < |commits|
      ensures EffectsOf(rollbacks)[j](Effects(EffectsOf(commits)[..j + 1], Keys(w)))
        == Effects(EffectsOf(commits)[..j], Keys(w))
    {
      TakenBack(commits, rollbacks, w.kv, j);
    }
    AllOrNothing(Ops(commits), Ops(rollbacks), b, Keys, EffectsOf(commits), EffectsOf(rollbacks), w);
  }

  predicate NothingLost(w: World) {
    ReplyLost !in w.fates
  }

  lemma {:induction false} RefusedLeavesNoTrace(q: Request, b: BackOff<World>, w: World, n: nat)
    requires NothingLost(w)
    ensures var r := RetryFrom(Op(q), b, w, n); NothingLost(r.world) && (r.err.Some? ==> r.world.kv == w.kv)
    decreases if n < b.limit then b.limit - n else 0
  {
    var r := Op(q)(w);
    if !(r.err.None? || n >= b.limit || !b.again(n, r.world)) {
      RefusedLeavesNoTrace(q, b, r.world, n + 1);
    }
  }

  /** If no reply is lost, a commit that fails leaves no trace. */
  lemma {:induction false} NothingLostFailsCleanly(commits: seq<Request>, b: BackOff<World>, w: World, i: nat)
    requires NothingLost(w) && i <= |commits|
    ensures FailsCleanly(Ops(commits), b, Keys, w, i)
    decreases |commits| - i
  {
    if i < |commits| {
      RefusedLeavesNoTrace(commits[i], b, w, 0);
      if Retry(Op(commits[i]), b, w).err.None? {
        NothingLostFailsCleanly(commits, b, Retry(Op(commits[i]), b, w).world, i + 1);
      }
    }
  }

  // ------------------------------------------------------------- fewer rollbacks

  predicate DistinctKeys(qs: seq<Request>) {
    forall i, j | 0 <= i < j < |qs| :: qs[i].key != qs[j].key
  }

  /** Commits on distinct keys; rollback i, as far as there is one, writes back what the key held in `start`. */
  predicate Keyed(commits: seq<Request>, rollbacks: seq<Request>, start: Keyspace) {
    && DistinctKeys(commits)
    && |rollbacks| <= |commits|
    && forall i | 0 <= i < |rollbacks| ::
         rollbacks[i].key == commits[i].key && rollbacks[i].Leaves() == Lookup(start, commits[i].key)
  }

  /** Position j of key k, or -1 for a key that no commit writes. */
  predicate IsPosition(qs: seq<Request>, k: string, j: int) {
    if j == -1 then forall i | 0 <= i < |qs| :: qs[i].key != k
    else 0 <= j < |qs| && qs[j].key == k
  }

  /** The index of the commit that fails, or the number of commits. */
  function FailedAt(commits: seq<Operation<World>>, b: BackOff<World>, w: World, i: nat): (n: nat)
    requires i <= |commits|
    ensures i <= n <= |commits| && (n < |commits| <==> FirstError(commits, b, w, i).Some?)
    decreases |commits| - i
  {
    if i == |commits| || Retry(commits[i], b, w).err.Some? then i
    else FailedAt(commits, b, Retry(commits[i], b, w).world, i + 1)
  }

  /** Whether rollback k succeeds when the rollback loop runs from index i downwards. */
  predicate RolledBack(rollbacks: seq<Operation<World>>, b: BackOff<World>, w: World, i: int, k: nat)
    decreases if i < 0 then 0 else i + 1
  {
    if i < k then false
    else if i >= |rollbacks| then RolledBack(rollbacks, b, w, i - 1, k)
    else if i == k then Retry(rollbacks[i], b, w).err.None?
    else RolledBack(rollbacks, b, Retry(rollbacks[i], b, w).world, i - 1, k)
  }

  /** Whether, in the run of commits from index i on, some commit fails and rollback k then succeeds. */
  predicate TookBack(commits: seq<Operation<World>>, rollbacks: seq<Operation<World>>, b: BackOff<World>,
                     w: World, i: nat, k: nat)
    requires i <= |commits|
    decreases |commits| - i
  {
    i < |commits| &&
      var r := Retry(commits[i], b, w);
      if r.err.Some? then RolledBack(rollbacks, b, r.world, i - 1, k)
      else TookBack(commits, rollbacks, b, r.world, i + 1, k)
  }

  lemma RequestWrites(q: Request, b: BackOff<World>, w: World, k: string)
    ensures var r := Retry(Op(q), b, w);
      var (before, after) := (Lookup(w.kv, k), Lookup(r.world.kv, k));
      && (k != q.key ==> after == before)
      && (k == q.key ==> after == q.Leaves() || (r.err.Some? && after == before))
  {
    RequestDone(q, b);
    var r := Retry(Op(q), b, w);
    assert Keys(r.world) == Effect(q)(Keys(w)) || (r.err.Some? && Keys(r.world) == Keys(w));
  }

  /** What a key holds after the rollback loop from index i, having held `before`: `j` is its position. */
  predicate Unwound(now: Option<Value>, before: Option<Value>, start: Option<Value>,
                    j: int, i: int, covered: nat, undone: bool) {
    if j < 0 || j > i || j >= covered then now == before
    else now == start || (!undone && now == before)
  }

  /** A key whose rollback the loop does not reach is left alone; one whose rollback succeeds holds
      what it held at the start, else that or what it held before. */
  lemma {:induction false} UnwindKey(commits: seq<Request>, rollbacks: seq<Request>, b: BackOff<World>, start: Keyspace,
      w: World, i: int, err: Error, k: string, j: int)
    requires Keyed(commits, rollbacks, start) && IsPosition(commits, k, j) && -1 <= i < |commits|
    ensures Unwound(Lookup(RollbackFrom(Ops(rollbacks), b, w, i, err).world.kv, k), Lookup(w.kv, k), Lookup(start, k),
                    j, i, |rollbacks|, j >= 0 && RolledBack(Ops(rollbacks), b, w, i, j))
    decreases i + 1
  {
    if i >= |rollbacks| {
      UnwindKey(commits, rollbacks, b, start, w, i - 1, err, k, j);
    } else if i >= 0 {
      var r := Retry(Op(rollbacks[i]), b, w);
      RequestWrites(rollbacks[i], b, w, k);
      assert commits[i].key == k <==> i == j;
      var err' := if r.err.Some? then Wrapped(err, r.err.value) else err;
      UnwindKey(commits, rollbacks, b, start, r.world, i - 1, err', k, j);
    }
  }

  /** What a key holds when a pipeline whose commit n failed is over: `j` is the commit that writes it. */
  predicate Ends(end: Option<Value>, start: Option<Value>, written: Option<Value>,
                 j: int, n: nat, covered: nat, undone: bool) {
    if j < 0 || j > n then end == start
    else if j == n then end == start || end == written
    else if j >= covered then end == written
    else end == start || (!undone && end == written)
  }

  /** What a key holds when the pipeline is over: `n` is the failed commit or their number. */
  predicate Settled(end: Option<Value>, start: Option<Value>, written: Option<Value>,
                    j: int, n: nat, all: nat, covered: nat, undone: bool) {
    if n == all then end == if j < 0 then start else written
    else Ends(end, start, written, j, n, covered, undone)
  }

  lemma EndsAfter(before: Option<Value>, after: Option<Value>, end: Option<Value>, start: Option<Value>,
                  written: Option<Value>, j: int, n: nat, covered: nat, undone: bool)
    requires before == if 0 <= j < n then written else start
    requires after == before || (j == n && after == written)
    requires Unwound(end, after, start, j, n - 1, covered, undone)
    ensures Ends(end, start, written, j, n, covered, undone)
  {
  }

  /** What commit j leaves at its key; a key at no position is not written. */
  function WrittenAt(commits: seq<Request>, j: int): Option<Value>
    requires j < |commits|
  {
    if j < 0 then None else commits[j].Leaves()
  }

  lemma CommitWrites(commits: seq<Request>, b: BackOff<World>, w: World, i: nat, k: string, j: int)
    requires DistinctKeys(commits) && IsPosition(commits, k, j) && i < |commits|
    ensures var (r, before) := (Retry(Op(commits[i]), b, w), Lookup(w.kv, k));
      var after := Lookup(r.world.kv, k);
      if r.err.None? then after == if i == j then WrittenAt(commits, j) else before
      else after == before || (i == j && after == WrittenAt(commits, j))
  {
    RequestWrites(commits[i], b, w, k);
    assert commits[i].key == k <==> i == j;
  }

  lemma FailedKey(commits: seq<Request>, rollbacks: seq<Request>, b: BackOff<World>, start: Keyspace,
      w: World, i: nat, k: string, j: int)
    requires Keyed(commits, rollbacks, start) && IsPosition(commits, k, j) && i < |commits|
    requires Lookup(w.kv, k) == if 0 <= j < i then WrittenAt(commits, j) else Lookup(start, k)
    requires Retry(Op(commits[i]), b, w).err.Some?
    ensures var r := Retry(Op(commits[i]), b, w);
      Ends(Lookup(RollbackFrom(Ops(rollbacks), b, r.world, i - 1, r.err.value).world.kv, k), Lookup(start, k),
           WrittenAt(commits, j), j, i, |rollbacks|, j >= 0 && RolledBack(Ops(rollbacks), b, r.world, i - 1, j))
  {
    var r := Retry(Op(commits[i]), b, w);
    CommitWrites(commits, b, w, i, k, j);
    UnwindKey(commits, rollbacks, b, start, r.world, i - 1, r.err.value, k, j);
    EndsAfter(Lookup(w.kv, k), Lookup(r.world.kv, k),
              Lookup(RollbackFrom(Ops(rollbacks), b, r.world, i - 1, r.err.value).world.kv, k), Lookup(start, k),
              WrittenAt(commits, j), j, i, |rollbacks|, j >= 0 && RolledBack(Ops(rollbacks), b, r.world, i - 1, j));
  }

  lemma RunOn(commits: seq<Operation<World>>, rollbacks: seq<Operation<World>>, b: BackOff<World>,
              w: World, i: nat, j: int)
    requires i < |commits|
    ensures var r := Retry(commits[i], b, w);
      if r.err.None? then
        && CommitFrom(commits, rollbacks, b, w, i) == CommitFrom(commits, rollbacks, b, r.world, i + 1)
        && FailedAt(commits, b, w, i) == FailedAt(commits, b, r.world, i + 1)
        && (j >= 0 ==> TookBack(commits, rollbacks, b, w, i, j) == TookBack(commits, rollbacks, b, r.world, i + 1, j))
      else
        && CommitFrom(commits, rollbacks, b, w, i) == RollbackFrom(rollbacks, b, r.world, i - 1, r.err.value)
        && FailedAt(commits, b, w, i) == i
        && (j >= 0 ==> TookBack(commits, rollbacks, b, w, i, j) == RolledBack(rollbacks, b, r.world, i - 1, j))
  {
  }

  /** What key k holds after the run of the commits from index i on. */
  ghost predicate KeySettled(commits: seq<Request>, rollbacks: seq<Request>, b: BackOff<World>, start: Keyspace,
                             w: World, i: nat, k: string, j: int)
    requires i <= |commits| && j < |commits|
  {
    Settled(Lookup(CommitFrom(Ops(commits), Ops(rollbacks), b, w, i).world.kv, k),
            Lookup(start, k), WrittenAt(commits, j), j, FailedAt(Ops(commits), b, w, i), |commits|, |rollbacks|,
            j >= 0 && TookBack(Ops(commits), Ops(rollbacks), b, w, i, j))
  }

  lemma SettledAfterSuccess(commits: seq<Request>, rollbacks: seq<Request>, b: BackOff<World>, start: Keyspace,
      w: World, i: nat, k: string, j: int)
    requires i < |commits| && j < |commits| && Retry(Op(commits[i]), b, w).err.None?
    requires KeySettled(commits, rollbacks, b, start, Retry(Op(commits[i]), b, w).world, i + 1, k, j)
    ensures KeySettled(commits, rollbacks, b, start, w, i, k, j)
  {
    RunOn(Ops(commits), Ops(rollbacks), b, w, i, j);
  }

  lemma SettledAfterFailure(commits: seq<Request>, rollbacks: seq<Request>, b: BackOff<World>, start: Keyspace,
      w: World, i: nat, k: string, j: int)
    requires Keyed(commits, rollbacks, start) && IsPosition(commits, k, j) && i < |commits|
    requires Lookup(w.kv, k) == if 0 <= j < i then WrittenAt(commits, j) else Lookup(start, k)
    requires Retry(Op(commits[i]), b, w).err.Some?
    ensures KeySettled(commits, rollbacks, b, start, w, i, k, j)
  {
    RunOn(Ops(commits), Ops(rollbacks), b, w, i, j);
    FailedKey(commits, rollbacks, b, start, w, i, k, j);
  }

  lemma {:induction false} CommitKey(commits: seq<Request>, rollbacks: seq<Request>, b: BackOff<World>, start: Keyspace,
      w: World, i: nat, k: string, j: int)
    requires Keyed(commits, rollbacks, start) && IsPosition(commits, k, j) && i <= |commits|
    requires Lookup(w.kv, k) == if 0 <= j < i then WrittenAt(commits, j) else Lookup(start, k)
    ensures KeySettled(commits, rollbacks, b, start, w, i, k, j)
    decreases |commits| - i
  {
    if i < |commits| {
      var r := Retry(Op(commits[i]), b, w);
      if r.err.None? {
        CommitWrites(commits, b, w, i, k, j);
        CommitKey(commits, rollbacks, b, start, r.world, i + 1, k, j);
        SettledAfterSuccess(commits, rollbacks, b, start, w, i, k, j);
      } else {
        SettledAfterFailure(commits, rollbacks, b, start, w, i, k, j);
      }
    }
  }

  lemma {:induction false} UnwrappedMeansTakenBack(rollbacks: seq<Operation<World>>, b: BackOff<World>,
      w: World, i: int, err: Error, k: nat)
    requires RollbackFrom(rollbacks, b, w, i, err).err == Some(err) && k <= i && k < |rollbacks|
    ensures RolledBack(rollbacks, b, w, i, k)
    decreases i + 1
  {
    if i >= |rollbacks| {
      UnwrappedMeansTakenBack(rollbacks, b, w, i - 1, err, k);
    } else {
      var r := Retry(rollbacks[i], b, w);
      if r.err.Some? {
        ErrorOnlyGrows(rollbacks, b, r.world, i - 1, Wrapped(err, r.err.value));
      } else if i > k {
        UnwrappedMeansTakenBack(rollbacks, b, r.world, i - 1, err, k);
      }
    }
  }

  lemma {:induction false} UnwrappedTookBack(commits: seq<Operation<World>>, rollbacks: seq<Operation<World>>,
      b: BackOff<World>, w: World, i: nat, k: nat)
    requires i <= |commits| && k < FailedAt(commits, b, w, i) < |commits| && k < |rollbacks|
    requires CommitFrom(commits, rollbacks, b, w, i).err == FirstError(commits, b, w, i)
    ensures TookBack(commits, rollbacks, b, w, i, k)
    decreases |commits| - i
  {
    var r := Retry(commits[i], b, w);
    if r.err.Some? {
      UnwrappedMeansTakenBack(rollbacks, b, r.world, i - 1, r.err.value, k);
    } else {
      UnwrappedTookBack(commits, rollbacks, b, r.world, i + 1, k);
    }
  }

  /** A pipeline of set and del on distinct keys with possibly fewer rollbacks, under every back-off and
      whatever fates the calls meet. Without an error every key has its new value. If commit n fails:
      completed commits without a rollback remain; a key whose rollback succeeds in this run is back at
      its old value, whatever the other rollbacks do; key n and keys whose rollback fails have their old
      or new value; all later keys, and all others, are as at the start. If the error is exactly the
      failed commit's, every rollback the pipeline ran succeeded. */
  lemma UncoveredCommitsRemain(commits: seq<Request>, rollbacks: seq<Request>, b: BackOff<World>, w: World)
    requires Keyed(commits, rollbacks, w.kv)
    ensures var (r, n) := (CommitFrom(Ops(commits), Ops(rollbacks), b, w, 0), FailedAt(Ops(commits), b, w, 0));
      && (r.err.Some? <==> n < |commits|)
      && (forall i | 0 <= i < |commits| :: var (end, k) := (Lookup(r.world.kv, commits[i].key), commits[i].key);
           if r.err.None? then end == commits[i].Leaves()
           else Ends(end, Lookup(w.kv, k), commits[i].Leaves(), i, n, |rollbacks|,
                     TookBack(Ops(commits), Ops(rollbacks), b, w, 0, i)))
      && (forall k | (forall i | 0 <= i < |commits| :: commits[i].key != k) :: Lookup(r.world.kv, k) == Lookup(w.kv, k))
      && (r.err == FirstError(Ops(commits), b, w, 0) ==>
           forall i | 0 <= i < n < |commits| && i < |rollbacks| :: TookBack(Ops(commits), Ops(rollbacks), b, w, 0, i))
  {
    var (r, n) := (CommitFrom(Ops(commits), Ops(rollbacks), b, w, 0), FailedAt(Ops(commits), b, w, 0));
    if r.err == FirstError(Ops(commits), b, w, 0) {
      forall i | 0 <= i < n < |commits| && i < |rollbacks| ensures TookBack(Ops(commits), Ops(rollbacks), b, w, 0, i) {
        UnwrappedTookBack(Ops(commits), Ops(rollbacks), b, w, 0, i);
      }
    }
    CauseIsFailedCommit(Ops(commits), Ops(rollbacks), b, w, 0);
    forall i | 0 <= i < |commits| ensures var (end, k) := (Lookup(r.world.kv, commits[i].key), commits[i].key);
        if r.err.None? then end == commits[i].Leaves()
        else Ends(end, Lookup(w.kv, k), commits[i].Leaves(), i, n, |rollbacks|,
                  TookBack(Ops(commits), Ops(rollbacks), b, w, 0, i))
    {
      CommitKey(commits, rollbacks, b, w.kv, w, 0, commits[i].key, i);
    }
    forall k | (forall i | 0 <= i < |commits| :: commits[i].key != k) ensures Lookup(r.world.kv, k) == Lookup(w.kv, k) {
      CommitKey(commits, rollbacks, b, w.kv, w, 0, k, -1);
    }
  }
}
