/** `pipeline`: commits in order; after a failure, rollbacks in reverse. Operations act on a world
    of any kind, so that what one attempt leaves behind can influence the next. */
module Pipeline {
  import opened Text
  import opened Etcd

  datatype Error = Failed(id: nat) | Wrapped(cause: Error, note: Error)

  /** `errors.Cause`: the innermost error. */
  function Cause(e: Error): (r: Error)
    ensures !r.Wrapped? && (!e.Wrapped? ==> r == e)
    ensures e.Wrapped? ==> r == Cause(e.cause)
  {
    if e.Wrapped? then Cause(e.cause) else e
  }

  datatype Result<W> = Result(world: W, err: Option<Error>)

  type Operation<!W> = W -> Result<W>

  /** A back-off after its Reset: whether to try again after n retries, at most `limit` times. */
  datatype BackOff<!W> = BackOff(limit: nat, again: (nat, W) -> bool)

  // ----------------------------------------------------------------------- retry

  /** `backoff.Retry` after n retries. */
  function RetryFrom<W>(o: Operation<W>, b: BackOff<W>, w: W, n: nat): Result<W>
    decreases if n < b.limit then b.limit - n else 0
  {
    var r := o(w);
    if r.err.None? || n >= b.limit || !b.again(n, r.world) then r
    else RetryFrom(o, b, r.world, n + 1)
  }

  function Retry<W>(o: Operation<W>, b: BackOff<W>, w: W): Result<W> {
    RetryFrom(o, b, w, 0)
  }

  /** The world after n attempts in a row, whatever their outcomes. */
  function Attempted<W>(o: Operation<W>, w: W, n: nat): W {
    if n == 0 then w else o(Attempted(o, w, n - 1)).world
  }

  /** Attempt n, counted from 0, fails and the back-off allows another one. */
  predicate GoesOn<W>(o: Operation<W>, b: BackOff<W>, w: W, n: nat) {
    o(Attempted(o, w, n)).err.Some? && n < b.limit && b.again(n, Attempted(o, w, n + 1))
  }

  lemma {:induction false} RetryStopsFrom<W>(o: Operation<W>, b: BackOff<W>, w: W, n: nat) returns (m: nat)
    ensures m >= n && !GoesOn(o, b, w, m) && (forall k | n <= k < m :: GoesOn(o, b, w, k))
    ensures RetryFrom(o, b, Attempted(o, w, n), n) == o(Attempted(o, w, m))
    decreases if n < b.limit then b.limit - n else 0
  {
    if GoesOn(o, b, w, n) {
      m := RetryStopsFrom(o, b, w, n + 1);
    } else {
      m := n;
    }
  }

  /** `backoff.Retry` returns the outcome of the first attempt that succeeds or after which the back-off
      allows no more: attempt m for exactly the m that none before it ends. */
  lemma RetryStopsAt<W>(o: Operation<W>, b: BackOff<W>, w: W, m: nat)
    requires !GoesOn(o, b, w, m) && forall k | 0 <= k < m :: GoesOn(o, b, w, k)
    ensures Retry(o, b, w) == o(Attempted(o, w, m))
  {
    var m' := RetryStopsFrom(o, b, w, 0);
    assert Attempted(o, w, 0) == w;
    assert m == m';
  }

  /** An error from Retry means that every attempt failed until the back-off allowed no more. */
  lemma RetryGivesUp<W>(o: Operation<W>, b: BackOff<W>, w: W) returns (m: nat)
    requires Retry(o, b, w).err.Some?
    ensures forall k | 0 <= k <= m :: o(Attempted(o, w, k)).err.Some?
    ensures m >= b.limit || !b.again(m, Attempted(o, w, m + 1))
  {
    m := RetryStopsFrom(o, b, w, 0);
    assert Attempted(o, w, 0) == w;
    forall k | 0 <= k <= m ensures o(Attempted(o, w, k)).err.Some? {
      if k < m {
        assert GoesOn(o, b, w, k);
      }
    }
  }

  method RunRetry<W>(o: Operation<W>, b: BackOff<W>, w: W) returns (r: Result<W>)
    ensures r == Retry(o, b, w)
  {
    r := o(w);
    var n := 0;
    while r.err.Some? && n < b.limit && b.again(n, r.world)
      invariant n <= b.limit
      invariant Retry(o, b, w) == if r.err.None? || n >= b.limit || !b.again(n, r.world) then r
                                  else RetryFrom(o, b, r.world, n + 1)
      decreases b.limit - n
    {
      r := o(r.world);
      n := n + 1;
    }
  }

  // -------------------------------------------------------------------- pipeline

  /** The rollback loop from index i downwards. */
  function RollbackFrom<W>(rollbacks: seq<Operation<W>>, b: BackOff<W>, w: W, i: int, err: Error): Result<W>
    decreases if i < 0 then 0 else i + 1
  {
    if i < 0 then Result(w, Some(err))
    else if i >= |rollbacks| then RollbackFrom(rollbacks, b, w, i - 1, err)
    else
      var r := Retry(rollbacks[i], b, w);
      RollbackFrom(rollbacks, b, r.world, i - 1, if r.err.Some? then Wrapped(err, r.err.value) else err)
  }

  /** The commit loop from index i on. */
  function CommitFrom<W>(commits: seq<Operation<W>>, rollbacks: seq<Operation<W>>, b: BackOff<W>,
                         w: W, i: nat): Result<W>
    requires i <= |commits|
    decreases |commits| - i
  {
    if i == |commits| then Result(w, None)
    else
      var r := Retry(commits[i], b, w);
      if r.err.Some? then RollbackFrom(rollbacks, b, r.world, i - 1, r.err.value)
      else CommitFrom(commits, rollbacks, b, r.world, i + 1)
  }

  method RunPipeline<W>(commits: seq<Operation<W>>, rollbacks: seq<Operation<W>>, b: BackOff<W>, w: W)
      returns (w': W, err: Option<Error>)
    ensures Result(w', err) == CommitFrom(commits, rollbacks, b, w, 0)
  {
    w', err := w, None;
    var idx := 0;
    while idx < |commits|
      invariant idx <= |commits| && err.None?
      invariant CommitFrom(commits, rollbacks, b, w, 0) == CommitFrom(commits, rollbacks, b, w', idx)
    {
      var r := RunRetry(commits[idx], b, w');
      w', err := r.world, r.err;
      if err.Some? {
        var i := idx - 1;
        while i >= 0
          invariant -1 <= i < idx && err.Some?
          invariant CommitFrom(commits, rollbacks, b, w, 0) == RollbackFrom(rollbacks, b, w', i, err.value)
        {
          if i < |rollbacks| {
            var r := RunRetry(rollbacks[i], b, w');
            w' := r.world;
            if r.err.Some? {
              err := Some(Wrapped(err.value, r.err.value));
            }
          }
          i := i - 1;
        }
        break;
      }
      idx := idx + 1;
    }
  }

  // ----------------------------------------------------- what operations promise

  /** On what is visible of the world, the operation has the effect when it succeeds and none
      when it fails. */
  ghost predicate Does<W(!new), V>(o: Operation<W>, view: W -> V, effect: V -> V) {
    forall w :: view(o(w).world) == if o(w).err.Some? then view(w) else effect(view(w))
  }

  /** The same, but an attempt that fails may have had its effect: the reply was lost. */
  ghost predicate MayDo<W(!new), V>(o: Operation<W>, view: W -> V, effect: V -> V) {
    forall w :: view(o(w).world) == effect(view(w)) || (o(w).err.Some? && view(o(w).world) == view(w))
  }

  ghost predicate Idempotent<V(!new)>(effect: V -> V) {
    forall v :: effect(effect(v)) == effect(v)
  }

  /** Under retry the operation has the effect when it succeeds, and the effect or none when it fails. */
  ghost predicate Done<W(!new), V>(o: Operation<W>, b: BackOff<W>, view: W -> V, effect: V -> V) {
    forall w :: var r := Retry(o, b, w);
      view(r.world) == effect(view(w)) || (r.err.Some? && view(r.world) == view(w))
  }

  /** Retrying has the effect exactly once or not at all, however many attempts failed before. */
  lemma {:induction false} RetryDoes<W(!new), V>(o: Operation<W>, b: BackOff<W>, view: W -> V, effect: V -> V,
      w: W, n: nat)
    requires Does(o, view, effect)
    ensures var r := RetryFrom(o, b, w, n);
      view(r.world) == if r.err.Some? then view(w) else effect(view(w))
    decreases if n < b.limit then b.limit - n else 0
  {
    var r := o(w);
    if !(r.err.None? || n >= b.limit || !b.again(n, r.world)) {
      RetryDoes(o, b, view, effect, r.world, n + 1);
    }
  }

  /** An idempotent effect survives lost replies: whatever attempts took effect, it is there once. */
  lemma {:induction false} RetryIdempotent<W(!new), V(!new)>(o: Operation<W>, b: BackOff<W>, view: W -> V,
      effect: V -> V, w: W, n: nat)
    requires MayDo(o, view, effect) && Idempotent(effect)
    ensures var r := RetryFrom(o, b, w, n);
      view(r.world) == effect(view(w)) || (r.err.Some? && view(r.world) == view(w))
    decreases if n < b.limit then b.limit - n else 0
  {
    var r := o(w);
    if !(r.err.None? || n >= b.limit || !b.again(n, r.world)) {
      RetryIdempotent(o, b, view, effect, r.world, n + 1);
      assert effect(effect(view(w))) == effect(view(w));
    }
  }

  /** The first effects in order. */
  function Effects<V>(effects: seq<V -> V>, v: V): V {
    if effects == [] then v else effects[|effects| - 1](Effects(effects[..|effects| - 1], v))
  }

  ghost predicate AllDone<W(!new), V>(os: seq<Operation<W>>, b: BackOff<W>, view: W -> V, effects: seq<V -> V>) {
    |os| == |effects| && forall i | 0 <= i < |os| :: Done(os[i], b, view, effects[i])
  }

  /** The error a pipeline reports first: that of the first commit that fails. */
  function FirstError<W>(commits: seq<Operation<W>>, b: BackOff<W>, w: W, i: nat): Option<Error>
    requires i <= |commits|
    decreases |commits| - i
  {
    if i == |commits| then None
    else
      var r := Retry(commits[i], b, w);
      if r.err.Some? then r.err else FirstError(commits, b, r.world, i + 1)
  }

  /** Whether the commit that fails in this run, if any, leaves what is visible as it found it. */
  predicate FailsCleanly<W, V(==)>(commits: seq<Operation<W>>, b: BackOff<W>, view: W -> V, w: W, i: nat)
    requires i <= |commits|
    decreases |commits| - i
  {
    i < |commits| ==>
      var r := Retry(commits[i], b, w);
      if r.err.Some? then view(r.world) == view(w) else FailsCleanly(commits, b, view, r.world, i + 1)
  }

  // ------------------------------------------------------------------- theorems

  /** Whatever the rollbacks do, the error reported has the failed commit's error as its cause,
      and there is an error exactly if a commit failed. */
  lemma {:induction false} RollbackKeepsCause<W>(rollbacks: seq<Operation<W>>, b: BackOff<W>, w: W, i: int, err: Error)
    ensures var r := RollbackFrom(rollbacks, b, w, i, err); r.err.Some? && Cause(r.err.value) == Cause(err)
    decreases if i < 0 then 0 else i + 1
  {
    if i >= 0 {
      if i >= |rollbacks| {
        RollbackKeepsCause(rollbacks, b, w, i - 1, err);
      } else {
        var r := Retry(rollbacks[i], b, w);
        RollbackKeepsCause(rollbacks, b, r.world, i - 1, if r.err.Some? then Wrapped(err, r.err.value) else err);
      }
    }
  }

  lemma {:induction false} CauseIsFailedCommit<W>(commits: seq<Operation<W>>, rollbacks: seq<Operation<W>>,
      b: BackOff<W>, w: W, i: nat)
    requires i <= |commits|
    ensures var (r, first) := (CommitFrom(commits, rollbacks, b, w, i), FirstError(commits, b, w, i));
      (r.err.Some? <==> first.Some?) && (r.err.Some? ==> Cause(r.err.value) == Cause(first.value))
    decreases |commits| - i
  {
    if i < |commits| {
      var r := Retry(commits[i], b, w);
      if r.err.Some? {
        RollbackKeepsCause(rollbacks, b, r.world, i - 1, r.err.value);
      } else {
        CauseIsFailedCommit(commits, rollbacks, b, r.world, i + 1);
      }
    }
  }

  /** Each rollback below the failed commit is retried once, from the last to the first, whether
      or not the ones before it failed: the world is the one left by running them all. */
  function RunBackwards<W>(rollbacks: seq<Operation<W>>, b: BackOff<W>, w: W): W {
    if rollbacks == [] then w
    else RunBackwards(rollbacks[..|rollbacks| - 1], b, Retry(rollbacks[|rollbacks| - 1], b, w).world)
  }

  lemma {:induction false} EveryRollbackRuns<W>(rollbacks: seq<Operation<W>>, b: BackOff<W>, w: W, i: int, err: Error)
    requires i >= -1
    ensures var n := if i + 1 < |rollbacks| then i + 1 else |rollbacks|;
      RollbackFrom(rollbacks, b, w, i, err).world == RunBackwards(rollbacks[..n], b, w)
    decreases i + 1
  {
    if i >= 0 {
      if i >= |rollbacks| {
        EveryRollbackRuns(rollbacks, b, w, i - 1, err);
      } else {
        var r := Retry(rollbacks[i], b, w);
        EveryRollbackRuns(rollbacks, b, r.world, i - 1, if r.err.Some? then Wrapped(err, r.err.value) else err);
        assert rollbacks[..i + 1][..i] == rollbacks[..i];
      }
    }
  }

  function Depth(e: Error): nat {
    if e.Wrapped? then Depth(e.cause) + 1 else 0
  }

  /** A rollback that fails stays visible in the error. */
  lemma {:induction false} ErrorOnlyGrows<W>(rollbacks: seq<Operation<W>>, b: BackOff<W>, w: W, i: int, err: Error)
    ensures var r := RollbackFrom(rollbacks, b, w, i, err); r.err.Some? && Depth(r.err.value) >= Depth(err)
    decreases if i < 0 then 0 else i + 1
  {
    if i >= 0 {
      if i >= |rollbacks| {
        ErrorOnlyGrows(rollbacks, b, w, i - 1, err);
      } else {
        var r := Retry(rollbacks[i], b, w);
        ErrorOnlyGrows(rollbacks, b, r.world, i - 1, if r.err.Some? then Wrapped(err, r.err.value) else err);
      }
    }
  }

  /** Rollbacks that undo their commits in this run, and all succeed in it, bring back what the world
      looked like. That all succeeded shows in the error, which then is passed on unchanged. */
  lemma {:induction false} RollbackRestores<W(!new), V(!new)>(rollbacks: seq<Operation<W>>, b: BackOff<W>, view: W -> V,
      effects: seq<V -> V>, undos: seq<V -> V>, v: V, w: W, i: int, err: Error)
    requires AllDone(rollbacks, b, view, undos) && -1 <= i < |effects| && i < |rollbacks|
    requires forall j | 0 <= j <= i :: undos[j](Effects(effects[..j + 1], v)) == Effects(effects[..j], v)
    requires view(w) == Effects(effects[..i + 1], v)
    requires RollbackFrom(rollbacks, b, w, i, err).err == Some(err)
    ensures view(RollbackFrom(rollbacks, b, w, i, err).world) == v
    decreases i + 1
  {
    if i >= 0 {
      var r := Retry(rollbacks[i], b, w);
      if r.err.Some? {
        ErrorOnlyGrows(rollbacks, b, r.world, i - 1, Wrapped(err, r.err.value));
        assert false;
      }
      assert Done(rollbacks[i], b, view, undos[i]);
      RollbackRestores(rollbacks, b, view, effects, undos, v, r.world, i - 1, err);
    }
  }

  /** All or nothing. Rollback j takes back commit j where this run needs it, on the state its own start
      leads to. Then a pipeline without an error has applied every effect in order. One whose error is
      exactly the failed commit's, so that every rollback it ran succeeded, ends with the world looking
      as at the start, provided that the failed commit left no trace. */
  lemma AllOrNothing<W(!new), V(!new)>(commits: seq<Operation<W>>, rollbacks: seq<Operation<W>>, b: BackOff<W>,
      view: W -> V, effects: seq<V -> V>, undos: seq<V -> V>, w: W)
    requires AllDone(commits, b, view, effects) && AllDone(rollbacks, b, view, undos) && |rollbacks| + 1 >= |commits|
    requires forall j | 0 <= j < |rollbacks| && j < |commits| ::
      undos[j](Effects(effects[..j + 1], view(w))) == Effects(effects[..j], view(w))
    ensures var (r, first) := (CommitFrom(commits, rollbacks, b, w, 0), FirstError(commits, b, w, 0));
      && (r.err.None? <==> first.None?)
      && (r.err.None? ==> view(r.world) == Effects(effects, view(w)))
      && (r.err.Some? ==> Cause(r.err.value) == Cause(first.value))
      && (r.err.Some? && r.err == first && FailsCleanly(commits, b, view, w, 0) ==> view(r.world) == view(w))
  {
    CauseIsFailedCommit(commits, rollbacks, b, w, 0);
    AllOrNothingFrom(commits, rollbacks, b, view, effects, undos, view(w), w, 0);
  }

  lemma {:induction false} AllOrNothingFrom<W(!new), V(!new)>(commits: seq<Operation<W>>, rollbacks: seq<Operation<W>>,
      b: BackOff<W>, view: W -> V, effects: seq<V -> V>, undos: seq<V -> V>, v: V, w: W, i: nat)
    requires AllDone(commits, b, view, effects) && AllDone(rollbacks, b, view, undos) && |rollbacks| + 1 >= |commits|
    requires forall j | 0 <= j < |rollbacks| && j < |commits| ::
      undos[j](Effects(effects[..j + 1], v)) == Effects(effects[..j], v)
    requires i <= |commits| && view(w) == Effects(effects[..i], v)
    ensures var (r, first) := (CommitFrom(commits, rollbacks, b, w, i), FirstError(commits, b, w, i));
      && (r.err.None? ==> view(r.world) == Effects(effects, v))
      && (r.err.Some? && r.err == first && FailsCleanly(commits, b, view, w, i) ==> view(r.world) == v)
    decreases |commits| - i
  {
    if i == |commits| {
      assert effects[..i] == effects;
    } else {
      var r := Retry(commits[i], b, w);
      assert Done(commits[i], b, view, effects[i]);
      if r.err.None? {
        assert effects[..i + 1][..i] == effects[..i];
        AllOrNothingFrom(commits, rollbacks, b, view, effects, undos, v, r.world, i + 1);
      } else {
        RollbackKeepsCause(rollbacks, b, r.world, i - 1, r.err.value);
        if RollbackFrom(rollbacks, b, r.world, i - 1, r.err.value).err == r.err && view(r.world) == view(w) {
          RollbackRestores(rollbacks, b, view, effects, undos, v, r.world, i - 1, r.err.value);
        }
      }
    }
  }
}
