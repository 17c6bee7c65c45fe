/** The etcd client of one service: every call takes some time and may fail. A ghost counter of failed
    calls lets callers say what is certain when none fails; another one records the sleeps. */
module Client {
  import opened Text
  import opened Etcd

  datatype Error =
    | Unavailable | NotExist(key: string) | FailedChecksum(key: string) | Corrupt | NoValue
    | LockHeld | NotOwner | LeaseNotFound

  datatype Result<+T> = Ok(value: T) | Err(error: Error)

  datatype Op = OpPut(key: string, value: Value) | OpDelete(key: string)

  function ApplyOp(st: Store, op: Op): Store {
    match op
    case OpPut(k, v) => st.Put(k, v, None)
    case OpDelete(k) => st.Delete({k})
  }

  function ApplyOps(st: Store, ops: seq<Op>): Store {
    if ops == [] then st else ApplyOp(ApplyOps(st, ops[..|ops| - 1]), ops[|ops| - 1])
  }

  class EtcdClient {
    var db: Store
    var now: Time
    var nextLease: LeaseId
    ghost var failures: nat
    ghost var slept: seq<nat>

    constructor (now: Time)
      ensures db == Store(map[], map[], {}) && this.now == now && nextLease == 0 && failures == 0 && slept == []
    {
      db := Store(map[], map[], {});
      this.now := now;
      nextLease := 0;
      failures := 0;
      slept := [];
    }

    /** The call counted, or not, as its result says. */
    ghost predicate Counted<T>(r: Result<T>, before: nat)
      reads this
    {
      failures == before + (if r.Err? && r.error == Unavailable then 1 else 0)
    }

    /** Time passes, by any amount. */
    method Pass()
      modifies this`now
      ensures now >= old(now)
    {
      var d: nat :| true;
      now := now + d;
    }

    method Sleep(d: nat)
      modifies this`now, this`slept
      ensures now == old(now) + d && slept == old(slept) + [d]
    {
      now := now + d;
      slept := slept + [d];
    }

    method Get(k: string) returns (r: Result<Option<Value>>)
      modifies this`now, this`failures
      ensures Counted(r, old(failures))
      ensures now >= old(now)
      ensures r.Ok? ==> r.value == Lookup(db.kv, k)
      ensures r.Err? ==> r.error == Unavailable
    {
      Pass();
      if * {
        failures := failures + 1;
        return Err(Unavailable);
      }
      r := Ok(Lookup(db.kv, k));
    }

    method GetPrefix(prefix: string) returns (r: Result<seq<KeyValue>>)
      modifies this`now, this`failures
      ensures Counted(r, old(failures))
      ensures now >= old(now)
      ensures r.Ok? ==> r.value == Range(db.kv, prefix)
      ensures r.Err? ==> r.error == Unavailable
    {
      Pass();
      if * {
        failures := failures + 1;
        return Err(Unavailable);
      }
      r := Ok(Range(db.kv, prefix));
    }

    /** A failed write may still have taken effect, but never in part. */
    method Txn(ops: seq<Op>) returns (r: Result<()>)
      modifies this`now, this`db, this`failures
      ensures Counted(r, old(failures))
      ensures now >= old(now)
      ensures db == ApplyOps(old(db), ops) || (r.Err? && db == old(db))
      ensures r.Err? ==> r.error == Unavailable
    {
      Pass();
      if * {
        failures := failures + 1;
        return Err(Unavailable);
      }
      db := ApplyOps(db, ops);
      if * {
        failures := failures + 1;
        return Err(Unavailable);
      }
      r := Ok(());
    }

    method Put(k: string, v: Value, lease: Option<LeaseId>) returns (r: Result<()>)
      modifies this`now, this`db, this`failures
      ensures Counted(r, old(failures))
      ensures now >= old(now)
      ensures db == old(db).Put(k, v, lease) || (r.Err? && db == old(db))
      ensures r.Err? ==> r.error == Unavailable
    {
      Pass();
      if * {
        failures := failures + 1;
        return Err(Unavailable);
      }
      db := db.Put(k, v, lease);
      if * {
        failures := failures + 1;
        return Err(Unavailable);
      }
      r := Ok(());
    }

    method Grant() returns (r: Result<LeaseId>)
      modifies this`now, this`db, this`nextLease, this`failures
      ensures Counted(r, old(failures))
      ensures now >= old(now) && nextLease >= old(nextLease)
      ensures r.Ok? ==> r.value == old(nextLease) && db == old(db).Grant(r.value) && nextLease == old(nextLease) + 1
      ensures r.Err? ==> r.error == Unavailable && (db == old(db) || db == old(db).Grant(old(nextLease)))
    {
      Pass();
      if * {
        failures := failures + 1;
        return Err(Unavailable);
      }
      var id := nextLease;
      nextLease := nextLease + 1;
      db := db.Grant(id);
      if * {
        failures := failures + 1;
        return Err(Unavailable);
      }
      r := Ok(id);
    }

    /** Revoking a lease that has ended already is an error of its own. */
    method Revoke(id: LeaseId) returns (r: Result<()>)
      modifies this`now, this`db, this`failures
      ensures Counted(r, old(failures))
      ensures now >= old(now)
      ensures db == old(db) || (id in old(db).leases && db == old(db).EndLease(id))
      ensures r.Ok? ==> id in old(db).leases && db == old(db).EndLease(id)
      ensures r.Err? ==> r.error == Unavailable || (r.error == LeaseNotFound && id !in old(db).leases)
    {
      Pass();
      if * {
        failures := failures + 1;
        return Err(Unavailable);
      }
      if id !in db.leases {
        return Err(LeaseNotFound);
      }
      db := db.EndLease(id);
      if * {
        failures := failures + 1;
        return Err(Unavailable);
      }
      r := Ok(());
    }
  }
}
