/** The etcd service and the storage built on it, as the sequential programs they are. */
module Service {
  import opened Text
  import opened Base64
  import opened Etcd
  import opened Paths
  import opened Names
  import opened FileSystem
  import opened FileStore
  import opened Queries
  import opened Listing
  import opened Client
  import Protocol
  import Backoff
  import Refinement

  /** From `before` to `after` the token took the lock q, with a stamp taken between `began` and
      `ended`, over no record, its own, or one at least LockTimeout old. */
  predicate Taken(c: Setup, before: Locks, after: Locks, q: Path, token: Token, began: Time, ended: Time) {
    && q in after && after == before[q := after[q]]
    && after[q].token == token && began <= after[q].obtained <= ended
    && (q in before ==> Protocol.MayFollow(c, before[q], token, after[q].obtained))
  }

  /** Nothing happened to the locks, or the token took q. */
  predicate TakenOrNot(c: Setup, before: Locks, after: Locks, q: Path, token: Token, began: Time, ended: Time) {
    after == before || Taken(c, before, after, q, token, began, ended)
  }

  /** Why lock may fail after its last attempt; `failed` says whether a call to etcd has. */
  predicate LockOutcome(c: Setup, r: Result<()>, locks: Locks, q: Path, token: Token, began: Time, failed: bool) {
    match r
    case Ok(_) => true
    case Err(LockHeld) => q in locks && locks[q].token != token && began < locks[q].obtained + c.timeout
    case Err(e) => e == Unavailable && failed
  }

  /** What Unlock has found or done after its last attempt. */
  predicate UnlockOutcome(r: Result<()>, locks: Locks, q: Path, token: Token, leases: set<LeaseId>, failed: bool) {
    match r
    case Ok(_) => q in locks ==> locks[q].token == token && locks[q].lease !in leases
    case Err(NotOwner) => q in locks && locks[q].token != token
    case Err(LeaseNotFound) => q in locks && locks[q].token == token && locks[q].lease !in leases
    case Err(e) => e == Unavailable && failed
  }

  /** No lease ended, or just that of the token's own record. */
  predicate EndsOwn(locks: Locks, q: Path, token: Token, before: set<LeaseId>, after: set<LeaseId>) {
    || after == before
    || (q in locks && locks[q].token == token && after == before - {locks[q].lease})
  }

  class EtcdSrv {
    const c: Setup
    const cli: EtcdClient
    const noBackoff: bool
    // what the keyspace stands for
    ghost var files: Files
    ghost var locks: Locks

    ghost predicate Valid()
      reads this, cli
    {
      && Represents(c, cli.db.kv, files, locks)
      && cli.db.attached == map[]
      && cli.now > 0
      && forall q | q in locks :: locks[q].obtained <= cli.now
    }

    constructor (c: Setup, cli: EtcdClient, noBackoff: bool)
      requires c.Valid() && cli.db == Etcd.Store(map[], map[], {}) && cli.now > 0
      ensures Valid() && this.c == c && this.cli == cli && files == map[] && locks == map[]
    {
      this.c, this.cli, this.noBackoff := c, cli, noBackoff;
      files, locks := map[], map[];
    }

    // ---------------------------------------------------------------------- files

    /** Store: on success the file has the new content and a time within the call; on failure it has
        either that or its old content, never a mixture. Nothing else changes. */
    method Store(key: string, value: Bytes) returns (r: Result<()>, ghost stamp: Time)
      requires Valid() && NoDotDot(key) && FilePath(Components(key))
      modifies this`files, cli
      ensures cli.Counted(r, old(cli.failures))
      ensures Valid() && locks == old(locks) && old(cli.now) <= stamp <= cli.now
      ensures r.Err? ==> r.error == Unavailable
      ensures files == old(files)[Components(key) := FileRec(value, stamp, key)] || (r.Err? && files == old(files))
      ensures ForeignSame(c, old(cli.db.kv), cli.db.kv)
    {
      var storageKey := StorageKey(c.KeyPrefix(), key);
      var storageKeyMD := MetadataKey(c.KeyPrefix(), key);
      var md := NewMetadata(c, key, value, cli.now);
      stamp := cli.now;
      var found := cli.Get(storageKeyMD);
      if found.Err? {
        return Err(found.error), stamp;
      }
      label commit:
      var ops := [OpPut(storageKey, File(Encode(value))), OpPut(storageKeyMD, Meta(md))];
      r := cli.Txn(ops);
      StoreOps(old@commit(cli.db), ops);
      StoreRefines(c, old@commit(cli.db.kv), files, locks, key, FileRec(value, stamp, key));
      KeysAreOwn(c, key);
      if r.Ok? || cli.db != old@commit(cli.db) {
        files := files[Components(key) := FileRec(value, stamp, key)];
      }
    }

    /** Delete: on success the file is gone; on failure it is gone or untouched. */
    method Delete(key: string) returns (r: Result<()>)
      requires Valid() && NoDotDot(key) && FilePath(Components(key))
      modifies this`files, cli
      ensures cli.Counted(r, old(cli.failures))
      ensures Valid() && locks == old(locks)
      ensures r.Err? ==> r.error == Unavailable
      ensures files == old(files) - {Components(key)} || (r.Err? && files == old(files))
      ensures ForeignSame(c, old(cli.db.kv), cli.db.kv)
    {
      var ops := [OpDelete(StorageKey(c.KeyPrefix(), key)), OpDelete(MetadataKey(c.KeyPrefix(), key))];
      r := cli.Txn(ops);
      DeleteOps(old(cli.db), ops);
      DeleteRefines(c, old(cli.db.kv), files, locks, key);
      ForeignKept(c, old(cli.db.kv), key);
      if r.Ok? || cli.db != old(cli.db) {
        files := files - {Components(key)};
      }
    }

    /** Load: exactly the file's content, NotExist exactly for an absent file, or etcd is down. */
    method Load(key: string) returns (r: Result<Bytes>)
      requires Valid() && NoDotDot(key)
      modifies cli`now, cli`failures
      ensures cli.Counted(r, old(cli.failures))
      ensures Valid() && cli.now >= old(cli.now)
      ensures r.Ok? ==> Components(key) in files && r.value == files[Components(key)].data
      ensures r.Err? ==> r.error == Unavailable || (r.error == Error.NotExist(key) && Components(key) !in files)
    {
      LoadExact(c, cli.db.kv, files, locks, cli.db.kv, files, locks, key);
      var md := cli.Get(MetadataKey(c.KeyPrefix(), key));
      if md.Err? {
        return Err(md.error);
      }
      if md.value.None? {
        return Err(Error.NotExist(key));
      }
      if !md.value.value.Meta? {
        return Err(Corrupt);
      }
      var value := cli.Get(StorageKey(c.KeyPrefix(), key));
      if value.Err? {
        return Err(value.error);
      }
      if value.value.None? {
        return Err(NoValue);
      }
      if !value.value.value.File? {
        return Err(Corrupt);
      }
      var data := Decode(value.value.value.text);
      if data.None? {
        return Err(Corrupt);
      }
      if c.hash(data.value) != md.value.value.md.hash {
        return Err(Error.FailedChecksum(key));
      }
      r := Ok(data.value);
    }

    /** The loop over the children of a directory. */
    method AggregateChildren(kvs: seq<KeyValue>) returns (size: nat, timestamp: Time)
      ensures Sum(size, timestamp) == Aggregate(kvs)
    {
      size, timestamp := 0, 0;
      for i := 0 to |kvs|
        invariant Sum(size, timestamp) == Aggregate(kvs[..i])
      {
        assert kvs[..i + 1][..i] == kvs[..i];
        if kvs[i].value.Meta? {
          var child := kvs[i].value.md;
          size := size + child.size;
          if child.timestamp > timestamp {
            timestamp := child.timestamp;
          }
        }
      }
      assert kvs[..|kvs|] == kvs;
    }

    /** Metadata: for a file its own record, for a directory the totals of everything beneath it. */
    method Metadata(key: string) returns (r: Result<Metadata>)
      requires Valid() && NoDotDot(key)
      modifies cli`now, cli`failures
      ensures cli.Counted(r, old(cli.failures))
      ensures Valid() && cli.now >= old(cli.now)
      ensures var q := Components(key);
        match r
        case Ok(md) =>
          if q in files then md == Etcd.Metadata(key, |files[q].data|, files[q].stamp, c.hash(files[q].data), false)
          else IsDir(files, q) && var sum := SumOf(files, Beneath(files, q));
               md == Etcd.Metadata(key, sum.size, sum.latest, ZERO_HASH, true)
        case Err(e) => e == Unavailable || (e == Error.NotExist(key) && q !in files && !IsDir(files, q))
    {
      MetadataNodeExact(c, cli.db.kv, files, locks, key);
      var node := MetadataKey(c.KeyPrefix(), key);
      var resp := cli.Get(node);
      if resp.Err? {
        return Err(resp.error);
      }
      if resp.value.Some? {
        if !resp.value.value.Meta? {
          return Err(Corrupt);
        }
        var md := resp.value.value.md;
        return Ok(md.(path := key));
      }
      DirectoryTotals(c, cli.db.kv, files, locks, key);
      var dir := cli.GetPrefix(node + "/");
      if dir.Err? {
        return Err(dir.error);
      }
      if dir.value == [] {
        return Err(Error.NotExist(key));
      }
      var size, timestamp := AggregateChildren(dir.value);
      var now := cli.now;
      if timestamp == 0 {
        timestamp := now;
      }
      r := Ok(Etcd.Metadata(key, size, timestamp, ZERO_HASH, true));
    }

    method Passes(filters: seq<Filter>, e: KeyValue) returns (ok: bool)
      ensures ok == PassesAll(filters, e)
    {
      for i := 0 to |filters|
        invariant forall j | 0 <= j < i :: filters[j](e)
      {
        if !filters[i](e) {
          return false;
        }
      }
      ok := true;
    }

    /** The loop of List over the pairs found. */
    method Collect(kvs: seq<KeyValue>, filters: seq<Filter>) returns (out: seq<string>)
      ensures out == ListedAll(c.KeyPrefix(), kvs, filters)
    {
      var prefixLen := |c.KeyPrefix()|;
      out := [];
      for i := 0 to |kvs|
        invariant out == ListedAll(c.KeyPrefix(), kvs[..i], filters)
      {
        assert kvs[..i + 1][..i] == kvs[..i];
        if |kvs[i].key| <= prefixLen {
          continue;
        }
        var relativeKey := kvs[i].key[prefixLen..];
        if Contains(relativeKey, "/md/") {
          continue;
        }
        var ok := Passes(filters, kvs[i]);
        if !ok {
          continue;
        }
        if !("/" <= relativeKey) {
          relativeKey := "/" + relativeKey;
        }
        out := out + [relativeKey];
      }
      assert kvs[..|kvs|] == kvs;
    }

    /** List, whose result the lemmas of module Listing describe. */
    method List(key: string, filters: seq<Filter>) returns (r: Result<seq<string>>)
      requires Valid()
      modifies cli`now, cli`failures
      ensures cli.Counted(r, old(cli.failures))
      ensures Valid() && cli.now >= old(cli.now)
      ensures r.Ok? ==> r.value == ListKeys(c.KeyPrefix(), cli.db.kv, key, filters)
      ensures r.Err? ==> r.error == Unavailable
    {
      var resp := cli.GetPrefix(SearchKey(c.KeyPrefix(), key));
      if resp.Err? {
        return Err(resp.error);
      }
      var out := Collect(resp.value, filters);
      r := Ok(out);
    }

    // ---------------------------------------------------------------------- locks

    /** One attempt to acquire: Grant, Get, check, stamp, Put. */
    method Acquire(token: Token, key: string) returns (r: Result<()>)
      requires Valid() && NoDotDot(key) && Components(key) != []
      modifies this`locks, cli
      ensures cli.slept == old(cli.slept)
      ensures cli.Counted(r, old(cli.failures))
      ensures Valid() && cli.now >= old(cli.now)
      ensures var q := Components(key);
        var taken := Taken(c, old(locks), locks, q, token, old(cli.now), cli.now);
        match r
        case Ok(_) => taken && locks[q].key == key && locks[q].lease in cli.db.leases
        case Err(LockHeld) =>
          && locks == old(locks) && q in locks && locks[q].token != token
          && old(cli.now) < locks[q].obtained + c.timeout
        case Err(e) => e == Unavailable && (locks == old(locks) || taken)
    {
      var q := Components(key);
      NodesOfKey(c.prefix, key);
      ComponentsProper(key);
      var lease := cli.Grant();
      if lease.Err? {
        return Err(lease.error);
      }
      LockNodesInStep(c, cli.db.kv, files, locks, q);
      var resp := cli.Get(LockKey(c.KeyPrefix(), key));
      if resp.Err? {
        return Err(resp.error);
      }
      var okToSet := false;
      if resp.value.None? {
        okToSet := true;
      } else {
        if !resp.value.value.Mutex? {
          return Err(Corrupt);
        }
        var l := resp.value.value.lock;
        if l.token == token {
          okToSet := true;
        }
        if cli.now - l.obtained >= c.timeout {
          okToSet := true;
        }
      }
      if !okToSet {
        return Err(LockHeld);
      }
      r := PutRecord(token, key, lease.value);
    }

    /** The end of an acquire that may take the lock: stamp and Put. */
    method PutRecord(token: Token, key: string, lease: LeaseId) returns (r: Result<()>)
      requires Valid() && NoDotDot(key) && Components(key) != []
      requires Components(key) in locks ==> Protocol.MayFollow(c, locks[Components(key)], token, cli.now)
      modifies this`locks, cli
      ensures cli.slept == old(cli.slept)
      ensures cli.Counted(r, old(cli.failures)) && (r.Err? ==> r.error == Unavailable)
      ensures Valid() && cli.now >= old(cli.now) && cli.db.leases == old(cli.db.leases)
      ensures var q := Components(key);
        || (Taken(c, old(locks), locks, q, token, old(cli.now), cli.now)
            && locks[q].key == key && locks[q].lease == lease)
        || (r.Err? && locks == old(locks))
    {
      var q := Components(key);
      NodesOfKey(c.prefix, key);
      ComponentsProper(key);
      cli.Pass();
      var l := Lock(token, cli.now, key, lease);
      label put:
      r := cli.Put(LockKey(c.KeyPrefix(), key), Mutex(l), None);
      PutLock(c, old@put(cli.db), files, locks, q, l);
      if r.Ok? || cli.db != old@put(cli.db) {
        locks := locks[q := l];
      }
    }

    /** Two goes at the same lock by the same token are as good as one. */
    lemma TakenAgain(before: Locks, middle: Locks, after: Locks, q: Path, token: Token, t0: Time, t1: Time, t2: Time)
      requires TakenOrNot(c, before, middle, q, token, t0, t1) && t0 <= t1
      requires Taken(c, middle, after, q, token, t1, t2)
      ensures Taken(c, before, after, q, token, t0, t2)
    {
    }

    /** One attempt of several by the same token since `began`, when the locks were `before`. */
    method AcquireSince(token: Token, key: string, ghost before: Locks, ghost began: Time) returns (r: Result<()>)
      requires Valid() && NoDotDot(key) && Components(key) != [] && began <= cli.now
      requires TakenOrNot(c, before, locks, Components(key), token, began, cli.now)
      modifies this`locks, cli
      ensures cli.slept == old(cli.slept) && cli.Counted(r, old(cli.failures))
      ensures Valid() && cli.now >= old(cli.now)
      ensures TakenOrNot(c, before, locks, Components(key), token, began, cli.now)
      ensures r.Ok? ==> Taken(c, before, locks, Components(key), token, began, cli.now)
      ensures LockOutcome(c, r, locks, Components(key), token, began, cli.failures > old(cli.failures))
      ensures r == Err(LockHeld) ==> locks == old(locks)
    {
      var q := Components(key);
      r := Acquire(token, key);
      if Taken(c, old(locks), locks, q, token, old(cli.now), cli.now) {
        TakenAgain(before, old(locks), locks, q, token, began, old(cli.now), cli.now);
      }
    }

    /** Between attempts: sleeps as long as drawn, unless that would exceed the budget. */
    method Wait(b: Backoff.ExponentialBackOff, n: nat, random: nat -> nat, ghost before: seq<nat>)
        returns (again: bool)
      requires Valid() && b.Valid() && b.sleeps == n && b.startTime + Backoff.LeastSlept(n) <= cli.now
      requires Backoff.Slept(before, cli.slept, n)
      modifies b, cli`now, cli`slept
      ensures Valid() && cli.now >= old(cli.now)
      ensures b.Valid() && b.sleeps == n + 1 && b.startTime == old(b.startTime)
      ensures again ==> Backoff.InBudget(b.startTime, n + 1, cli.now) && Backoff.Slept(before, cli.slept, n + 1)
      ensures !again ==> cli.now == old(cli.now) && cli.slept == old(cli.slept)
      ensures !again ==> Backoff.EndsLate(b.startTime, n, cli.now)
    {
      var now := cli.now;
      ghost var sleep := Backoff.Jitter(Backoff.Interval(n), random(n));
      var next := Backoff.Pause(b, now, random(n));
      again := next.Some?;
      if again {
        Backoff.SleptNext(before, cli.slept, n, sleep);
        cli.Sleep(next.value - now);
      }
    }

    /** One round of lock: an attempt and, if it failed and the budget allows, a sleep. The ghost arguments
        are the locks, the failures and the sleeps when lock began. */
    method LockRound(b: Backoff.ExponentialBackOff, n: nat, token: Token, key: string, random: nat -> nat,
                     ghost before: Locks, ghost failures: nat, ghost slept: seq<nat>)
        returns (r: Result<()>, again: bool)
      requires Valid() && NoDotDot(key) && Components(key) != [] && cli.failures >= failures
      requires b.Valid() && b.sleeps == n && Backoff.InBudget(b.startTime, n, cli.now)
      requires Backoff.Slept(slept, cli.slept, n)
      requires TakenOrNot(c, before, locks, Components(key), token, b.startTime, cli.now)
      modifies this`locks, cli, b
      ensures Valid() && cli.failures >= failures && cli.now >= old(cli.now)
      ensures b.startTime == old(b.startTime)
      ensures TakenOrNot(c, before, locks, Components(key), token, b.startTime, cli.now)
      ensures again ==> b.Valid() && b.sleeps == n + 1 && Backoff.InBudget(b.startTime, n + 1, cli.now)
      ensures Backoff.Slept(slept, cli.slept, if again then n + 1 else n)
      ensures !again && r.Ok? ==> Taken(c, before, locks, Components(key), token, b.startTime, cli.now)
      ensures !again && r.Err? ==> Backoff.EndsLate(b.startTime, n, cli.now)
      ensures LockOutcome(c, r, locks, Components(key), token, b.startTime, cli.failures > failures)
    {
      r := AcquireSince(token, key, before, b.startTime);
      again := r.Err?;
      if again {
        again := Wait(b, n, random, slept);
      }
    }

    /** The attempts of lock with their back-off. */
    method LockLoop(token: Token, key: string, random: nat -> nat)
        returns (r: Result<()>, retries: nat)
      requires Valid() && NoDotDot(key) && Components(key) != []
      modifies this`locks, cli
      ensures Backoff.Slept(old(cli.slept), cli.slept, retries)
      ensures Valid() && cli.now >= old(cli.now)
      ensures TakenOrNot(c, old(locks), locks, Components(key), token, old(cli.now), cli.now)
      ensures r.Ok? ==> Taken(c, old(locks), locks, Components(key), token, old(cli.now), cli.now)
      ensures LockOutcome(c, r, locks, Components(key), token, old(cli.now), cli.failures > old(cli.failures))
      ensures retries < Backoff.MAX_ATTEMPTS
      ensures r.Err? ==> Backoff.EndsLate(old(cli.now), retries, cli.now)
    {
      retries := 0;
      var b := new Backoff.ExponentialBackOff(cli.now);
      while true
        invariant b.Valid() && b.sleeps == retries && b.startTime == old(cli.now)
        invariant Backoff.Slept(old(cli.slept), cli.slept, retries)
        invariant Backoff.InBudget(b.startTime, retries, cli.now)
        invariant fresh(b) && Valid() && cli.failures >= old(cli.failures)
        invariant TakenOrNot(c, old(locks), locks, Components(key), token, old(cli.now), cli.now)
        decreases Backoff.MAX_ATTEMPTS - retries
      {
        var again;
        r, again := LockRound(b, retries, token, key, random, old(locks), old(cli.failures), old(cli.slept));
        if !again {
          return;
        }
        retries := retries + 1;
      }
    }

    /** lock: acquire attempts with back-off. If it returns nil the token has the record. If it fails
        nothing has changed, or an attempt that failed has written the record all the same; it fails
        only when another token holds an unexpired record or a call to etcd failed, and not before the
        next sleep drawn would exceed the budget. Every sleep is one the
        policy may draw. Files are never touched. */
    method LockWithRetry(token: Token, key: string, random: nat -> nat)
        returns (r: Result<()>, retries: nat)
      requires Valid() && NoDotDot(key) && Components(key) != []
      modifies this`locks, cli
      ensures Backoff.Slept(old(cli.slept), cli.slept, retries)
      ensures Valid() && cli.now >= old(cli.now)
      ensures TakenOrNot(c, old(locks), locks, Components(key), token, old(cli.now), cli.now)
      ensures r.Ok? ==> Taken(c, old(locks), locks, Components(key), token, old(cli.now), cli.now)
      ensures LockOutcome(c, r, locks, Components(key), token, old(cli.now), cli.failures > old(cli.failures))
      ensures retries < Backoff.MAX_ATTEMPTS && (noBackoff ==> retries == 0)
      ensures noBackoff ==> cli.Counted(r, old(cli.failures)) && (r == Err(LockHeld) ==> locks == old(locks))
      ensures r.Err? && !noBackoff ==> Backoff.EndsLate(old(cli.now), retries, cli.now)
    {
      if noBackoff {
        retries := 0;
        r := AcquireSince(token, key, locks, cli.now);
      } else {
        r, retries := LockLoop(token, key, random);
      }
    }

    /** One attempt to unlock: Get, owner check, Revoke. It never changes the keyspace: the lock
        record stays even when the call succeeds. */
    method Release(token: Token, key: string) returns (r: Result<()>)
      requires Valid() && NoDotDot(key) && Components(key) != []
      modifies cli
      ensures cli.slept == old(cli.slept)
      ensures cli.Counted(r, old(cli.failures))
      ensures Valid() && cli.now >= old(cli.now) && cli.db.kv == old(cli.db.kv)
      ensures var q := Components(key);
        match r
        case Ok(_) => q in locks ==>
          && locks[q].token == token && locks[q].lease in old(cli.db.leases)
          && cli.db.leases == old(cli.db.leases) - {locks[q].lease}
        case Err(NotOwner) => q in locks && locks[q].token != token && cli.db == old(cli.db)
        case Err(LeaseNotFound) =>
          q in locks && locks[q].token == token && locks[q].lease !in old(cli.db.leases) && cli.db == old(cli.db)
        case Err(e) => e == Unavailable
      ensures EndsOwn(locks, Components(key), token, old(cli.db.leases), cli.db.leases)
    {
      var q := Components(key);
      NodesOfKey(c.prefix, key);
      ComponentsProper(key);
      LockNodesInStep(c, cli.db.kv, files, locks, q);
      var resp := cli.Get(LockKey(c.KeyPrefix(), key));
      if resp.Err? {
        return Err(resp.error);
      }
      if resp.value.None? {
        return Ok(());
      }
      if !resp.value.value.Mutex? {
        return Err(Corrupt);
      }
      var l := resp.value.value.lock;
      if l.token != token {
        return Err(NotOwner);
      }
      Unattached(cli.db, l.lease);
      r := cli.Revoke(l.lease);
    }

    /** The attempts of Unlock with their back-off. */
    method UnlockLoop(token: Token, key: string, random: nat -> nat)
        returns (r: Result<()>, retries: nat)
      requires Valid() && NoDotDot(key) && Components(key) != []
      modifies cli
      ensures Backoff.Slept(old(cli.slept), cli.slept, retries)
      ensures Valid() && cli.now >= old(cli.now) && cli.db.kv == old(cli.db.kv)
      ensures UnlockOutcome(r, locks, Components(key), token, cli.db.leases, cli.failures > old(cli.failures))
      ensures EndsOwn(locks, Components(key), token, old(cli.db.leases), cli.db.leases)
      ensures r == Err(LeaseNotFound) && cli.failures == old(cli.failures) ==> cli.db.leases == old(cli.db.leases)
      ensures retries < Backoff.MAX_ATTEMPTS
      ensures r.Err? ==> Backoff.EndsLate(old(cli.now), retries, cli.now)
    {
      var q := Components(key);
      retries := 0;
      var b := new Backoff.ExponentialBackOff(cli.now);
      while true
        invariant b.sleeps == retries && Backoff.Slept(old(cli.slept), cli.slept, retries)
        invariant b.Valid() && b.startTime == old(cli.now) && Backoff.InBudget(b.startTime, b.sleeps, cli.now)
        invariant fresh(b) && Valid() && cli.failures >= old(cli.failures)
        invariant cli.db.kv == old(cli.db.kv)
        invariant cli.failures == old(cli.failures) ==> cli.db.leases == old(cli.db.leases)
        invariant EndsOwn(locks, q, token, old(cli.db.leases), cli.db.leases)
        decreases Backoff.MAX_ATTEMPTS - b.sleeps
      {
        r := Release(token, key);
        if r.Ok? {
          return;
        }
        var again := Wait(b, retries, random, old(cli.slept));
        if !again {
          return;
        }
        retries := retries + 1;
      }
    }

    /** Unlock: release attempts with back-off. It fails only for another token's record, for a lease
        that has ended, or after a failed call; without any of these the lease of the record ends. */
    method UnlockWithRetry(token: Token, key: string, random: nat -> nat)
        returns (r: Result<()>, retries: nat)
      requires Valid() && NoDotDot(key) && Components(key) != []
      modifies cli
      ensures Backoff.Slept(old(cli.slept), cli.slept, retries)
      ensures Valid() && cli.now >= old(cli.now) && cli.db.kv == old(cli.db.kv)
      ensures UnlockOutcome(r, locks, Components(key), token, cli.db.leases, cli.failures > old(cli.failures))
      ensures EndsOwn(locks, Components(key), token, old(cli.db.leases), cli.db.leases)
      ensures r == Err(LeaseNotFound) && cli.failures == old(cli.failures) ==> cli.db.leases == old(cli.db.leases)
      ensures retries < Backoff.MAX_ATTEMPTS
      ensures noBackoff ==> retries == 0 && cli.Counted(r, old(cli.failures))
      ensures r.Err? && !noBackoff ==> Backoff.EndsLate(old(cli.now), retries, cli.now)
    {
      if noBackoff {
        retries := 0;
        r := Release(token, key);
      } else {
        r, retries := UnlockLoop(token, key, random);
      }
    }

    // --------------------------------------------------------------- Cluster calls

    /** Cluster.Exists: true for files and for strict ancestors of files only, and for all of them
        unless a call to etcd fails. */
    method Exists(key: string) returns (yes: bool)
      requires Valid() && NoDotDot(key)
      modifies cli`now, cli`failures
      ensures Valid()
      ensures yes ==> Components(key) in files || IsDir(files, Components(key))
      ensures cli.failures == old(cli.failures) ==> (yes <==> Components(key) in files || IsDir(files, Components(key)))
    {
      var r := this.Metadata(key);
      yes := r.Ok?;
    }

    /** Cluster.Stat: the answer of the plain map, or etcd is down. */
    method Stat(key: string) returns (r: Result<Refinement.KeyInfo>)
      requires Valid() && NoDotDot(key)
      modifies cli`now, cli`failures
      ensures cli.Counted(r, old(cli.failures))
      ensures Valid()
      ensures r.Ok? ==> StatReply(files, key) == Refinement.Info(r.value)
      ensures r.Err? && r.error != Unavailable ==>
        r.error == Error.NotExist(key) && StatReply(files, key) == Refinement.NotExist
    {
      var md := this.Metadata(key);
      StatReplyCases(files, key);
      if md.Err? {
        return Err(md.error);
      }
      r := Ok(Refinement.KeyInfo(md.value.path, md.value.timestamp, md.value.size, !md.value.isDir));
    }

    /** Cluster.List. */
    method ListPrefix(prefix: string, recursive: bool) returns (r: Result<seq<string>>)
      requires Valid()
      modifies cli`now, cli`failures
      ensures cli.Counted(r, old(cli.failures))
      ensures Valid()
      ensures r.Ok? ==> r.value == ClusterList(c.KeyPrefix(), cli.db.kv, prefix, recursive)
      ensures r.Err? ==> r.error == Unavailable
    {
      var prefix' := prefix;
      if !("/" <= prefix') {
        prefix' := "/" + prefix';
      }
      prefix' := TrimSuffix(prefix', '/');
      var filters: seq<Filter> := [];
      if recursive {
        filters := filters + [FilterRemoveDirectories()];
      } else {
        var searchPrefix := prefix' + "/";
        filters := filters + [FilterExactPrefix(searchPrefix, c.KeyPrefix())];
      }
      assert filters == ClusterFilters(c.KeyPrefix(), prefix, recursive);
      r := List(prefix', filters);
    }
  }

  // ------------------------------------------------------------------- lemmas for it

  ghost function StatReply(files: Files, key: string): Refinement.Reply {
    Refinement.SpecReply(files, Refinement.StatCall(key, 0))
  }

  lemma StatReplyCases(files: Files, key: string)
    ensures var q := Components(key);
      StatReply(files, key) ==
        if q in files then Refinement.Info(Refinement.KeyInfo(key, files[q].stamp, |files[q].data|, true))
        else if IsDir(files, q) then
          (var sum := SumOf(files, Beneath(files, q));
           Refinement.Info(Refinement.KeyInfo(key, sum.latest, sum.size, false)))
        else Refinement.NotExist
  {
  }

  lemma Unattached(st: Store, id: LeaseId)
    requires st.attached == map[]
    ensures st.EndLease(id) == Etcd.Store(st.kv, map[], st.leases - {id})
  {
    assert st.AttachedTo(id) <= st.attached.Keys == {};
    assert st.kv - st.AttachedTo(id) == st.kv;
    assert st.attached - st.AttachedTo(id) == map[];
  }

  lemma StoreOps(st: Store, ops: seq<Op>)
    requires st.attached == map[] && |ops| == 2 && ops[0].OpPut? && ops[1].OpPut?
    ensures ApplyOps(st, ops)
      == Etcd.Store(st.kv[ops[0].key := ops[0].value][ops[1].key := ops[1].value], map[], st.leases)
  {
    assert ops[..1][..0] == [] && ApplyOps(st, ops[..1]) == ApplyOp(st, ops[0]);
    assert st.attached - {ops[0].key} == map[];
    assert st.attached - {ops[1].key} == map[];
  }

  lemma DeleteOps(st: Store, ops: seq<Op>)
    requires st.attached == map[] && |ops| == 2 && ops[0].OpDelete? && ops[1].OpDelete?
    ensures ApplyOps(st, ops) == Etcd.Store(st.kv - {ops[0].key, ops[1].key}, map[], st.leases)
  {
    assert ops[..1][..0] == [] && ApplyOps(st, ops[..1]) == ApplyOp(st, ops[0]);
    assert st.attached - {ops[0].key} == map[];
    assert st.attached - {ops[1].key} == map[];
    assert st.kv - {ops[0].key} - {ops[1].key} == st.kv - {ops[0].key, ops[1].key};
  }

  lemma PutLock(c: Setup, st: Store, files: Files, locks: Locks, q: Path, l: Lock)
    requires Represents(c, st.kv, files, locks) && LockName(q) && st.attached == map[]
    ensures var st' := st.Put(c.LockNode(q), Mutex(l), None);
      st'.attached == map[] && st'.leases == st.leases && Represents(c, st'.kv, files, locks[q := l])
  {
    assert st.attached - {c.LockNode(q)} == map[];
    LockRefines(c, st.kv, files, locks, q, l);
  }
}
