/** Any sequence of Store, Delete, Load, Exists and Stat behaves like a plain map from component
    paths to bytes and times. */
module Refinement {
  import opened Text
  import opened Base64
  import opened Etcd
  import opened Paths
  import opened Names
  import opened FileSystem
  import opened FileStore
  import opened Queries

  /** A call with the clock reading it takes. */
  datatype Call =
    | StoreCall(key: string, data: Bytes, now: Time)
    | DeleteCall(key: string)
    | LoadCall(key: string)
    | ExistsCall(key: string, now: Time)
    | StatCall(key: string, now: Time)

  datatype KeyInfo = KeyInfo(key: string, modified: Time, size: nat, isTerminal: bool)

  datatype Reply = Done | Data(data: Bytes) | Present(yes: bool) | Info(info: KeyInfo) | NotExist | Failed

  /** Stored and deleted files are named by keys with components, none of them "..", outside md and
      lock. Any key without ".." may be asked for, directories and the root included. */
  predicate ProperCall(call: Call) {
    && NoDotDot(call.key)
    && (call.StoreCall? || call.DeleteCall? ==> FilePath(Components(call.key)))
    && (call.StoreCall? ==> call.now > 0)
  }

  // -------------------------------------------------------------- on the keyspace

  function AfterCall(c: Setup, kv: Keyspace, call: Call): Keyspace {
    match call
    case StoreCall(key, data, now) => StoreKeys(c, kv, key, data, NewMetadata(c, key, data, now))
    case DeleteCall(key) => DeleteKeys(c, kv, key)
    case _ => kv
  }

  function InfoOf(md: Metadata): KeyInfo {
    KeyInfo(md.path, md.timestamp, md.size, !md.isDir)
  }

  function ReplyOf(c: Setup, kv: Keyspace, call: Call): Reply {
    match call
    case StoreCall(_, _, _) => Done
    case DeleteCall(_) => Done
    case LoadCall(key) =>
      (match LoadFrom(c, kv, kv, key)
       case Loaded(data) => Data(data)
       case LoadNotExist => NotExist
       case _ => Failed)
    case ExistsCall(key, now) => Present(MetadataOf(c, kv, key, now).Stat?)
    case StatCall(key, now) =>
      (match MetadataOf(c, kv, key, now)
       case Stat(md) => Info(InfoOf(md))
       case StatNotExist => NotExist
       case StatCorrupt => Failed)
  }

  function Replies(c: Setup, kv: Keyspace, calls: seq<Call>): seq<Reply>
    decreases |calls|
  {
    if calls == [] then []
    else [ReplyOf(c, kv, calls[0])] + Replies(c, AfterCall(c, kv, calls[0]), calls[1..])
  }

  // ------------------------------------------------------------- on the plain map

  function SpecAfter(files: Files, call: Call): Files {
    match call
    case StoreCall(key, data, now) => files[Components(key) := FileRec(data, now, key)]
    case DeleteCall(key) => files - {Components(key)}
    case _ => files
  }

  ghost function SpecReply(files: Files, call: Call): Reply {
    var q := Components(call.key);
    match call
    case StoreCall(_, _, _) => Done
    case DeleteCall(_) => Done
    case LoadCall(_) => if q in files then Data(files[q].data) else NotExist
    case ExistsCall(_, _) => Present(q in files || IsDir(files, q))
    case StatCall(key, _) =>
      if q in files then Info(KeyInfo(key, files[q].stamp, |files[q].data|, true))
      else if IsDir(files, q) then
        Info(KeyInfo(key, SumOf(files, Beneath(files, q)).latest, SumOf(files, Beneath(files, q)).size, false))
      else NotExist
  }

  ghost function SpecReplies(files: Files, calls: seq<Call>): seq<Reply>
    decreases |calls|
  {
    if calls == [] then []
    else [SpecReply(files, calls[0])] + SpecReplies(SpecAfter(files, calls[0]), calls[1..])
  }

  // --------------------------------------------------------------------- refinement

  lemma CallRefines(c: Setup, kv: Keyspace, files: Files, locks: Locks, call: Call)
    requires Represents(c, kv, files, locks) && ProperCall(call)
    ensures ReplyOf(c, kv, call) == SpecReply(files, call)
    ensures Represents(c, AfterCall(c, kv, call), SpecAfter(files, call), locks)
  {
    match call
    case StoreCall(key, data, now) => StoreRefines(c, kv, files, locks, key, FileRec(data, now, key));
    case DeleteCall(key) => DeleteRefines(c, kv, files, locks, key);
    case LoadCall(key) => LoadExact(c, kv, files, locks, kv, files, locks, key);
    case ExistsCall(key, now) => MetadataAtOnce(c, kv, files, locks, key, now);
    case StatCall(key, now) => MetadataAtOnce(c, kv, files, locks, key, now);
  }

  /** Every sequence of calls, on any keyspace that represents some files, is answered as the
      plain map would answer it. */
  lemma {:induction false} CallsRefine(c: Setup, kv: Keyspace, files: Files, locks: Locks, calls: seq<Call>)
    requires Represents(c, kv, files, locks)
    requires forall i | 0 <= i < |calls| :: ProperCall(calls[i])
    ensures Replies(c, kv, calls) == SpecReplies(files, calls)
    decreases |calls|
  {
    if calls != [] {
      CallRefines(c, kv, files, locks, calls[0]);
      CallsRefine(c, AfterCall(c, kv, calls[0]), SpecAfter(files, calls[0]), locks, calls[1..]);
    }
  }

  /** Load after Store returns the stored bytes, under every spelling of the key. */
  lemma LoadAfterStore(c: Setup, kv: Keyspace, files: Files, locks: Locks, store: Call, key: string)
    requires Represents(c, kv, files, locks) && ProperCall(store) && store.StoreCall?
    requires NoDotDot(key) && Components(key) == Components(store.key)
    ensures ReplyOf(c, AfterCall(c, kv, store), LoadCall(key)) == Data(store.data)
  {
    CallRefines(c, kv, files, locks, store);
    CallRefines(c, AfterCall(c, kv, store), SpecAfter(files, store), locks, LoadCall(key));
  }

  /** `change` as an observer of `stat` sees it, before and after. */
  lemma ChangeSeen(c: Setup, kv: Keyspace, files: Files, locks: Locks, change: Call, stat: Call)
    requires Represents(c, kv, files, locks) && ProperCall(change) && ProperCall(stat)
    ensures ReplyOf(c, kv, stat) == SpecReply(files, stat)
    ensures ReplyOf(c, AfterCall(c, kv, change), stat) == SpecReply(SpecAfter(files, change), stat)
  {
    CallRefines(c, kv, files, locks, stat);
    CallRefines(c, kv, files, locks, change);
    CallRefines(c, AfterCall(c, kv, change), SpecAfter(files, change), locks, stat);
  }

  /** What one Store does to every other path's Stat: nothing, unless that path is a strict ancestor
      that is no file; then its Size moves by the new length minus the old one. */
  lemma StoreMovesStat(c: Setup, kv: Keyspace, files: Files, locks: Locks, store: Call, stat: Call)
    requires Represents(c, kv, files, locks) && ProperCall(store) && ProperCall(stat)
    requires store.StoreCall? && stat.StatCall?
    ensures var (k, d) := (Components(store.key), Components(stat.key));
      var (before, after) := (ReplyOf(c, kv, stat), ReplyOf(c, AfterCall(c, kv, store), stat));
      && (d < k && d !in files ==>
           after.Info? && after.info.size + (if k in files then |files[k].data| else 0)
             == (if before.Info? then before.info.size else 0) + |store.data|)
      && (d != k && !(d < k && d !in files) ==> after == before)
  {
    ChangeSeen(c, kv, files, locks, store, stat);
    SpecStoreMoves(files, Components(store.key), store, stat);
  }

  /** What Stat reports for a path that is no file. */
  lemma DirectoryReply(files: Files, stat: Call)
    requires stat.StatCall? && Components(stat.key) !in files
    ensures var (all, reply) := (Beneath(files, Components(stat.key)), SpecReply(files, stat));
      && (reply.Info? <==> all != {})
      && (if reply.Info? then reply.info.size else 0) == SumOf(files, all).size
  {
  }

  lemma SpecStoreMoves(files: Files, k: Path, store: Call, stat: Call)
    requires store.StoreCall? && stat.StatCall? && k == Components(store.key)
    ensures var d := Components(stat.key);
      var (before, after) := (SpecReply(files, stat), SpecReply(SpecAfter(files, store), stat));
      && (d < k && d !in files ==>
           after.Info? && after.info.size + (if k in files then |files[k].data| else 0)
             == (if before.Info? then before.info.size else 0) + |store.data|)
      && (d != k && !(d < k && d !in files) ==> after == before)
  {
    var d := Components(stat.key);
    if d < k && d !in files {
      StoreMovesAncestors(files, k, FileRec(store.data, store.now, store.key), d);
      DirectoryReply(files, stat);
      DirectoryReply(SpecAfter(files, store), stat);
    } else if d != k {
      StoreElsewhere(files, k, store, stat);
    }
  }

  lemma StoreElsewhere(files: Files, k: Path, store: Call, stat: Call)
    requires store.StoreCall? && stat.StatCall? && k == Components(store.key)
    requires var d := Components(stat.key); d != k && (d in files || !(d < k))
    ensures SpecReply(SpecAfter(files, store), stat) == SpecReply(files, stat)
  {
    StoreMovesAncestors(files, k, FileRec(store.data, store.now, store.key), Components(stat.key));
  }

  /** What one Delete does to every other path's Stat; the directory of the last file disappears. */
  lemma DeleteMovesStat(c: Setup, kv: Keyspace, files: Files, locks: Locks, delete: Call, stat: Call)
    requires Represents(c, kv, files, locks) && ProperCall(delete) && ProperCall(stat)
    requires delete.DeleteCall? && stat.StatCall?
    ensures var (k, d) := (Components(delete.key), Components(stat.key));
      var (before, after) := (ReplyOf(c, kv, stat), ReplyOf(c, AfterCall(c, kv, delete), stat));
      && (d < k && d !in files && k in files ==>
           && before.Info?
           && (after == NotExist <==> Beneath(files, d) == {k})
           && (after != NotExist ==> after.Info? && after.info.size + |files[k].data| == before.info.size))
      && (d != k && !(d < k && d !in files && k in files) ==> after == before)
  {
    ChangeSeen(c, kv, files, locks, delete, stat);
    SpecDeleteMoves(files, Components(delete.key), delete, stat);
  }

  lemma SpecDeleteMoves(files: Files, k: Path, delete: Call, stat: Call)
    requires delete.DeleteCall? && stat.StatCall? && k == Components(delete.key)
    ensures var d := Components(stat.key);
      var (before, after) := (SpecReply(files, stat), SpecReply(SpecAfter(files, delete), stat));
      && (d < k && d !in files && k in files ==>
           && before.Info?
           && (after == NotExist <==> Beneath(files, d) == {k})
           && (after != NotExist ==> after.Info? && after.info.size + |files[k].data| == before.info.size))
      && (d != k && !(d < k && d !in files && k in files) ==> after == before)
  {
    var d := Components(stat.key);
    DeleteMovesAncestors(files, k, d);
    if k in files && d < k {
      assert k in Beneath(files, d);
    } else if k !in files {
      assert files - {k} == files;
    }
  }
}
