# caddy-etcd: the storage and lock protocol, verified

caddy-etcd lets a cluster of Caddy servers share certificates and configuration through etcd. It
builds three things on a flat, ordered key/value store: a filesystem with implicit directories, a
lock service, and a commit/rollback pipeline, all under a configurable key prefix. This project
models them in Dafny and proves what they guarantee, and where they do not, exactly when they do.

## What is modelled

- **Foundations.** `Text` and `Paths` are Go's string and `path` operations; a clean rooted name
  corresponds to a sequence of components. `Base64` is the standard encoding (section 4 of
  RFC 4648) with its decoder. `Etcd` is the store: a map read in ascending key order, atomic
  writes, and an explicit attachment of keys to leases, so that what the end of a lease deletes is a
  consequence and not an assumption. `Names` shows that the three namespaces (files, `md`, `lock`)
  are kept apart.
- **Files.** `FileSystem` is the plain map from component paths to files that a user should see.
  `FileStore` ties the keyspace to it (`Represents`) and shows that every transaction keeps the tie.
  `Queries`, `Listing` and `Refinement` derive the exact answers of Load, Metadata, Exists, Stat and
  List. `Service` holds the sequential programs themselves, on a client whose every call takes time
  and may fail, a failed write possibly having taken effect; a counter of failed calls lets each
  contract say what is certain when none fails.
- **Concurrency.** `Protocol` is a state machine of any number of clients in which each call to etcd
  is one step: grants, reads, checks, stamps, writes, revocations, lease expiry, retries, abandoned
  calls, lost replies, foreign keys and the passing of time interleave freely. `Invariants` holds
  what every step keeps; `LockSafety` and `FileSafety` the theorems over whole runs;
  `Counterexamples` the runs that show why the hypotheses are needed.
- **Retry and pipeline.** `Backoff` is `execute`; `Pipeline`, `PipelineKeys` and `Operations` are the
  commit loop with its rollbacks, `set` and `del` under it with refused calls and lost replies, and `getMD`.
- **Configuration.** `Config` covers the endpoint list and the key prefix, `Options` the fold of
  options, the validation, and the environment.

## Conventions

- Files and keys: a user key is any string without a ".." component. A file key has at least one
  component and does not start with "md" or "lock". Foreign keys do not extend the key prefix, not
  even as a raw string.
- The clock is shared and never goes back, all clients have one LockTimeout, lease identifiers are
  never reused. SHA-1 is an arbitrary function; where equal hashes must mean equal contents, the
  lemma says so for just the two contents concerned.
- Lock and metadata records stand for their encoded text, that is, the JSON, time and base64 layers
  around them are taken to be lossless. File contents go through the concrete base64 codec.
- Listings are described for key prefixes other than "/"; `Listing.HidesMetadataIff` shows that this
  is exactly the condition under which metadata nodes stay hidden.

## Where the code and its comments disagree

The code is followed in each case.

- The comment at etcd.go:288 says that revoking the lease deletes the lock record. The Put at
  etcd.go:218 attaches the record to no lease, so it does not: see `LockSafety.RecordsStay`,
  `LockSafety.UnlockFreesIff` and `Counterexamples.UnlockedButRefused`.
- The note at etcd.go:43-45 assumes that one client does not race with itself. Get and Put are not a
  compare-and-swap across clients either: see `Counterexamples.OverlapBreaksExclusion`, and
  `LockSafety.ExclusionIff`, `LockSafety.RecordKeptIff` and `LockSafety.HistorySpacedIff` for the
  exact conditions on the Put.
- config.go:472-474 speaks of a default endpoint on localhost. There is none: without options the
  endpoint list is empty, and with any option it is required.

## Model

| member | source | states |
|---|---|---|
| LockSafety.MutualExclusion | etcd.go:138-238 | in every state of every run in which each Put finds the acquire's guard still true of the stored record, two tokens never hold the same lock; holding runs from lock() returning nil to Unlock returning nil or LockTimeout after the latest stamp |
| LockSafety.ExclusionIff | etcd.go:187-228 | over every run in which each Put past its guard is answered, and before its stamp is LockTimeout old: at most one token holds each lock in every state, iff each Put finds the acquire's guard still true of the stored record or the owner of that record no longer holds the lock or is the same token |
| LockSafety.RecordKeptIff | etcd.go:187-228 | over every run without exception: whoever holds a lock has its token on the latest record with no earlier stamp, in every state, iff each Put finds its guard true or spares the stored record's owner |
| LockSafety.OrderlyIsSerial | etcd.go:153-218 | if no two acquire windows (Get to Put) on one path overlap, each Put finds its guard still true |
| LockSafety.OrderlyExclusion | etcd.go:138-238 | so mutual exclusion holds in every run whose acquire windows on one path do not overlap |
| LockSafety.HistorySpacedIff | etcd.go:187-218 | over every run: along every lock path Obtained stamps never decrease and any two records of different tokens, adjacent or not, are at least LockTimeout apart, iff each Put finds the acquire's guard still true |
| LockSafety.HistorySpaced | etcd.go:187-218 | the same spelled out for any two records of a path |
| LockSafety.RevokesOwnLease | etcd.go:251-289 | in every interleaving, Unlock revokes only a lease granted to its own token for its own path, even if the record was overwritten since its Get, and the revocation deletes no key |
| LockSafety.RecordCarriesOwnLease | etcd.go:205-218 | in every interleaving, a stored lock record carries a lease granted to an acquire by its own token on its own path |
| LockSafety.LeaseGone | etcd.go:148 | a lease ends only by the revocation of a client that carries it, or when it has run for LockTimeout in whole seconds |
| LockSafety.RecordsStay | etcd.go:218 | in every interleaving, Unlock and lease expiry included, a lock key once present stays present, with the same value unless a client puts another record |
| LockSafety.UnlockFreesIff | etcd.go:249-301 | an Unlock that returns nil, with any steps of other clients between its Get and its Revoke: its last step changes neither the stored record nor who may take the lock; if nobody wrote the record meanwhile it is still there, and another token may take the lock iff there was none or it is LockTimeout old |
| LockSafety.ApprovedIff | etcd.go:161-197 | having read the lock key, an acquire may go on iff there is no record, or it is the token's own, or it is LockTimeout old; so renewal always works |
| LockSafety.StepKeepsHolder | etcd.go:187-228 | every step whose Put finds its guard, or spares the stored record's owner, keeps the invariant behind mutual exclusion: an unexpired holder's token is on the latest record, with no earlier stamp |
| Counterexamples.OverlapBreaksExclusion | etcd.go:153-218 | a run with two overlapping acquires, the second Put past its guard, in which two tokens hold one lock: the hypotheses of mutual exclusion are needed |
| Counterexamples.UnlockedButRefused | etcd.go:288-300 | a run in which lock and Unlock both return nil, nobody holds the lock, and the next client's acquire is refused |
| Invariants.StepKeepsBase | etcd.go:134-303 | every step of every client keeps the keyspace a representation of files and latest lock records, leaves every key unattached, and keeps every record's lease with its own token and path |
| Invariants.RunKeepsBase | etcd.go:386-460 | the same holds in every state of every run |
| Invariants.LockValueIsLatest | etcd.go:153-178 | reading a lock key always decodes, to the latest record written on its path |
| FileSafety.NodesInStepAlways | etcd.go:386-460 | in every reachable state a value node exists iff its metadata node does, and Size and Hash are the length and hash of the decoded value |
| FileSafety.LoadDuringRun | etcd.go:462-534 | Load with its two Gets in two states of a run: a returned value was the content at both, NotExist means absent at the first, nothing fails to decode, and a checksum mismatch or missing value means a write to that key was committed in between |
| FileSafety.LoadUndisturbed | etcd.go:462-534 | with no write to the file between the two Gets, Load returns exactly its content, or NotExist exactly if there is none |
| FileSafety.NodesStay | etcd.go:386-570 | the two stored nodes of a file change only by a commit of Store or Delete on its own path |
| FileSafety.MetadataDuringRun | etcd.go:572-657 | Metadata with its two reads in two states of a run: each outcome exactly; with no write at or beneath the path in between, the answer of the first state; NotExist for a path present at both reads iff a directory at the first was a file with nothing beneath it at the second |
| Counterexamples.ReplacedDirectory | etcd.go:583-626 | a run in which Metadata reports NotExist for a path present in every state between its two reads |
| FileStore.NodesInStep | etcd.go:437-440 | a represented keyspace holds a value node iff a metadata node iff the file exists, with matching Size and Hash |
| FileStore.StoreRefines | etcd.go:391-443 | the Store transaction on the keyspace is the update of one file in the plain map, and touches no other file and no lock |
| FileStore.DeleteRefines | etcd.go:547-553 | the Delete transaction is the removal of one file from the plain map, and touches nothing else |
| FileStore.LockRefines | etcd.go:205-218 | writing a lock record changes that one lock and no file |
| FileStore.KeysAreOwn | etcd.go:136 | no key that a call reads or writes for a user key lies outside the prefix |
| FileStore.ForeignRefines | etcd.go:391-392 | writes of others outside the prefix are invisible |
| Queries.LoadExact | etcd.go:462-534 | Load on any two represented keyspaces: each of its outcomes, exactly in terms of the file at the two reads |
| Queries.DirectoryExact | etcd.go:613-646 | the flat scan beneath a metadata node finds something iff the path has files beneath it, and its totals are the sum of sizes and the latest time over exactly those files |
| Queries.MetadataExact | etcd.go:572-657 | Metadata with its two reads in any two represented keyspaces, for files, directories and absent paths, exactly; the clock fallback and the decoding failures never occur |
| Refinement.CallsRefine | cluster.go:126-180 | any sequence of Store, Delete, Load, Exists and Stat is answered exactly as a plain map from component paths to bytes and times answers it |
| Refinement.LoadAfterStore | cluster.go:127-134 | Load after Store returns the stored bytes, under every spelling of the key with the same components |
| Refinement.StoreMovesStat | etcd.go:386-460 | Store moves the Size of every strict ancestor that is no file by new length minus old, makes it exist, and leaves every other path's Stat alone |
| Refinement.DeleteMovesStat | etcd.go:536-657 | Delete subtracts the old length from every strict ancestor that is no file, makes it NotExist iff this was the last file beneath, and leaves every other path's Stat alone |
| Queries.MetadataIsTree | etcd.go:613-656 | a Stat reply of Metadata for a directory is the recursive fold over immediate children plus the files beneath other files; it is the fold itself when no file is an ancestor of another |
| FileSystem.TreeSumIsShown | etcd.go:613-656 | in every filesystem the recursive fold over immediate children (size sum, time maximum) sums exactly the files with no other file above them beneath the directory |
| FileSystem.TreeEqualsFlatIff | etcd.go:613-656 | in every filesystem the flat scan is the recursive fold plus the files beneath other files: equal in Size iff those hold no bytes, in Timestamp iff none is later |
| FileSystem.TreeEqualsFlat | etcd.go:613-656 | so the two agree when no file is an ancestor of another |
| FileSystem.DirectorySumIff | etcd.go:637-646 | a directory's totals are those its immediate children report plus what lies beneath children that are files; Size is their sum iff that holds no bytes, Timestamp their maximum iff it is not later |
| FileSystem.LatestIsMaximum | etcd.go:643-645 | a directory's time is that of one of the files beneath it, and none of them is later |
| FileSystem.StoreMovesAncestors | etcd.go:637-646 | what one Store does to the totals of every directory |
| FileSystem.DeleteMovesAncestors | etcd.go:637-646 | what one Delete does to the totals of every directory, and when a directory vanishes |
| Listing.ListExact | etcd.go:319-384 | List with any filters: in strictly ascending order exactly the rendered paths of the nodes under the raw search prefix that pass, none with an "md" directory |
| Listing.NonRecursiveExact | cluster.go:148-166 | non-recursive List: ascending, and exactly the non-empty files (and lock records) outside "md" directories whose parent renders as the argument |
| Listing.RecursiveExact | cluster.go:155-156 | recursive List: ascending, and exactly the visible nodes whose path extends the argument as a raw string |
| Listing.ListDirExact | etcd.go:722-734 | List of a clean directory is exactly its visible children |
| Listing.NormalizeSpellings | cluster.go:149-154 | a directory may be asked for with or without a slash at either end; with two slashes at the end it is no directory's name |
| Listing.RecursivePartition | cluster.go:148-166 | the part of the recursive listing strictly beneath p is the disjoint union of the plain listings of p and of the directories beneath it: each entry is in exactly one of them |
| Listing.MetadataHidden | etcd.go:358-361 | under a prefix other than "/" no metadata node is ever listed, whatever the filters |
| Listing.HidesMetadataIff | etcd.go:346-361 | List hides metadata nodes in all represented keyspaces iff the key prefix is not "/" |
| Listing.MetadataShownAtRoot | etcd.go:347-361 | under the prefix "/" a keyspace with one stored file whose metadata node is listed |
| Paths.ContainsMdIff | etcd.go:359 | containing "/md/" as text is the same as having a non-final component "md" |
| Paths.SplitDirRender | etcd.go:728 | the directory part of a clean name is its parent with a slash |
| Paths.BeneathIffPrefix | etcd.go:614 | scanning for a name plus slash finds exactly the strict component-wise descendants |
| Paths.JoinAbs | etcd.go:391 | joining a key without ".." to a clean root appends its components |
| Paths.CleanParent | etcd.go:391 | a final ".." names the parent, and the root is its own parent |
| Names.Separation | etcd.go:109-136 | for every clean prefix the storage, metadata and lock key maps are injective on components, metadata and lock nodes never meet, and a storage key meets one of them iff the user's key starts with "md" or "lock" |
| Base64.DecodeEncode | etcd.go:515-521 | decoding an encoded file restores it, for every byte string |
| Base64.Alphabet | etcd.go:438 | the 64 letters are the capitals, small letters and figures in their order, then plus and slash |
| Base64.GroupDigits | etcd.go:438 | each full group of three bytes, as one number, is written as its four digits to base 64, highest first |
| Base64.LastGroupPadded | etcd.go:438 | an incomplete last group is written as if filled up with zeros, its unused digits as padding |
| Base64.DecodesOnlyEncodings | etcd.go:515-521 | what decodes is the encoding of the bytes it decodes to, up to the bits of the last letter that padding leaves unused |
| Base64.LineBreakIgnored | etcd.go:515-521 | a line break anywhere in the text changes nothing |
| Base64.EncodeInjective | etcd.go:438 | different contents have different encodings |
| Base64.EncodeEmptyIff | etcd.go:704-708 | only the empty file has an empty encoding, so only it passes for a directory in the filters |
| Service.EtcdSrv.Store | etcd.go:386-460 | fails iff a call to etcd fails; on success the file has the new bytes and a time within the call; on failure that or its old state, never a mixture; no lock and no foreign key changes |
| Service.EtcdSrv.Load | etcd.go:462-534 | unless a call to etcd fails, exactly the file's bytes, or NotExist exactly for an absent file |
| Service.EtcdSrv.Delete | etcd.go:536-570 | fails iff a call to etcd fails; on success the file is gone; on failure gone or untouched; no lock and no foreign key changes |
| Service.EtcdSrv.Metadata | etcd.go:572-657 | unless a call to etcd fails: a file's own record, or a directory's totals over everything beneath it, or NotExist exactly for paths that are neither |
| Service.EtcdSrv.AggregateChildren | etcd.go:637-646 | the loop computes the total of the children's sizes and the latest of their times |
| Service.EtcdSrv.List | etcd.go:319-384 | unless the call to etcd fails, the looping program returns the listing that the lemmas above describe |
| Service.EtcdSrv.Collect | etcd.go:349-381 | the loop over the pairs found: cut, skip metadata, filter, restore the slash |
| Service.EtcdSrv.ListPrefix | cluster.go:148-166 | unless the call to etcd fails, the listing with the prefix normalised and the filter chosen |
| Service.EtcdSrv.Exists | cluster.go:142-145 | true only for files and strict ancestors of files, and true of all those unless a call to etcd fails |
| Service.EtcdSrv.Stat | cluster.go:169-180 | unless a call to etcd fails, the answer of the plain map |
| Service.EtcdSrv.Acquire | etcd.go:138-237 | one attempt: unless a call to etcd fails it succeeds or is refused; on success the token's record is there, stamped within the call, over no record, its own, or one at least LockTimeout old; refused only against another token's younger record, and then nothing changes |
| Service.EtcdSrv.LockWithRetry | etcd.go:135-239 | lock with back-off terminates after at most 14 sleeps, each one the policy may draw; on nil the lock is taken as by one attempt; it fails only on another token's unexpired record or after a failed call, and with back-off only when the longest next sleep could exceed the 30 s budget; without back-off it is one attempt |
| Service.EtcdSrv.Release | etcd.go:249-301 | one attempt to unlock, exactly: nil without a record or by ending the live lease of its own record and no other, refusal for another token's record, an error for a lease ended before, or a failed call; never changes the keyspace |
| Service.EtcdSrv.UnlockWithRetry | etcd.go:242-303 | Unlock with back-off terminates after at most 14 such sleeps; nil means no record or its own record's lease ended; it fails only on another token's record, an ended lease or after a failed call, and with back-off only when the longest next sleep could exceed the budget; without back-off it is one attempt |
| Pipeline.RunPipeline | operations.go:31-50 | the nested loops compute the commit and rollback runs that the lemmas below are about |
| Pipeline.AllOrNothing | operations.go:31-50 | if each rollback takes back its commit on the states of this run: without an error all effects are applied in order; with an error its cause is the failed commit's; if it is exactly that error, so every rollback run succeeded, and the failed commit left no trace, the initial state is back |
| Pipeline.CauseIsFailedCommit | operations.go:34-46 | whatever the rollbacks do, there is an error iff a commit failed, and its cause is that commit's error |
| Pipeline.EveryRollbackRuns | operations.go:36-45 | every rollback below the failed commit is run, last to first, whether or not others fail |
| Pipeline.RetryStopsAt | operations.go:34 | Retry returns the outcome of the first attempt that succeeds or after which the back-off allows no more |
| Pipeline.RetryGivesUp | operations.go:34 | an error from Retry means that every attempt failed until the back-off allowed no more |
| Pipeline.RetryDoes | operations.go:34 | retrying has the operation's effect exactly once or not at all, however many attempts failed |
| Pipeline.RetryIdempotent | operations.go:34 | an idempotent effect is there exactly once on success, even if attempts whose reply was lost had taken effect |
| PipelineKeys.UncoveredCommitsRemain | operations.go:31-50 | set and del on distinct keys, possibly fewer rollbacks, any back-off and any failures: after a failed commit exactly the completed commits without a rollback remain, keys whose rollback succeeds are back whatever other rollbacks do, the failed commit's own key has its old or new value, all later and other keys are untouched; an error that is exactly the failed commit's means every rollback run succeeded |
| PipelineKeys.WritesAllOrNothing | operations.go:31-50 | set and del on keys that may repeat, each rollback writing back what its key held before its commit: all writes applied, or the keyspace as before when the error is the failed commit's own and that commit left no trace |
| PipelineKeys.NothingLostFailsCleanly | operations.go:245-285 | a commit of set or del that fails leaves no trace when no reply is lost |
| PipelineKeys.RequestDone | operations.go:245-285 | under every back-off and any failures, replies lost after taking effect included: set or del that succeeds has written its one key, one that fails has or has not, no other key changes |
| PipelineKeys.SucceedsAt | operations.go:245-285 | set or del whose next n calls fail or lose their reply, the one after being answered, succeeds at exactly that attempt if a persistent back-off allows n retries, and its key holds what it leaves |
| PipelineKeys.PatientPipeline | operations.go:31-50 | a pipeline of set and del whose persistent back-off allows as many retries as calls go wrong succeeds with all effects in order |
| Operations.RunGetMD | operations.go:330-389 | the operation filling a record in place has the effect of one getMD, unless a call to etcd fails, and then it leaves the record alone |
| Operations.AddChildren | operations.go:374-383 | the loop adds the children to whatever the record already holds |
| Operations.GetMDAgrees | operations.go:330-389 | on a zeroed record getMD and Metadata agree on existence, Size, Hash and IsDir; a directory's time is the later of now and Metadata's |
| Operations.DirectoryPath | operations.go:364-370 | the Path reported for a directory is its clean name beneath the key prefix without the leading slash, unless the prefix has a component "md" |
| Operations.RetryCountsOnce | operations.go:330-389 | with either of its two Gets failing in any attempt, any number of failed attempts before the successful one never double-counts Size |
| Operations.SecondCallDoubles | operations.go:379 | a second successful getMD into the same record of a directory doubles Size, which is right iff everything beneath is empty |
| Backoff.Execute | etcd.go:306-317 | attempts start at exactly the times that the operations and the sleeps drawn lead to (each sleep lasting as drawn), at most 15, none more than 30 s after the first; it stops at the first success, or when the next attempt would start later |
| Backoff.SleepsBounded | etcd.go:311-314 | each attempt starts between half and one and a half times its interval after the end of the one before |
| Backoff.AtLeastSeven | etcd.go:311-315 | instantaneous operations are given up after seven attempts at the earliest |
| Backoff.FirstIntervals | etcd.go:313 | the intervals are 1, 1.5, 2.25 and 3.375 s |
| Backoff.IntervalSettles | etcd.go:314 | from the fifth on every interval is 5 s |
| Backoff.SleepsInBudget | etcd.go:311-315 | k shortest sleeps fit into 30 s iff k < 15, so the bound of 15 attempts is exact |
| Options.NewClusterConfig | config.go:344-378 | the loop over options and the validation compute the left-to-right fold, or fail when it does |
| Options.ClusterConfig.Apply | config.go:90-565 | each option accepts exactly the arguments it should and assigns exactly its own field |
| Options.ClusterConfig.WithCaddyFile | config.go:530-551 | the file named by the working directory and the argument together, resolved as one name, is the one read; if readable its path and content are recorded, else nothing changes; no other field changes |
| Options.CaddyfileRead | config.go:532-542 | cleaning the argument before joining it to the working directory never changes which file is read |
| Paths.JoinRelative | config.go:532-541 | joining the clean form of a relative name to a rooted directory resolves the components of both as one name |
| Options.ClusterConfig.Validate | config.go:381-422 | the branches and the loop decide exactly the validity condition |
| Options.ConfigOptsFromEnvironment | config.go:426-470 | whatever orders the two map iterations take: the set variables as options, or an error iff a pair is incomplete |
| Options.OrderIrrelevant | config.go:463-467 | for every iteration order the resulting configuration, or failure, is the one the environment describes field by field without any order |
| Options.BuiltGuarantees | config.go:344-422 | every success, for any options in any order: lock and connection durations of at least 1 s, a clean prefix, a key for every certificate, username iff password, endpoints if there was any option, every endpoint http or https with a host |
| Options.EnvironmentGuarantees | config.go:182-198 | from the environment, certificate iff key, username iff password, and endpoints whenever anything is set |
| Options.EnvironmentAcceptedIff | config.go:380-470 | exactly which environments are accepted, in terms of the variables, the URL and duration parsers and the file system alone |
| Options.EnvironmentFields | config.go:344-358 | lock timeout, loader switch, TLS, authentication and connection settings of an accepted environment, each from its own variable or its default |
| Options.EnvironmentNames | config.go:502-551 | its key prefix on components, its endpoints as the trimmed pieces in order, its Caddyfile as named by working directory and argument |
| Options.CertificatePairIff | config.go:381-393 | of all accepted option lists, exactly those give certificate and key together whose last key argument is empty or absent or whose last certificate argument is non-empty |
| Options.KeyWithoutCertificate | config.go:383-387 | without the environment's pair check a key file alone is accepted |
| Config.WithServers | config.go:475-498 | the loop yields all endpoints trimmed, or fails iff one has no http or https scheme |
| Config.ServersExact | config.go:475-498 | any list of pieces joined by commas or semicolons parses to the trimmed pieces iff each has scheme http or https by the URL parser, else it fails |
| Config.OneServer | config.go:486-494 | one endpoint, with any spaces around it, is accepted iff its scheme is http or https |
| Config.TrimPadded | config.go:486 | trimming removes exactly the spaces around a text that neither starts nor ends with one |
| Config.ServersRoundTrip | caddyfile.go:84 | parsing the comma-joined list restores it iff it is non-empty and every endpoint is trimmed, accepted and free of comma and semicolon |
| Config.SemicolonsParseToo | config.go:479-484 | the semicolon-joined string parses to the same list |
| Config.PrefixIsClean | config.go:502-507 | every prefix becomes a rooted path without backslash, empty, "." or ".." component |
| Config.PrefixComponents | config.go:502-507 | the normalised prefix has the components of the argument, backslashes read as slashes, resolved from the root |
| Config.PrefixIdempotent | config.go:502-507 | normalising a prefix twice is normalising it once |

## Left out

- Connecting: the client with its TLS set-up and ping, reading certificate and CA files (operations.go:59-175), the rate limiter (a wait that may fail), request deadlines; any call may fail instead.
- Caddy's module registration, provisioning, logging and error texts; the Caddyfile reader apart from the endpoint join at caddyfile.go:84.
- The text of JSON records and timestamps, and the computation of SHA-1.
- URL and duration parsing, lower-casing, existence and content of local files: given functions of the surroundings that do not change while a configuration is built.
- etcd's own replication: single calls and transactions are atomic, ranges are sorted. A write that etcd applies only after its client has given up or gone on to another call is not modelled.
- `get`, `exists`, `list`, `setMD` and `noop` of operations.go, `filter` and `FilterPrefix` of etcd.go: single reads or writes and predicates whose members would be easy beside the ones above.
- Keys with a ".." component, and files stored inside the "md" or "lock" directories; the namespaces then overlap exactly as `Names.Separation` says.
- A variant that attaches the lock record to its lease: the code does not do so.
- Service.EtcdSrv.LockWithRetry: one client at a time, leases do not run out between its calls; interleaving, expiry and abandoned calls are covered by module Protocol, where the number of attempts is not bounded.
- LockSafety.ExclusionIff: a Put past its guard whose reply is lost, or that comes LockTimeout after its stamp, makes its client no holder and is outside this lemma; LockSafety.RecordKeptIff covers such runs.
- Backoff.Execute: a sleep lasts exactly as drawn; sleeps are any whole numbers of nanoseconds within the library's range for them; its floating-point rounding is not modelled.
- Options.ClusterConfig.Apply: after a failing option the record is unspecified, as the code discards it.
