/** The etcd keyspace as one client sees it: a sorted map from keys to values, atomic
    writes, prefix ranges in ascending key order, and leases that keys may be attached to.
    Lock and metadata records stand for their base64-encoded JSON text. */
module Etcd {
  import opened Text
  import opened Base64

  type Time = nat      // nanoseconds; 0 is Go's zero time
  type Digest = seq<byte>
  type LeaseId = nat
  type Token = string

  const ZERO_HASH: Digest := [0, 0, 0, 0, 0, 0, 0, 0, 0, 0, 0, 0, 0, 0, 0, 0, 0, 0, 0, 0]

  datatype Metadata = Metadata(path: string, size: nat, timestamp: Time, hash: Digest, isDir: bool)

  datatype Lock = Lock(token: Token, obtained: Time, key: string, lease: LeaseId)

  datatype Value = File(text: string) | Meta(md: Metadata) | Mutex(lock: Lock)

  datatype KeyValue = KeyValue(key: string, value: Value)

  type Keyspace = map<string, Value>

  function Lookup(kv: Keyspace, k: string): Option<Value> {
    if k in kv then Some(kv[k]) else None
  }

  /** `len(kv.Value) == 0`: only an empty file has an empty encoding. */
  predicate EmptyValue(v: Value) {
    v.File? && v.text == ""
  }

  /** The keyspace together with the lease each key is attached to. */
  datatype Store = Store(kv: Keyspace, attached: map<string, LeaseId>, leases: set<LeaseId>) {

    /** A put re-attaches the key to the lease given, or to none. */
    function Put(k: string, v: Value, lease: Option<LeaseId>): Store {
      Store(kv[k := v], if lease.Some? then attached[k := lease.value] else attached - {k}, leases)
    }

    function Delete(ks: set<string>): Store {
      Store(kv - ks, attached - ks, leases)
    }

    function Grant(id: LeaseId): Store {
      this.(leases := leases + {id})
    }

    function AttachedTo(id: LeaseId): set<string> {
      set k | k in attached && attached[k] == id
    }

    /** The end of a lease, by revocation or expiry, deletes the keys attached to it. */
    function EndLease(id: LeaseId): Store {
      Store(kv - AttachedTo(id), attached - AttachedTo(id), leases - {id})
    }
  }

  // ------------------------------------------------------------- prefix ranges

  lemma {:induction false} LeastExists(ks: set<string>)
    requires ks != {}
    ensures exists k :: IsLeast(ks, k)
    decreases |ks|
  {
    var x :| x in ks;
    var rest := ks - {x};
    if rest == {} {
      assert ks == {x} && IsLeast(ks, x);
    } else {
      LeastExists(rest);
      var m :| IsLeast(rest, m);
      BelowTotal(x, m);
      var k := if Below(x, m) then x else m;
      forall j | j in ks ensures j == k || Below(k, j) {
        if k == x && j != x && j != m {
          BelowTransitive(x, m, j);
        }
      }
      assert IsLeast(ks, k);
    }
  }

  predicate IsLeast(ks: set<string>, k: string) {
    k in ks && forall j | j in ks :: j == k || Below(k, j)
  }

  lemma LeastUnique(ks: set<string>)
    ensures forall a, b | IsLeast(ks, a) && IsLeast(ks, b) :: a == b
  {
    forall a, b | IsLeast(ks, a) && IsLeast(ks, b) ensures a == b {
      if a != b {
        BelowTransitive(a, b, a);
        BelowIrreflexive(a);
      }
    }
  }

  function Least(ks: set<string>): (k: string)
    requires ks != {}
    ensures IsLeast(ks, k)
  {
    LeastExists(ks);
    LeastUnique(ks);
    var k :| IsLeast(ks, k);
    k
  }

  function Sorted(ks: set<string>): (s: seq<string>)
    ensures forall i | 0 <= i < |s| :: s[i] in ks
    ensures forall k | k in ks :: k in s
    ensures Ascending(s)
    decreases |ks|
  {
    if ks == {} then [] else [Least(ks)] + Sorted(ks - {Least(ks)})
  }

  /** All pairs whose key has the prefix, in ascending key order. */
  function Range(kv: Keyspace, prefix: string): (out: seq<KeyValue>)
    ensures forall i | 0 <= i < |out| :: prefix <= out[i].key && out[i].key in kv && out[i].value == kv[out[i].key]
    ensures forall i, j | 0 <= i < j < |out| :: Below(out[i].key, out[j].key)
  {
    Pairs(kv, Sorted(set k | k in kv && prefix <= k))
  }

  function Pairs(kv: Keyspace, ks: seq<string>): (out: seq<KeyValue>)
    requires forall i | 0 <= i < |ks| :: ks[i] in kv
    ensures |out| == |ks| && forall i | 0 <= i < |ks| :: out[i] == KeyValue(ks[i], kv[ks[i]])
  {
    if ks == [] then [] else [KeyValue(ks[0], kv[ks[0]])] + Pairs(kv, ks[1..])
  }

  /** The range misses nothing. */
  lemma RangeComplete(kv: Keyspace, prefix: string, k: string) returns (i: nat)
    requires k in kv && prefix <= k
    ensures i < |Range(kv, prefix)| && Range(kv, prefix)[i] == KeyValue(k, kv[k])
  {
    var ks := Sorted(set k | k in kv && prefix <= k);
    assert k in ks;
    i :| 0 <= i < |ks| && ks[i] == k;
  }
}
