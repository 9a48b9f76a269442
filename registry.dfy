/**
 * The services map, written with Go's map assignment: each write adds or silently replaces one
 * entry, so the last write under a key wins. The fold and its lemmas are stated for any key and
 * value type; the visitor instantiates them with canonical keys and services.
 */
module Registry {
  import opened Model

  /** `reg[k] = v`: adds or replaces the entry for `k` and leaves every other key alone. */
  function Register<K, V>(reg: map<K, V>, k: K, v: V): (r: map<K, V>)
    ensures r.Keys == reg.Keys + {k}
    ensures r[k] == v
    ensures forall k' :: k' in reg && k' != k ==> r[k'] == reg[k']
  {
    reg[k := v]
  }

  /** A write grows the registry by one entry when the key is new, and not at all when it replaces one. */
  lemma RegisterSize<K, V>(reg: map<K, V>, k: K, v: V)
    ensures |Register(reg, k, v)| == if k in reg then |reg| else |reg| + 1
  {
  }

  /** The registry after the writes of `entries`, one after another, in scan order. */
  function RegisterAll<K, V>(reg: map<K, V>, entries: seq<(K, V)>): (r: map<K, V>)
    decreases |entries|
  {
    if |entries| == 0 then reg else RegisterAll(Register(reg, entries[0].0, entries[0].1), entries[1..])
  }

  /** The keys written by a sequence of entries. */
  function Keys<K, V>(entries: seq<(K, V)>): (ks: set<K>)
    decreases |entries|
  {
    if |entries| == 0 then {} else {entries[0].0} + Keys(entries[1..])
  }

  /** A key is written by a sequence of entries exactly when some entry carries it. */
  lemma {:induction false} KeysIndex<K, V>(entries: seq<(K, V)>, k: K)
    ensures k in Keys(entries) <==> exists i :: 0 <= i < |entries| && entries[i].0 == k
    decreases |entries|
  {
    if |entries| > 0 {
      KeysIndex(entries[1..], k);
      if exists i :: 0 <= i < |entries| && entries[i].0 == k {
        var i :| 0 <= i < |entries| && entries[i].0 == k;
        if i > 0 {
          assert entries[1..][i - 1].0 == k;
        }
      }
    }
  }

  /** The writes of the services of a scan, each under its canonical key. */
  function Entries(ss: seq<Service>): (es: seq<(string, Service)>)
    ensures |es| == |ss|
    ensures forall i :: 0 <= i < |ss| ==> es[i] == (ss[i].identifier.String(), ss[i])
  {
    seq(|ss|, i requires 0 <= i < |ss| => (ss[i].identifier.String(), ss[i]))
  }

  /** One more write after a scan is the scan of the longer sequence: the fold is the writes in order. */
  lemma {:induction false} RegisterAllSnoc<K, V>(reg: map<K, V>, entries: seq<(K, V)>, k: K, v: V)
    ensures RegisterAll(reg, entries + [(k, v)]) == Register(RegisterAll(reg, entries), k, v)
    decreases |entries|
  {
    if |entries| == 0 {
      assert entries + [(k, v)] == [(k, v)];
    } else {
      assert (entries + [(k, v)])[1..] == entries[1..] + [(k, v)];
      RegisterAllSnoc(Register(reg, entries[0].0, entries[0].1), entries[1..], k, v);
    }
  }

  /** The writes of a scan extended by one service end with that service under its key. */
  lemma EntriesSnoc(ss: seq<Service>, s: Service)
    ensures Entries(ss + [s]) == Entries(ss) + [(s.identifier.String(), s)]
  {
  }

  /** Scanning adds exactly the written keys. */
  lemma {:induction false} RegisterAllKeys<K, V>(reg: map<K, V>, entries: seq<(K, V)>)
    ensures RegisterAll(reg, entries).Keys == reg.Keys + Keys(entries)
    decreases |entries|
  {
    if |entries| > 0 {
      RegisterAllKeys(Register(reg, entries[0].0, entries[0].1), entries[1..]);
    }
  }

  /** A key no entry writes keeps its earlier value. */
  lemma {:induction false} RegisterAllUntouched<K, V>(reg: map<K, V>, entries: seq<(K, V)>, k: K)
    requires k in reg
    requires forall i :: 0 <= i < |entries| ==> entries[i].0 != k
    ensures k in RegisterAll(reg, entries) && RegisterAll(reg, entries)[k] == reg[k]
    decreases |entries|
  {
    if |entries| > 0 {
      RegisterAllUntouched(Register(reg, entries[0].0, entries[0].1), entries[1..], k);
    }
  }

  /** The last value written under a key is the one the registry keeps. */
  lemma {:induction false} RegisterAllLastWins<K, V>(reg: map<K, V>, entries: seq<(K, V)>, i: nat)
    requires i < |entries|
    requires forall j :: i < j < |entries| ==> entries[j].0 != entries[i].0
    ensures entries[i].0 in RegisterAll(reg, entries)
    ensures RegisterAll(reg, entries)[entries[i].0] == entries[i].1
    decreases |entries|
  {
    if i == 0 {
      RegisterAllUntouched(Register(reg, entries[0].0, entries[0].1), entries[1..], entries[0].0);
    } else {
      RegisterAllLastWins(Register(reg, entries[0].0, entries[0].1), entries[1..], i - 1);
    }
  }

  /** No two entries write the same key. */
  predicate DistinctKeys<K(==), V>(entries: seq<(K, V)>) {
    forall i, j :: 0 <= i < j < |entries| ==> entries[i].0 != entries[j].0
  }

  /** With distinct keys, two scans of the same entries agree on the value of any key. */
  lemma RegisterAllSameAt<K, V>(reg: map<K, V>, a: seq<(K, V)>, b: seq<(K, V)>, k: K)
    requires DistinctKeys(a) && DistinctKeys(b)
    requires forall e :: e in a <==> e in b
    requires k in reg || k in Keys(a)
    ensures k in RegisterAll(reg, a) && k in RegisterAll(reg, b)
    ensures RegisterAll(reg, a)[k] == RegisterAll(reg, b)[k]
  {
    KeysIndex(a, k);
    if i :| 0 <= i < |a| && a[i].0 == k {
      assert a[i] in b;
      var j :| 0 <= j < |b| && b[j] == a[i];
      RegisterAllLastWins(reg, a, i);
      RegisterAllLastWins(reg, b, j);
    } else {
      forall j | 0 <= j < |b| ensures b[j].0 != k {
        assert b[j] in a;
      }
      RegisterAllUntouched(reg, a, k);
      RegisterAllUntouched(reg, b, k);
    }
  }

  /** Two sequences holding the same entries write the same keys. */
  lemma SameEntriesSameKeys<K, V>(a: seq<(K, V)>, b: seq<(K, V)>)
    requires forall e :: e in a <==> e in b
    ensures Keys(a) == Keys(b)
  {
    forall k | k in Keys(a) ensures k in Keys(b) {
      KeysIndex(a, k);
      KeysIndex(b, k);
      var i :| 0 <= i < |a| && a[i].0 == k;
      assert a[i] in b;
    }
    forall k | k in Keys(b) ensures k in Keys(a) {
      KeysIndex(a, k);
      KeysIndex(b, k);
      var j :| 0 <= j < |b| && b[j].0 == k;
      assert b[j] in a;
    }
  }

  /** With distinct keys the scan order does not matter: the registry depends only on which entries were written. */
  lemma RegisterAllOrderIrrelevant<K, V>(reg: map<K, V>, a: seq<(K, V)>, b: seq<(K, V)>)
    requires DistinctKeys(a) && DistinctKeys(b)
    requires forall e :: e in a <==> e in b
    ensures RegisterAll(reg, a) == RegisterAll(reg, b)
  {
    var ra, rb := RegisterAll(reg, a), RegisterAll(reg, b);
    assert ra.Keys == rb.Keys by {
      RegisterAllKeys(reg, a);
      RegisterAllKeys(reg, b);
      SameEntriesSameKeys(a, b);
    }
    assert forall k :: k in ra ==> ra[k] == rb[k] by {
      forall k | k in ra ensures ra[k] == rb[k] {
        RegisterAllKeys(reg, a);
        RegisterAllSameAt(reg, a, b, k);
      }
    }
  }

  /** Two different services under one key: whichever is scanned last replaces the other. */
  lemma CollisionOrderDecides(reg: map<string, Service>, x: Service, y: Service)
    requires x.identifier.String() == y.identifier.String() && x != y
    ensures x.identifier.String() in RegisterAll(reg, Entries([x, y])) && RegisterAll(reg, Entries([x, y]))[x.identifier.String()] == y
    ensures x.identifier.String() in RegisterAll(reg, Entries([y, x])) && RegisterAll(reg, Entries([y, x]))[x.identifier.String()] == x
    ensures RegisterAll(reg, Entries([x, y])) != RegisterAll(reg, Entries([y, x]))
  {
    var xy, yx := Entries([x, y]), Entries([y, x]);
    RegisterAllLastWins(reg, xy, 1);
    RegisterAllLastWins(reg, yx, 1);
  }
}
