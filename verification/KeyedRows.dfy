/** The conventional optional value: a nullable column, or a query's `.first()`. */
module Options {
  datatype Option<+T> = None | Some(value: T)
}

/**
 Tables with a unique key, kept in insertion order.

 `Put` is the keyed upsert shared by Python dictionaries and by
 INSERT .. ON CONFLICT DO UPDATE: an existing key keeps its place and takes the
 new value, a new key goes to the end.
 */
module KeyedRows {
  import opened Options

  type Rows<K, V> = seq<(K, V)>

  function Find<K(==), V>(rows: Rows<K, V>, k: K): Option<V> {
    if rows == [] then None
    else if rows[0].0 == k then Some(rows[0].1)
    else Find(rows[1..], k)
  }

  predicate Unique<K(==), V>(rows: Rows<K, V>) {
    forall i, j :: 0 <= i < j < |rows| ==> rows[i].0 != rows[j].0
  }

  function KeysOf<K, V>(rows: Rows<K, V>): seq<K> {
    seq(|rows|, i requires 0 <= i < |rows| => rows[i].0)
  }

  function Put<K(==), V>(rows: Rows<K, V>, k: K, v: V): Rows<K, V> {
    if rows == [] then [(k, v)]
    else if rows[0].0 == k then [(k, v)] + rows[1..]
    else [rows[0]] + Put(rows[1..], k, v)
  }

  function PutAll<K(==), V>(rows: Rows<K, V>, adds: Rows<K, V>): Rows<K, V> {
    if adds == [] then rows
    else
      var last := adds[|adds| - 1];
      Put(PutAll(rows, adds[..|adds| - 1]), last.0, last.1)
  }

  /** The value the last row for `k` carries: last write wins. */
  function LastWrite<K(==), V>(rows: Rows<K, V>, k: K): Option<V> {
    if rows == [] then None
    else if rows[|rows| - 1].0 == k then Some(rows[|rows| - 1].1)
    else LastWrite(rows[..|rows| - 1], k)
  }

  /** `ks` followed by the keys of `adds` it does not hold yet, each once. */
  function AppendNew<K(==)>(ks: seq<K>, adds: seq<K>): seq<K> {
    if adds == [] then ks
    else
      var before := AppendNew(ks, adds[..|adds| - 1]);
      if adds[|adds| - 1] in before then before else before + [adds[|adds| - 1]]
  }

  // ---- Find ----

  lemma {:induction false} FindMeansMember<K, V>(rows: Rows<K, V>, k: K)
    ensures Find(rows, k).Some? <==> k in KeysOf(rows)
    ensures forall v :: Find(rows, k) == Some(v) ==> (k, v) in rows
  {
    if rows != [] {
      FindMeansMember(rows[1..], k);
      assert KeysOf(rows) == [rows[0].0] + KeysOf(rows[1..]);
    }
  }

  lemma {:induction false} FindAt<K, V>(rows: Rows<K, V>, i: nat)
    requires Unique(rows) && i < |rows|
    ensures Find(rows, rows[i].0) == Some(rows[i].1)
  {
    if i > 0 {
      assert rows[0].0 != rows[i].0;
      FindAt(rows[1..], i - 1);
    }
  }

  /** Two tables with the same keys in the same order and the same lookups are the same table. */
  lemma SameTable<K, V>(a: Rows<K, V>, b: Rows<K, V>)
    requires Unique(a) && KeysOf(a) == KeysOf(b)
    requires forall k :: k in KeysOf(a) ==> Find(a, k) == Find(b, k)
    ensures a == b
  {
    assert |a| == |KeysOf(a)| == |KeysOf(b)| == |b|;
    forall i | 0 <= i < |a| ensures a[i] == b[i] {
      assert forall j :: 0 <= j < |b| ==> KeysOf(a)[j] == b[j].0 && KeysOf(b)[j] == a[j].0;
      FindAt(a, i);
      FindAt(b, i);
      assert a[i].0 in KeysOf(a);
    }
  }

  // ---- Put ----

  lemma {:induction false} FindPut<K, V>(rows: Rows<K, V>, k: K, v: V, q: K)
    ensures Find(Put(rows, k, v), q) == if q == k then Some(v) else Find(rows, q)
  {
    if rows != [] && rows[0].0 != k {
      FindPut(rows[1..], k, v, q);
    }
  }

  lemma {:induction false} KeysPut<K, V>(rows: Rows<K, V>, k: K, v: V)
    ensures KeysOf(Put(rows, k, v)) == AppendNew(KeysOf(rows), [k])
    ensures KeysOf(Put(rows, k, v)) == if k in KeysOf(rows) then KeysOf(rows) else KeysOf(rows) + [k]
  {
    assert [k][..0] == [];
    assert AppendNew(KeysOf(rows), [k]) == if k in KeysOf(rows) then KeysOf(rows) else KeysOf(rows) + [k];
    if rows != [] {
      assert KeysOf(rows) == [rows[0].0] + KeysOf(rows[1..]);
      if rows[0].0 != k {
        KeysPut(rows[1..], k, v);
        assert KeysOf(Put(rows, k, v)) == [rows[0].0] + KeysOf(Put(rows[1..], k, v));
      }
    }
  }

  lemma {:induction false} UniquePut<K, V>(rows: Rows<K, V>, k: K, v: V)
    requires Unique(rows)
    ensures Unique(Put(rows, k, v))
  {
    KeysPut(rows, k, v);
    var after := Put(rows, k, v);
    forall i, j | 0 <= i < j < |after| ensures after[i].0 != after[j].0 {
      assert after[i].0 == KeysOf(after)[i] && after[j].0 == KeysOf(after)[j];
    }
  }

  lemma {:induction false} PutSame<K, V>(rows: Rows<K, V>, k: K, v: V)
    requires Find(rows, k) == Some(v)
    ensures Put(rows, k, v) == rows
  {
    if rows[0].0 != k {
      PutSame(rows[1..], k, v);
    }
  }

  // ---- PutAll ----

  lemma {:induction false} FindPutAll<K, V>(rows: Rows<K, V>, adds: Rows<K, V>, k: K)
    ensures Find(PutAll(rows, adds), k) == if LastWrite(adds, k).Some? then LastWrite(adds, k) else Find(rows, k)
  {
    if adds != [] {
      var init, last := adds[..|adds| - 1], adds[|adds| - 1];
      FindPutAll(rows, init, k);
      FindPut(PutAll(rows, init), last.0, last.1, k);
    }
  }

  lemma {:induction false} KeysPutAll<K, V>(rows: Rows<K, V>, adds: Rows<K, V>)
    ensures KeysOf(PutAll(rows, adds)) == AppendNew(KeysOf(rows), KeysOf(adds))
  {
    if adds != [] {
      var init, last := adds[..|adds| - 1], adds[|adds| - 1];
      KeysPutAll(rows, init);
      KeysPut(PutAll(rows, init), last.0, last.1);
      assert KeysOf(adds)[..|adds| - 1] == KeysOf(init);
    }
  }

  lemma {:induction false} UniquePutAll<K, V>(rows: Rows<K, V>, adds: Rows<K, V>)
    requires Unique(rows)
    ensures Unique(PutAll(rows, adds))
  {
    if adds != [] {
      var init, last := adds[..|adds| - 1], adds[|adds| - 1];
      UniquePutAll(rows, init);
      UniquePut(PutAll(rows, init), last.0, last.1);
    }
  }

  lemma {:induction false} PutAllConcat<K, V>(rows: Rows<K, V>, a: Rows<K, V>, b: Rows<K, V>)
    ensures PutAll(rows, a + b) == PutAll(PutAll(rows, a), b)
  {
    if b == [] {
      assert a + b == a;
    } else {
      PutAllConcat(rows, a, b[..|b| - 1]);
      assert (a + b)[..|a + b| - 1] == a + b[..|b| - 1];
    }
  }

  // ---- AppendNew ----

  lemma {:induction false} AppendNewMembers<K>(ks: seq<K>, adds: seq<K>, k: K)
    ensures k in AppendNew(ks, adds) <==> k in ks || k in adds
  {
    if adds != [] {
      AppendNewMembers(ks, adds[..|adds| - 1], k);
      assert adds == adds[..|adds| - 1] + [adds[|adds| - 1]];
    }
  }

  lemma {:induction false} AppendNewConcat<K>(ks: seq<K>, a: seq<K>, b: seq<K>)
    ensures AppendNew(ks, a + b) == AppendNew(AppendNew(ks, a), b)
  {
    if b == [] {
      assert a + b == a;
    } else {
      AppendNewConcat(ks, a, b[..|b| - 1]);
      assert (a + b)[..|a + b| - 1] == a + b[..|b| - 1];
    }
  }

  lemma {:induction false} AppendNewKnown<K>(ks: seq<K>, adds: seq<K>)
    requires forall k :: k in adds ==> k in ks
    ensures AppendNew(ks, adds) == ks
  {
    if adds != [] {
      AppendNewKnown(ks, adds[..|adds| - 1]);
    }
  }

  lemma {:induction false} AppendNewDeduped<K>(ks: seq<K>, adds: seq<K>)
    ensures AppendNew(ks, AppendNew([], adds)) == AppendNew(ks, adds)
  {
    if adds != [] {
      var init, last := adds[..|adds| - 1], adds[|adds| - 1];
      var d := AppendNew([], init);
      AppendNewDeduped(ks, init);
      AppendNewMembers(ks, d, last);
      if last !in d {
        assert (d + [last])[..|d|] == d;
      }
    }
  }

  lemma {:induction false} LastWriteOfUnique<K, V>(rows: Rows<K, V>, k: K)
    requires Unique(rows)
    ensures LastWrite(rows, k) == Find(rows, k)
  {
    if rows != [] {
      var init, last := rows[..|rows| - 1], rows[|rows| - 1];
      LastWriteOfUnique(init, k);
      if last.0 == k {
        FindAt(rows, |rows| - 1);
      } else {
        FindSkipsLast(rows, k);
      }
    }
  }

  lemma {:induction false} FindSkipsLast<K, V>(rows: Rows<K, V>, k: K)
    requires rows != [] && rows[|rows| - 1].0 != k
    ensures Find(rows, k) == Find(rows[..|rows| - 1], k)
  {
    if |rows| > 1 && rows[0].0 != k {
      FindSkipsLast(rows[1..], k);
      assert rows[1..][..|rows| - 2] == rows[..|rows| - 1][1..];
    }
  }

  lemma {:induction false} LastWriteMembers<K, V>(rows: Rows<K, V>, k: K)
    ensures LastWrite(rows, k).Some? <==> k in KeysOf(rows)
  {
    if rows != [] {
      LastWriteMembers(rows[..|rows| - 1], k);
      assert KeysOf(rows) == KeysOf(rows[..|rows| - 1]) + [rows[|rows| - 1].0];
    }
  }

  lemma {:induction false} LastWriteConcat<K, V>(a: Rows<K, V>, b: Rows<K, V>, k: K)
    ensures LastWrite(a + b, k) == if LastWrite(b, k).Some? then LastWrite(b, k) else LastWrite(a, k)
  {
    if b == [] {
      assert a + b == a;
    } else {
      LastWriteConcat(a, b[..|b| - 1], k);
      assert (a + b)[..|a + b| - 1] == a + b[..|b| - 1];
    }
  }

  lemma CollapsedFind<K, V>(rows: Rows<K, V>, adds: Rows<K, V>, k: K)
    ensures Find(PutAll(rows, PutAll([], adds)), k) == Find(PutAll(rows, adds), k)
  {
    UniquePutAll([], adds);
    FindPutAll(rows, PutAll([], adds), k);
    FindPutAll(rows, adds, k);
    FindPutAll([], adds, k);
    LastWriteOfUnique(PutAll([], adds), k);
  }

  lemma CollapsedKeys<K, V>(rows: Rows<K, V>, adds: Rows<K, V>)
    ensures KeysOf(PutAll(rows, PutAll([], adds))) == KeysOf(PutAll(rows, adds))
  {
    KeysPutAll([], adds);
    KeysPutAll(rows, adds);
    KeysPutAll(rows, PutAll([], adds));
    AppendNewDeduped(KeysOf(rows), KeysOf(adds));
    assert KeysOf<K, V>([]) == [];
  }

  /** Collapsing duplicates before the upsert changes nothing: `PutAll([], adds)` is dict(adds). */
  lemma CollapsedPutAll<K, V>(rows: Rows<K, V>, adds: Rows<K, V>)
    requires Unique(rows)
    ensures PutAll(rows, PutAll([], adds)) == PutAll(rows, adds)
  {
    var a, b := PutAll(rows, PutAll([], adds)), PutAll(rows, adds);
    assert Unique(a) by { UniquePutAll(rows, PutAll([], adds)); }
    assert KeysOf(a) == KeysOf(b) by { CollapsedKeys(rows, adds); }
    forall k | k in KeysOf(a) ensures Find(a, k) == Find(b, k) {
      CollapsedFind(rows, adds, k);
    }
    SameTable(a, b);
  }

  lemma RestartedFind<K, V>(rows: Rows<K, V>, a: Rows<K, V>, b: Rows<K, V>, k: K)
    ensures Find(PutAll(PutAll(rows, a), a + b), k) == Find(PutAll(rows, a + b), k)
  {
    FindPutAll(PutAll(rows, a), a + b, k);
    FindPutAll(rows, a + b, k);
    FindPutAll(rows, a, k);
    LastWriteConcat(a, b, k);
  }

  lemma RestartedKeys<K, V>(rows: Rows<K, V>, a: Rows<K, V>, b: Rows<K, V>)
    ensures KeysOf(PutAll(PutAll(rows, a), a + b)) == KeysOf(PutAll(rows, a + b))
  {
    var r := PutAll(rows, a);
    KeysPutAll(rows, a);
    KeysPutAll(r, a + b);
    KeysPutAll(rows, a + b);
    assert KeysOf(a + b) == KeysOf(a) + KeysOf(b);
    AppendNewConcat(KeysOf(rows), KeysOf(a), KeysOf(b));
    AppendNewConcat(KeysOf(r), KeysOf(a), KeysOf(b));
    forall k | k in KeysOf(a) ensures k in KeysOf(r) {
      AppendNewMembers(KeysOf(rows), KeysOf(a), k);
    }
    AppendNewKnown(KeysOf(r), KeysOf(a));
  }

  /** Starting over after a prefix had been written gives the same table as one clean pass. */
  lemma RestartedPutAll<K, V>(rows: Rows<K, V>, a: Rows<K, V>, b: Rows<K, V>)
    requires Unique(rows)
    ensures PutAll(PutAll(rows, a), a + b) == PutAll(rows, a + b)
  {
    var x, y := PutAll(PutAll(rows, a), a + b), PutAll(rows, a + b);
    assert Unique(x) by {
      UniquePutAll(rows, a);
      UniquePutAll(PutAll(rows, a), a + b);
    }
    assert KeysOf(x) == KeysOf(y) by { RestartedKeys(rows, a, b); }
    forall k | k in KeysOf(x) ensures Find(x, k) == Find(y, k) {
      RestartedFind(rows, a, b, k);
    }
    SameTable(x, y);
  }
}
