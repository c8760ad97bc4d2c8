/**
 * Tables as sequences of rows, with no constraint of their own. A MERGE compares its batch with the table
 * as it was before the statement, so a key repeated inside one batch would be inserted twice.
 */
module Tables {

  /** A stored row: its event_id and everything else. */
  datatype Row<K, V> = Row(key: K, value: V)

  ghost function Keys<K, V>(rows: seq<Row<K, V>>): set<K> {
    set r: Row<K, V> | r in rows :: r.key
  }

  ghost predicate Unique<K, V>(rows: seq<Row<K, V>>) {
    forall i, j :: 0 <= i < j < |rows| ==> rows[i].key != rows[j].key
  }

  predicate HasKey<K(==), V>(rows: seq<Row<K, V>>, k: K) {
    exists i :: 0 <= i < |rows| && rows[i].key == k
  }

  /** The rows of the batch that match no row of the table. */
  function Absent<K(==), V>(table: seq<Row<K, V>>, batch: seq<Row<K, V>>): seq<Row<K, V>> {
    if batch == [] then []
    else
      var n := |batch| - 1;
      Absent(table, batch[..n]) + (if HasKey(table, batch[n].key) then [] else [batch[n]])
  }

  /** MERGE ... WHEN NOT MATCHED THEN INSERT */
  function Merge<K(==), V>(table: seq<Row<K, V>>, batch: seq<Row<K, V>>): seq<Row<K, V>> {
    table + Absent(table, batch)
  }

  /** Replace the row with x's key, or append x. */
  function Put<K(==), V>(rows: seq<Row<K, V>>, x: Row<K, V>): seq<Row<K, V>> {
    if rows == [] then [x]
    else if rows[0].key == x.key then [x] + rows[1..]
    else [rows[0]] + Put(rows[1..], x)
  }

  /** list({x.key: x for x in items}.values()): first position, last value. */
  function Dedupe<K(==), V>(items: seq<Row<K, V>>): seq<Row<K, V>> {
    if items == [] then []
    else Put(Dedupe(items[..|items| - 1]), items[|items| - 1])
  }

  // ---------------------------------------------------------------- merging

  lemma NothingUnique<K, V>()
    ensures Unique<K, V>([])
  {
  }

  lemma UniqueSnoc<K(!new), V(!new)>(rows: seq<Row<K, V>>, x: Row<K, V>)
    requires Unique(rows) && forall r: Row<K, V> :: r in rows ==> r.key != x.key
    ensures Unique(rows + [x])
  {
    forall i, j | 0 <= i < j < |rows| + 1 ensures (rows + [x])[i].key != (rows + [x])[j].key {
      assert rows[i] in rows;
    }
  }

  lemma NoKeys<K(!new), V(!new)>(rows: seq<Row<K, V>>)
    ensures rows == [] <==> Keys(rows) == {}
  {
    if rows != [] { assert rows[0].key in Keys(rows); }
  }

  lemma KeysOfTwo<K(!new), V(!new)>(a: seq<Row<K, V>>, b: seq<Row<K, V>>)
    ensures Keys(a + b) == Keys(a) + Keys(b)
  {
    forall k ensures k in Keys(a + b) <==> k in Keys(a) || k in Keys(b) {
      if k in Keys(a) { var r :| r in a && r.key == k; assert r in a + b; }
      if k in Keys(b) { var r :| r in b && r.key == k; assert r in a + b; }
    }
  }

  lemma {:induction false} AbsentRows<K(!new), V(!new)>(table: seq<Row<K, V>>, batch: seq<Row<K, V>>)
    ensures forall r: Row<K, V> :: r in Absent(table, batch) <==> r in batch && !HasKey(table, r.key)
  {
    if batch != [] {
      var n := |batch| - 1;
      AbsentRows(table, batch[..n]);
      assert batch == batch[..n] + [batch[n]];
    }
  }

  lemma {:induction false} AbsentUnique<K(!new), V(!new)>(table: seq<Row<K, V>>, batch: seq<Row<K, V>>)
    requires Unique(batch)
    ensures Unique(Absent(table, batch))
  {
    if batch != [] {
      var n := |batch| - 1;
      AbsentUnique(table, batch[..n]);
      AbsentRows(table, batch[..n]);
      forall r: Row<K, V> | r in Absent(table, batch[..n]) ensures r.key != batch[n].key {
        var i :| 0 <= i < n && batch[i] == r;
      }
      UniqueSnoc(Absent(table, batch[..n]), batch[n]);
    }
  }

  lemma KeysGrow<K(!new), V(!new)>(a: seq<Row<K, V>>, b: seq<Row<K, V>>)
    requires a <= b
    ensures Keys(a) <= Keys(b)
  {
    assert b == a + b[|a|..];
    KeysOfTwo(a, b[|a|..]);
  }

  lemma Copies<T>(x: T)
    ensures [x, x][..1] == [x] && [x][..0] == [] && [] + [x] == [x] && [x] + [x] == [x, x]
  {
  }

  /** A key repeated inside one batch is inserted once for each copy. */
  lemma RepeatedInMerge<K(!new), V(!new)>(x: Row<K, V>)
    ensures Merge([], [x, x]) == [x, x] && HasKey([x], x.key)
  {
    Copies(x);
    assert [x][0].key == x.key;
    assert !HasKey<K, V>([], x.key);
    assert Absent([], [x]) == [x];
    assert Absent([], [x, x]) == [x] + [x];
  }

  /** A MERGE keeps every stored row in place, adds the missing keys and no others. */
  lemma MergeKeys<K(!new), V(!new)>(table: seq<Row<K, V>>, batch: seq<Row<K, V>>)
    ensures table <= Merge(table, batch)
    ensures Keys(Merge(table, batch)) == Keys(table) + Keys(batch)
    ensures forall r: Row<K, V> :: r in Merge(table, batch) <==> r in table || (r in batch && r.key !in Keys(table))
  {
    hide Absent, HasKey;
    var absent := Absent(table, batch);
    AbsentRows(table, batch);
    forall r: Row<K, V> ensures HasKey(table, r.key) <==> r.key in Keys(table) { HasKeyIsKey(table, r.key); }
    KeysOfTwo(table, absent);
    forall k ensures k in Keys(table) + Keys(absent) <==> k in Keys(table) + Keys(batch) {
      if k in Keys(batch) && k !in Keys(table) {
        var r :| r in batch && r.key == k;
        assert r in absent;
      }
    }
  }

  lemma HasKeyIsKey<K(!new), V(!new)>(rows: seq<Row<K, V>>, k: K)
    ensures HasKey(rows, k) <==> k in Keys(rows)
  {
    if k in Keys(rows) {
      var r :| r in rows && r.key == k;
      var i :| 0 <= i < |rows| && rows[i] == r;
    }
  }

  /** Distinct keys in table and batch stay distinct, whatever keys they share. */
  lemma MergeUnique<K(!new), V(!new)>(table: seq<Row<K, V>>, batch: seq<Row<K, V>>)
    requires Unique(table) && Unique(batch)
    ensures Unique(Merge(table, batch))
  {
    hide Absent;
    var absent := Absent(table, batch);
    AbsentUnique(table, batch);
    AbsentRows(table, batch);
    forall i, j | 0 <= i < |table| && 0 <= j < |absent| ensures table[i].key != absent[j].key {
      assert absent[j] in absent && !HasKey(table, absent[j].key);
    }
  }

  lemma NothingAbsent<K(!new), V(!new)>(table: seq<Row<K, V>>, batch: seq<Row<K, V>>)
    requires Keys(batch) <= Keys(table)
    ensures Merge(table, batch) == table
  {
    AbsentRows(table, batch);
    forall r: Row<K, V> | r in batch ensures HasKey(table, r.key) {
      assert r.key in Keys(batch);
      HasKeyIsKey(table, r.key);
    }
    NoKeys(Absent(table, batch));
  }

  /** Repeating a MERGE whose outcome was unknown changes nothing. */
  lemma MergeAgain<K(!new), V(!new)>(table: seq<Row<K, V>>, batch: seq<Row<K, V>>)
    ensures Merge(Merge(table, batch), batch) == Merge(table, batch)
  {
    MergeKeys(table, batch);
    NothingAbsent(Merge(table, batch), batch);
  }

  lemma UniquePrefix<K(!new), V(!new)>(a: seq<Row<K, V>>, b: seq<Row<K, V>>)
    requires Unique(a + b)
    ensures Unique(a) && Unique(b)
  {
    forall i, j | 0 <= i < j < |a| ensures a[i].key != a[j].key {
      assert (a + b)[i] == a[i] && (a + b)[j] == a[j];
    }
    forall i, j | 0 <= i < j < |b| ensures b[i].key != b[j].key {
      assert (a + b)[|a| + i] == b[i] && (a + b)[|a| + j] == b[j];
    }
  }

  /** The last row brings a key of its own. */
  lemma UniqueLast<K(!new), V(!new)>(rows: seq<Row<K, V>>)
    requires rows != [] && Unique(rows)
    ensures
      var n := |rows| - 1;
      && Unique(rows[..n]) && rows == rows[..n] + [rows[n]]
      && (forall r: Row<K, V> :: r in rows[..n] ==> r.key != rows[n].key)
      && Keys(rows) == Keys(rows[..n]) + {rows[n].key}
  {
    var n := |rows| - 1;
    assert rows == rows[..n] + [rows[n]];
    UniquePrefix(rows[..n], [rows[n]]);
  }

  lemma MergeSnoc<K(!new), V(!new)>(table: seq<Row<K, V>>, batch: seq<Row<K, V>>, x: Row<K, V>)
    ensures Merge(table, batch + [x]) ==
            if x.key in Keys(table) then Merge(table, batch) else Merge(table, batch) + [x]
  {
    assert (batch + [x])[..|batch|] == batch;
    HasKeyIsKey(table, x.key);
  }

  /** With distinct keys, merging in two statements is merging in one. */
  lemma {:induction false} MergeInTwo<K(!new), V(!new)>(table: seq<Row<K, V>>, a: seq<Row<K, V>>, b: seq<Row<K, V>>)
    requires Unique(a + b)
    ensures Merge(Merge(table, a), b) == Merge(table, a + b)
  {
    if b == [] {
      assert a + b == a;
    } else {
      hide Merge, Unique;
      var n := |b| - 1;
      var front, x := b[..n], b[n];
      assert b == front + [x] && a + b == (a + front) + [x];
      UniquePrefix(a + front, [x]);
      MergeInTwo(table, a, front);
      MergeSnoc(Merge(table, a), front, x);
      MergeSnoc(table, a + front, x);
      MergeKeys(table, a);
      LastKeyNew(a, front, x);
    }
  }

  /** Distinct rows may be merged stretch by stretch. */
  lemma MergeStretch<K(!new), V(!new)>(table: seq<Row<K, V>>, rows: seq<Row<K, V>>, n: nat, m: nat)
    requires Unique(rows) && n <= m <= |rows|
    ensures Merge(Merge(table, rows[..n]), rows[n..m]) == Merge(table, rows[..m])
  {
    hide Merge, Unique;
    assert rows[..m] == rows[..n] + rows[n..m] && rows == rows[..m] + rows[m..];
    UniquePrefix(rows[..m], rows[m..]);
    MergeInTwo(table, rows[..n], rows[n..m]);
  }

  lemma LastKeyNew<K(!new), V(!new)>(a: seq<Row<K, V>>, b: seq<Row<K, V>>, x: Row<K, V>)
    requires Unique(a + b + [x])
    ensures x.key !in Keys(a) && x.key !in Keys(b)
  {
    var all := a + b + [x];
    forall i | 0 <= i < |a| ensures a[i].key != x.key { assert all[i] == a[i] && all[|a| + |b|] == x; }
    forall i | 0 <= i < |b| ensures b[i].key != x.key { assert all[|a| + i] == b[i] && all[|a| + |b|] == x; }
  }

  // ---------------------------------------------------------------- keying a list by id

  lemma UniqueCons<K(!new), V(!new)>(x: Row<K, V>, rows: seq<Row<K, V>>)
    ensures Unique([x] + rows) <==> Unique(rows) && forall r: Row<K, V> :: r in rows ==> r.key != x.key
  {
    var all := [x] + rows;
    if Unique(all) {
      UniquePrefix([x], rows);
      forall r: Row<K, V> | r in rows ensures r.key != x.key {
        var i :| 0 <= i < |rows| && rows[i] == r;
        assert all[0] == x && all[i + 1] == r;
      }
    }
    if Unique(rows) && forall r: Row<K, V> :: r in rows ==> r.key != x.key {
      forall i, j | 0 <= i < j < |all| ensures all[i].key != all[j].key {
        assert all[j] == rows[j - 1];
        if i > 0 { assert all[i] == rows[i - 1]; }
      }
    }
  }

  lemma {:induction false} PutRows<K(!new), V(!new)>(rows: seq<Row<K, V>>, x: Row<K, V>)
    requires Unique(rows)
    ensures Unique(Put(rows, x))
    ensures forall r: Row<K, V> :: r in Put(rows, x) <==> r == x || (r in rows && r.key != x.key)
    ensures |Put(rows, x)| <= |rows| + 1
  {
    if rows != [] {
      hide Unique;
      var rest := rows[1..];
      assert rows == [rows[0]] + rest;
      UniqueCons(rows[0], rest);
      PutRows(rest, x);
      UniqueCons(x, rest);
      UniqueCons(rows[0], Put(rest, x));
    } else {
      assert Put(rows, x) == [x];
    }
  }

  /** r is the last of the items with its key. */
  ghost predicate LastOf<K, V>(items: seq<Row<K, V>>, r: Row<K, V>) {
    exists i :: 0 <= i < |items| && items[i] == r && forall j :: i < j < |items| ==> items[j].key != r.key
  }

  lemma LastOfSnoc<K(!new), V(!new)>(items: seq<Row<K, V>>, r: Row<K, V>)
    requires items != []
    ensures var n := |items| - 1;
            LastOf(items, r) <==> r == items[n] || (r.key != items[n].key && LastOf(items[..n], r))
  {
    var n := |items| - 1;
    var front := items[..n];
    if LastOf(items, r) {
      var i :| 0 <= i < |items| && items[i] == r && forall j :: i < j < |items| ==> items[j].key != r.key;
      if i < n { assert front[i] == r; }
    }
    if LastOf(front, r) && r.key != items[n].key {
      var i :| 0 <= i < n && front[i] == r && forall j :: i < j < n ==> front[j].key != r.key;
      assert items[i] == r && forall j :: i < j < n ==> front[j] == items[j];
    }
  }

  /** Keying by id: one row per key, exactly the keys of the list, the last row of each. */
  lemma {:induction false} DedupeRows<K(!new), V(!new)>(items: seq<Row<K, V>>)
    ensures Unique(Dedupe(items))
    ensures Keys(Dedupe(items)) == Keys(items)
    ensures |Dedupe(items)| <= |items|
    ensures forall r: Row<K, V> :: r in Dedupe(items) <==> LastOf(items, r)
  {
    hide LastOf, Unique, Put;
    if items == [] {
      NothingUnique<K, V>();
      forall r: Row<K, V> ensures !LastOf(items, r) { NothingLast(r); }
    } else {
      var n := |items| - 1;
      var front, x := items[..n], items[n];
      DedupeRows(front);
      PutRows(Dedupe(front), x);
      forall r: Row<K, V> ensures r in Dedupe(items) <==> LastOf(items, r) { LastOfSnoc(items, r); }
      PutKeys(Dedupe(front), x);
      assert items == front + [x];
      assert Keys(items) == Keys(front) + {x.key};
    }
  }

  lemma NothingLast<K(!new), V(!new)>(r: Row<K, V>)
    ensures !LastOf([], r)
  {
  }

  lemma PutKeys<K(!new), V(!new)>(rows: seq<Row<K, V>>, x: Row<K, V>)
    requires Unique(rows)
    ensures Keys(Put(rows, x)) == Keys(rows) + {x.key}
  {
    hide Put;
    PutRows(rows, x);
    var put := Put(rows, x);
    forall k ensures k in Keys(put) <==> k in Keys(rows) + {x.key} {
      assert x in put;
      if k in Keys(rows) && k != x.key {
        var r :| r in rows && r.key == k;
        assert r in put;
      }
      if k in Keys(put) {
        var r :| r in put && r.key == k;
      }
    }
  }

  lemma {:induction false} DedupeOfUnique<K(!new), V(!new)>(items: seq<Row<K, V>>)
    requires Unique(items)
    ensures Dedupe(items) == items
  {
    if items != [] {
      var n := |items| - 1;
      DedupeOfUnique(items[..n]);
      PutNew(items[..n], items[n]);
      assert items == items[..n] + [items[n]];
    }
  }

  lemma {:induction false} PutNew<K(!new), V(!new)>(rows: seq<Row<K, V>>, x: Row<K, V>)
    requires forall r: Row<K, V> :: r in rows ==> r.key != x.key
    ensures Put(rows, x) == rows + [x]
  {
    if rows != [] {
      PutNew(rows[1..], x);
      assert rows == [rows[0]] + rows[1..];
    }
  }
}
