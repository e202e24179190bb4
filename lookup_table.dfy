/**
 The dictionary-filling loop that build_meta_table.py runs five times: scan
 rows in order and, for every row that yields a (key, value) entry, execute
 `table[key] = value`. A later row with the same key overwrites an earlier one.
 */
module LookupTable {
  import opened Options

  /** Row `row` writes key `k` into the table. */
  predicate Writes<R, K(==), V>(entry: R -> Option<(K, V)>, row: R, k: K)
  {
    entry(row).Some? && entry(row).value.0 == k
  }

  /** The table after scanning `rows` in order, starting from an empty dictionary. */
  function Index<R, K(==), V>(rows: seq<R>, entry: R -> Option<(K, V)>): map<K, V>
  {
    if rows == [] then map[]
    else
      var table := Index(rows[..|rows| - 1], entry);
      match entry(rows[|rows| - 1])
      case None => table
      case Some((k, v)) => table[k := v]
  }

  /**
   The position of the last row that writes `k`, or -1 when none does: it
   writes `k` and no later row does.
   */
  function LastWrite<R, K(==), V>(rows: seq<R>, entry: R -> Option<(K, V)>, k: K): (i: int)
    ensures -1 <= i < |rows|
    ensures 0 <= i ==> Writes(entry, rows[i], k)
    ensures forall j | i < j < |rows| :: !Writes(entry, rows[j], k)
  {
    if rows == [] then -1
    else if Writes(entry, rows[|rows| - 1], k) then |rows| - 1
    else LastWrite(rows[..|rows| - 1], entry, k)
  }

  /**
   Last write wins: a key is in the table exactly when some row writes it,
   and its value is the one the last such row wrote.
   */
  lemma {:induction false} IndexIsLastWrite<R, K, V>(rows: seq<R>, entry: R -> Option<(K, V)>, k: K)
    ensures k in Index(rows, entry) <==> LastWrite(rows, entry, k) >= 0
    ensures k in Index(rows, entry) ==> Index(rows, entry)[k] == entry(rows[LastWrite(rows, entry, k)]).value.1
  {
    if rows != [] {
      var init := rows[..|rows| - 1];
      IndexIsLastWrite(init, entry, k);
      if !Writes(entry, rows[|rows| - 1], k) {
        assert LastWrite(rows, entry, k) == LastWrite(init, entry, k);
        assert forall j | 0 <= j < |init| :: init[j] == rows[j];
      }
    }
  }

  /**
   Last write wins, stated on positions: a key is in the table exactly when
   some row writes it, and then the table holds the value written by a row
   after which no row writes that key again.
   */
  lemma IndexLastWins<R, K, V>(rows: seq<R>, entry: R -> Option<(K, V)>, k: K)
    ensures k in Index(rows, entry) <==> exists i | 0 <= i < |rows| :: Writes(entry, rows[i], k)
    ensures k in Index(rows, entry) ==>
      exists i | 0 <= i < |rows| ::
        && Writes(entry, rows[i], k)
        && Index(rows, entry)[k] == entry(rows[i]).value.1
        && forall j | i < j < |rows| :: !Writes(entry, rows[j], k)
  {
    IndexIsLastWrite(rows, entry, k);
    var last := LastWrite(rows, entry, k);
    if last >= 0 {
      assert Writes(entry, rows[last], k);
    }
  }

  /**
   Reading the rows in chunks and filling the same dictionary gives the table
   of the whole sequence: later chunks override earlier ones key by key.
   */
  lemma {:induction false} IndexConcat<R, K, V>(a: seq<R>, b: seq<R>, entry: R -> Option<(K, V)>)
    ensures Index(a + b, entry) == Index(a, entry) + Index(b, entry)
  {
    if b == [] {
      assert a + b == a;
    } else {
      var b' := b[..|b| - 1];
      assert (a + b)[..|a + b| - 1] == a + b';
      assert (a + b)[|a + b| - 1] == b[|b| - 1];
      IndexConcat(a, b', entry);
    }
  }

  /** The loop itself: `for row in rows: if <row has an entry>: table[key] = value`. */
  method BuildIndex<R, K(==), V>(rows: seq<R>, entry: R -> Option<(K, V)>) returns (table: map<K, V>)
    ensures table == Index(rows, entry)
  {
    table := map[];
    var i := 0;
    while i < |rows|
      invariant 0 <= i <= |rows|
      invariant table == Index(rows[..i], entry)
    {
      assert rows[..i + 1][..i] == rows[..i];
      match entry(rows[i]) {
        case Some((k, v)) =>
          table := table[k := v];
        case None =>
      }
      i := i + 1;
    }
    assert rows[..|rows|] == rows;
  }
}
