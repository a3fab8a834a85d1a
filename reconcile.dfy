/** The reconciliation engine shared by both scripts: a source collection is
    compared with the natural keys of the destination, the source records whose
    key is missing are the delta, and the delta is written one statement at a
    time with `INSERT … ON CONFLICT (key) DO NOTHING`, each statement committed
    or rolled back on its own. */
module Reconcile {

  /** `{key(r) for r in rows}`. */
  function KeySet<T, K>(rows: seq<T>, key: T -> K): (keys: set<K>)
    ensures forall i :: 0 <= i < |rows| ==> key(rows[i]) in keys
    ensures forall k :: k in keys ==> exists i :: 0 <= i < |rows| && key(rows[i]) == k
  {
    set i | 0 <= i < |rows| :: key(rows[i])
  }

  /** `[r for r in src if key(r) not in known]`. */
  function NewRecords<T(!new), K>(src: seq<T>, known: set<K>, key: T -> K): (delta: seq<T>)
    ensures |delta| <= |src|
    ensures forall r :: r in delta <==> r in src && key(r) !in known
  {
    if src == [] then []
    else (if key(src[0]) in known then [] else [src[0]]) + NewRecords(src[1..], known, key)
  }

  /** The delta keeps source order: the delta of a concatenation is the
      concatenation of the deltas. */
  lemma {:induction false} NewRecordsAppend<T(!new), K>(a: seq<T>, b: seq<T>, known: set<K>, key: T -> K)
    ensures NewRecords(a + b, known, key) == NewRecords(a, known, key) + NewRecords(b, known, key)
    decreases |a|
  {
    if a != [] {
      assert (a + b)[0] == a[0] && (a + b)[1..] == a[1..] + b;
      NewRecordsAppend(a[1..], b, known, key);
    } else {
      assert a + b == b;
    }
  }

  /** Duplicates are not collapsed: a record whose key is unknown occurs in the
      delta exactly as often as in the source, any other record not at all. */
  lemma {:induction false} NewRecordsMultiplicity<T(!new), K>(src: seq<T>, known: set<K>, key: T -> K, r: T)
    ensures multiset(NewRecords(src, known, key))[r] == if key(r) in known then 0 else multiset(src)[r]
    decreases |src|
  {
    if src != [] {
      NewRecordsMultiplicity(src[1..], known, key, r);
      assert src == [src[0]] + src[1..];
    }
  }

  /** The delta is empty exactly when every source key is already known. */
  lemma NewRecordsEmpty<T(!new), K>(src: seq<T>, known: set<K>, key: T -> K)
    ensures NewRecords(src, known, key) == [] <==> forall i :: 0 <= i < |src| ==> key(src[i]) in known
  {
    var delta := NewRecords(src, known, key);
    if delta != [] {
      assert delta[0] in delta;
    }
    if exists i :: 0 <= i < |src| && key(src[i]) !in known {
      var i :| 0 <= i < |src| && key(src[i]) !in known;
      assert src[i] in delta;
    }
  }

  /** One `INSERT … ON CONFLICT (key) DO NOTHING`: a row whose key is taken
      changes nothing. */
  function Upsert<K, V>(table: map<K, V>, k: K, v: V): (t: map<K, V>)
    ensures t.Keys == table.Keys + {k}
    ensures forall j :: j in table ==> t[j] == table[j]
    ensures k !in table ==> t[k] == v
  {
    if k in table then table else table[k := v]
  }

  /** The number of statements that did not fail. */
  function Successes(ok: seq<bool>): (n: nat)
    ensures n <= |ok|
    ensures n == |ok| <==> forall i :: 0 <= i < |ok| ==> ok[i]
    ensures n == 0 <==> forall i :: 0 <= i < |ok| ==> !ok[i]
  {
    if ok == [] then 0
    else Successes(ok[..|ok| - 1]) + (if ok[|ok| - 1] then 1 else 0)
  }

  /** The table after one upsert per row, in order, where the statement of
      row `i` takes effect exactly when `ok[i]` (a failing one is rolled back
      and the next row is still tried). */
  function InsertAll<T, K, V>(table: map<K, V>, rows: seq<T>, ok: seq<bool>, key: T -> K, val: T -> V): map<K, V>
    requires |ok| == |rows|
  {
    if rows == [] then table
    else
      var n := |rows| - 1;
      var before := InsertAll(table, rows[..n], ok[..n], key, val);
      if ok[n] then Upsert(before, key(rows[n]), val(rows[n])) else before
  }

  /** One more row of a loop over `rows`: the prefix of length `n + 1` is the
      prefix of length `n` followed by row `n`. */
  lemma InsertAllStep<T, K, V>(table: map<K, V>, rows: seq<T>, ok: seq<bool>, key: T -> K, val: T -> V, n: nat)
    requires |ok| == |rows| && n < |rows|
    ensures var before := InsertAll(table, rows[..n], ok[..n], key, val);
            InsertAll(table, rows[..n + 1], ok[..n + 1], key, val)
            == if ok[n] then Upsert(before, key(rows[n]), val(rows[n])) else before
    ensures Successes(ok[..n + 1]) == Successes(ok[..n]) + if ok[n] then 1 else 0
  {
    assert rows[..n + 1][..n] == rows[..n] && ok[..n + 1][..n] == ok[..n];
  }

  /** The keys of the table afterwards are the old keys and those of the rows
      whose statement succeeded; no existing row changes. */
  lemma {:induction false} InsertAllEffect<T, K, V>(table: map<K, V>, rows: seq<T>, ok: seq<bool>, key: T -> K, val: T -> V)
    requires |ok| == |rows|
    ensures InsertAll(table, rows, ok, key, val).Keys
            == table.Keys + set i | 0 <= i < |rows| && ok[i] :: key(rows[i])
    ensures forall k :: k in table ==> InsertAll(table, rows, ok, key, val)[k] == table[k]
    decreases |rows|
  {
    if rows != [] {
      var n := |rows| - 1;
      InsertAllEffect(table, rows[..n], ok[..n], key, val);
      var before := set i | 0 <= i < n && ok[..n][i] :: key(rows[..n][i]);
      var after := set i | 0 <= i < |rows| && ok[i] :: key(rows[i]);
      assert after == before + (if ok[n] then {key(rows[n])} else {}) by {
        forall k | k in after ensures k in before + (if ok[n] then {key(rows[n])} else {}) {
          var i :| 0 <= i < |rows| && ok[i] && key(rows[i]) == k;
          if i < n { assert ok[..n][i] && key(rows[..n][i]) == k; }
        }
        forall k | k in before ensures k in after {
          var i :| 0 <= i < n && ok[..n][i] && key(rows[..n][i]) == k;
          assert ok[i] && key(rows[i]) == k;
        }
      }
    }
  }

  /** A row enters the table only through a successful statement: a key that
      was absent before and is present afterwards belongs to a row whose
      statement succeeded, and holds the first such row. */
  lemma {:induction false} InsertAllGated<T, K, V>(table: map<K, V>, rows: seq<T>, ok: seq<bool>, key: T -> K, val: T -> V, k: K)
    requires |ok| == |rows|
    requires k !in table && k in InsertAll(table, rows, ok, key, val)
    ensures exists i :: 0 <= i < |rows| && ok[i] && key(rows[i]) == k
              && InsertAll(table, rows, ok, key, val)[k] == val(rows[i])
              && forall j :: 0 <= j < i && ok[j] ==> key(rows[j]) != k
    decreases |rows|
  {
    var n := |rows| - 1;
    var before := InsertAll(table, rows[..n], ok[..n], key, val);
    if k in before {
      InsertAllGated(table, rows[..n], ok[..n], key, val, k);
      var i :| 0 <= i < n && ok[..n][i] && key(rows[..n][i]) == k && before[k] == val(rows[..n][i])
               && forall j :: 0 <= j < i && ok[..n][j] ==> key(rows[..n][j]) != k;
      assert ok[i] && key(rows[i]) == k;
      assert forall j :: 0 <= j < i && ok[j] ==> key(rows[j]) != k by {
        forall j | 0 <= j < i && ok[j] ensures key(rows[j]) != k {
          assert ok[..n][j] && rows[..n][j] == rows[j];
        }
      }
    } else {
      assert ok[n] && key(rows[n]) == k;
      forall j | 0 <= j < n && ok[j] ensures key(rows[j]) != k {
        InsertAllEffect(table, rows[..n], ok[..n], key, val);
        assert ok[..n][j] && rows[..n][j] == rows[j];
      }
    }
  }

  /** Rows whose keys are all present already change nothing, whichever
      statements fail. */
  lemma {:induction false} InsertAllPresent<T, K, V>(table: map<K, V>, rows: seq<T>, ok: seq<bool>, key: T -> K, val: T -> V)
    requires |ok| == |rows|
    requires forall i :: 0 <= i < |rows| ==> key(rows[i]) in table
    ensures InsertAll(table, rows, ok, key, val) == table
    decreases |rows|
  {
    if rows != [] {
      var n := |rows| - 1;
      InsertAllPresent(table, rows[..n], ok[..n], key, val);
    }
  }

  /** Inserting a delta a second time, after it was inserted once without
      failures, leaves the table as the first insertion left it. */
  lemma InsertAllIdempotent<T, K, V>(table: map<K, V>, rows: seq<T>, first: seq<bool>, second: seq<bool>, key: T -> K, val: T -> V)
    requires |first| == |rows| && |second| == |rows|
    requires forall i :: 0 <= i < |rows| ==> first[i]
    ensures var once := InsertAll(table, rows, first, key, val);
            InsertAll(once, rows, second, key, val) == once
  {
    var once := InsertAll(table, rows, first, key, val);
    InsertAllEffect(table, rows, first, key, val);
    forall i | 0 <= i < |rows| ensures key(rows[i]) in once {
      assert key(rows[i]) in set j | 0 <= j < |rows| && first[j] :: key(rows[j]);
    }
    InsertAllPresent(once, rows, second, key, val);
  }

  /** When no statement succeeds the table is unchanged. */
  lemma {:induction false} InsertAllNoneOk<T, K, V>(table: map<K, V>, rows: seq<T>, ok: seq<bool>, key: T -> K, val: T -> V)
    requires |ok| == |rows|
    requires forall i :: 0 <= i < |ok| ==> !ok[i]
    ensures InsertAll(table, rows, ok, key, val) == table
    decreases |rows|
  {
    if rows != [] {
      var n := |rows| - 1;
      InsertAllNoneOk(table, rows[..n], ok[..n], key, val);
    }
  }

  /** A row stored exactly as it was read. */
  function Itself<T>(x: T): T { x }

  /** A table whose rows are stored under their own key stays so when rows
      are inserted under the key the row itself yields. */
  lemma {:induction false} InsertAllKeyed<T, K, V>(table: map<K, V>, rows: seq<T>, ok: seq<bool>, key: T -> K, val: T -> V, rowKey: V -> K)
    requires |ok| == |rows|
    requires forall k :: k in table ==> rowKey(table[k]) == k
    requires forall i :: 0 <= i < |rows| ==> rowKey(val(rows[i])) == key(rows[i])
    ensures forall k :: k in InsertAll(table, rows, ok, key, val) ==> rowKey(InsertAll(table, rows, ok, key, val)[k]) == k
    decreases |rows|
  {
    if rows != [] {
      var n := |rows| - 1;
      assert forall i :: 0 <= i < n ==> rows[..n][i] == rows[i];
      InsertAllKeyed(table, rows[..n], ok[..n], key, val, rowKey);
      var before := InsertAll(table, rows[..n], ok[..n], key, val);
      assert rowKey(val(rows[n])) == key(rows[n]);
      var after := InsertAll(table, rows, ok, key, val);
      forall k | k in after ensures rowKey(after[k]) == k {
        if k !in before {
          assert ok[n] && k == key(rows[n]) && after[k] == val(rows[n]);
        } else {
          assert rowKey(before[k]) == k;
          assert after[k] == before[k];
        }
      }
    }
  }

  /** The table grows by at most the number of statements that succeeded. */
  lemma {:induction false} InsertAllGrowth<T, K, V>(table: map<K, V>, rows: seq<T>, ok: seq<bool>, key: T -> K, val: T -> V)
    requires |ok| == |rows|
    ensures |InsertAll(table, rows, ok, key, val).Keys| <= |table.Keys| + Successes(ok)
    decreases |rows|
  {
    if rows != [] {
      var n := |rows| - 1;
      InsertAllGrowth(table, rows[..n], ok[..n], key, val);
      var before := InsertAll(table, rows[..n], ok[..n], key, val);
      if ok[n] {
        var k := key(rows[n]);
        assert Upsert(before, k, val(rows[n])).Keys == before.Keys + {k};
        assert |before.Keys + {k}| <= |before.Keys| + 1;
      }
      assert ok[..|ok| - 1] == ok[..n];
    }
  }

  /** A key present in the destination is not new any more: once every
      source key is in the table, reading the keys back yields no delta. */
  lemma NoDeltaWhenPresent<T(!new), K, V>(src: seq<T>, table: map<K, V>, key: T -> K)
    requires forall i :: 0 <= i < |src| ==> key(src[i]) in table
    ensures NewRecords(src, table.Keys, key) == []
  {
    NewRecordsEmpty(src, table.Keys, key);
  }
}
