/**
 * A table keyed by its unique key, as the "look the key up, update the row if it
 * exists, else insert one" loops of the store see it: a map from key to row.
 */
module KeyedTable {

  /** The table after upserting each (key, row) pair in order. */
  function Upserted<K, V>(table: map<K, V>, pairs: seq<(K, V)>): map<K, V>
  {
    if pairs == [] then table
    else
      var last := pairs[|pairs| - 1];
      Upserted(table, pairs[..|pairs| - 1])[last.0 := last.1]
  }

  /** How many of the pairs found their key absent when they were applied. */
  function InsertCount<K, V>(table: map<K, V>, pairs: seq<(K, V)>): nat
  {
    if pairs == [] then 0
    else
      var prefix := pairs[..|pairs| - 1];
      InsertCount(table, prefix) + if pairs[|pairs| - 1].0 in Upserted(table, prefix) then 0 else 1
  }

  /** The keys that the pairs mention. */
  function KeysOf<K, V>(pairs: seq<(K, V)>): set<K>
  {
    set i | 0 <= i < |pairs| :: pairs[i].0
  }

  /** Upserting adds exactly the mentioned keys, and leaves every other row as it was. */
  lemma {:induction false} UpsertedFrame<K, V>(table: map<K, V>, pairs: seq<(K, V)>)
    ensures Upserted(table, pairs).Keys == table.Keys + KeysOf(pairs)
    ensures forall k :: k in table && k !in KeysOf(pairs) ==> Upserted(table, pairs)[k] == table[k]
  {
    if pairs != [] {
      var prefix := pairs[..|pairs| - 1];
      UpsertedFrame(table, prefix);
      assert KeysOf(pairs) == KeysOf(prefix) + {pairs[|pairs| - 1].0} by {
        forall k | k in KeysOf(pairs) ensures k in KeysOf(prefix) + {pairs[|pairs| - 1].0} {
          var i :| 0 <= i < |pairs| && pairs[i].0 == k;
          if i < |pairs| - 1 { assert prefix[i] == pairs[i]; }
        }
        forall k | k in KeysOf(prefix) ensures k in KeysOf(pairs) {
          var i :| 0 <= i < |prefix| && prefix[i].0 == k;
          assert pairs[i] == prefix[i];
        }
      }
    }
  }

  /** The row stored under a key is the one of the LAST pair that mentions it. */
  lemma {:induction false} UpsertedLastWins<K, V>(table: map<K, V>, pairs: seq<(K, V)>, j: int)
    requires 0 <= j < |pairs|
    requires forall i :: j < i < |pairs| ==> pairs[i].0 != pairs[j].0
    ensures pairs[j].0 in Upserted(table, pairs)
    ensures Upserted(table, pairs)[pairs[j].0] == pairs[j].1
  {
    if j < |pairs| - 1 {
      var prefix := pairs[..|pairs| - 1];
      assert prefix[j] == pairs[j];
      UpsertedLastWins(table, prefix, j);
    }
  }

  /** The number of inserts is the growth of the table: inserts plus updates never create duplicate keys. */
  lemma {:induction false} InsertCountIsGrowth<K, V>(table: map<K, V>, pairs: seq<(K, V)>)
    ensures InsertCount(table, pairs) <= |pairs|
    ensures |Upserted(table, pairs)| == |table| + InsertCount(table, pairs)
  {
    if pairs != [] {
      var prefix := pairs[..|pairs| - 1];
      InsertCountIsGrowth(table, prefix);
      var m := Upserted(table, prefix);
      var k := pairs[|pairs| - 1].0;
      if k in m {
        assert m[k := pairs[|pairs| - 1].1].Keys == m.Keys;
      } else {
        assert m[k := pairs[|pairs| - 1].1].Keys == m.Keys + {k};
      }
    }
  }

  /**
   * A loop that rewrites some rows of a table one key at a time, each to its
   * row in `goal`: after visiting `done`, the visited rows hold their new
   * value and every other row is as it was.
   */
  ghost predicate RowsProgress<K, V>(table: map<K, V>, current: map<K, V>, done: set<K>, goal: map<K, V>)
  {
    && current.Keys == table.Keys
    && (forall k :: k in table && k !in done ==> current[k] == table[k])
    && (forall k :: k in table && k in done && k in goal ==> current[k] == goal[k])
  }

  lemma RowsProgressStep<K, V>(table: map<K, V>, current: map<K, V>, done: set<K>, goal: map<K, V>, k: K)
    requires RowsProgress(table, current, done, goal)
    requires k in table && k in goal
    ensures RowsProgress(table, current[k := goal[k]], done + {k}, goal)
  {
  }

  /** A row the goal leaves as it was can be marked visited without writing it. */
  lemma RowsProgressSkip<K, V>(table: map<K, V>, current: map<K, V>, done: set<K>, goal: map<K, V>, k: K)
    requires RowsProgress(table, current, done, goal)
    requires k in table && k in goal && goal[k] == table[k]
    ensures RowsProgress(table, current, done + {k}, goal)
  {
  }

  /** Once every row that `goal` changes is visited, the table is `goal`. */
  lemma RowsProgressDone<K, V>(table: map<K, V>, current: map<K, V>, done: set<K>, goal: map<K, V>)
    requires RowsProgress(table, current, done, goal)
    requires goal.Keys == table.Keys && done <= table.Keys
    requires forall k :: k in table && k !in done ==> goal[k] == table[k]
    ensures current == goal
  {
  }

  /** One more pair: the loop body of an upsert loop. */
  lemma UpsertedSnoc<K, V>(table: map<K, V>, pairs: seq<(K, V)>, pair: (K, V))
    ensures Upserted(table, pairs + [pair]) == Upserted(table, pairs)[pair.0 := pair.1]
    ensures InsertCount(table, pairs + [pair]) == InsertCount(table, pairs) + if pair.0 in Upserted(table, pairs) then 0 else 1
  {
    assert (pairs + [pair])[..|pairs|] == pairs;
  }
}
