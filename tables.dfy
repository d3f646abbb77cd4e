/**
 * Database tables with a composite uniqueness constraint (Django's `unique_together`),
 * modelled as append-only sequences of rows and a key function. An insert whose key is
 * already present fails with an integrity error and leaves the table as it was.
 */
module Tables {
  import opened Common

  /**
   * A refused write: a duplicate key, or a value that does not fit its column, too long
   * or out of range (MySQL in strict mode, its default since version 5.7).
   */
  datatype DbError = IntegrityError | DataError

  /** No two rows of `t` share a key. */
  predicate UniqueBy<R, K(==)>(t: seq<R>, key: R -> K) {
    forall i, j :: 0 <= i < j < |t| ==> key(t[i]) != key(t[j])
  }

  /** Some row of `t` has key `k`. */
  predicate HasKey<R, K(==)>(t: seq<R>, key: R -> K, k: K) {
    exists i :: 0 <= i < |t| && key(t[i]) == k
  }

  /** One insert under the constraint. */
  function Insert<R, K(==)>(t: seq<R>, key: R -> K, row: R): (r: Result<seq<R>, DbError>)
    ensures r.Err? <==> HasKey(t, key, key(row))
    ensures r.Ok? ==> r.value == t + [row]
    ensures UniqueBy(t, key) && r.Ok? ==> UniqueBy(r.value, key)
  {
    if HasKey(t, key, key(row)) then Err(IntegrityError) else Ok(t + [row])
  }

  /** The table after attempting the inserts of `rows` in order; rejected inserts change nothing. */
  function InsertAll<R, K(==)>(t: seq<R>, key: R -> K, rows: seq<R>): seq<R>
    decreases |rows|
  {
    if rows == [] then t
    else
      var next := match Insert(t, key, rows[0]) case Ok(t') => t' case Err(_) => t;
      InsertAll(next, key, rows[1..])
  }

  /**
   * Any sequence of inserts keeps the constraint, never rewrites an existing row, and
   * leaves every attempted key present in the table.
   */
  lemma {:induction false} InsertAllKeepsUnique<R, K>(t: seq<R>, key: R -> K, rows: seq<R>)
    requires UniqueBy(t, key)
    ensures UniqueBy(InsertAll(t, key, rows), key)
    ensures t <= InsertAll(t, key, rows)
    ensures forall k :: 0 <= k < |rows| ==> HasKey(InsertAll(t, key, rows), key, key(rows[k]))
    decreases |rows|
  {
    if rows != [] {
      var next := match Insert(t, key, rows[0]) case Ok(t') => t' case Err(_) => t;
      assert HasKey(next, key, key(rows[0])) by {
        if !HasKey(t, key, key(rows[0])) {
          assert next[|t|] == rows[0];
        }
      }
      InsertAllKeepsUnique(next, key, rows[1..]);
      var res := InsertAll(next, key, rows[1..]);
      assert res == InsertAll(t, key, rows);
      HasKeyPrefix(next, res, key, key(rows[0]));
      forall k | 0 <= k < |rows|
        ensures HasKey(res, key, key(rows[k]))
      {
        if k > 0 {
          assert rows[k] == rows[1..][k - 1];
        }
      }
    }
  }

  /** A key present in a table stays present in every extension of it. */
  lemma HasKeyPrefix<R, K>(t: seq<R>, u: seq<R>, key: R -> K, k: K)
    requires t <= u && HasKey(t, key, k)
    ensures HasKey(u, key, k)
  {
    var i :| 0 <= i < |t| && key(t[i]) == k;
    assert u[i] == t[i];
  }
}
