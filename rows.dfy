/** The two list updates every admin view performs after a successful write:
    `rows.map(r => r.id === id ? patched : r)` and `rows.filter(...)`, and the
    update-by-id and delete-by-id the backend applies to a table. */
module Rows {

  /** `rows.map(r => key(r) === id ? patch(r) : r)`: every row whose key is
      `id` is patched, every other row is kept, in place and in order. */
  function ReplaceMatching<T, K(==)>(rows: seq<T>, key: T -> K, id: K, patch: T -> T): (r: seq<T>)
    ensures |r| == |rows|
    ensures forall i :: 0 <= i < |rows| ==> r[i] == if key(rows[i]) == id then patch(rows[i]) else rows[i]
  {
    if rows == [] then []
    else [if key(rows[0]) == id then patch(rows[0]) else rows[0]] + ReplaceMatching(rows[1..], key, id, patch)
  }

  /** `rows.filter(keep)`: the rows that satisfy `keep`, in their order. */
  function Filter<T(==)>(rows: seq<T>, keep: T -> bool): (r: seq<T>)
    ensures |r| <= |rows|
    ensures forall x :: x in r ==> x in rows && keep(x)
    ensures forall x :: x in rows && keep(x) ==> x in r
  {
    if rows == [] then []
    else (if keep(rows[0]) then [rows[0]] else []) + Filter(rows[1..], keep)
  }

  /** `rows.filter(r => !ids.includes(key(r)))`: the rows whose key is not
      among `ids`. Deleting one id passes `[id]`. */
  function Reject<T(==), K(==)>(rows: seq<T>, key: T -> K, ids: seq<K>): (r: seq<T>)
    ensures |r| <= |rows|
    ensures forall x :: x in r ==> x in rows && key(x) !in ids
    ensures forall x :: x in rows && key(x) !in ids ==> x in r
  {
    Filter(rows, x => key(x) !in ids)
  }

  /** Updating an id no row carries changes nothing. */
  lemma ReplaceAbsent<T, K>(rows: seq<T>, key: T -> K, id: K, patch: T -> T)
    requires forall i :: 0 <= i < |rows| ==> key(rows[i]) != id
    ensures ReplaceMatching(rows, key, id, patch) == rows
  {
    var r := ReplaceMatching(rows, key, id, patch);
    assert |r| == |rows| && forall i :: 0 <= i < |r| ==> r[i] == rows[i];
  }

  /** Filtering distributes over concatenation: the kept rows stay in their
      original relative order. */
  lemma {:induction false} FilterConcat<T>(a: seq<T>, b: seq<T>, keep: T -> bool)
    ensures Filter(a + b, keep) == Filter(a, keep) + Filter(b, keep)
  {
    if a != [] {
      assert (a + b)[0] == a[0];
      assert (a + b)[1..] == a[1..] + b;
      FilterConcat(a[1..], b, keep);
    } else {
      assert a + b == b;
    }
  }

  /** When every row is kept, the filter changes nothing. */
  lemma {:induction false} FilterKeepsAll<T>(rows: seq<T>, keep: T -> bool)
    requires forall i :: 0 <= i < |rows| ==> keep(rows[i])
    ensures Filter(rows, keep) == rows
  {
    if rows != [] {
      FilterKeepsAll(rows[1..], keep);
    }
  }

  /** Filtering twice with the same test is filtering once. */
  lemma {:induction false} FilterIdempotent<T>(rows: seq<T>, keep: T -> bool)
    ensures Filter(Filter(rows, keep), keep) == Filter(rows, keep)
  {
    var once := Filter(rows, keep);
    forall i | 0 <= i < |once| ensures keep(once[i]) {
      assert once[i] in once;
    }
    FilterKeepsAll(once, keep);
  }

  /** Deleting by id keeps the remaining rows in their order: deleting from a
      concatenation deletes from each part. */
  lemma RejectConcat<T, K>(a: seq<T>, b: seq<T>, key: T -> K, ids: seq<K>)
    ensures Reject(a + b, key, ids) == Reject(a, key, ids) + Reject(b, key, ids)
  {
    FilterConcat(a, b, x => key(x) !in ids);
  }

  /** Deleting an id no row carries changes nothing. */
  lemma RejectAbsent<T, K>(rows: seq<T>, key: T -> K, ids: seq<K>)
    requires forall i :: 0 <= i < |rows| ==> key(rows[i]) !in ids
    ensures Reject(rows, key, ids) == rows
  {
    FilterKeepsAll(rows, x => key(x) !in ids);
  }

  /** The keys of `rows` are pairwise distinct. */
  ghost predicate UniqueKeys<T, K>(rows: seq<T>, key: T -> K)
  {
    forall i, j :: 0 <= i < j < |rows| ==> key(rows[i]) != key(rows[j])
  }

  /** A patch that keeps the key keeps the keys distinct. */
  lemma ReplaceKeepsUniqueKeys<T, K>(rows: seq<T>, key: T -> K, id: K, patch: T -> T)
    requires UniqueKeys(rows, key)
    requires forall x :: key(patch(x)) == key(x)
    ensures UniqueKeys(ReplaceMatching(rows, key, id, patch), key)
  {
  }

  /** Deleting rows keeps the keys distinct. */
  lemma {:induction false} FilterKeepsUniqueKeys<T, K>(rows: seq<T>, key: T -> K, keep: T -> bool)
    requires UniqueKeys(rows, key)
    ensures UniqueKeys(Filter(rows, keep), key)
  {
    if rows != [] {
      FilterKeepsUniqueKeys(rows[1..], key, keep);
      var rest := Filter(rows[1..], keep);
      forall x | x in rest ensures key(x) != key(rows[0]) {
        var j :| 0 <= j < |rows[1..]| && rows[1..][j] == x;
        assert rows[j + 1] == x;
      }
    }
  }

  /** Deleting by id keeps the keys distinct. */
  lemma RejectKeepsUniqueKeys<T, K>(rows: seq<T>, key: T -> K, ids: seq<K>)
    requires UniqueKeys(rows, key)
    ensures UniqueKeys(Reject(rows, key, ids), key)
  {
    FilterKeepsUniqueKeys(rows, key, x => key(x) !in ids);
  }
}
