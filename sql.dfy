/** The row-set meaning of the parameterised SQL statements the services run
    against SQLite: a table is the sequence of its rows in rowid order, and
    `SELECT ... WHERE`, `db.get` (the first matching row), `UPDATE ... WHERE`,
    `DELETE ... WHERE` and `this.changes > 0` are stated once here for every
    table. */
module Sql {
  import opened Wrappers

  /** `a` can be obtained from `b` by dropping elements (order is kept). */
  ghost predicate Subsequence<T>(a: seq<T>, b: seq<T>)
    decreases |b|
  {
    a == [] || (b != [] && if a[0] == b[0] then Subsequence(a[1..], b[1..]) else Subsequence(a, b[1..]))
  }

  /** Some row satisfies `p`: what `this.changes > 0` reports after an
      `UPDATE` or `DELETE` with that `WHERE` clause. */
  predicate AnyRow<T>(rows: seq<T>, p: T -> bool) {
    exists k :: 0 <= k < |rows| && p(rows[k])
  }

  /** `db.all('SELECT * FROM t WHERE p')`: every matching row, each as often
      as it occurs, in table order. */
  function Select<T(!new)>(rows: seq<T>, p: T -> bool): (r: seq<T>)
    ensures forall x :: x in r <==> x in rows && p(x)
    ensures forall x :: multiset(r)[x] == if p(x) then multiset(rows)[x] else 0
    ensures Subsequence(r, rows)
    ensures |r| == 0 <==> !AnyRow(rows, p)
  {
    if rows == [] then []
    else
      var rest := Select(rows[1..], p);
      assert rows == [rows[0]] + rows[1..];
      if p(rows[0]) then [rows[0]] + rest else rest
  }

  /** The index of the first row at or after `from` that matches, or
      `|rows|` when none does. */
  function FirstFrom<T>(rows: seq<T>, p: T -> bool, from: int): (k: int)
    requires 0 <= from <= |rows|
    ensures from <= k <= |rows|
    ensures k < |rows| ==> p(rows[k])
    ensures forall j :: from <= j < k ==> !p(rows[j])
    decreases |rows| - from
  {
    if from == |rows| || p(rows[from]) then from else FirstFrom(rows, p, from + 1)
  }

  /** `db.get('SELECT * FROM t WHERE p')`: the first matching row, or null. */
  function First<T>(rows: seq<T>, p: T -> bool): (r: Option<T>)
    ensures r.None? <==> !AnyRow(rows, p)
    ensures r.Some? ==> exists k :: 0 <= k < |rows| && rows[k] == r.value && p(rows[k]) &&
                                    forall j :: 0 <= j < k ==> !p(rows[j])
  {
    var k := FirstFrom(rows, p, 0);
    if k < |rows| then Some(rows[k]) else None
  }

  /** The row at `k` is the first match, so it is what `First` reads. */
  lemma FirstIs<T>(rows: seq<T>, p: T -> bool, k: int)
    requires 0 <= k < |rows| && p(rows[k])
    requires forall j :: 0 <= j < k ==> !p(rows[j])
    ensures First(rows, p) == Some(rows[k])
  {
    var i := FirstFrom(rows, p, 0);
    assert !(i < k) && !(k < i);
  }

  /** `UPDATE t SET ... WHERE p`: every matching row is rewritten by `f`,
      every other row stays as it was, and no row moves. */
  function UpdateWhere<T>(rows: seq<T>, p: T -> bool, f: T -> T): (r: seq<T>)
    ensures |r| == |rows|
    ensures forall k :: 0 <= k < |rows| ==> r[k] == if p(rows[k]) then f(rows[k]) else rows[k]
  {
    seq(|rows|, k requires 0 <= k < |rows| => if p(rows[k]) then f(rows[k]) else rows[k])
  }

  /** `DELETE FROM t WHERE p`: every matching row goes, the others stay in
      order. */
  function DeleteWhere<T(!new)>(rows: seq<T>, p: T -> bool): (r: seq<T>)
    ensures forall x :: x in r <==> x in rows && !p(x)
    ensures forall x :: multiset(r)[x] == if p(x) then 0 else multiset(rows)[x]
    ensures Subsequence(r, rows)
  {
    if rows == [] then []
    else
      var rest := DeleteWhere(rows[1..], p);
      assert rows == [rows[0]] + rows[1..];
      if p(rows[0]) then rest else [rows[0]] + rest
  }

  /** The rowid SQLite gives the next inserted row of a table whose rows
      carry the ids `idOf`: one more than the largest id, 1 for an empty
      table. */
  function NextId<T>(rows: seq<T>, idOf: T -> int): (r: int)
    ensures r >= 1
    ensures forall k :: 0 <= k < |rows| ==> idOf(rows[k]) < r
  {
    if rows == [] then 1
    else
      var prev := NextId(rows[..|rows| - 1], idOf);
      var last := idOf(rows[|rows| - 1]) + 1;
      assert forall k :: 0 <= k < |rows| - 1 ==> rows[k] == rows[..|rows| - 1][k];
      if prev < last then last else prev
  }

  /** Every earlier row stands in relation `ok` to every later row. */
  ghost predicate Pairwise<T>(rows: seq<T>, ok: (T, T) -> bool) {
    forall j, k :: 0 <= j < k < |rows| ==> ok(rows[j], rows[k])
  }

  /** A `DELETE` keeps any relation that held between every two rows. */
  lemma {:induction false} DeleteKeepsPairwise<T(!new)>(rows: seq<T>, p: T -> bool, ok: (T, T) -> bool)
    requires Pairwise(rows, ok)
    ensures Pairwise(DeleteWhere(rows, p), ok)
  {
    if rows != [] {
      PairwiseTail(rows, ok);
      DeleteKeepsPairwise(rows[1..], p, ok);
      if !p(rows[0]) {
        PairwiseCons(rows[0], rows[1..], DeleteWhere(rows[1..], p), ok);
      }
    }
  }

  lemma PairwiseTail<T>(rows: seq<T>, ok: (T, T) -> bool)
    requires rows != [] && Pairwise(rows, ok)
    ensures Pairwise(rows[1..], ok)
  {
    forall j, k | 0 <= j < k < |rows[1..]| ensures ok(rows[1..][j], rows[1..][k]) {
      assert rows[1..][j] == rows[j + 1] && rows[1..][k] == rows[k + 1];
    }
  }

  /** Putting a row in front of rows drawn from `tail` keeps the relation
      when the row stood in it to everything in `tail`. */
  lemma PairwiseCons<T>(x: T, tail: seq<T>, rest: seq<T>, ok: (T, T) -> bool)
    requires Pairwise([x] + tail, ok)
    requires Pairwise(rest, ok)
    requires forall y :: y in rest ==> y in tail
    ensures Pairwise([x] + rest, ok)
  {
    var r := [x] + rest;
    forall j, k | 0 <= j < k < |r| ensures ok(r[j], r[k]) {
      if j == 0 {
        assert r[k] in tail;
        var i :| 0 <= i < |tail| && tail[i] == r[k];
        assert ([x] + tail)[0] == x && ([x] + tail)[i + 1] == r[k];
      } else {
        assert r[j] == rest[j - 1] && r[k] == rest[k - 1];
      }
    }
  }

  lemma {:induction false} SubsequenceLength<T>(a: seq<T>, b: seq<T>)
    requires Subsequence(a, b)
    ensures |a| <= |b|
    decreases |b|
  {
    if a != [] {
      if a[0] == b[0] { SubsequenceLength(a[1..], b[1..]); } else { SubsequenceLength(a, b[1..]); }
    }
  }

  /** Inserting a row with the id `NextId` hands out the following id next. */
  lemma NextIdAfterInsert<T>(rows: seq<T>, idOf: T -> int, x: T)
    requires idOf(x) == NextId(rows, idOf)
    ensures NextId(rows + [x], idOf) == idOf(x) + 1
  {
    assert (rows + [x])[..|rows|] == rows;
  }

  /** Reading back a row appended to a table where nothing matched finds
      exactly that row. */
  lemma FirstAppended<T>(rows: seq<T>, x: T, p: T -> bool)
    requires !AnyRow(rows, p)
    requires p(x)
    ensures First(rows + [x], p) == Some(x)
  {
    FirstIs(rows + [x], p, |rows|);
  }

  /** Reading the first matching row after an update that keeps rows
      matching gives the old first matching row, rewritten. */
  lemma FirstAfterUpdate<T>(rows: seq<T>, p: T -> bool, f: T -> T)
    requires forall x :: p(x) ==> p(f(x))
    ensures First(UpdateWhere(rows, p, f), p) ==
              if First(rows, p).Some? then Some(f(First(rows, p).value)) else None
  {
    var updated := UpdateWhere(rows, p, f);
    if First(rows, p).Some? {
      var k :| 0 <= k < |rows| && rows[k] == First(rows, p).value && p(rows[k]) &&
               forall j :: 0 <= j < k ==> !p(rows[j]);
      FirstIs(updated, p, k);
    } else {
      assert !AnyRow(updated, p);
    }
  }

  /** An update of rows that match `p` and do not match `q`, before or after,
      does not change the first row matching `q`. */
  lemma FirstAfterOtherUpdate<T>(rows: seq<T>, p: T -> bool, f: T -> T, q: T -> bool)
    requires forall x :: p(x) ==> !q(x) && !q(f(x))
    ensures First(UpdateWhere(rows, p, f), q) == First(rows, q)
  {
    var updated := UpdateWhere(rows, p, f);
    if First(rows, q).Some? {
      var k :| 0 <= k < |rows| && rows[k] == First(rows, q).value && q(rows[k]) &&
               forall j :: 0 <= j < k ==> !q(rows[j]);
      FirstIs(updated, q, k);
    } else {
      assert !AnyRow(updated, q);
    }
  }

  /** Running the same update twice is running it once, when `f` is a
      projection that keeps rows matching. */
  lemma UpdateWhereIdempotent<T>(rows: seq<T>, p: T -> bool, f: T -> T)
    requires forall x :: p(x) ==> p(f(x)) && f(f(x)) == f(x)
    ensures UpdateWhere(UpdateWhere(rows, p, f), p, f) == UpdateWhere(rows, p, f)
  {
  }

  /** An update that matches no row leaves the table as it was. */
  lemma UpdateWhereNone<T>(rows: seq<T>, p: T -> bool, f: T -> T)
    requires !AnyRow(rows, p)
    ensures UpdateWhere(rows, p, f) == rows
  {
  }

  /** Dropping the first row of a concatenation whose left part is not
      empty drops it from the left part. */
  lemma TailOfConcat<T>(a: seq<T>, b: seq<T>)
    requires a != []
    ensures (a + b)[1..] == a[1..] + b
  {
  }

  /** Deleting exactly the rows appended after a table whose rows did not
      match gives back that table. */
  lemma {:induction false} DeleteAppended<T(!new)>(rows: seq<T>, added: seq<T>, p: T -> bool)
    requires !AnyRow(rows, p)
    requires forall k :: 0 <= k < |added| ==> p(added[k])
    ensures DeleteWhere(rows + added, p) == rows
    decreases |rows|
  {
    if rows == [] {
      DeleteAllMatching(added, p);
      assert rows + added == added;
    } else {
      assert !AnyRow(rows[1..], p) by {
        forall k | 0 <= k < |rows[1..]| ensures !p(rows[1..][k]) { assert rows[1..][k] == rows[k + 1]; }
      }
      DeleteAppended(rows[1..], added, p);
      TailOfConcat(rows, added);
      assert !p(rows[0]);
    }
  }

  lemma {:induction false} DeleteAllMatching<T(!new)>(rows: seq<T>, p: T -> bool)
    requires forall k :: 0 <= k < |rows| ==> p(rows[k])
    ensures DeleteWhere(rows, p) == []
  {
    if rows != [] {
      DeleteAllMatching(rows[1..], p);
    }
  }

  /** Selecting exactly the rows appended after a table whose rows did not
      match returns those rows. */
  lemma {:induction false} SelectAppended<T(!new)>(rows: seq<T>, added: seq<T>, p: T -> bool)
    requires !AnyRow(rows, p)
    requires forall k :: 0 <= k < |added| ==> p(added[k])
    ensures Select(rows + added, p) == added
    decreases |rows|
  {
    if rows == [] {
      SelectAllMatching(added, p);
      assert rows + added == added;
    } else {
      assert !AnyRow(rows[1..], p) by {
        forall k | 0 <= k < |rows[1..]| ensures !p(rows[1..][k]) { assert rows[1..][k] == rows[k + 1]; }
      }
      SelectAppended(rows[1..], added, p);
      TailOfConcat(rows, added);
      assert !p(rows[0]);
    }
  }

  lemma {:induction false} SelectAllMatching<T(!new)>(rows: seq<T>, p: T -> bool)
    requires forall k :: 0 <= k < |rows| ==> p(rows[k])
    ensures Select(rows, p) == rows
  {
    if rows != [] {
      SelectAllMatching(rows[1..], p);
      assert rows == [rows[0]] + rows[1..];
    }
  }

  /** Two conditions that agree on every row select the same rows. */
  lemma {:induction false} SelectAgreeing<T(!new)>(rows: seq<T>, p: T -> bool, q: T -> bool)
    requires forall x :: p(x) == q(x)
    ensures Select(rows, p) == Select(rows, q)
  {
    if rows != [] {
      SelectAgreeing(rows[1..], p, q);
    }
  }

  /** The count arithmetic of one join step: a matching link adds the
      table's copies once more, any other link adds nothing. */
  lemma CountStep(h: int, r: int, n: int, c: int, d: int)
    requires r == n * c
    requires (d == c + 1 && h == n) || (d == c && h == 0)
    ensures h + r == n * d
  {
    if d == c + 1 {
      MulSucc(n, c);
    }
  }

  lemma MulSucc(n: int, c: int)
    ensures n * (c + 1) == n * c + n
  {
  }
}
