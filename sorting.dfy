/** The stable sort behind `Array.prototype.sort` and SQL `ORDER BY`, for a
    comparator that returns a negative number when its first argument goes
    first. Insertion sort is stable: an element goes before the first
    element it does not follow, so equal elements keep their input order. */
module Sorting {

  function Sign(x: int): int {
    if x < 0 then -1 else if x > 0 then 1 else 0
  }

  /** Swapping the arguments flips the sign of the answer. */
  ghost predicate Antisymmetric<T(!new)>(cmp: (T, T) -> int) {
    forall a, b :: Sign(cmp(a, b)) == -Sign(cmp(b, a))
  }

  /** Every element goes no later than its successor. */
  predicate Ordered<T>(s: seq<T>, cmp: (T, T) -> int) {
    forall k :: 0 < k < |s| ==> cmp(s[k - 1], s[k]) <= 0
  }

  /** Elements the comparator ranks equal to a common element rank equal to
      each other: "ranks equal" is an equivalence, as it is for comparing
      names or prices. */
  ghost predicate TiesTransitive<T(!new)>(cmp: (T, T) -> int) {
    forall a, b, c :: cmp(a, c) == 0 && cmp(b, c) == 0 ==> cmp(a, b) == 0
  }

  /** The elements of `s` the comparator ranks equal to `e`, in order. */
  function Ties<T>(s: seq<T>, e: T, cmp: (T, T) -> int): seq<T> {
    if s == [] then [] else (if cmp(s[0], e) == 0 then [s[0]] else []) + Ties(s[1..], e, cmp)
  }

  /** Puts `x` before the first element of `s` it does not follow. */
  function Insert<T>(x: T, s: seq<T>, cmp: (T, T) -> int): (r: seq<T>)
    ensures |r| == |s| + 1
    ensures multiset(r) == multiset(s) + multiset{x}
    ensures r[0] == x || (s != [] && r[0] == s[0])
  {
    if s == [] then [x]
    else if cmp(x, s[0]) <= 0 then [x] + s
    else
      var rest := Insert(x, s[1..], cmp);
      assert s == [s[0]] + s[1..];
      [s[0]] + rest
  }

  /** The elements of `s`, each as often as it occurs, ordered by `cmp`. */
  function SortBy<T(!new)>(s: seq<T>, cmp: (T, T) -> int): (r: seq<T>)
    ensures |r| == |s|
    ensures multiset(r) == multiset(s)
    ensures Antisymmetric(cmp) ==> Ordered(r, cmp)
    ensures TiesTransitive(cmp) ==> forall e :: Ties(r, e, cmp) == Ties(s, e, cmp)
  {
    if s == [] then []
    else
      var rest := SortBy(s[1..], cmp);
      assert s == [s[0]] + s[1..];
      assert Antisymmetric(cmp) ==> Ordered(Insert(s[0], rest, cmp), cmp) by {
        if Antisymmetric(cmp) {
          InsertOrdered(s[0], rest, cmp);
        }
      }
      assert TiesTransitive(cmp) ==> forall e :: Ties(Insert(s[0], rest, cmp), e, cmp) == Ties(s, e, cmp) by {
        if TiesTransitive(cmp) {
          forall e ensures Ties(Insert(s[0], rest, cmp), e, cmp) == Ties(s, e, cmp) {
            InsertTies(s[0], rest, e, cmp);
          }
        }
      }
      Insert(s[0], rest, cmp)
  }

  /** `Ties` of a sequence with a known first element. */
  lemma TiesCons<T>(a: T, s: seq<T>, e: T, cmp: (T, T) -> int)
    ensures Ties([a] + s, e, cmp) == (if cmp(a, e) == 0 then [a] else []) + Ties(s, e, cmp)
  {
    assert ([a] + s)[1..] == s;
  }

  /** Inserting `x` puts it ahead of every element ranked equal to it, so
      among the ties of any `e` it comes first when it is one of them. */
  lemma {:induction false} InsertTies<T(!new)>(x: T, s: seq<T>, e: T, cmp: (T, T) -> int)
    requires TiesTransitive(cmp)
    ensures Ties(Insert(x, s, cmp), e, cmp) == (if cmp(x, e) == 0 then [x] else []) + Ties(s, e, cmp)
  {
    if s == [] {
      TiesCons(x, s, e, cmp);
    } else if cmp(x, s[0]) <= 0 {
      TiesCons(x, s, e, cmp);
    } else {
      var rest := Insert(x, s[1..], cmp);
      var tx: seq<T> := if cmp(x, e) == 0 then [x] else [];
      var t0: seq<T> := if cmp(s[0], e) == 0 then [s[0]] else [];
      // x ranks after s[0], so the two cannot both tie with e
      assert t0 == [] || tx == [];
      calc {
        Ties(Insert(x, s, cmp), e, cmp);
      ==
        Ties([s[0]] + rest, e, cmp);
      == { TiesCons(s[0], rest, e, cmp); }
        t0 + Ties(rest, e, cmp);
      == { InsertTies(x, s[1..], e, cmp); }
        t0 + (tx + Ties(s[1..], e, cmp));
      ==
        tx + (t0 + Ties(s[1..], e, cmp));
      == { TiesCons(s[0], s[1..], e, cmp); assert s == [s[0]] + s[1..]; }
        tx + Ties(s, e, cmp);
      }
    }
  }

  lemma {:induction false} InsertOrdered<T(!new)>(x: T, s: seq<T>, cmp: (T, T) -> int)
    requires Antisymmetric(cmp)
    requires Ordered(s, cmp)
    ensures Ordered(Insert(x, s, cmp), cmp)
  {
    if s != [] && cmp(x, s[0]) > 0 {
      assert Ordered(s[1..], cmp) by {
        forall k | 0 < k < |s[1..]| ensures cmp(s[1..][k - 1], s[1..][k]) <= 0 {
          assert s[1..][k - 1] == s[k] && s[1..][k] == s[k + 1];
        }
      }
      InsertOrdered(x, s[1..], cmp);
      var rest := Insert(x, s[1..], cmp);
      assert Sign(cmp(s[0], x)) == -Sign(cmp(x, s[0]));
      if s[1..] != [] {
        assert cmp(s[0], s[1]) <= 0;
      }
    }
  }

  /** A comparator that ranks nothing before anything else leaves the order
      as it was. */
  lemma {:induction false} SortByNeutral<T(!new)>(s: seq<T>, cmp: (T, T) -> int)
    requires forall a, b :: cmp(a, b) == 0
    ensures SortBy(s, cmp) == s
  {
    if s != [] {
      SortByNeutral(s[1..], cmp);
      assert s == [s[0]] + s[1..];
    }
  }
}
