/** Sorting by an order given as a function. */
module Sorting {

  ghost predicate TotalOrder<T(!new)>(le: (T, T) -> bool) {
    (forall a, b :: le(a, b) || le(b, a)) && (forall a, b, c :: le(a, b) && le(b, c) ==> le(a, c))
  }

  ghost predicate Ascending<T>(le: (T, T) -> bool, s: seq<T>) {
    forall i, j | 0 <= i < j < |s| :: le(s[i], s[j])
  }

  function Inserted<T>(le: (T, T) -> bool, s: seq<T>, x: T): (t: seq<T>)
    ensures multiset(t) == multiset(s) + multiset{x}
  {
    if s == [] || le(x, s[0]) then
      [x] + s
    else
      assert s == [s[0]] + s[1..];
      [s[0]] + Inserted(le, s[1..], x)
  }

  lemma {:induction false} InsertedAscends<T(!new)>(le: (T, T) -> bool, s: seq<T>, x: T)
    requires TotalOrder(le) && Ascending(le, s)
    ensures Ascending(le, Inserted(le, s, x))
    decreases |s|
  {
    if s != [] && !le(x, s[0]) {
      var rest := Inserted(le, s[1..], x);
      InsertedAscends(le, s[1..], x);
      forall i | 0 <= i < |rest| ensures le(s[0], rest[i]) {
        assert rest[i] in multiset(rest);
        assert rest[i] in multiset(s[1..]) + multiset{x};
        if rest[i] != x {
          assert rest[i] in s[1..];
        }
      }
    }
  }

  function Sorted<T>(le: (T, T) -> bool, s: seq<T>): (t: seq<T>)
    ensures multiset(t) == multiset(s) && |t| == |s|
  {
    if s == [] then []
    else
      assert s == s[..|s| - 1] + [s[|s| - 1]];
      var t := Inserted(le, Sorted(le, s[..|s| - 1]), s[|s| - 1]);
      assert |multiset(t)| == |t| && |multiset(s)| == |s|;
      t
  }

  lemma {:induction false} SortedAscends<T(!new)>(le: (T, T) -> bool, s: seq<T>)
    requires TotalOrder(le)
    ensures Ascending(le, Sorted(le, s))
    decreases |s|
  {
    if s != [] {
      SortedAscends(le, s[..|s| - 1]);
      InsertedAscends(le, Sorted(le, s[..|s| - 1]), s[|s| - 1]);
    }
  }

  lemma SortedHasTheSame<T>(le: (T, T) -> bool, s: seq<T>)
    ensures forall x :: x in Sorted(le, s) <==> x in s
  {
    forall x ensures x in Sorted(le, s) <==> x in s {
      assert x in multiset(Sorted(le, s)) <==> x in multiset(s);
    }
  }
}
