/** `Array.prototype.sort`: a stable sort by a comparison. */
module Sorting {

  ghost predicate StrictWeakOrder<T(!new)>(lt: (T, T) -> bool) {
    && (forall a :: !lt(a, a))
    && (forall a, b, c :: lt(a, b) && lt(b, c) ==> lt(a, c))
    && (forall a, b, c :: !lt(a, b) && !lt(b, c) ==> !lt(a, c))
  }

  /** Puts `x` before the first element that is not smaller, so that equal elements keep their order. */
  function Insert<T>(lt: (T, T) -> bool, x: T, s: seq<T>): seq<T> {
    if s == [] || !lt(s[0], x) then [x] + s else [s[0]] + Insert(lt, x, s[1..])
  }

  function SortBy<T>(lt: (T, T) -> bool, s: seq<T>): seq<T> {
    if s == [] then [] else Insert(lt, s[0], SortBy(lt, s[1..]))
  }

  ghost predicate Ordered<T>(lt: (T, T) -> bool, s: seq<T>) {
    forall i, j :: 0 <= i < j < |s| ==> !lt(s[j], s[i])
  }

  lemma {:induction false} InsertOrdered<T(!new)>(lt: (T, T) -> bool, x: T, s: seq<T>)
    requires StrictWeakOrder(lt) && Ordered(lt, s)
    ensures Ordered(lt, Insert(lt, x, s))
    ensures multiset(Insert(lt, x, s)) == multiset(s) + multiset{x}
  {
    if s != [] && lt(s[0], x) {
      hide StrictWeakOrder, Ordered;
      var tail := s[1..];
      assert s == [s[0]] + tail;
      OrderedParts(lt, s);
      assert !lt(x, s[0]) by {
        Asymmetric(lt, s[0], x);
      }
      InsertOrdered(lt, x, tail);
      InsertHead(lt, x, tail, s[0]);
      OrderedCons(lt, s[0], Insert(lt, x, tail));
    } else {
      hide StrictWeakOrder, Ordered;
      if s != [] {
        AllAfter(lt, x, s);
      }
      OrderedCons(lt, x, s);
    }
  }

  lemma Asymmetric<T(!new)>(lt: (T, T) -> bool, a: T, b: T)
    requires StrictWeakOrder(lt) && lt(a, b)
    ensures !lt(b, a)
  {
    assert !lt(a, a);
  }

  lemma OrderedParts<T>(lt: (T, T) -> bool, s: seq<T>)
    requires Ordered(lt, s) && s != []
    ensures Ordered(lt, s[1..]) && forall j :: 0 <= j < |s| - 1 ==> !lt(s[1..][j], s[0])
  {
  }

  lemma OrderedCons<T>(lt: (T, T) -> bool, h: T, s: seq<T>)
    requires Ordered(lt, s) && forall j :: 0 <= j < |s| ==> !lt(s[j], h)
    ensures Ordered(lt, [h] + s)
  {
    var all := [h] + s;
    forall i, j | 0 <= i < j < |all|
      ensures !lt(all[j], all[i])
    {
      assert all[j] == s[j - 1];
    }
  }

  lemma AllAfter<T(!new)>(lt: (T, T) -> bool, x: T, s: seq<T>)
    requires StrictWeakOrder(lt) && Ordered(lt, s) && s != [] && !lt(s[0], x)
    ensures forall j :: 0 <= j < |s| ==> !lt(s[j], x)
  {
    forall j | 0 <= j < |s|
      ensures !lt(s[j], x)
    {
      if j > 0 {
        assert !lt(s[j], s[0]);
      }
    }
  }

  lemma InsertHead<T>(lt: (T, T) -> bool, x: T, s: seq<T>, h: T)
    requires !lt(x, h) && forall j :: 0 <= j < |s| ==> !lt(s[j], h)
    ensures forall j :: 0 <= j < |Insert(lt, x, s)| ==> !lt(Insert(lt, x, s)[j], h)
  {
  }

  lemma {:induction false} SortByCorrect<T(!new)>(lt: (T, T) -> bool, s: seq<T>)
    requires StrictWeakOrder(lt)
    ensures Ordered(lt, SortBy(lt, s)) && multiset(SortBy(lt, s)) == multiset(s)
  {
    if s != [] {
      SortByCorrect(lt, s[1..]);
      InsertOrdered(lt, s[0], SortBy(lt, s[1..]));
      assert s == [s[0]] + s[1..];
    }
  }

  /** The elements that compare equal to `c`, in order. */
  function Ties<T>(lt: (T, T) -> bool, c: T, s: seq<T>): seq<T> {
    if s == [] then []
    else
      var rest := Ties(lt, c, s[1..]);
      if !lt(c, s[0]) && !lt(s[0], c) then [s[0]] + rest else rest
  }

  lemma {:induction false} InsertTies<T(!new)>(lt: (T, T) -> bool, c: T, x: T, s: seq<T>)
    requires StrictWeakOrder(lt)
    ensures Ties(lt, c, Insert(lt, x, s)) == Ties(lt, c, [x] + s)
  {
    assert ([x] + s)[1..] == s;
    if s != [] && lt(s[0], x) {
      InsertTies(lt, c, x, s[1..]);
      assert ([x] + s[1..])[1..] == s[1..];
      assert ([s[0]] + Insert(lt, x, s[1..]))[1..] == Insert(lt, x, s[1..]);
    }
  }

  /** The sort is stable: elements that compare equal keep their order. */
  lemma {:induction false} SortByIsStable<T(!new)>(lt: (T, T) -> bool, c: T, s: seq<T>)
    requires StrictWeakOrder(lt)
    ensures Ties(lt, c, SortBy(lt, s)) == Ties(lt, c, s)
  {
    if s != [] {
      SortByIsStable(lt, c, s[1..]);
      InsertTies(lt, c, s[0], SortBy(lt, s[1..]));
      assert ([s[0]] + SortBy(lt, s[1..]))[1..] == SortBy(lt, s[1..]);
    }
  }

  /** `x` stands before `y`. */
  ghost predicate InOrder<T(!new)>(s: seq<T>, x: T, y: T) {
    exists i, j :: 0 <= i < j < |s| && s[i] == x && s[j] == y
  }

  lemma InOrderCons<T(!new)>(h: T, s: seq<T>, x: T, y: T)
    ensures InOrder([h] + s, x, y) <==> (h == x && y in s) || InOrder(s, x, y)
  {
    var all := [h] + s;
    assert all[0] == h;
    if InOrder(all, x, y) {
      var i, j :| 0 <= i < j < |all| && all[i] == x && all[j] == y;
      assert s[j - 1] == y;
      assert i > 0 ==> s[i - 1] == x;
    }
    if h == x && y in s {
      var j :| 0 <= j < |s| && s[j] == y;
      assert all[j + 1] == y;
    }
    if InOrder(s, x, y) {
      var i, j :| 0 <= i < j < |s| && s[i] == x && s[j] == y;
      assert all[i + 1] == x && all[j + 1] == y;
    }
  }

  lemma {:induction false} TiesInOrder<T(!new)>(lt: (T, T) -> bool, s: seq<T>, x: T, y: T)
    requires StrictWeakOrder(lt) && !lt(x, y) && !lt(y, x)
    ensures y in Ties(lt, x, s) <==> y in s
    ensures InOrder(Ties(lt, x, s), x, y) <==> InOrder(s, x, y)
  {
    assert !lt(x, x);
    hide StrictWeakOrder;
    if s != [] {
      TiesInOrder(lt, s[1..], x, y);
      InOrderCons(s[0], s[1..], x, y);
      InOrderCons(s[0], Ties(lt, x, s[1..]), x, y);
      assert s == [s[0]] + s[1..];
    }
  }

  /** Elements that compare equal stand in the sorted sequence in the order in which they stood before. */
  lemma TiedKeepOrder<T(!new)>(lt: (T, T) -> bool, s: seq<T>, x: T, y: T)
    requires StrictWeakOrder(lt) && !lt(x, y) && !lt(y, x)
    ensures InOrder(SortBy(lt, s), x, y) <==> InOrder(s, x, y)
  {
    hide StrictWeakOrder, SortBy, Ties, InOrder;
    SortByIsStable(lt, x, s);
    TiesInOrder(lt, s, x, y);
    TiesInOrder(lt, SortBy(lt, s), x, y);
  }

  ghost predicate StrictlyOrdered<T>(lt: (T, T) -> bool, s: seq<T>) {
    forall i, j :: 0 <= i < j < |s| ==> lt(s[i], s[j])
  }

  /** A strictly ordered sequence is determined by its elements. */
  lemma {:induction false} StrictOrderUnique<T(!new)>(lt: (T, T) -> bool, a: seq<T>, b: seq<T>)
    requires StrictWeakOrder(lt) && StrictlyOrdered(lt, a) && StrictlyOrdered(lt, b)
    requires forall x :: x in a <==> x in b
    ensures a == b
  {
    assert b != [] ==> b[0] in b;
    if a != [] {
      assert a[0] in b && b != [] && b[0] in a;
      assert a[0] == b[0];
      forall x
        ensures x in a[1..] <==> x in b[1..]
      {
        InTail(lt, a, x);
        InTail(lt, b, x);
      }
      StrictOrderUnique(lt, a[1..], b[1..]);
      assert a == [a[0]] + a[1..] && b == [b[0]] + b[1..];
    }
  }

  lemma InTail<T(!new)>(lt: (T, T) -> bool, s: seq<T>, x: T)
    requires StrictWeakOrder(lt) && StrictlyOrdered(lt, s) && s != []
    ensures x in s[1..] <==> x in s && x != s[0]
  {
    if x in s && x != s[0] {
      var i :| 0 <= i < |s| && s[i] == x;
      assert s[1..][i - 1] == x;
    }
    if x in s[1..] {
      var i :| 0 <= i < |s| - 1 && s[1..][i] == x;
      assert s[i + 1] == x;
    }
  }
}
