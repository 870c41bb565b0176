/** Counting live signals by class, per camera and over all cameras:
    `frontend/src/lib/live-signal-stability.ts` and `frontend/src/pages/Live.tsx`.

    A JavaScript Map of rows is its keys in insertion order beside a `map`. */
module SignalCounts {
  import opened Common
  import opened Sorting
  import opened SignalStability

  datatype Tally = Tally(live: int, held: int, total: int) {
    function Plus(other: Tally): Tally { Tally(live + other.live, held + other.held, total + other.total) }
  }

  const ZERO := Tally(0, 0, 0)

  datatype Row = Row(className: string, color: Color, count: Tally, state: Shown)

  function Unit(x: Signal): Row {
    Row(x.track.className, x.color, if x.state.Live? then Tally(1, 0, 1) else Tally(0, 1, 1), x.state)
  }

  function Units(tracks: seq<Signal>): seq<Row> {
    seq(|tracks|, i requires 0 <= i < |tracks| => Unit(tracks[i]))
  }

  // ----- what merging rows means -----

  /** The counts of the rows of one class, or of all rows. */
  function Sum(rows: seq<Row>, className: Option<string>): Tally {
    if rows == [] then ZERO
    else
      var last, rest := rows[|rows| - 1], Sum(rows[..|rows| - 1], className);
      if className.None? || className.value == last.className then rest.Plus(last.count) else rest
  }

  /** Class names in order of first appearance. */
  function Classes(rows: seq<Row>): seq<string> {
    if rows == [] then []
    else
      var last, rest := rows[|rows| - 1], Classes(rows[..|rows| - 1]);
      if last.className in rest then rest else rest + [last.className]
  }

  /** The colour of the first row of a class. */
  function FirstColor(rows: seq<Row>, className: string): Color {
    if rows == [] then 0
    else
      var last, front := rows[|rows| - 1], rows[..|rows| - 1];
      if last.className == className && className !in Classes(front) then last.color
      else FirstColor(front, className)
  }

  function MergedRow(rows: seq<Row>, className: string): Row {
    var count := Sum(rows, Some(className));
    Row(className, FirstColor(rows, className), count, if count.live > 0 then Live else Held)
  }

  function Unsorted(rows: seq<Row>, classes: seq<string>): seq<Row> {
    seq(|classes|, i requires 0 <= i < |classes| => MergedRow(rows, classes[i]))
  }

  /** Most live signals first, then most signals, then by name. */
  function RowBefore(cmp: (string, string) -> int): (Row, Row) -> bool {
    (a: Row, b: Row) =>
      if a.count.live != b.count.live then b.count.live < a.count.live
      else if a.count.total != b.count.total then b.count.total < a.count.total
      else cmp(a.className, b.className) < 0
  }

  function Merge(cmp: (string, string) -> int, rows: seq<Row>): seq<Row> {
    SortBy(RowBefore(cmp), Unsorted(rows, Classes(rows)))
  }

  // ----- the two loops -----

  /** The Map after some rows: its keys in insertion order, and under each key the merged row so far. */
  ghost predicate Merges(rows: seq<Row>, order: seq<string>, byClass: map<string, Row>) {
    && order == Classes(rows)
    && (forall c :: c in byClass <==> c in order)
    && (forall c :: c in byClass ==> byClass[c] == MergedRow(rows, c))
  }

  lemma {:induction false} ClassesAreThose(rows: seq<Row>)
    ensures Distinct(Classes(rows))
    ensures forall c :: c in Classes(rows) <==> exists i :: 0 <= i < |rows| && rows[i].className == c
  {
    if rows != [] {
      var front := rows[..|rows| - 1];
      ClassesAreThose(front);
      assert rows == front + [rows[|rows| - 1]];
      forall c
        ensures c in Classes(rows) <==> exists i :: 0 <= i < |rows| && rows[i].className == c
      {
        if i :| 0 <= i < |front| && front[i].className == c {
          assert rows[i].className == c;
        }
      }
    }
  }

  lemma {:induction false} AbsentClass(rows: seq<Row>, c: string)
    requires c !in Classes(rows)
    ensures Sum(rows, Some(c)) == ZERO
  {
    if rows != [] {
      AbsentClass(rows[..|rows| - 1], c);
    }
  }

  lemma MergesNothing()
    ensures Merges([], [], map[])
  {
  }

  lemma MergesOneMore(rows: seq<Row>, order: seq<string>, byClass: map<string, Row>, row: Row, merged: Row)
    requires Merges(rows, order, byClass)
    requires merged.className == row.className
    requires merged.color == if row.className in byClass then byClass[row.className].color else row.color
    requires merged.count == (if row.className in byClass then byClass[row.className].count else ZERO).Plus(row.count)
    requires merged.state == if merged.count.live > 0 then Live else Held
    ensures Merges(rows + [row], if row.className in byClass then order else order + [row.className],
                   byClass[row.className := merged])
  {
    var more := rows + [row];
    assert more[..|more| - 1] == rows;
    if row.className !in byClass {
      AbsentClass(rows, row.className);
    }
  }

  method ListRows(order: seq<string>, byClass: map<string, Row>, ghost rows: seq<Row>) returns (list: seq<Row>)
    requires Merges(rows, order, byClass)
    ensures list == Unsorted(rows, Classes(rows))
  {
    hide MergedRow, Classes;
    list := [];
    for i := 0 to |order|
      invariant |list| == i && forall j :: 0 <= j < i ==> list[j] == MergedRow(rows, order[j])
    {
      list := list + [byClass[order[i]]];
    }
  }

  method Totals(rows: seq<Row>) returns (sums: Tally)
    ensures sums == Sum(rows, None)
  {
    var live, held, total := 0, 0, 0;
    for i := 0 to |rows|
      invariant Tally(live, held, total) == Sum(rows[..i], None)
    {
      assert rows[..i + 1][..i] == rows[..i];
      live, held, total := live + rows[i].count.live, held + rows[i].count.held, total + rows[i].count.total;
    }
    assert rows[..|rows|] == rows;
    sums := Tally(live, held, total);
  }

  datatype Counts = Counts(live: int, held: int, total: int, rows: seq<Row>)

  lemma UnitsPrefix(tracks: seq<Signal>, i: nat)
    requires i < |tracks|
    ensures |Units(tracks)| == |tracks| && Units(tracks)[..i + 1] == Units(tracks)[..i] + [Unit(tracks[i])]
  {
  }

  lemma UnitCounts(t: Tally, x: Signal)
    ensures Unit(x).className == x.track.className && Unit(x).color == x.color
    ensures t.Plus(Unit(x).count) == if x.state.Live? then Tally(t.live + 1, t.held, t.total + 1)
                                     else Tally(t.live, t.held + 1, t.total + 1)
  {
  }

  lemma UnitsLength(tracks: seq<Signal>)
    ensures |Units(tracks)| == |tracks|
  {
  }

  method DeriveSignalCounts(cmp: (string, string) -> int, tracks: seq<Signal>) returns (counts: Counts)
    ensures counts.rows == Merge(cmp, Units(tracks))
    ensures Tally(counts.live, counts.held, counts.total) == Sum(counts.rows, None)
  {
    hide Merges, MergedRow, FirstColor, SortBy, Classes, Units, Sum, Unit, Unsorted, RowBefore, Tally.Plus;
    var order: seq<string> := [];
    var rowsByClass: map<string, Row> := map[];
    MergesNothing();
    ghost var units := Units(tracks);
    UnitsLength(tracks);
    assert units[..0] == [];
    for i := 0 to |tracks|
      invariant Merges(units[..i], order, rowsByClass)
    {
      var signal := tracks[i];
      var className := signal.track.className;
      var row := if className in rowsByClass then rowsByClass[className] else Row(className, signal.color, ZERO, Held);
      RowsAreNamed(units[..i], order, rowsByClass);
      var count := row.count;
      if signal.state.Live? {
        count := count.(live := count.live + 1);
      } else {
        count := count.(held := count.held + 1);
      }
      count := count.(total := count.total + 1);
      UnitCounts(row.count, signal);
      row := row.(count := count, state := if count.live > 0 then Live else Held);
      UnitsPrefix(tracks, i);
      MergesOneMore(units[..i], order, rowsByClass, Unit(signal), row);
      if className !in rowsByClass {
        order := order + [className];
      }
      rowsByClass := rowsByClass[className := row];
    }
    assert units[..|tracks|] == units;
    var list := ListRows(order, rowsByClass, units);
    var rows := SortBy(RowBefore(cmp), list);
    var sums := Totals(rows);
    counts := Counts(sums.live, sums.held, sums.total, rows);
  }

  lemma RowsAreNamed(rows: seq<Row>, order: seq<string>, byClass: map<string, Row>)
    requires Merges(rows, order, byClass)
    ensures forall c :: c in byClass <==> c in order
    ensures forall c :: c in byClass ==> byClass[c].className == c
  {
  }

  /** All rows of all cameras that count something. */
  function Counted(rows: seq<Row>): seq<Row> {
    if rows == [] then []
    else
      var rest := Counted(rows[..|rows| - 1]);
      if rows[|rows| - 1].count.total > 0 then rest + [rows[|rows| - 1]] else rest
  }

  lemma CountedOneMore(rows: seq<Row>, row: Row)
    ensures Counted(rows + [row]) == if row.count.total > 0 then Counted(rows) + [row] else Counted(rows)
  {
    assert (rows + [row])[..|rows|] == rows;
  }

  lemma FlattenOneMore(cameras: seq<seq<Row>>, i: nat)
    requires i < |cameras|
    ensures Flatten(cameras[..i + 1]) == Flatten(cameras[..i]) + cameras[i]
    ensures cameras[i][..|cameras[i]|] == cameras[i]
  {
    assert cameras[..i + 1][..i] == cameras[..i];
  }

  lemma NothingCounted()
    ensures Counted(Flatten([])) == []
  {
  }

  method AggregateCameras(cmp: (string, string) -> int, cameras: seq<seq<Row>>) returns (rows: seq<Row>)
    ensures rows == Merge(cmp, Counted(Flatten(cameras)))
  {
    hide Merges, MergedRow, FirstColor, SortBy, Classes, Counted, Flatten, Tally.Plus;
    NothingCounted();
    var order: seq<string> := [];
    var rowsByClass: map<string, Row> := map[];
    MergesNothing();
    for i := 0 to |cameras|
      invariant Merges(Counted(Flatten(cameras[..i])), order, rowsByClass)
    {
      ghost var done := Flatten(cameras[..i]);
      assert done + cameras[i][..0] == done;
      for j := 0 to |cameras[i]|
        invariant Merges(Counted(done + cameras[i][..j]), order, rowsByClass)
      {
        var row := cameras[i][j];
        ghost var before := done + cameras[i][..j];
        assert done + cameras[i][..j + 1] == before + [row];
        CountedOneMore(before, row);
        if row.count.total <= 0 {
          continue;
        }
        var aggregate :=
          if row.className in rowsByClass then rowsByClass[row.className]
          else Row(row.className, row.color, ZERO, Held);
        RowsAreNamed(Counted(before), order, rowsByClass);
        var count := aggregate.count.Plus(row.count);
        aggregate := aggregate.(count := count, state := if count.live > 0 then Live else Held);
        MergesOneMore(Counted(before), order, rowsByClass, row, aggregate);
        if row.className !in rowsByClass {
          order := order + [row.className];
        }
        rowsByClass := rowsByClass[row.className := aggregate];
      }
      FlattenOneMore(cameras, i);
    }
    assert cameras[..|cameras|] == cameras;
    var list := ListRows(order, rowsByClass, Counted(Flatten(cameras)));
    rows := SortBy(RowBefore(cmp), list);
  }

  // ----- sums -----

  lemma {:induction false} SumSplit(a: seq<Row>, b: seq<Row>, c: Option<string>)
    ensures Sum(a + b, c) == Sum(a, c).Plus(Sum(b, c))
  {
    hide Tally.Plus, Sum;
    if b == [] {
      assert a + b == a;
      SumOfNone(c);
      TallyLaws(Sum(a, c), ZERO, ZERO);
    } else {
      var front, last := b[..|b| - 1], b[|b| - 1];
      SumSplit(a, front, c);
      assert a + b == a + front + [last] && b == front + [last];
      SumLast(a + front, last, c);
      SumLast(front, last, c);
      TallyLaws(Sum(a, c), Sum(front, c), last.count);
    }
  }

  lemma SumOfNone(c: Option<string>)
    ensures Sum([], c) == ZERO
  {
  }

  lemma {:induction false} SumPermuted(a: seq<Row>, b: seq<Row>, c: Option<string>)
    requires multiset(a) == multiset(b)
    ensures Sum(a, c) == Sum(b, c)
  {
    if a == [] {
      assert |multiset(b)| == 0;
    } else {
      hide Tally.Plus, Sum;
      var i := TakeOut(a, b);
      var before, after := b[..i], b[i + 1..];
      SumPermuted(a[..|a| - 1], before + after, c);
      SumMoved(before, b[i], after, c);
      SumMoved(a[..|a| - 1], a[|a| - 1], [], c);
      assert a == a[..|a| - 1] + [a[|a| - 1]] + [] && a[..|a| - 1] == a[..|a| - 1] + [];
      assert b == before + [b[i]] + after;
    }
  }

  lemma SumMoved(a: seq<Row>, row: Row, b: seq<Row>, c: Option<string>)
    ensures Sum(a + [row] + b, c) == Sum(a + b + [row], c)
         == (if c.None? || c.value == row.className then Sum(a + b, c).Plus(row.count) else Sum(a + b, c))
  {
    hide Tally.Plus, Sum;
    SumSplit(a + [row], b, c);
    SumSplit(a, b, c);
    SumLast(a, row, c);
    SumLast(a + b, row, c);
    TallyLaws(Sum(a, c), row.count, Sum(b, c));
  }

  lemma TakeOut<T>(a: seq<T>, b: seq<T>) returns (i: nat)
    requires multiset(a) == multiset(b) && a != []
    ensures i < |b| && b[i] == a[|a| - 1]
    ensures multiset(a[..|a| - 1]) == multiset(b[..i] + b[i + 1..])
  {
    var last := a[|a| - 1];
    assert last in multiset(a) && last in multiset(b) && last in b;
    i :| 0 <= i < |b| && b[i] == last;
    LeaveOut(b, i);
    LeaveOut(a, |a| - 1);
    assert a[..|a| - 1] + a[|a|..] == a[..|a| - 1];
  }

  lemma LeaveOut<T>(s: seq<T>, i: nat)
    requires i < |s|
    ensures multiset(s[..i] + s[i + 1..]) == multiset(s) - multiset{s[i]}
  {
    assert s == s[..i] + [s[i]] + s[i + 1..];
  }

  lemma UnsortedFront(rows: seq<Row>, classes: seq<string>)
    requires classes != []
    ensures Unsorted(rows, classes)
         == Unsorted(rows, classes[..|classes| - 1]) + [MergedRow(rows, classes[|classes| - 1])]
  {
  }

  lemma SumLast(rows: seq<Row>, row: Row, c: Option<string>)
    ensures Sum(rows + [row], c)
         == if c.None? || c.value == row.className then Sum(rows, c).Plus(row.count) else Sum(rows, c)
  {
    assert (rows + [row])[..|rows|] == rows;
  }

  lemma {:induction false} UnsortedSum(rows: seq<Row>, classes: seq<string>, c: string)
    requires Distinct(classes)
    ensures Sum(Unsorted(rows, classes), Some(c)) == if c in classes then Sum(rows, Some(c)) else ZERO
  {
    if classes != [] {
      hide Unsorted;
      var front, last := classes[..|classes| - 1], classes[|classes| - 1];
      UnsortedFront(rows, classes);
      SumLast(Unsorted(rows, front), MergedRow(rows, last), Some(c));
      UnsortedSum(rows, front, c);
      assert classes == front + [last];
    }
  }

  lemma {:induction false} NoRowsNoTotal(classes: seq<string>)
    ensures Sum(Unsorted([], classes), None) == ZERO
  {
    if classes != [] {
      var front, last := classes[..|classes| - 1], classes[|classes| - 1];
      UnsortedFront([], classes);
      SumLast(Unsorted([], front), MergedRow([], last), None);
      NoRowsNoTotal(front);
    }
  }

  /** One more row adds its counts to the total exactly once. */
  lemma {:induction false} TotalOneMore(rows: seq<Row>, row: Row, classes: seq<string>)
    requires Distinct(classes)
    ensures Sum(Unsorted(rows + [row], classes), None)
         == Sum(Unsorted(rows, classes), None).Plus(if row.className in classes then row.count else ZERO)
  {
    hide Unsorted, MergedRow, Sum, Distinct, Tally.Plus;
    var some := if row.className in classes then row.count else ZERO;
    if classes == [] {
      NoClassesNoTotal(rows);
      NoClassesNoTotal(rows + [row]);
      TallyLaws(ZERO, ZERO, ZERO);
    } else {
      var front, last := classes[..|classes| - 1], classes[|classes| - 1];
      DistinctFront(classes, row.className);
      TotalLast(rows, classes);
      TotalLast(rows + [row], classes);
      SumLast(rows, row, Some(last));
      TotalOneMore(rows, row, front);
      TallyLaws(Sum(Unsorted(rows, front), None), some, Sum(rows, Some(last)));
    }
  }

  lemma TallyLaws(a: Tally, b: Tally, c: Tally)
    ensures a.Plus(b).Plus(c) == a.Plus(b.Plus(c)) == a.Plus(c.Plus(b)) == a.Plus(c).Plus(b)
    ensures a.Plus(ZERO) == a
  {
  }

  lemma NoClassesNoTotal(rows: seq<Row>)
    ensures Sum(Unsorted(rows, []), None) == ZERO
  {
  }

  lemma DistinctFront(s: seq<string>, x: string)
    requires Distinct(s) && s != []
    ensures Distinct(s[..|s| - 1]) && s[|s| - 1] !in s[..|s| - 1]
    ensures x in s <==> x in s[..|s| - 1] || x == s[|s| - 1]
  {
    assert s == s[..|s| - 1] + [s[|s| - 1]];
  }

  lemma TotalLast(rows: seq<Row>, classes: seq<string>)
    requires classes != []
    ensures Sum(Unsorted(rows, classes), None)
         == Sum(Unsorted(rows, classes[..|classes| - 1]), None).Plus(Sum(rows, Some(classes[|classes| - 1])))
  {
    hide Unsorted, Sum;
    UnsortedFront(rows, classes);
    SumLast(Unsorted(rows, classes[..|classes| - 1]), MergedRow(rows, classes[|classes| - 1]), None);
  }

  lemma {:induction false} UnsortedTotal(rows: seq<Row>, classes: seq<string>)
    requires Distinct(classes) && forall i :: 0 <= i < |rows| ==> rows[i].className in classes
    ensures Sum(Unsorted(rows, classes), None) == Sum(rows, None)
  {
    if rows == [] {
      NoRowsNoTotal(classes);
    } else {
      var front, last := rows[..|rows| - 1], rows[|rows| - 1];
      UnsortedTotal(front, classes);
      TotalOneMore(front, last, classes);
      assert rows == front + [last];
    }
  }

  /** Merging loses no count, neither of a class nor in total. */
  lemma MergeConserves(cmp: (string, string) -> int, rows: seq<Row>, c: Option<string>)
    requires IsOrder(cmp)
    ensures Sum(Merge(cmp, rows), c) == Sum(rows, c)
  {
    hide Sum, SortBy, Unsorted, IsOrder, RowBefore, StrictWeakOrder, Ordered;
    var classes := Classes(rows);
    RowBeforeIsAnOrder(cmp);
    SortByCorrect(RowBefore(cmp), Unsorted(rows, classes));
    SumPermuted(Merge(cmp, rows), Unsorted(rows, classes), c);
    ClassesAreThose(rows);
    if c.Some? {
      UnsortedSum(rows, classes, c.value);
      if c.value !in classes {
        AbsentClass(rows, c.value);
      }
    } else {
      UnsortedTotal(rows, classes);
    }
  }

  // ----- order -----

  lemma RowBeforeIsAnOrder(cmp: (string, string) -> int)
    requires IsOrder(cmp)
    ensures StrictWeakOrder(RowBefore(cmp))
  {
    var lt := RowBefore(cmp);
    forall a, b, c
      ensures !lt(a, a)
      ensures lt(a, b) && lt(b, c) ==> lt(a, c)
      ensures !lt(a, b) && !lt(b, c) ==> !lt(a, c)
    {
      NamesAreOrdered(cmp, a.className, b.className, c.className);
    }
  }

  lemma NamesAreOrdered(cmp: (string, string) -> int, a: string, b: string, c: string)
    requires IsOrder(cmp)
    ensures !(cmp(a, a) < 0)
    ensures cmp(a, b) < 0 && cmp(b, c) < 0 ==> cmp(a, c) < 0
    ensures !(cmp(a, b) < 0) && !(cmp(b, c) < 0) ==> !(cmp(a, c) < 0)
  {
  }

  /** Two classes present that no part of the row order tells apart. */
  predicate Tied(cmp: (string, string) -> int, rows: seq<Row>, c: string, d: string) {
    && c != d && c in Classes(rows) && d in Classes(rows) && cmp(c, d) == 0
    && Sum(rows, Some(c)).live == Sum(rows, Some(d)).live
    && Sum(rows, Some(c)).total == Sum(rows, Some(d)).total
  }

  ghost predicate Untied(cmp: (string, string) -> int, rows: seq<Row>) {
    forall c, d :: !Tied(cmp, rows, c, d)
  }

  lemma MergeMembers(cmp: (string, string) -> int, rows: seq<Row>)
    requires IsOrder(cmp)
    ensures forall x :: x in Merge(cmp, rows) <==> x.className in Classes(rows) && x == MergedRow(rows, x.className)
    ensures Ordered(RowBefore(cmp), Merge(cmp, rows))
    ensures forall i, j :: 0 <= i < j < |Merge(cmp, rows)| ==>
              Merge(cmp, rows)[i].className != Merge(cmp, rows)[j].className
  {
    hide SortBy, IsOrder, RowBefore, StrictWeakOrder, Ordered, Classes, Sum, FirstColor;
    var classes := Classes(rows);
    var list := Unsorted(rows, classes);
    var sorted := Merge(cmp, rows);
    RowBeforeIsAnOrder(cmp);
    SortByCorrect(RowBefore(cmp), list);
    ClassesAreThose(rows);
    DistinctMultiset(list);
    assert forall x :: x in sorted <==> x in multiset(sorted);
    assert forall x :: x in list <==> x in multiset(list);
    forall x
      ensures x in list <==> x.className in classes && x == MergedRow(rows, x.className)
    {
      if x.className in classes && x == MergedRow(rows, x.className) {
        var i :| 0 <= i < |classes| && classes[i] == x.className;
        assert list[i] == x;
      }
    }
    forall i, j | 0 <= i < j < |sorted|
      ensures sorted[i].className != sorted[j].className
    {
      assert sorted[i] in sorted && sorted[j] in sorted;
      if sorted[i].className == sorted[j].className {
        OccursTwice(sorted, i, j);
      }
    }
  }

  lemma MergeIsStrict(cmp: (string, string) -> int, rows: seq<Row>)
    requires IsOrder(cmp) && Untied(cmp, rows)
    ensures StrictlyOrdered(RowBefore(cmp), Merge(cmp, rows))
  {
    hide Merge, Classes, FirstColor, Sum;
    MergeMembers(cmp, rows);
    var s := Merge(cmp, rows);
    forall i, j | 0 <= i < j < |s|
      ensures RowBefore(cmp)(s[i], s[j])
    {
      assert s[i] in s && s[j] in s;
      assert !RowBefore(cmp)(s[j], s[i]);
      assert !Tied(cmp, rows, s[i].className, s[j].className);
    }
  }

  // ----- counted rows with class-determined colours -----

  predicate Proper(colorFor: string -> Color, rows: seq<Row>) {
    forall i :: 0 <= i < |rows| ==> rows[i].count.total > 0 && rows[i].color == colorFor(rows[i].className)
  }

  lemma {:induction false} ProperSums(colorFor: string -> Color, rows: seq<Row>, c: string)
    requires Proper(colorFor, rows)
    ensures Sum(rows, Some(c)).total >= 0
    ensures c in Classes(rows) <==> Sum(rows, Some(c)).total > 0
    ensures c in Classes(rows) ==> FirstColor(rows, c) == colorFor(c)
  {
    if rows != [] {
      ProperSums(colorFor, rows[..|rows| - 1], c);
    }
  }

  ghost predicate SameSums(a: seq<Row>, b: seq<Row>) {
    forall c :: Sum(a, Some(c)) == Sum(b, Some(c))
  }

  lemma UntiedToo(cmp: (string, string) -> int, colorFor: string -> Color, a: seq<Row>, b: seq<Row>)
    requires Proper(colorFor, a) && Proper(colorFor, b) && SameSums(a, b)
    ensures Untied(cmp, a) <==> Untied(cmp, b)
  {
    hide Classes, Sum, FirstColor, Proper;
    forall c, d
      ensures Tied(cmp, a, c, d) <==> Tied(cmp, b, c, d)
    {
      ProperSums(colorFor, a, c);
      ProperSums(colorFor, a, d);
      ProperSums(colorFor, b, c);
      ProperSums(colorFor, b, d);
      assert Sum(a, Some(c)) == Sum(b, Some(c)) && Sum(a, Some(d)) == Sum(b, Some(d));
    }
  }

  /** Rows with the same class sums and no tie merge to the same list. */
  lemma MergeDetermined(cmp: (string, string) -> int, colorFor: string -> Color, a: seq<Row>, b: seq<Row>)
    requires IsOrder(cmp) && Untied(cmp, a) && Proper(colorFor, a) && Proper(colorFor, b) && SameSums(a, b)
    ensures Merge(cmp, a) == Merge(cmp, b)
  {
    hide Merge, Classes, Sum, FirstColor, RowBefore, IsOrder, Untied, StrictlyOrdered, Ordered, StrictWeakOrder, Proper;
    RowBeforeIsAnOrder(cmp);
    UntiedToo(cmp, colorFor, a, b);
    MergeIsStrict(cmp, a);
    MergeIsStrict(cmp, b);
    MergeMembers(cmp, a);
    MergeMembers(cmp, b);
    forall x
      ensures x in Merge(cmp, a) <==> x in Merge(cmp, b)
    {
      ProperSums(colorFor, a, x.className);
      ProperSums(colorFor, b, x.className);
    }
    StrictOrderUnique(RowBefore(cmp), Merge(cmp, a), Merge(cmp, b));
  }

  lemma MergeProper(cmp: (string, string) -> int, colorFor: string -> Color, rows: seq<Row>)
    requires IsOrder(cmp) && Proper(colorFor, rows)
    ensures Proper(colorFor, Merge(cmp, rows))
  {
    hide Merge, Classes, Sum, FirstColor, RowBefore, IsOrder, Ordered;
    MergeMembers(cmp, rows);
    forall i | 0 <= i < |Merge(cmp, rows)|
      ensures Merge(cmp, rows)[i].count.total > 0
      ensures Merge(cmp, rows)[i].color == colorFor(Merge(cmp, rows)[i].className)
    {
      var x := Merge(cmp, rows)[i];
      assert x in Merge(cmp, rows);
      ProperSums(colorFor, rows, x.className);
    }
  }

  // ----- what the counts mean -----

  /** How many signals of a class (or of any) have a state. */
  function CountOf(tracks: seq<Signal>, c: Option<string>, s: Shown): nat {
    if tracks == [] then 0
    else
      var last := tracks[|tracks| - 1];
      CountOf(tracks[..|tracks| - 1], c, s)
      + if (c.None? || c.value == last.track.className) && last.state == s then 1 else 0
  }

  lemma {:induction false} SumOfUnits(tracks: seq<Signal>, c: Option<string>)
    ensures Sum(Units(tracks), c)
         == Tally(CountOf(tracks, c, Live), CountOf(tracks, c, Held),
                  CountOf(tracks, c, Live) + CountOf(tracks, c, Held))
    ensures c.None? ==> Sum(Units(tracks), c).total == |tracks|
  {
    if tracks != [] {
      var front := tracks[..|tracks| - 1];
      SumOfUnits(front, c);
      assert Units(tracks)[..|tracks| - 1] == Units(front);
    }
  }

  predicate Shows(tracks: seq<Signal>, c: string) {
    exists i :: 0 <= i < |tracks| && tracks[i].track.className == c
  }

  /** The displayed rows: one for each class present, with the numbers of its live and held signals, in display
      order; and the totals count every signal once. */
  lemma DerivedCounts(cmp: (string, string) -> int, tracks: seq<Signal>)
    requires IsOrder(cmp)
    ensures forall c :: Shows(tracks, c) <==> exists x :: x in Merge(cmp, Units(tracks)) && x.className == c
    ensures forall i, j :: 0 <= i < j < |Merge(cmp, Units(tracks))| ==>
              Merge(cmp, Units(tracks))[i].className != Merge(cmp, Units(tracks))[j].className
    ensures Ordered(RowBefore(cmp), Merge(cmp, Units(tracks)))
    ensures forall x :: x in Merge(cmp, Units(tracks)) ==>
              && x.count.live == CountOf(tracks, Some(x.className), Live)
              && x.count.held == CountOf(tracks, Some(x.className), Held)
              && x.count.total == x.count.live + x.count.held
              && (x.state.Live? <==> x.count.live > 0)
    ensures Sum(Merge(cmp, Units(tracks)), None)
         == Tally(CountOf(tracks, None, Live), CountOf(tracks, None, Held), |tracks|)
    ensures CountOf(tracks, None, Live) + CountOf(tracks, None, Held) == |tracks|
  {
    hide Merge, Classes, Sum, FirstColor, RowBefore, IsOrder, Ordered, CountOf;
    var rows := Units(tracks);
    MergeMembers(cmp, rows);
    ClassesAreThose(rows);
    MergeConserves(cmp, rows, None);
    SumOfUnits(tracks, None);
    forall x | x in Merge(cmp, rows)
      ensures x.count == Sum(rows, Some(x.className))
      ensures Sum(rows, Some(x.className)).live == CountOf(tracks, Some(x.className), Live)
      ensures Sum(rows, Some(x.className)).held == CountOf(tracks, Some(x.className), Held)
      ensures x.count.total == x.count.live + x.count.held
    {
      SumOfUnits(tracks, Some(x.className));
    }
    forall c
      ensures Shows(tracks, c) <==> c in Classes(rows)
    {
      if i :| 0 <= i < |tracks| && tracks[i].track.className == c {
        assert rows[i].className == c;
      }
      if i :| 0 <= i < |rows| && rows[i].className == c {
        assert tracks[i].track.className == c;
      }
    }
    forall c | c in Classes(rows)
      ensures exists x :: x in Merge(cmp, rows) && x.className == c
    {
      assert MergedRow(rows, c) in Merge(cmp, rows);
    }
  }

  // ----- order of arrival and grouping by camera do not matter -----

  predicate ColoredByClass(colorFor: string -> Color, tracks: seq<Signal>) {
    forall i :: 0 <= i < |tracks| ==> tracks[i].color == colorFor(tracks[i].track.className)
  }

  lemma {:induction false} UnitsPermuted(a: seq<Signal>, b: seq<Signal>)
    requires multiset(a) == multiset(b)
    ensures multiset(Units(a)) == multiset(Units(b))
  {
    if a == [] {
      assert |multiset(b)| == 0;
    } else {
      var i := TakeOut(a, b);
      var front, last, rest := a[..|a| - 1], a[|a| - 1], b[..i] + b[i + 1..];
      UnitsPermuted(front, rest);
      assert Units(a) == Units(front) + [Unit(last)];
      assert Units(b) == Units(b[..i]) + [Unit(last)] + Units(b[i + 1..]);
      UnitsSplit(b[..i], b[i + 1..]);
    }
  }

  lemma PermutedUnits(colorFor: string -> Color, a: seq<Signal>, b: seq<Signal>)
    requires multiset(a) == multiset(b) && ColoredByClass(colorFor, a)
    ensures ColoredByClass(colorFor, b) && SameSums(Units(a), Units(b))
    ensures Proper(colorFor, Units(a)) && Proper(colorFor, Units(b))
  {
    hide Sum;
    UnitsPermuted(a, b);
    forall i | 0 <= i < |b|
      ensures b[i].color == colorFor(b[i].track.className)
    {
      assert b[i] in multiset(b) && b[i] in multiset(a) && b[i] in a;
    }
    forall c
      ensures Sum(Units(a), Some(c)) == Sum(Units(b), Some(c))
    {
      SumPermuted(Units(a), Units(b), Some(c));
    }
  }

  lemma UntiedIgnoresOrder(cmp: (string, string) -> int, colorFor: string -> Color, a: seq<Signal>, b: seq<Signal>)
    requires IsOrder(cmp) && Untied(cmp, Units(a)) && multiset(a) == multiset(b) && ColoredByClass(colorFor, a)
    ensures Merge(cmp, Units(b)) == Merge(cmp, Units(a))
  {
    hide Merge, Untied, IsOrder, Proper, SameSums, Units;
    PermutedUnits(colorFor, a, b);
    MergeDetermined(cmp, colorFor, Units(a), Units(b));
  }

  // ----- ties -----

  lemma {:induction false} FirstClass(rows: seq<Row>)
    requires rows != []
    ensures Classes(rows) != [] && Classes(rows)[0] == rows[0].className
  {
    if |rows| > 1 {
      FirstClass(rows[..|rows| - 1]);
    } else {
      assert rows[..0] == [];
    }
  }

  function ToFront(a: seq<Signal>, i: nat): seq<Signal>
    requires i < |a|
  {
    [a[i]] + (a[..i] + a[i + 1..])
  }

  /** Among the rows that compare equal to the one of the first signal's class, that row comes first. */
  lemma FrontRowLeads(cmp: (string, string) -> int, a: seq<Signal>, r: Row)
    requires IsOrder(cmp) && a != []
    requires var x := MergedRow(Units(a), a[0].track.className); !RowBefore(cmp)(r, x) && !RowBefore(cmp)(x, r)
    ensures Ties(RowBefore(cmp), r, Merge(cmp, Units(a))) != []
    ensures Ties(RowBefore(cmp), r, Merge(cmp, Units(a)))[0] == MergedRow(Units(a), a[0].track.className)
  {
    hide RowBefore, IsOrder, SortBy, StrictWeakOrder, MergedRow, Classes;
    var rows := Units(a);
    FirstClass(rows);
    RowBeforeIsAnOrder(cmp);
    SortByIsStable(RowBefore(cmp), r, Unsorted(rows, Classes(rows)));
  }

  /** Signals of two tied classes can be brought into two orders that are displayed differently. */
  lemma TiesShow(cmp: (string, string) -> int, colorFor: string -> Color, a: seq<Signal>, c: string, d: string)
    returns (x: seq<Signal>, y: seq<Signal>)
    requires IsOrder(cmp) && ColoredByClass(colorFor, a) && Tied(cmp, Units(a), c, d)
    ensures multiset(x) == multiset(a) == multiset(y) && Merge(cmp, Units(x)) != Merge(cmp, Units(y))
  {
    hide Merge, Sum, FirstColor, IsOrder, Classes, ColoredByClass, Proper;
    ClassesAreThose(Units(a));
    var i :| 0 <= i < |a| && Units(a)[i].className == c;
    var j :| 0 <= j < |a| && Units(a)[j].className == d;
    x, y := ToFront(a, i), ToFront(a, j);
    FrontKeeps(a, i);
    FrontKeeps(a, j);
    PermutedUnits(colorFor, a, x);
    PermutedUnits(colorFor, a, y);
    var first, second := MergedRow(Units(x), c), MergedRow(Units(y), d);
    assert first.count == Sum(Units(a), Some(c)) && second.count == Sum(Units(a), Some(d));
    NamesTie(cmp, c, d);
    FrontRowLeads(cmp, x, first);
    FrontRowLeads(cmp, y, first);
  }

  lemma FrontKeeps(a: seq<Signal>, i: nat)
    requires i < |a|
    ensures multiset(ToFront(a, i)) == multiset(a) && ToFront(a, i)[0] == a[i]
  {
    LeaveOut(a, i);
    assert a[i] in multiset(a);
  }

  lemma NamesTie(cmp: (string, string) -> int, c: string, d: string)
    requires IsOrder(cmp) && cmp(c, d) == 0
    ensures cmp(d, c) == 0 && cmp(c, c) == 0
  {
    assert !(cmp(d, c) < 0) && !(cmp(d, c) > 0);
    assert !(cmp(c, c) < 0) && !(cmp(c, c) > 0);
  }

  /** The displayed rows do not depend on the order of the signals exactly when no two classes present are tied. */
  lemma CountsIgnoreOrder(cmp: (string, string) -> int, colorFor: string -> Color, a: seq<Signal>)
    requires IsOrder(cmp) && ColoredByClass(colorFor, a)
    ensures (forall b :: multiset(b) == multiset(a) ==> Merge(cmp, Units(b)) == Merge(cmp, Units(a)))
       <==> Untied(cmp, Units(a))
  {
    hide Merge, Sum, IsOrder, Units, Tied, ColoredByClass;
    if Untied(cmp, Units(a)) {
      forall b | multiset(b) == multiset(a)
        ensures Merge(cmp, Units(b)) == Merge(cmp, Units(a))
      {
        UntiedIgnoresOrder(cmp, colorFor, a, b);
      }
    } else {
      var x, y := TiedOrders(cmp, colorFor, a);
      assert Merge(cmp, Units(x)) != Merge(cmp, Units(a)) || Merge(cmp, Units(y)) != Merge(cmp, Units(a));
    }
  }

  // ----- cameras -----

  function PerCamera(cmp: (string, string) -> int, cameras: seq<seq<Signal>>): seq<seq<Row>> {
    if cameras == [] then []
    else PerCamera(cmp, cameras[..|cameras| - 1]) + [Merge(cmp, Units(cameras[|cameras| - 1]))]
  }

  lemma {:induction false} CameraSums(
    cmp: (string, string) -> int, colorFor: string -> Color, cameras: seq<seq<Signal>>, c: string)
    requires IsOrder(cmp) && ColoredByClass(colorFor, Flatten(cameras))
    ensures Proper(colorFor, Flatten(PerCamera(cmp, cameras)))
    ensures Sum(Flatten(PerCamera(cmp, cameras)), Some(c)) == Sum(Units(Flatten(cameras)), Some(c))
  {
    if cameras != [] {
      hide IsOrder, Merge, Sum, Units, Proper, ColoredByClass;
      var front, last := cameras[..|cameras| - 1], cameras[|cameras| - 1];
      ColoredParts(colorFor, Flatten(front), last);
      CameraSums(cmp, colorFor, front, c);
      MergeProper(cmp, colorFor, Units(last));
      MergeConserves(cmp, Units(last), Some(c));
      var rows := PerCamera(cmp, front);
      assert (rows + [Merge(cmp, Units(last))])[..|rows|] == rows;
      SumSplit(Flatten(rows), Merge(cmp, Units(last)), Some(c));
      ProperParts(colorFor, Flatten(rows), Merge(cmp, Units(last)));
      UnitsSplit(Flatten(front), last);
      SumSplit(Units(Flatten(front)), Units(last), Some(c));
    }
  }

  lemma ColoredParts(colorFor: string -> Color, a: seq<Signal>, b: seq<Signal>)
    requires ColoredByClass(colorFor, a + b)
    ensures ColoredByClass(colorFor, a) && Proper(colorFor, Units(b))
  {
    assert forall i :: 0 <= i < |a| ==> a[i] == (a + b)[i];
    assert forall i :: 0 <= i < |b| ==> b[i] == (a + b)[|a| + i];
  }

  lemma ProperParts(colorFor: string -> Color, a: seq<Row>, b: seq<Row>)
    requires Proper(colorFor, a) && Proper(colorFor, b)
    ensures Proper(colorFor, a + b)
  {
  }

  lemma UnitsSplit(a: seq<Signal>, b: seq<Signal>)
    ensures Units(a + b) == Units(a) + Units(b)
  {
  }

  lemma {:induction false} ProperIsCounted(colorFor: string -> Color, rows: seq<Row>)
    requires Proper(colorFor, rows)
    ensures Counted(rows) == rows
  {
    if rows != [] {
      ProperIsCounted(colorFor, rows[..|rows| - 1]);
    }
  }

  /** Aggregating what each camera shows is the same as counting all their signals at once, when no two classes
      present are tied. */
  lemma AggregatingCamerasIsCountingAll(
    cmp: (string, string) -> int, colorFor: string -> Color, cameras: seq<seq<Signal>>)
    requires IsOrder(cmp) && Untied(cmp, Units(Flatten(cameras))) && ColoredByClass(colorFor, Flatten(cameras))
    ensures Merge(cmp, Counted(Flatten(PerCamera(cmp, cameras)))) == Merge(cmp, Units(Flatten(cameras)))
  {
    hide IsOrder, Untied, Merge, Sum, Flatten, PerCamera;
    var rows := Flatten(PerCamera(cmp, cameras));
    forall c
      ensures Sum(rows, Some(c)) == Sum(Units(Flatten(cameras)), Some(c))
    {
      CameraSums(cmp, colorFor, cameras, c);
    }
    CameraSums(cmp, colorFor, cameras, "");
    ProperIsCounted(colorFor, rows);
    UntiedToo(cmp, colorFor, rows, Units(Flatten(cameras)));
    MergeDetermined(cmp, colorFor, rows, Units(Flatten(cameras)));
  }

  /** One camera for each signal. */
  function Singles(a: seq<Signal>): seq<seq<Signal>> {
    if a == [] then [] else Singles(a[..|a| - 1]) + [[a[|a| - 1]]]
  }

  lemma {:induction false} SinglesAggregate(cmp: (string, string) -> int, a: seq<Signal>)
    ensures Flatten(Singles(a)) == a && Flatten(PerCamera(cmp, Singles(a))) == Units(a)
  {
    if a != [] {
      hide Merge, Units, Flatten, PerCamera;
      var front, last := a[..|a| - 1], a[|a| - 1];
      SinglesAggregate(cmp, front);
      FlattenSnoc(Singles(front), [last]);
      CameraSnoc(cmp, Singles(front), [last]);
      FlattenSnoc(PerCamera(cmp, Singles(front)), Merge(cmp, Units([last])));
      OneSignal(cmp, last);
      UnitsSplit(front, [last]);
      assert a == front + [last];
    } else {
      assert Units(a) == [];
    }
  }

  lemma CameraSnoc(cmp: (string, string) -> int, cameras: seq<seq<Signal>>, camera: seq<Signal>)
    ensures PerCamera(cmp, cameras + [camera]) == PerCamera(cmp, cameras) + [Merge(cmp, Units(camera))]
  {
    hide Merge, Units;
    assert (cameras + [camera])[..|cameras|] == cameras;
  }

  lemma OneSignal(cmp: (string, string) -> int, x: Signal)
    ensures Merge(cmp, Units([x])) == Units([x])
  {
    hide MergedRow, Classes, RowBefore;
    var r := Unit(x);
    assert Units([x]) == [r];
    OneRow(r);
    assert Unsorted([r], [r.className]) == [r];
    assert SortBy(RowBefore(cmp), [r][1..]) == [];
  }

  lemma OneRow(r: Row)
    requires r.state == if r.count.live > 0 then Live else Held
    ensures Classes([r]) == [r.className] && MergedRow([r], r.className) == r
  {
    var none: seq<Row> := [];
    assert [r][..|[r]| - 1] == none;
    assert Sum(none, Some(r.className)) == ZERO && Classes(none) == [];
  }

  /** The aggregate does not depend on how the signals are spread over cameras, nor on their order, exactly when no two
      classes present are tied. */
  lemma AggregateIgnoresGrouping(cmp: (string, string) -> int, colorFor: string -> Color, a: seq<Signal>)
    requires IsOrder(cmp) && ColoredByClass(colorFor, a)
    ensures (forall cameras :: multiset(Flatten(cameras)) == multiset(a) ==>
               Merge(cmp, Counted(Flatten(PerCamera(cmp, cameras)))) == Merge(cmp, Units(a)))
       <==> Untied(cmp, Units(a))
  {
    hide Merge, Sum, IsOrder, Tied, Untied, ColoredByClass, Proper, SameSums, Flatten, PerCamera, Counted, Units;
    if Untied(cmp, Units(a)) {
      forall cameras | multiset(Flatten(cameras)) == multiset(a)
        ensures Merge(cmp, Counted(Flatten(PerCamera(cmp, cameras)))) == Merge(cmp, Units(a))
      {
        PermutedUnits(colorFor, a, Flatten(cameras));
        UntiedToo(cmp, colorFor, Units(a), Units(Flatten(cameras)));
        AggregatingCamerasIsCountingAll(cmp, colorFor, cameras);
        UntiedIgnoresOrder(cmp, colorFor, a, Flatten(cameras));
      }
    } else {
      var x, y := TiedOrders(cmp, colorFor, a);
      SinglesAggregate(cmp, x);
      SinglesAggregate(cmp, y);
      PermutedUnits(colorFor, a, x);
      PermutedUnits(colorFor, a, y);
      ProperIsCounted(colorFor, Units(x));
      ProperIsCounted(colorFor, Units(y));
      assert multiset(Flatten(Singles(x))) == multiset(a) == multiset(Flatten(Singles(y)));
    }
  }

  lemma TiedOrders(cmp: (string, string) -> int, colorFor: string -> Color, a: seq<Signal>)
    returns (x: seq<Signal>, y: seq<Signal>)
    requires IsOrder(cmp) && ColoredByClass(colorFor, a) && !Untied(cmp, Units(a))
    ensures multiset(x) == multiset(a) == multiset(y) && Merge(cmp, Units(x)) != Merge(cmp, Units(y))
  {
    hide Merge, IsOrder, Tied, ColoredByClass, Units;
    var c, d :| Tied(cmp, Units(a), c, d);
    x, y := TiesShow(cmp, colorFor, a, c, d);
  }
}
