/** The `lapjv` shim and the two branches of `linear_assignment`.

    `scipy.optimize.linear_sum_assignment` is an assumed function `solve`. */
module Assignment {

  type Matrix = seq<seq<real>>

  datatype Pair = Pair(row: nat, col: nat)

  /** The cost above which a solved pair is dropped; the default, infinity, drops none. */
  datatype Limit = Unlimited | AtMost(bound: real) {
    predicate Exceeded(cost: real) { AtMost? && cost > bound }
  }

  predicate Rectangular<T>(m: seq<seq<T>>, columns: nat) {
    forall i :: 0 <= i < |m| ==> |m[i]| == columns
  }

  predicate InRange(ps: seq<Pair>, rows: nat, columns: nat) {
    forall i :: 0 <= i < |ps| ==> ps[i].row < rows && ps[i].col < columns
  }

  /** No row and no column is used twice. */
  predicate IsMatching(ps: seq<Pair>) {
    forall i, j :: 0 <= i < j < |ps| ==> ps[i].row != ps[j].row && ps[i].col != ps[j].col
  }

  function TotalCost(m: Matrix, columns: nat, ps: seq<Pair>): real
    requires Rectangular(m, columns) && InRange(ps, |m|, columns)
  {
    if ps == [] then 0.0
    else TotalCost(m, columns, ps[..|ps| - 1]) + m[ps[|ps| - 1].row][ps[|ps| - 1].col]
  }

  /** A largest matching. */
  predicate IsAssignment(ps: seq<Pair>, rows: nat, columns: nat) {
    && InRange(ps, rows, columns)
    && IsMatching(ps)
    && |ps| == if rows < columns then rows else columns
  }

  predicate RowsAscend(ps: seq<Pair>) {
    forall i, j :: 0 <= i < j < |ps| ==> ps[i].row < ps[j].row
  }

  /** What is assumed of an answer: a largest matching, rows ascending, of least total cost. */
  ghost predicate Solves(m: Matrix, columns: nat, ps: seq<Pair>)
    requires Rectangular(m, columns)
  {
    && IsAssignment(ps, |m|, columns)
    && RowsAscend(ps)
    && forall qs :: IsAssignment(qs, |m|, columns) ==> TotalCost(m, columns, ps) <= TotalCost(m, columns, qs)
  }

  /** What is assumed of the solver, for every nonempty matrix. */
  ghost predicate IsSolver(solve: Matrix -> seq<Pair>) {
    forall m: Matrix, columns: nat ::
      |m| > 0 && columns > 0 && Rectangular(m, columns) ==> Solves(m, columns, solve(m))
  }

  /** The solved pairs within the limit, in order. */
  function Kept(m: Matrix, columns: nat, ps: seq<Pair>, limit: Limit): (r: seq<Pair>)
    requires Rectangular(m, columns) && InRange(ps, |m|, columns)
    ensures InRange(r, |m|, columns)
    ensures forall p :: p in r <==> p in ps && (limit.AtMost? ==> m[p.row][p.col] <= limit.bound)
  {
    if ps == [] then []
    else
      var p := ps[|ps| - 1];
      var rest := Kept(m, columns, ps[..|ps| - 1], limit);
      if limit.Exceeded(m[p.row][p.col]) then rest else rest + [p]
  }

  /** Row and column arrays that say the same thing: each names the other side or holds -1. */
  ghost predicate MutuallyInverse(row: seq<int>, col: seq<int>) {
    && (forall r :: 0 <= r < |row| ==> -1 <= row[r] < |col|)
    && (forall c :: 0 <= c < |col| ==> -1 <= col[c] < |row|)
    && (forall r, c :: 0 <= r < |row| && 0 <= c < |col| ==> (row[r] == c <==> col[c] == r))
  }

  /** The arrays hold exactly the kept pairs. */
  ghost predicate Records(row: seq<int>, col: seq<int>, kept: seq<Pair>) {
    && (forall r :: 0 <= r < |row| ==> row[r] == -1 || (0 <= row[r] < |col| && Pair(r, row[r]) in kept))
    && (forall c :: 0 <= c < |col| ==> col[c] == -1 || (0 <= col[c] < |row| && Pair(col[c], c) in kept))
    && forall p :: p in kept ==> p.row < |row| && p.col < |col| && row[p.row] == p.col && col[p.col] == p.row
  }

  lemma RecordsInverse(row: seq<int>, col: seq<int>, kept: seq<Pair>)
    requires Records(row, col, kept)
    ensures MutuallyInverse(row, col)
  {
    forall r, c | 0 <= r < |row| && 0 <= c < |col|
      ensures row[r] == c <==> col[c] == r
    {
      if row[r] == c {
        assert Pair(r, c) in kept;
      }
      if col[c] == r {
        assert Pair(r, c) in kept;
      }
    }
  }

  lemma RecordStep(row: seq<int>, col: seq<int>, kept: seq<Pair>, p: Pair)
    requires Records(row, col, kept) && p.row < |row| && p.col < |col|
    requires forall q :: q in kept ==> q.row != p.row && q.col != p.col
    ensures Records(row[p.row := p.col], col[p.col := p.row], kept + [p])
  {
    assert p in kept + [p];
  }

  function Unassigned(n: nat): (a: seq<int>)
    ensures |a| == n && forall i :: 0 <= i < n ==> a[i] == -1
  {
    seq(n, _ => -1)
  }

  lemma KeptStep(m: Matrix, columns: nat, ps: seq<Pair>, i: nat, limit: Limit)
    requires Rectangular(m, columns) && InRange(ps, |m|, columns) && IsMatching(ps) && i < |ps|
    ensures var p, was := ps[i], Kept(m, columns, ps[..i], limit);
            && (forall q :: q in was ==> q.row != p.row && q.col != p.col)
            && Kept(m, columns, ps[..i + 1], limit) == (if limit.Exceeded(m[p.row][p.col]) then was else was + [p])
            && TotalCost(m, columns, was + [p]) == TotalCost(m, columns, was) + m[p.row][p.col]
  {
    var p, was := ps[i], Kept(m, columns, ps[..i], limit);
    assert ps[..i + 1][..i] == ps[..i];
    assert (was + [p])[..|was|] == was;
    forall q | q in was
      ensures q.row != p.row && q.col != p.col
    {
      assert q in ps[..i];
      var j :| 0 <= j < i && ps[j] == q;
    }
  }

  method LapJv(m: Matrix, columns: nat, limit: Limit, solve: Matrix -> seq<Pair>)
    returns (total: real, row: seq<int>, col: seq<int>)
    requires Rectangular(m, columns)
    requires |m| > 0 && columns > 0 ==> IsAssignment(solve(m), |m|, columns)
    ensures |row| == |m| && |col| == columns && MutuallyInverse(row, col)
    ensures |m| == 0 || columns == 0 ==> total == 0.0 && Records(row, col, [])
    ensures |m| > 0 && columns > 0 ==>
              && Records(row, col, Kept(m, columns, solve(m), limit))
              && total == TotalCost(m, columns, Kept(m, columns, solve(m), limit))
              && forall r, c :: 0 <= r < |m| && 0 <= c < columns ==>
                   (row[r] == c <==> Pair(r, c) in solve(m) && (limit.AtMost? ==> m[r][c] <= limit.bound))
  {
    hide Kept, Records, TotalCost, MutuallyInverse, IsMatching;
    total, row, col := 0.0, Unassigned(|m|), Unassigned(columns);
    NothingKept(m, columns, row, col, limit);
    if |m| == 0 || columns == 0 {
      return;
    }
    var ps := solve(m);
    ghost var kept := [];
    assert ps[..0] == [];
    for i := 0 to |ps|
      invariant |row| == |m| && |col| == columns
      invariant kept == Kept(m, columns, ps[..i], limit) && InRange(kept, |m|, columns)
      invariant Records(row, col, kept)
      invariant total == TotalCost(m, columns, kept)
    {
      var p := ps[i];
      var cost := m[p.row][p.col];
      KeptStep(m, columns, ps, i, limit);
      if !limit.Exceeded(cost) {
        RecordStep(row, col, kept, p);
        row, col, total := row[p.row := p.col], col[p.col := p.row], total + cost;
        kept := kept + [p];
      }
    }
    assert ps[..|ps|] == ps;
    RecordsInverse(row, col, kept);
    RecordsSay(m, columns, ps, limit, row, col);
  }

  lemma RecordsSay(m: Matrix, columns: nat, ps: seq<Pair>, limit: Limit, row: seq<int>, col: seq<int>)
    requires Rectangular(m, columns) && InRange(ps, |m|, columns)
    requires |row| == |m| && |col| == columns && Records(row, col, Kept(m, columns, ps, limit))
    ensures forall r, c :: 0 <= r < |m| && 0 <= c < columns ==>
              (row[r] == c <==> Pair(r, c) in ps && (limit.AtMost? ==> m[r][c] <= limit.bound))
  {
    forall r, c | 0 <= r < |m| && 0 <= c < columns
      ensures row[r] == c <==> Pair(r, c) in ps && (limit.AtMost? ==> m[r][c] <= limit.bound)
    {
      assert row[r] == c <==> Pair(r, c) in Kept(m, columns, ps, limit);
    }
  }

  lemma NothingKept(m: Matrix, columns: nat, row: seq<int>, col: seq<int>, limit: Limit)
    requires Rectangular(m, columns)
    requires (forall r :: 0 <= r < |row| ==> row[r] == -1) && forall c :: 0 <= c < |col| ==> col[c] == -1
    ensures Kept(m, columns, [], limit) == [] && TotalCost(m, columns, []) == 0.0
    ensures Records(row, col, []) && MutuallyInverse(row, col)
  {
  }

  lemma {:induction false} UnlimitedKeepsAll(m: Matrix, columns: nat, ps: seq<Pair>)
    requires Rectangular(m, columns) && InRange(ps, |m|, columns)
    ensures Kept(m, columns, ps, Unlimited) == ps
  {
    if ps != [] {
      hide Rectangular;
      UnlimitedKeepsAll(m, columns, ps[..|ps| - 1]);
      assert ps == ps[..|ps| - 1] + [ps[|ps| - 1]];
    }
  }

  /** Without a limit the total that `LapJv` returns is least among all largest matchings. */
  lemma UnlimitedTotalIsLeast(m: Matrix, columns: nat, solve: Matrix -> seq<Pair>, rival: seq<Pair>)
    requires |m| > 0 && columns > 0 && Rectangular(m, columns) && IsSolver(solve)
    requires IsAssignment(rival, |m|, columns)
    ensures IsAssignment(solve(m), |m|, columns)
    ensures TotalCost(m, columns, Kept(m, columns, solve(m), Unlimited)) <= TotalCost(m, columns, rival)
  {
    assert Solves(m, columns, solve(m));
    UnlimitedKeepsAll(m, columns, solve(m));
  }

  // ----- what a limit leaves -----

  /** The solved pairs beyond the limit. */
  function Dropped(m: Matrix, columns: nat, ps: seq<Pair>, limit: Limit): (r: seq<Pair>)
    requires Rectangular(m, columns) && InRange(ps, |m|, columns)
    ensures InRange(r, |m|, columns)
    ensures forall p :: p in r <==> p in ps && limit.Exceeded(m[p.row][p.col])
  {
    if ps == [] then []
    else
      var p, rest := ps[|ps| - 1], Dropped(m, columns, ps[..|ps| - 1], limit);
      if limit.Exceeded(m[p.row][p.col]) then rest + [p] else rest
  }

  lemma {:induction false} TotalJoin(m: Matrix, columns: nat, a: seq<Pair>, b: seq<Pair>)
    requires Rectangular(m, columns) && InRange(a, |m|, columns) && InRange(b, |m|, columns)
    ensures TotalCost(m, columns, a + b) == TotalCost(m, columns, a) + TotalCost(m, columns, b)
  {
    if b == [] {
      assert a + b == a;
    } else {
      assert (a + b)[..|a + b| - 1] == a + b[..|b| - 1];
      TotalJoin(m, columns, a, b[..|b| - 1]);
    }
  }

  lemma OneMoreCost(m: Matrix, columns: nat, ps: seq<Pair>, p: Pair)
    requires Rectangular(m, columns) && InRange(ps, |m|, columns) && p.row < |m| && p.col < columns
    ensures TotalCost(m, columns, ps + [p]) == TotalCost(m, columns, ps) + m[p.row][p.col]
  {
    assert (ps + [p])[..|ps|] == ps;
  }

  /** Kept and dropped pairs make up the solved ones. */
  lemma {:induction false} KeptAndDropped(m: Matrix, columns: nat, ps: seq<Pair>, limit: Limit)
    requires Rectangular(m, columns) && InRange(ps, |m|, columns)
    ensures |Kept(m, columns, ps, limit)| + |Dropped(m, columns, ps, limit)| == |ps|
    ensures TotalCost(m, columns, ps)
         == TotalCost(m, columns, Kept(m, columns, ps, limit)) + TotalCost(m, columns, Dropped(m, columns, ps, limit))
  {
    if ps != [] {
      var front, p := ps[..|ps| - 1], ps[|ps| - 1];
      KeptAndDropped(m, columns, front, limit);
      OneMoreCost(m, columns, Kept(m, columns, front, limit), p);
      OneMoreCost(m, columns, Dropped(m, columns, front, limit), p);
    }
  }

  lemma {:induction false} DroppedMatch(m: Matrix, columns: nat, ps: seq<Pair>, limit: Limit)
    requires Rectangular(m, columns) && InRange(ps, |m|, columns) && IsMatching(ps)
    ensures IsMatching(Dropped(m, columns, ps, limit))
  {
    if ps != [] {
      var front, p, rest := ps[..|ps| - 1], ps[|ps| - 1], Dropped(m, columns, ps[..|ps| - 1], limit);
      DroppedMatch(m, columns, front, limit);
      forall i | 0 <= i < |rest|
        ensures rest[i].row != p.row && rest[i].col != p.col
      {
        assert rest[i] in rest && rest[i] in front;
      }
    }
  }

  /** The rows and columns of one list are among those of another. */
  predicate SameLines(rs: seq<Pair>, ps: seq<Pair>) {
    && (forall r :: r in rs ==> exists p :: p in ps && p.row == r.row)
    && (forall r :: r in rs ==> exists p :: p in ps && p.col == r.col)
  }

  lemma SwapMatches(kept: seq<Pair>, dropped: seq<Pair>, ps: seq<Pair>, rival: seq<Pair>)
    requires IsMatching(ps) && IsMatching(rival) && IsMatching(dropped) && SameLines(rival, kept)
    requires forall p :: p in kept ==> p in ps && p !in dropped
    requires forall p :: p in dropped ==> p in ps
    ensures IsMatching(rival + dropped)
  {
    forall i, j | 0 <= i < |rival| && 0 <= j < |dropped|
      ensures rival[i].row != dropped[j].row && rival[i].col != dropped[j].col
    {
      var p :| p in kept && p.row == rival[i].row;
      var q :| q in kept && q.col == rival[i].col;
      assert rival[i] in rival && dropped[j] in dropped;
    }
  }

  /** Whatever the limit, no matching of the same rows with the same columns is cheaper than the pairs kept: a cheaper
      one, completed by the dropped pairs, would beat the solver. */
  lemma KeptTotalIsLeast(m: Matrix, columns: nat, limit: Limit, solve: Matrix -> seq<Pair>, rival: seq<Pair>)
    requires Rectangular(m, columns) && Solves(m, columns, solve(m))
    requires InRange(rival, |m|, columns) && IsMatching(rival)
    requires var kept := Kept(m, columns, solve(m), limit); |rival| == |kept| && SameLines(rival, kept)
    ensures TotalCost(m, columns, Kept(m, columns, solve(m), limit)) <= TotalCost(m, columns, rival)
  {
    hide Kept, Dropped, TotalCost, IsMatching, SameLines;
    var ps := solve(m);
    var kept, dropped := Kept(m, columns, ps, limit), Dropped(m, columns, ps, limit);
    KeptAndDropped(m, columns, ps, limit);
    DroppedMatch(m, columns, ps, limit);
    SwapMatches(kept, dropped, ps, rival);
    TotalJoin(m, columns, rival, dropped);
    assert IsAssignment(rival + dropped, |m|, columns);
  }

  /** Both branches, the `lapjv` one when `lap` can be imported, give the solver's own pairs. */
  method LinearAssignment(m: Matrix, columns: nat, solve: Matrix -> seq<Pair>, lapInstalled: bool)
    returns (pairs: seq<Pair>)
    requires |m| > 0 && columns > 0 && Rectangular(m, columns)
    requires IsAssignment(solve(m), |m|, columns) && RowsAscend(solve(m))
    ensures pairs == solve(m)
  {
    if !lapInstalled {
      return solve(m);
    }
    var total, x, y := LapJv(m, columns, Unlimited, solve);
    ghost var ps := solve(m);
    UnlimitedKeepsAll(m, columns, ps);
    ReadsAllBack(x, y, ps);
    pairs := ReadPairs(x, y);
  }

  /** The comprehension over the row array. */
  function ReadPairs(x: seq<int>, y: seq<int>): seq<Pair>
    requires Indexes(x, y)
  {
    if x == [] then []
    else
      var i := x[|x| - 1];
      ReadPairs(x[..|x| - 1], y) + if i >= 0 then [Pair(y[i], i)] else []
  }

  predicate Indexes(x: seq<int>, y: seq<int>) {
    forall i :: 0 <= i < |x| && x[i] >= 0 ==> x[i] < |y| && y[x[i]] >= 0
  }

  lemma ReadsAllBack(x: seq<int>, y: seq<int>, ps: seq<Pair>)
    requires Records(x, y, ps) && RowsAscend(ps)
    ensures Indexes(x, y) && ReadPairs(x, y) == ps
  {
    ReadsBack(x, y, ps, |x|);
    assert x[..|x|] == x;
    assert Rank(ps, |x|) == |ps| by {
      assert forall j :: 0 <= j < |ps| ==> ps[j] in ps;
    }
  }

  lemma {:induction false} ReadsBack(x: seq<int>, y: seq<int>, ps: seq<Pair>, k: nat)
    requires Records(x, y, ps) && RowsAscend(ps) && k <= |x|
    ensures Indexes(x, y) && Indexes(x[..k], y)
    ensures ReadPairs(x[..k], y) == ps[..Rank(ps, k)]
  {
    if k > 0 {
      ReadsBack(x, y, ps, k - 1);
      assert x[..k][..k - 1] == x[..k - 1];
      RowEntry(x, y, ps, k - 1);
    } else {
      assert ps != [] ==> ps[0].row >= 0;
    }
  }

  /** Reading row `k` of the arrays yields the next pair, or nothing. */
  lemma RowEntry(x: seq<int>, y: seq<int>, ps: seq<Pair>, k: nat)
    requires Records(x, y, ps) && RowsAscend(ps) && k < |x|
    ensures x[k] < 0 ==> Rank(ps, k + 1) == Rank(ps, k)
    ensures x[k] >= 0 ==> x[k] < |y| && y[x[k]] == k && ps[..Rank(ps, k + 1)] == ps[..Rank(ps, k)] + [Pair(k, x[k])]
  {
    RankStep(ps, k, x[k]);
  }

  /** How many pairs have a row below `k`. */
  ghost function Rank(ps: seq<Pair>, k: nat): (n: nat)
    requires RowsAscend(ps)
    ensures n <= |ps|
    ensures forall j :: 0 <= j < |ps| ==> (ps[j].row < k <==> j < n)
  {
    if ps == [] then 0
    else if ps[|ps| - 1].row < k then |ps|
    else Rank(ps[..|ps| - 1], k)
  }

  lemma RankStep(ps: seq<Pair>, k: nat, col: int)
    requires RowsAscend(ps)
    requires col >= 0 ==> Pair(k, col) in ps
    requires forall p :: p in ps && p.row == k ==> p.col == col
    ensures col >= 0 ==>
              Rank(ps, k) < |ps| && ps[Rank(ps, k)] == Pair(k, col) && Rank(ps, k + 1) == Rank(ps, k) + 1
    ensures col < 0 ==> Rank(ps, k + 1) == Rank(ps, k)
  {
    var a, b := Rank(ps, k), Rank(ps, k + 1);
    assert b < |ps| ==> ps[b].row >= k + 1;
    assert a < |ps| ==> ps[a].row >= k && ps[a] in ps;
    assert a + 1 < |ps| ==> ps[a].row < ps[a + 1].row;
  }
}
