/** Rendering the installed MediaMTX configuration: `installer/lib/render_mediamtx_config.py`. */
module MediaMtx {
  import opened Common
  import opened Text

  datatype Result<+T> = Ok(value: T) | MissingKey(key: string) | EmptyList(key: string)

  // ----- lines -----

  /** The line boundaries of Python's `str.splitlines`. */
  predicate IsBreak(c: char) {
    || '\U{000A}' <= c <= '\U{000D}' || '\U{001C}' <= c <= '\U{001E}'
    || c == '\U{0085}' || c == '\U{2028}' || c == '\U{2029}'
  }

  predicate BreakFree(s: string) { forall i :: 0 <= i < |s| ==> !IsBreak(s[i]) }

  predicate AllBreakFree(lines: seq<string>) { forall i :: 0 <= i < |lines| ==> BreakFree(lines[i]) }

  function SplitLines(s: string): seq<string> {
    if s == [] then []
    else if |s| >= 2 && s[0] == '\r' && s[1] == '\n' then [""] + SplitLines(s[2..])
    else if IsBreak(s[0]) then [""] + SplitLines(s[1..])
    else
      var rest := SplitLines(s[1..]);
      if rest == [] then [[s[0]]] else [[s[0]] + rest[0]] + rest[1..]
  }

  /** `"\n".join(lines) + "\n"`, of at least one line. */
  function JoinLines(lines: seq<string>): string {
    if lines == [] then "" else lines[0] + "\n" + JoinLines(lines[1..])
  }

  // The ways a string begins.

  lemma PairLine(rest: string)
    ensures SplitLines("\r\n" + rest) == [""] + SplitLines(rest)
  {
    assert ("\r\n" + rest)[2..] == rest;
  }

  lemma BreakLine(c: char, rest: string)
    requires IsBreak(c) && (c == '\r' && rest != [] ==> rest[0] != '\n')
    ensures SplitLines([c] + rest) == [""] + SplitLines(rest)
  {
    assert ([c] + rest)[1..] == rest;
  }

  lemma PlainFirst(c: char, rest: string)
    requires !IsBreak(c) && SplitLines(rest) != []
    ensures SplitLines([c] + rest) == [[c] + SplitLines(rest)[0]] + SplitLines(rest)[1..]
  {
    assert ([c] + rest)[1..] == rest;
  }

  lemma Unhead(c: char, a: string, b: string)
    ensures ([c] + a) + "\n" + b == [c] + (a + "\n" + b)
    ensures ([c] + a) + "\n" == [c] + (a + "\n")
  {
  }

  lemma {:induction false} SplitAtNewline(a: string, b: string)
    ensures SplitLines(a + "\n" + b) == SplitLines(a + "\n") + SplitLines(b)
    decreases |a|
  {
    hide SplitLines;
    if a == [] {
      NewlineFirst(b);
    } else {
      var c, rest := a[0], a[1..];
      assert a == [c] + rest;
      Unhead(c, rest, b);
      if c == '\r' && rest == [] {
        LoneReturn(b);
      } else if c == '\r' && rest[0] == '\n' {
        SplitAtNewline(rest[1..], b);
        AfterPair(rest, b);
      } else {
        SplitAtNewline(rest, b);
        SomeLine(rest);
        AfterOne(c, rest + "\n", b);
        assert rest + "\n" + b == (rest + "\n") + b;
      }
    }
  }

  lemma NewlineFirst(b: string)
    ensures SplitLines([] + "\n" + b) == SplitLines([] + "\n") + SplitLines(b)
  {
    hide SplitLines;
    BreakLine('\n', b);
    BreakLine('\n', []);
    NothingSplit();
    assert [] + "\n" + b == ['\n'] + b && [] + "\n" == ['\n'] + [];
  }

  lemma LoneReturn(b: string)
    ensures SplitLines(['\r'] + ([] + "\n" + b)) == SplitLines(['\r'] + ([] + "\n")) + SplitLines(b)
  {
    hide SplitLines;
    PairLine(b);
    PairLine([]);
    NothingSplit();
    assert ['\r'] + ([] + "\n" + b) == "\r\n" + b && ['\r'] + ([] + "\n") == "\r\n" + [];
  }

  lemma AfterPair(rest: string, b: string)
    requires rest != [] && rest[0] == '\n'
    requires SplitLines(rest[1..] + "\n" + b) == SplitLines(rest[1..] + "\n") + SplitLines(b)
    ensures SplitLines(['\r'] + (rest + "\n" + b)) == SplitLines(['\r'] + (rest + "\n")) + SplitLines(b)
  {
    hide SplitLines;
    PairLine(rest[1..] + "\n" + b);
    PairLine(rest[1..] + "\n");
    assert ['\r'] + (rest + "\n" + b) == "\r\n" + (rest[1..] + "\n" + b);
    assert ['\r'] + (rest + "\n") == "\r\n" + (rest[1..] + "\n");
  }

  lemma AfterOne(c: char, t: string, b: string)
    requires t != [] && SplitLines(t) != [] && (c == '\r' ==> t[0] != '\n')
    requires SplitLines(t + b) == SplitLines(t) + SplitLines(b)
    ensures SplitLines([c] + (t + b)) == SplitLines([c] + t) + SplitLines(b)
  {
    hide SplitLines;
    if IsBreak(c) {
      BreakLine(c, t + b);
      BreakLine(c, t);
    } else {
      PlainFirst(c, t + b);
      PlainFirst(c, t);
    }
  }

  lemma NothingSplit()
    ensures SplitLines([]) == []
  {
  }

  lemma SomeLine(a: string)
    ensures SplitLines(a + "\n") != []
  {
  }

  lemma {:induction false} SplitOneLine(line: string)
    requires BreakFree(line)
    ensures SplitLines(line + "\n") == [line]
  {
    var s := line + "\n";
    if line == [] {
      assert s[1..] == [];
    } else {
      assert s[1..] == line[1..] + "\n";
      assert !IsBreak(line[0]);
      SplitOneLine(line[1..]);
      assert [line[0]] + line[1..] == line;
    }
  }

  lemma {:induction false} LinesRoundTrip(lines: seq<string>)
    requires AllBreakFree(lines)
    ensures SplitLines(JoinLines(lines)) == lines
  {
    if lines != [] {
      SplitAtNewline(lines[0], JoinLines(lines[1..]));
      SplitOneLine(lines[0]);
      LinesRoundTrip(lines[1..]);
    }
  }

  lemma {:induction false} SplitIsBreakFree(s: string)
    ensures AllBreakFree(SplitLines(s))
    decreases |s|
  {
    if s != [] {
      SplitIsBreakFree(s[1..]);
      if |s| >= 2 {
        SplitIsBreakFree(s[2..]);
      }
    }
  }

  // ----- inputs -----

  /** What `str.strip` removes. */
  predicate IsSpace(c: char) {
    || '\U{0009}' <= c <= '\U{000D}' || '\U{001C}' <= c <= ' ' || c == '\U{0085}' || c == '\U{00A0}' || c == '\U{1680}'
    || '\U{2000}' <= c <= '\U{200A}' || c == '\U{2028}' || c == '\U{2029}' || c == '\U{202F}'
    || c == '\U{205F}' || c == '\U{3000}'
  }

  function Trim(s: string): string { Strip(IsSpace, s) }

  function Dedupe(values: seq<string>): seq<string> {
    if values == [] then []
    else
      var rest, item := Dedupe(values[..|values| - 1]), Trim(values[|values| - 1]);
      if item == "" || item in rest then rest else rest + [item]
  }

  method DedupePreserveOrder(values: seq<string>) returns (result: seq<string>)
    ensures result == Dedupe(values)
  {
    hide Strip;
    var seen: set<string> := {};
    result := [];
    for i := 0 to |values|
      invariant result == Dedupe(values[..i])
      invariant forall x :: x in seen <==> x in result
    {
      assert values[..i + 1][..i] == values[..i];
      var stripped := Trim(values[i]);
      if stripped == "" || stripped in seen {
        continue;
      }
      seen := seen + {stripped};
      result := result + [stripped];
    }
    assert values[..|values|] == values;
  }

  /** The index of the first value that strips to `x`, or the length. */
  function FirstIndex(values: seq<string>, x: string): nat {
    if values == [] then 0
    else if Trim(values[0]) == x then 0
    else FirstIndex(values[1..], x) + 1
  }

  lemma {:induction false} FirstIndexFound(values: seq<string>, x: string)
    ensures FirstIndex(values, x) <= |values|
    ensures forall i :: 0 <= i < FirstIndex(values, x) ==> Trim(values[i]) != x
    ensures FirstIndex(values, x) < |values| ==> Trim(values[FirstIndex(values, x)]) == x
  {
    if values != [] {
      FirstIndexFound(values[1..], x);
    }
  }

  lemma FirstIndexUnique(values: seq<string>, x: string, k: nat)
    requires k < |values| && Trim(values[k]) == x && forall i :: 0 <= i < k ==> Trim(values[i]) != x
    ensures FirstIndex(values, x) == k
  {
    hide Trim;
    FirstIndexFound(values, x);
  }

  /** Exactly the nonblank stripped values, each once, in the order of their first occurrences. */
  lemma {:induction false} DedupeKeepsFirstOccurrences(values: seq<string>)
    ensures forall x :: x in Dedupe(values) <==> x != "" && FirstIndex(values, x) < |values|
    ensures forall i, j :: 0 <= i < j < |Dedupe(values)| ==>
              FirstIndex(values, Dedupe(values)[i]) < FirstIndex(values, Dedupe(values)[j])
  {
    hide Trim, FirstIndex;
    if values == [] {
      FirstIndexFound(values, "");
    } else {
      var front, last := values[..|values| - 1], values[|values| - 1];
      DedupeKeepsFirstOccurrences(front);
      assert values == front + [last];
      forall x
        ensures FirstIndex(front, x) < |front| ==> FirstIndex(values, x) == FirstIndex(front, x)
        ensures FirstIndex(front, x) >= |front| ==>
                  FirstIndex(values, x) == if Trim(last) == x then |front| else |front| + 1
      {
        FirstIndexSnoc(front, last, x);
      }
      assert forall x :: x in Dedupe(values) <==> x in Dedupe(front) || (x == Trim(last) && x != "");
    }
  }

  lemma FirstIndexSnoc(front: seq<string>, last: string, x: string)
    ensures FirstIndex(front, x) < |front| ==> FirstIndex(front + [last], x) == FirstIndex(front, x)
    ensures FirstIndex(front, x) >= |front| ==>
              FirstIndex(front + [last], x) == if Trim(last) == x then |front| else |front| + 1
    ensures (front + [last])[..|front|] == front
  {
    hide Trim;
    var all, k := front + [last], FirstIndex(front, x);
    FirstIndexFound(front, x);
    FirstIndexFound(all, x);
    assert forall i :: 0 <= i < |front| ==> all[i] == front[i];
    if k < |front| || Trim(last) == x {
      FirstIndexUnique(all, x, k);
    }
  }

  lemma {:induction false} DedupeIsTrimmed(values: seq<string>)
    ensures forall x :: x in Dedupe(values) ==> x != "" && Stripped(IsSpace, x)
    ensures Distinct(Dedupe(values))
  {
    if values != [] {
      DedupeIsTrimmed(values[..|values| - 1]);
      StripFacts(IsSpace, values[|values| - 1]);
    }
  }

  lemma {:induction false} DedupeFixed(values: seq<string>)
    requires Distinct(values) && forall x :: x in values ==> x != "" && Stripped(IsSpace, x)
    ensures Dedupe(values) == values
  {
    if values != [] {
      var front, last := values[..|values| - 1], values[|values| - 1];
      assert forall x :: x in front ==> x in values;
      DedupeFixed(front);
      StripFacts(IsSpace, last);
      assert values == front + [last] && last in values;
    }
  }

  lemma DedupeIdempotent(values: seq<string>)
    ensures Dedupe(Dedupe(values)) == Dedupe(values)
  {
    DedupeIsTrimmed(values);
    DedupeFixed(Dedupe(values));
  }

  predicate IsSlash(c: char) { c == '/' }

  predicate HasScheme(s: string) { exists i :: 0 <= i <= |s| && "://" <= s[i..] }

  function NormalizeOrigin(value: string): string {
    var stripped := Trim(value);
    if stripped != "" && stripped[|stripped| - 1] == '/' && HasScheme(stripped) then StripRight(IsSlash, stripped)
    else stripped
  }

  /** Normalizing again changes nothing, except when taking the slashes away lays bare a space. */
  lemma NormalizeTwice(value: string)
    ensures NormalizeOrigin(NormalizeOrigin(value)) != NormalizeOrigin(value)
       <==> HasScheme(Trim(value)) && !Stripped(IsSpace, StripRight(IsSlash, Trim(value)))
  {
    hide Strip, StripRight, HasScheme;
    var s, n := Trim(value), NormalizeOrigin(value);
    StripFacts(IsSpace, value);
    StripFacts(IsSpace, n);
    StripRightPrefix(IsSlash, s);
    StripRightPrefix(IsSlash, Trim(n));
    NoSlashNothingToStrip(s);
  }

  lemma NoSlashNothingToStrip(s: string)
    ensures s == "" || s[|s| - 1] != '/' ==> StripRight(IsSlash, s) == s
  {
  }

  const LAID_BARE := "http://a /"

  lemma NormalizeTwiceFails()
    ensures NormalizeOrigin(NormalizeOrigin(LAID_BARE)) != NormalizeOrigin(LAID_BARE)
  {
    hide Strip, StripRight;
    var v := LAID_BARE;
    NormalizeTwice(v);
    StripFacts(IsSpace, v);
    assert Stripped(IsSpace, v) && Trim(v) == v;
    assert "://" <= v[4..];
    OneSlash(v);
    assert v[..9][8] == ' ';
  }

  lemma OneSlash(s: string)
    requires |s| > 1 && s[|s| - 1] == '/' && s[|s| - 2] != '/'
    ensures StripRight(IsSlash, s) == s[..|s| - 1]
  {
    NoSlashNothingToStrip(s[..|s| - 1]);
  }
}
