/** Trimming, splitting and joining strings, as JavaScript and Python do them. */
module Text {

  // ----- trimming -----

  function StripLeft(isSpace: char -> bool, s: string): string {
    if s != [] && isSpace(s[0]) then StripLeft(isSpace, s[1..]) else s
  }

  function StripRight(isSpace: char -> bool, s: string): string {
    if s != [] && isSpace(s[|s| - 1]) then StripRight(isSpace, s[..|s| - 1]) else s
  }

  function Strip(isSpace: char -> bool, s: string): string { StripRight(isSpace, StripLeft(isSpace, s)) }

  predicate Stripped(isSpace: char -> bool, s: string) {
    s != [] ==> !isSpace(s[0]) && !isSpace(s[|s| - 1])
  }

  lemma {:induction false} StripLeftSuffix(isSpace: char -> bool, s: string)
    ensures |StripLeft(isSpace, s)| <= |s| && StripLeft(isSpace, s) == s[|s| - |StripLeft(isSpace, s)|..]
    ensures StripLeft(isSpace, s) != [] ==> !isSpace(StripLeft(isSpace, s)[0])
  {
    if s != [] && isSpace(s[0]) {
      StripLeftSuffix(isSpace, s[1..]);
    }
  }

  lemma {:induction false} StripRightPrefix(isSpace: char -> bool, s: string)
    ensures StripRight(isSpace, s) <= s
    ensures StripRight(isSpace, s) != [] ==> !isSpace(StripRight(isSpace, s)[|StripRight(isSpace, s)| - 1])
  {
    if s != [] && isSpace(s[|s| - 1]) {
      StripRightPrefix(isSpace, s[..|s| - 1]);
    }
  }

  /** Stripping leaves a stripped part of the string; it changes exactly the strings that are not stripped. */
  lemma StripFacts(isSpace: char -> bool, s: string)
    ensures Stripped(isSpace, Strip(isSpace, s))
    ensures forall c :: c in Strip(isSpace, s) ==> c in s
    ensures Strip(isSpace, s) == s <==> Stripped(isSpace, s)
    ensures Strip(isSpace, s) != s ==> |Strip(isSpace, s)| < |s|
  {
    hide StripLeft, StripRight;
    var t, r := StripLeft(isSpace, s), Strip(isSpace, s);
    StripLeftSuffix(isSpace, s);
    StripRightPrefix(isSpace, t);
    assert r != [] ==> t[0] == r[0];
    forall c | c in r
      ensures c in s
    {
      var i :| 0 <= i < |r| && r[i] == c;
      assert t[i] == c && s[|s| - |t| + i] == c;
    }
    if Stripped(isSpace, s) {
      StrippedStays(isSpace, s);
    }
  }

  lemma StrippedStays(isSpace: char -> bool, s: string)
    requires Stripped(isSpace, s)
    ensures StripLeft(isSpace, s) == s && StripRight(isSpace, s) == s
  {
  }

  // ----- splitting at commas -----

  function Split(s: string): (parts: seq<string>)
    ensures |parts| > 0
  {
    if s == [] then [""]
    else
      var rest := Split(s[1..]);
      if s[0] == ',' then [""] + rest else [[s[0]] + rest[0]] + rest[1..]
  }

  function Join(items: seq<string>): string {
    if items == [] then "" else if |items| == 1 then items[0] else items[0] + "," + Join(items[1..])
  }

  lemma {:induction false} SplitAtComma(a: string, b: string)
    ensures Split(a + "," + b) == Split(a) + Split(b)
  {
    var s := a + "," + b;
    if a == [] {
      assert s[1..] == b;
    } else {
      assert s[1..] == a[1..] + "," + b;
      SplitAtComma(a[1..], b);
    }
  }

  lemma {:induction false} SplitWithoutComma(s: string)
    requires ',' !in s
    ensures Split(s) == [s]
  {
    if s != [] {
      SplitWithoutComma(s[1..]);
      assert s == [s[0]] + s[1..];
    }
  }

  lemma {:induction false} PartsHaveNoComma(s: string)
    ensures forall part :: part in Split(s) ==> ',' !in part
  {
    if s != [] {
      PartsHaveNoComma(s[1..]);
      var rest := Split(s[1..]);
      assert rest[0] in rest;
      assert forall part :: part in rest[1..] ==> part in rest;
    }
  }
}
