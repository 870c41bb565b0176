/** When replacing a list block twice is the same as replacing it once, for any values. */
module MediaMtxTwice {
  import opened MediaMtx
  import opened MediaMtxBlocks

  /** The lines that joined lines are split into: a line with breaks falls apart. */
  function Expand(lines: seq<string>): seq<string> {
    if lines == [] then [] else SplitLines(lines[0] + "\n") + Expand(lines[1..])
  }

  lemma {:induction false} JoinedFallsApart(lines: seq<string>)
    ensures SplitLines(JoinLines(lines)) == Expand(lines)
  {
    hide SplitLines;
    if lines == [] {
      NoLines();
    } else {
      SplitAtNewline(lines[0], JoinLines(lines[1..]));
      JoinedFallsApart(lines[1..]);
    }
  }

  lemma NoLines()
    ensures SplitLines("") == []
  {
  }

  lemma {:induction false} ExpandAppend(a: seq<string>, b: seq<string>)
    ensures Expand(a + b) == Expand(a) + Expand(b)
  {
    hide SplitLines;
    if a == [] {
      assert a + b == b;
    } else {
      assert (a + b)[1..] == a[1..] + b;
      ExpandAppend(a[1..], b);
    }
  }

  lemma ExpandBreakFree(lines: seq<string>)
    requires AllBreakFree(lines)
    ensures Expand(lines) == lines
  {
    JoinedFallsApart(lines);
    LinesRoundTrip(lines);
  }

  lemma {:induction false} JoinAppend(a: seq<string>, b: seq<string>)
    ensures JoinLines(a + b) == JoinLines(a) + JoinLines(b)
  {
    if a == [] {
      assert a + b == b;
    } else {
      assert (a + b)[1..] == a[1..] + b;
      JoinAppend(a[1..], b);
    }
  }

  predicate AllItems(lines: seq<string>) { forall n :: 0 <= n < |lines| ==> IsItem(lines[n]) }

  /** Every line the value's item is split into is again an item. */
  predicate StaysInBlock(value: string) { AllItems(SplitLines(ITEM + value + "\n")) }

  lemma {:induction false} SkipsAllIffItems(a: seq<string>, b: seq<string>)
    requires b != [] ==> !IsItem(b[0])
    ensures SkipItems(a + b) == b <==> AllItems(a)
  {
    if a == [] {
      assert a + b == b;
    } else if IsItem(a[0]) {
      assert (a + b)[1..] == a[1..] + b;
      SkipsAllIffItems(a[1..], b);
      assert a == [a[0]] + a[1..];
    } else {
      assert SkipItems(a + b) == a + b;
      assert |a + b| > |b|;
    }
  }

  lemma {:induction false} SkippedIsSuffix(lines: seq<string>)
    requires AllBreakFree(lines)
    ensures AllBreakFree(SkipItems(lines))
  {
    hide BreakFree, IsItem;
    if lines != [] {
      assert forall n :: 0 <= n < |lines| - 1 ==> lines[1..][n] == lines[n + 1];
      SkippedIsSuffix(lines[1..]);
    }
  }

  lemma {:induction false} ExpandedItems(values: seq<string>)
    ensures AllItems(Expand(ItemLines(values))) <==> forall n :: 0 <= n < |values| ==> StaysInBlock(values[n])
    ensures AllBreakFree(Expand(ItemLines(values)))
  {
    hide SplitLines, IsItem, BreakFree;
    if values != [] {
      var head, tail := SplitLines(ITEM + values[0] + "\n"), values[1..];
      ExpandedItems(tail);
      SplitIsBreakFree(ITEM + values[0] + "\n");
      assert ItemLines(values) == [ITEM + values[0]] + ItemLines(tail);
      assert Expand(ItemLines(values)) == head + Expand(ItemLines(tail));
      BothItems(head, Expand(ItemLines(tail)));
      assert values == [values[0]] + tail;
    }
  }

  lemma BothItems(a: seq<string>, b: seq<string>)
    ensures AllItems(a + b) <==> AllItems(a) && AllItems(b)
  {
    hide IsItem;
    if AllItems(a + b) {
      assert forall n :: 0 <= n < |a| ==> a[n] == (a + b)[n];
      assert forall n :: 0 <= n < |b| ==> b[n] == (a + b)[|a| + n];
    }
  }

  lemma BreakFreeThree(a: seq<string>, h: string, b: seq<string>, c: seq<string>)
    requires AllBreakFree(a + [h] + b + c)
    ensures AllBreakFree(a + [h]) && AllBreakFree(c)
  {
    hide BreakFree;
    var s := a + [h] + b + c;
    assert forall n :: 0 <= n <= |a| ==> (a + [h])[n] == s[n];
    assert forall n :: 0 <= n < |c| ==> c[n] == s[|a| + 1 + |b| + n];
  }

  lemma {:induction false} AfterIsNoItem(lines: seq<string>, key: string)
    ensures After(lines, key) != [] ==> !IsItem(After(lines, key)[0])
  {
    if lines != [] {
      if lines[0] == Header(key) {
        SkippedIsNoItem(lines[1..]);
      } else {
        AfterIsNoItem(lines[1..], key);
      }
    }
  }

  /** The lines a replacement is read back as. */
  lemma ReadAgain(lines: seq<string>, key: string, values: seq<string>)
    requires AllBreakFree(lines) && Header(key) in lines
    ensures SplitLines(JoinLines(Rewrite(lines, key, values)))
         == Before(lines, key) + [Header(key)] + (Expand(ItemLines(values)) + After(lines, key))
    ensures AllBreakFree(After(lines, key))
  {
    hide SplitLines, JoinLines, Rewrite, Before, After, ReadBlock, ItemLines, Header, Expand, AllBreakFree;
    var before, after := Before(lines, key) + [Header(key)], After(lines, key);
    RewriteFrame(lines, key, values);
    BreakFreeThree(Before(lines, key), Header(key), ItemLines(ReadBlock(lines, key)), after);
    JoinedFallsApart(Rewrite(lines, key, values));
    ExpandAppend(before + ItemLines(values), after);
    ExpandAppend(before, ItemLines(values));
    ExpandBreakFree(before);
    ExpandBreakFree(after);
    assert before + Expand(ItemLines(values)) + after == before + (Expand(ItemLines(values)) + after);
  }

  lemma RewriteAgain(lines: seq<string>, before: seq<string>, key: string, rest: seq<string>, values: seq<string>)
    requires lines == before + [Header(key)] + rest && Header(key) !in before
    ensures Header(key) in lines
    ensures Rewrite(lines, key, values) == before + [Header(key)] + ItemLines(values) + SkipItems(rest)
  {
    hide Header, ItemLines, SkipItems, Rewrite;
    assert lines[..|before|] == before && lines[|before| + 1..] == rest && lines[|before|] == Header(key);
    RewriteAt(lines, |before|, key, values);
    assert before + ([Header(key)] + ItemLines(values) + SkipItems(rest))
        == before + [Header(key)] + ItemLines(values) + SkipItems(rest);
  }

  lemma SameTail(front: seq<string>, a: seq<string>, b: seq<string>)
    requires AllBreakFree(a) && AllBreakFree(b)
    ensures JoinLines(front + a) == JoinLines(front + b) <==> a == b
  {
    hide SplitLines, AllBreakFree;
    JoinAppend(front, a);
    JoinAppend(front, b);
    LinesRoundTrip(a);
    LinesRoundTrip(b);
    var f, x, y := JoinLines(front), JoinLines(a), JoinLines(b);
    if f + x == f + y {
      assert x == (f + x)[|f|..] && y == (f + y)[|f|..];
    }
  }

  /** Replacing the block again changes nothing exactly when every value stays in the block: a value with a line
      break may leave lines behind it that the next replacement does not remove. */
  lemma ReplaceTwiceIff(text: string, key: string, values: seq<string>)
    requires BlockText(text, key, values).Ok?
    ensures BlockText(BlockText(text, key, values).value, key, values) == BlockText(text, key, values)
       <==> forall n :: 0 <= n < |values| ==> StaysInBlock(values[n])
  {
    hide SplitLines, JoinLines, Rewrite, Before, After, ReadBlock, ItemLines, Header, Expand, AllBreakFree;
    hide SkipItems, StaysInBlock;
    var lines := SplitLines(text);
    var before, after := Before(lines, key), After(lines, key);
    var front, again := before + [Header(key)] + ItemLines(values), Expand(ItemLines(values)) + after;
    SplitIsBreakFree(text);
    RewriteFrame(lines, key, values);
    ReadAgain(lines, key, values);
    RewriteAgain(SplitLines(BlockText(text, key, values).value), before, key, again, values);
    ExpandedItems(values);
    AfterIsNoItem(lines, key);
    BreakFreeBoth(Expand(ItemLines(values)), after);
    SkippedIsSuffix(again);
    SameTail(front, SkipItems(again), after);
    SkipsAllIffItems(Expand(ItemLines(values)), after);
  }

  lemma BreakFreeBoth(a: seq<string>, b: seq<string>)
    requires AllBreakFree(a) && AllBreakFree(b)
    ensures AllBreakFree(a + b)
  {
  }

  const TWO_LINES := "a\nb"

  lemma TwoLinesLeave()
    ensures !StaysInBlock(TWO_LINES)
  {
    hide SplitLines;
    var s := ITEM + TWO_LINES + "\n";
    assert s == (ITEM + "a") + "\n" + "b\n";
    SplitAtNewline(ITEM + "a", "b\n");
    SplitOneLine("b");
    assert "b" + "\n" == "b\n";
    SomeLine(ITEM + "a");
    var lines := SplitLines(s);
    assert lines[|lines| - 1] == "b" && !IsItem("b");
  }

  /** A value of two lines: in any text with the key, replacing the block again leaves the second line behind. */
  lemma ReplaceTwiceFails(text: string, key: string)
    requires Header(key) in SplitLines(text)
    ensures BlockText(text, key, [TWO_LINES]).Ok?
    ensures BlockText(BlockText(text, key, [TWO_LINES]).value, key, [TWO_LINES]) != BlockText(text, key, [TWO_LINES])
  {
    hide SplitLines, JoinLines, StaysInBlock, Rewrite;
    TwoLinesLeave();
    ReplaceTwiceIff(text, key, [TWO_LINES]);
    assert [TWO_LINES][0] == TWO_LINES;
  }

  /** A value on one line stays in the block. */
  lemma OneLineStays(value: string)
    requires BreakFree(value)
    ensures StaysInBlock(value)
  {
    assert ITEM[0] == ' ' && ITEM[1] == ' ' && ITEM[2] == '-' && ITEM[3] == ' ';
    SplitOneLine(ITEM + value);
  }

  // ----- values that stay in their block -----

  predicate AllStay(values: seq<string>) { forall n :: 0 <= n < |values| ==> StaysInBlock(values[n]) }

  /** The items that a block is read back with: the lines of its values. */
  function Contents(values: seq<string>): seq<string> { LeadingItems(Expand(ItemLines(values))) }

  lemma StayingContents(values: seq<string>)
    requires AllStay(values)
    ensures Expand(ItemLines(values)) == ItemLines(Contents(values))
  {
    hide StaysInBlock, SplitLines, Expand, ItemLines;
    var lines := Expand(ItemLines(values));
    ExpandedItems(values);
    ItemsSplit(lines);
    SkipsAllIffItems(lines, []);
    assert lines + [] == lines;
    assert ItemLines(Contents(values)) + [] == ItemLines(Contents(values));
  }

  /** Values on one line each are read back as they are. */
  lemma OneLineContents(values: seq<string>)
    requires AllBreakFree(values)
    ensures AllStay(values) && Contents(values) == values
  {
    hide Expand, SplitLines, StaysInBlock;
    forall n | 0 <= n < |values|
      ensures StaysInBlock(values[n]) && BreakFree(ItemLines(values)[n])
    {
      OneLineStays(values[n]);
      ItemBreakFree(values[n]);
    }
    ExpandBreakFree(ItemLines(values));
    ItemsReadBack(values, []);
    assert ItemLines(values) + [] == ItemLines(values);
  }

  lemma ItemBreakFree(value: string)
    requires BreakFree(value)
    ensures BreakFree(ITEM + value)
  {
    assert ITEM[0] == ' ' && ITEM[1] == ' ' && ITEM[2] == '-' && ITEM[3] == ' ';
  }

  /** After a replacement by values that stay in the block, the text's lines are the rewritten lines. */
  lemma ReadsAsRewritten(lines: seq<string>, key: string, values: seq<string>)
    requires AllBreakFree(lines) && Header(key) in lines && AllStay(values)
    ensures SplitLines(JoinLines(Rewrite(lines, key, values))) == Rewrite(lines, key, Contents(values))
  {
    hide SplitLines, JoinLines, Rewrite, Before, After, ItemLines, Header, Expand, AllBreakFree, AllStay, Contents;
    ReadAgain(lines, key, values);
    StayingContents(values);
    BlockRewritten(lines, key, Contents(values));
    Reassociate([], Before(lines, key) + [Header(key)], ItemLines(Contents(values)), After(lines, key), []);
    assert Before(lines, key) + [Header(key)] + (ItemLines(Contents(values)) + After(lines, key))
        == Before(lines, key) + [Header(key)] + ItemLines(Contents(values)) + After(lines, key);
  }

  // ----- lines that are no items -----

  /** Replacements never remove a line that is no item. */
  function PlainLines(lines: seq<string>): nat {
    if lines == [] then 0 else (if IsItem(lines[0]) then 0 else 1) + PlainLines(lines[1..])
  }

  lemma {:induction false} PlainJoin(a: seq<string>, b: seq<string>)
    ensures PlainLines(a + b) == PlainLines(a) + PlainLines(b)
  {
    hide IsItem;
    if a == [] {
      assert a + b == b;
    } else {
      assert (a + b)[1..] == a[1..] + b;
      PlainJoin(a[1..], b);
    }
  }

  lemma {:induction false} NoPlainIffItems(lines: seq<string>)
    ensures PlainLines(lines) == 0 <==> AllItems(lines)
  {
    hide IsItem;
    if lines != [] {
      NoPlainIffItems(lines[1..]);
      assert lines == [lines[0]] + lines[1..];
    }
  }

  lemma ItemsArePlainless(values: seq<string>)
    ensures PlainLines(ItemLines(values)) == 0
  {
    NoPlainIffItems(ItemLines(values));
  }

  lemma PlainParts(a: seq<string>, b: seq<string>, c: seq<string>)
    ensures PlainLines(a + b + c) == PlainLines(a) + PlainLines(b) + PlainLines(c)
    ensures PlainLines(a + (b + c)) == PlainLines(a) + PlainLines(b) + PlainLines(c)
  {
    hide PlainLines;
    PlainJoin(a + b, c);
    PlainJoin(a, b);
    PlainJoin(a, b + c);
    PlainJoin(b, c);
  }

  /** A replacement adds the lines of its values that are no items. */
  lemma BlockAddsPlain(text: string, key: string, values: seq<string>)
    requires BlockText(text, key, values).Ok?
    ensures PlainLines(SplitLines(BlockText(text, key, values).value))
         == PlainLines(SplitLines(text)) + PlainLines(Expand(ItemLines(values)))
    ensures PlainLines(Expand(ItemLines(values))) == 0 <==> AllStay(values)
  {
    hide SplitLines, JoinLines, Rewrite, Before, After, ReadBlock, ItemLines, Header, Expand, AllBreakFree, PlainLines;
    hide StaysInBlock, AllItems;
    var lines := SplitLines(text);
    SplitIsBreakFree(text);
    RewriteFrame(lines, key, values);
    ReadAgain(lines, key, values);
    PlainParts(Before(lines, key) + [Header(key)], ItemLines(ReadBlock(lines, key)), After(lines, key));
    PlainParts(Before(lines, key) + [Header(key)], Expand(ItemLines(values)), After(lines, key));
    ItemsArePlainless(ReadBlock(lines, key));
    ExpandedItems(values);
    NoPlainIffItems(Expand(ItemLines(values)));
  }

  // ----- scalars -----

  /** The lines that a scalar's value is split into. */
  function ValueLines(value: string): seq<string> { SplitLines(value + "\n") }

  lemma {:induction false} SplitPrefix(p: string, s: string)
    requires BreakFree(p) && SplitLines(s) != []
    ensures SplitLines(p + s) == [p + SplitLines(s)[0]] + SplitLines(s)[1..]
  {
    hide SplitLines;
    if p == [] {
      assert p + s == s && p + SplitLines(s)[0] == SplitLines(s)[0];
    } else {
      SplitPrefix(p[1..], s);
      PlainFirst(p[0], p[1..] + s);
      assert p + s == [p[0]] + (p[1..] + s);
      assert p + SplitLines(s)[0] == [p[0]] + (p[1..] + SplitLines(s)[0]);
    }
  }

  lemma ScalarLineSplits(key: string, value: string)
    requires BreakFree(key)
    ensures ValueLines(value) != []
    ensures SplitLines(ScalarLine(key, value) + "\n")
         == [ScalarLine(key, ValueLines(value)[0])] + ValueLines(value)[1..]
  {
    hide SplitLines;
    var p := Header(key) + " ";
    SomeLine(value);
    assert ScalarLine(key, value) + "\n" == p + (value + "\n");
    SplitPrefix(p, value + "\n");
  }

  /** The lines that a text reads as after its scalar was replaced. */
  lemma {:induction false} ScalarReads(lines: seq<string>, key: string, value: string)
    requires AllBreakFree(lines) && BreakFree(key)
    ensures Expand(RewriteScalar(lines, key, value)) == PutScalar(lines, key, value)
  {
    hide SplitLines, BreakFree, Header, ValueLines;
    if lines != [] {
      var head, tail := lines[0], lines[1..];
      assert forall n :: 0 <= n < |tail| ==> tail[n] == lines[n + 1];
      assert BreakFree(head);
      ScalarLineSplits(key, value);
      if Header(key) <= head {
        ExpandBreakFree(tail);
        assert ([ScalarLine(key, value)] + tail)[1..] == tail;
      } else {
        SplitOneLine(head);
        ScalarReads(tail, key, value);
        assert ([head] + RewriteScalar(tail, key, value))[1..] == RewriteScalar(tail, key, value);
      }
    }
  }

  /** The first line of the scalar's key becomes the lines of the new one. */
  function PutScalar(lines: seq<string>, key: string, value: string): seq<string> {
    if lines == [] then []
    else if Header(key) <= lines[0] && ValueLines(value) != [] then
      [ScalarLine(key, ValueLines(value)[0])] + ValueLines(value)[1..] + lines[1..]
    else [lines[0]] + PutScalar(lines[1..], key, value)
  }

  lemma {:induction false} PutOneLine(lines: seq<string>, key: string, value: string)
    requires |ValueLines(value)| == 1
    ensures PutScalar(lines, key, value) == RewriteScalar(lines, key, ValueLines(value)[0])
  {
    hide ValueLines, Header;
    if lines != [] {
      PutOneLine(lines[1..], key, value);
    }
  }

  lemma {:induction false} PutAddsPlain(lines: seq<string>, key: string, value: string)
    requires IsKey(key) && HasScalar(lines, key) && ValueLines(value) != []
    ensures PlainLines(PutScalar(lines, key, value)) == PlainLines(lines) + PlainLines(ValueLines(value)[1..])
  {
    hide ValueLines, Header, IsKey, IsItem;
    var head, tail := lines[0], lines[1..];
    assert lines == [head] + tail;
    PlainJoin([head], tail);
    HasScalarHead(head, tail, key);
    if Header(key) <= head {
      NoItemAtHead(key, ValueLines(value)[0]);
      HeadIsPlain(head, key);
      PlainParts([ScalarLine(key, ValueLines(value)[0])], ValueLines(value)[1..], tail);
    } else {
      PutAddsPlain(tail, key, value);
      PlainJoin([head], PutScalar(tail, key, value));
    }
  }

  lemma HeadIsPlain(line: string, key: string)
    requires IsKey(key) && Header(key) <= line
    ensures !IsItem(line)
  {
    if IsItem(line) {
      ItemIsNoHeader(line, key);
    }
  }

  /** How many items follow the scalar's line. */
  function Trailing(lines: seq<string>, key: string): nat {
    if lines == [] then 0
    else if Header(key) <= lines[0] then |LeadingItems(lines[1..])|
    else Trailing(lines[1..], key)
  }

  lemma {:induction false} PutTrails(lines: seq<string>, key: string, value: string)
    requires IsKey(key) && HasScalar(lines, key) && ValueLines(value) != [] && AllItems(ValueLines(value)[1..])
    ensures Trailing(PutScalar(lines, key, value), key) == Trailing(lines, key) + |ValueLines(value)[1..]|
  {
    hide ValueLines, Header, IsKey, IsItem;
    var head, tail := lines[0], lines[1..];
    assert lines == [head] + tail;
    HasScalarHead(head, tail, key);
    var put := PutScalar(lines, key, value);
    if Header(key) <= head {
      var more := ValueLines(value)[1..];
      assert put[1..] == more + tail;
      assert put[0] == ScalarLine(key, ValueLines(value)[0]);
      LeadingMore(more, tail);
    } else {
      assert put[1..] == PutScalar(tail, key, value);
      PutTrails(tail, key, value);
    }
  }

  lemma {:induction false} LeadingMore(a: seq<string>, b: seq<string>)
    requires AllItems(a)
    ensures |LeadingItems(a + b)| == |a| + |LeadingItems(b)|
  {
    hide IsItem;
    if a == [] {
      assert a + b == b;
    } else {
      assert (a + b)[1..] == a[1..] + b;
      assert a == [a[0]] + a[1..];
      LeadingMore(a[1..], b);
    }
  }

  /** Rewriting a block leaves the items behind the scalar's line alone. */
  lemma {:induction false} RewriteTrails(lines: seq<string>, k: string, v: seq<string>, key: string)
    requires IsKey(k) && IsKey(key) && Apart(k, key)
    ensures Trailing(Rewrite(lines, k, v), key) == Trailing(lines, key)
  {
    hide Header, IsKey, ItemLines, SkipItems;
    if lines != [] {
      var head, tail := lines[0], lines[1..];
      assert lines == [head] + tail;
      RewriteHead(head, tail, k, v);
      if head == Header(k) {
        assert Rewrite(lines, k, v)[1..] == ItemLines(v) + SkipItems(tail);
        TrailsBehind(v, SkipItems(tail), key);
        TrailsSkip(tail, key);
      } else {
        assert Rewrite(lines, k, v)[1..] == Rewrite(tail, k, v);
        LeadingStay(tail, k, v);
        RewriteTrails(tail, k, v, key);
      }
    }
  }

  lemma {:induction false} LeadingStay(lines: seq<string>, k: string, v: seq<string>)
    requires IsKey(k)
    ensures |LeadingItems(Rewrite(lines, k, v))| == |LeadingItems(lines)|
  {
    hide Header, IsKey, ItemLines, IsItem, SkipItems;
    if lines != [] {
      var head, tail := lines[0], lines[1..];
      assert lines == [head] + tail;
      RewriteHead(head, tail, k, v);
      HeaderIsNoItem(k);
      if IsItem(head) {
        assert Rewrite(lines, k, v)[1..] == Rewrite(tail, k, v);
        LeadingStay(tail, k, v);
      }
    }
  }

  lemma {:induction false} TrailsBehind(items: seq<string>, rest: seq<string>, key: string)
    requires IsKey(key)
    ensures Trailing(ItemLines(items) + rest, key) == Trailing(rest, key)
  {
    hide Header, IsKey;
    if items == [] {
      assert ItemLines(items) + rest == rest;
    } else {
      var all := ItemLines(items) + rest;
      assert all[1..] == ItemLines(items[1..]) + rest;
      assert IsItem(all[0]);
      ItemIsNoHeader(all[0], key);
      TrailsBehind(items[1..], rest, key);
    }
  }

  lemma {:induction false} TrailsSkip(lines: seq<string>, key: string)
    requires IsKey(key)
    ensures Trailing(SkipItems(lines), key) == Trailing(lines, key)
  {
    hide Header, IsKey, IsItem;
    if lines != [] && IsItem(lines[0]) {
      ItemIsNoHeader(lines[0], key);
      TrailsSkip(lines[1..], key);
    }
  }
}
