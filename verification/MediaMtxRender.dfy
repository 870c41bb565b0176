/** The whole rendering of `installer/lib/render_mediamtx_config.py`, from text to text. */
module MediaMtxRender {
  import opened Common
  import opened Text
  import opened MediaMtx
  import opened MediaMtxBlocks
  import opened MediaMtxTwice

  const LIST_KEYS := ["apiAllowOrigins", "webrtcAllowOrigins", "hlsAllowOrigins", "webrtcAdditionalHosts"]
  const SCALAR_KEY := "authJWTJWKS"

  datatype Inputs = Inputs(frontendOrigins: seq<string>, webrtcHosts: seq<string>, jwksUrl: Option<string>)

  function NormalizeAll(origins: seq<string>): seq<string> {
    seq(|origins|, i requires 0 <= i < |origins| => NormalizeOrigin(origins[i]))
  }

  function ValuesFor(i: Inputs, key: string): seq<string> {
    if key == "webrtcAdditionalHosts" then Dedupe(i.webrtcHosts) else Dedupe(NormalizeAll(i.frontendOrigins))
  }

  function RenderLists(i: Inputs, keys: seq<string>, text: string): Result<string> {
    if keys == [] then Ok(text)
    else
      var done := RenderLists(i, keys[..|keys| - 1], text);
      if done.Ok? then BlockText(done.value, keys[|keys| - 1], ValuesFor(i, keys[|keys| - 1])) else done
  }

  /** `None` and the empty string leave the scalar alone. */
  predicate SetsScalar(i: Inputs) { i.jwksUrl.Some? && i.jwksUrl.value != "" }

  function ScalarValue(i: Inputs): string
    requires SetsScalar(i)
  {
    StripRight(IsSlash, i.jwksUrl.value)
  }

  function Render(i: Inputs, text: string): Result<string> {
    var lists := RenderLists(i, LIST_KEYS, text);
    if lists.Ok? && SetsScalar(i) then ScalarText(lists.value, SCALAR_KEY, ScalarValue(i)) else lists
  }

  method RenderConfig(i: Inputs, source: string) returns (r: Result<string>)
    ensures r == Render(i, source)
  {
    hide Dedupe, NormalizeOrigin, BlockText, ScalarText;
    var normalized: seq<string> := [];
    for n := 0 to |i.frontendOrigins|
      invariant |normalized| == n && forall j :: 0 <= j < n ==> normalized[j] == NormalizeOrigin(i.frontendOrigins[j])
    {
      normalized := normalized + [NormalizeOrigin(i.frontendOrigins[n])];
    }
    assert normalized == NormalizeAll(i.frontendOrigins);
    var origins := DedupePreserveOrder(normalized);
    var hosts := DedupePreserveOrder(i.webrtcHosts);
    var text := source;
    for n := 0 to |LIST_KEYS|
      invariant RenderLists(i, LIST_KEYS[..n], source) == Ok(text)
    {
      var key := LIST_KEYS[n];
      var values := if key == "webrtcAdditionalHosts" then hosts else origins;
      assert LIST_KEYS[..n + 1][..n] == LIST_KEYS[..n];
      r := ReplaceListBlock(text, key, values);
      assert r == RenderLists(i, LIST_KEYS[..n + 1], source);
      if !r.Ok? {
        StopsEarly(i, LIST_KEYS, n + 1, source);
        return;
      }
      text := r.value;
    }
    assert LIST_KEYS[..|LIST_KEYS|] == LIST_KEYS;
    if i.jwksUrl.Some? && i.jwksUrl.value != "" {
      r := ReplaceScalar(text, SCALAR_KEY, StripRight(IsSlash, i.jwksUrl.value));
    } else {
      r := Ok(text);
    }
  }

  lemma {:induction false} StopsEarly(i: Inputs, keys: seq<string>, n: nat, text: string)
    requires n <= |keys| && !RenderLists(i, keys[..n], text).Ok?
    ensures RenderLists(i, keys, text) == RenderLists(i, keys[..n], text)
  {
    if n == |keys| {
      assert keys[..n] == keys;
    } else {
      assert keys[..|keys| - 1][..n] == keys[..n];
      StopsEarly(i, keys[..|keys| - 1], n, text);
    }
  }

  // ----- when rendering succeeds -----

  /** One of the first `n` values lists brings the header of a key along, as a line of its own. */
  predicate BringsHeader(i: Inputs, keys: seq<string>, n: int, key: string) {
    exists m :: 0 <= m < n && m < |keys| && Header(key) in Expand(ItemLines(ValuesFor(i, keys[m])))
  }

  predicate BringsScalar(i: Inputs, keys: seq<string>, n: int, key: string) {
    exists m :: 0 <= m < n && m < |keys| && HasScalar(Expand(ItemLines(ValuesFor(i, keys[m]))), key)
  }

  /** Every key has values, and a block in the text or in what was rendered before it. */
  predicate Available(i: Inputs, keys: seq<string>, lines: seq<string>) {
    forall n :: 0 <= n < |keys| ==>
      ValuesFor(i, keys[n]) != [] && (Header(keys[n]) in lines || BringsHeader(i, keys, n, keys[n]))
  }

  predicate AllKeys(keys: seq<string>) { forall n :: 0 <= n < |keys| ==> IsKey(keys[n]) }

  /** A replacement brings the headers and scalars of its values' lines, and removes none. */
  lemma BlockBrings(text: string, key: string, values: seq<string>, l: string)
    requires BlockText(text, key, values).Ok? && IsKey(l)
    ensures Header(l) in SplitLines(BlockText(text, key, values).value) <==>
            Header(l) in SplitLines(text) || Header(l) in Expand(ItemLines(values))
    ensures HasScalar(SplitLines(BlockText(text, key, values).value), l) <==>
            HasScalar(SplitLines(text), l) || HasScalar(Expand(ItemLines(values)), l)
  {
    hide SplitLines, JoinLines, Rewrite, Before, After, ReadBlock, ItemLines, Header, Expand, AllBreakFree, HasScalar;
    hide IsKey;
    var lines, added := SplitLines(text), Expand(ItemLines(values));
    var before, gone, after := Before(lines, key), ItemLines(ReadBlock(lines, key)), After(lines, key);
    SplitIsBreakFree(text);
    RewriteFrame(lines, key, values);
    ReadAgain(lines, key, values);
    assert before + [Header(key)] + (added + after) == before + [Header(key)] + added + after;
    InParts(Header(l), before, Header(key), gone, after);
    InParts(Header(l), before, Header(key), added, after);
    ScalarInParts(l, before, Header(key), gone, after);
    ScalarInParts(l, before, Header(key), added, after);
    NoHeaderAmongItems(ReadBlock(lines, key), l);
    NoScalarAmongItems(ReadBlock(lines, key), l);
  }

  lemma {:induction false} ListsBring(i: Inputs, keys: seq<string>, text: string, l: string)
    requires RenderLists(i, keys, text).Ok? && IsKey(l)
    ensures Header(l) in SplitLines(RenderLists(i, keys, text).value) <==>
            Header(l) in SplitLines(text) || BringsHeader(i, keys, |keys|, l)
    ensures HasScalar(SplitLines(RenderLists(i, keys, text).value), l) <==>
            HasScalar(SplitLines(text), l) || BringsScalar(i, keys, |keys|, l)
  {
    hide SplitLines, Header, Expand, ItemLines, HasScalar, IsKey, BlockText, ValuesFor, BringsHeader, BringsScalar;
    if keys == [] {
      NothingBrought(i, l);
    } else {
      var front, last := keys[..|keys| - 1], keys[|keys| - 1];
      ListsBring(i, front, text, l);
      BlockBrings(RenderLists(i, front, text).value, last, ValuesFor(i, last), l);
      BroughtByLast(i, front, last, l);
      assert keys == front + [last];
    }
  }

  lemma NothingBrought(i: Inputs, l: string)
    ensures !BringsHeader(i, [], 0, l) && !BringsScalar(i, [], 0, l)
  {
  }

  lemma BroughtByLast(i: Inputs, front: seq<string>, last: string, l: string)
    ensures BringsHeader(i, front + [last], |front| + 1, l) <==>
            BringsHeader(i, front, |front|, l) || Header(l) in Expand(ItemLines(ValuesFor(i, last)))
    ensures BringsScalar(i, front + [last], |front| + 1, l) <==>
            BringsScalar(i, front, |front|, l) || HasScalar(Expand(ItemLines(ValuesFor(i, last))), l)
    ensures BringsHeader(i, front + [last], |front|, l) <==> BringsHeader(i, front, |front|, l)
  {
    hide Expand, ItemLines, ValuesFor, Header, HasScalar;
    var keys := front + [last];
    assert keys[|front|] == last && forall m :: 0 <= m < |front| ==> keys[m] == front[m];
  }

  lemma AvailableSnoc(i: Inputs, front: seq<string>, last: string, lines: seq<string>)
    ensures Available(i, front + [last], lines) <==>
            && Available(i, front, lines) && ValuesFor(i, last) != []
            && (Header(last) in lines || BringsHeader(i, front, |front|, last))
  {
    hide Expand, ItemLines, ValuesFor, Header;
    var keys := front + [last];
    assert forall m :: 0 <= m < |front| ==> keys[m] == front[m];
    assert keys[|front|] == last;
    forall n | 0 <= n <= |front|
      ensures BringsHeader(i, keys, n, keys[n]) <==> BringsHeader(i, front, n, keys[n])
    {
    }
  }

  lemma {:induction false} ListsSucceedIff(i: Inputs, keys: seq<string>, text: string)
    requires AllKeys(keys)
    ensures RenderLists(i, keys, text).Ok? <==> Available(i, keys, SplitLines(text))
  {
    if keys != [] {
      hide SplitLines, JoinLines, Header, ValuesFor, Available, BringsHeader, Rewrite, IsKey;
      var front, last := keys[..|keys| - 1], keys[|keys| - 1];
      ListsSucceedIff(i, front, text);
      assert keys == front + [last];
      AvailableSnoc(i, front, last, SplitLines(text));
      if RenderLists(i, front, text).Ok? {
        ListsBring(i, front, text, last);
      }
    }
  }

  /** Rendering succeeds exactly when every list has values, every list key a block and, if it is to be set, the scalar
      a line: in the text, or among the lines that values rendered before bring along. */
  lemma RenderSucceedsIff(i: Inputs, text: string)
    ensures Render(i, text).Ok? <==>
            && Available(i, LIST_KEYS, SplitLines(text))
            && (SetsScalar(i) ==>
                  HasScalar(SplitLines(text), SCALAR_KEY) || BringsScalar(i, LIST_KEYS, |LIST_KEYS|, SCALAR_KEY))
  {
    hide SplitLines, JoinLines, Available, BringsScalar, HasScalar, RenderLists, IsKey, RewriteScalar;
    KeysAreApart();
    ListsSucceedIff(i, LIST_KEYS, text);
    if RenderLists(i, LIST_KEYS, text).Ok? {
      ListsBring(i, LIST_KEYS, text, SCALAR_KEY);
    }
  }

  // ----- values that stay where they are put -----

  /** Every line of every list value is again an item, and the scalar's value is one line. */
  predicate Contained(i: Inputs) {
    && (forall n :: 0 <= n < |LIST_KEYS| ==> AllStay(ValuesFor(i, LIST_KEYS[n])))
    && (SetsScalar(i) ==> |ValueLines(ScalarValue(i))| == 1)
  }

  predicate ListsStay(i: Inputs, keys: seq<string>) {
    forall n :: 0 <= n < |keys| ==> AllStay(ValuesFor(i, keys[n]))
  }

  function ContentsFor(i: Inputs, key: string): seq<string> { Contents(ValuesFor(i, key)) }

  function RewriteAll(i: Inputs, keys: seq<string>, lines: seq<string>): seq<string> {
    if keys == [] then lines
    else Rewrite(RewriteAll(i, keys[..|keys| - 1], lines), keys[|keys| - 1], ContentsFor(i, keys[|keys| - 1]))
  }

  lemma BreakFreeParts(a: seq<string>, h: string, b: seq<string>, c: seq<string>)
    ensures AllBreakFree(a + [h] + b + c) <==> AllBreakFree(a) && BreakFree(h) && AllBreakFree(b) && AllBreakFree(c)
  {
    hide BreakFree;
    var s := a + [h] + b + c;
    if AllBreakFree(s) {
      assert forall n :: 0 <= n < |a| ==> a[n] == s[n];
      assert h == s[|a|];
      assert forall n :: 0 <= n < |b| ==> b[n] == s[|a| + 1 + n];
      assert forall n :: 0 <= n < |c| ==> c[n] == s[|a| + 1 + |b| + n];
    }
  }

  lemma ItemsBreakFree(values: seq<string>)
    requires AllBreakFree(values)
    ensures AllBreakFree(ItemLines(values))
  {
    forall n | 0 <= n < |values|
      ensures BreakFree(ItemLines(values)[n])
    {
      ItemBreakFree(values[n]);
    }
  }

  lemma RewriteBreakFree(lines: seq<string>, key: string, values: seq<string>)
    requires AllBreakFree(lines) && AllBreakFree(values)
    ensures AllBreakFree(Rewrite(lines, key, values))
  {
    hide Rewrite, Before, After, ReadBlock, ItemLines, AllBreakFree, BreakFree;
    if Header(key) in lines {
      RewriteFrame(lines, key, values);
      ItemsBreakFree(values);
      BreakFreeParts(Before(lines, key), Header(key), ItemLines(values), After(lines, key));
      BreakFreeParts(Before(lines, key), Header(key), ItemLines(ReadBlock(lines, key)), After(lines, key));
    } else {
      NoBlockNoChange(lines, key, values);
    }
  }

  lemma ContentsBreakFree(values: seq<string>)
    requires AllStay(values)
    ensures AllBreakFree(Contents(values))
  {
    hide BreakFree, SplitLines, Expand;
    ExpandedItems(values);
    StayingContents(values);
    forall n | 0 <= n < |Contents(values)|
      ensures BreakFree(Contents(values)[n])
    {
      ItemTailBreakFree(Contents(values)[n]);
      assert BreakFree(ItemLines(Contents(values))[n]);
    }
  }

  lemma ItemTailBreakFree(value: string)
    ensures BreakFree(ITEM + value) ==> BreakFree(value)
  {
    assert forall n :: 0 <= n < |value| ==> (ITEM + value)[|ITEM| + n] == value[n];
  }

  /** Rendering lists whose values stay in their blocks is rewriting the lines; only the last block is written with the
      values as they are given. */
  lemma {:induction false} ListsOnLines(i: Inputs, keys: seq<string>, text: string)
    requires ListsStay(i, keys) && RenderLists(i, keys, text).Ok?
    ensures SplitLines(RenderLists(i, keys, text).value) == RewriteAll(i, keys, SplitLines(text))
    ensures AllBreakFree(RewriteAll(i, keys, SplitLines(text)))
    ensures keys != [] ==>
              var front, last := keys[..|keys| - 1], keys[|keys| - 1];
              RenderLists(i, keys, text).value
              == JoinLines(Rewrite(RewriteAll(i, front, SplitLines(text)), last, ValuesFor(i, last)))
  {
    hide Header, Rewrite, SplitLines, JoinLines, ValuesFor, AllBreakFree, AllStay, Contents;
    SplitIsBreakFree(text);
    if keys != [] {
      var front, last := keys[..|keys| - 1], keys[|keys| - 1];
      assert forall n :: 0 <= n < |front| ==> front[n] == keys[n];
      assert AllStay(ValuesFor(i, keys[|keys| - 1]));
      ListsOnLines(i, front, text);
      var lines := RewriteAll(i, front, SplitLines(text));
      ReadsAsRewritten(lines, last, ValuesFor(i, last));
      ContentsBreakFree(ValuesFor(i, last));
      RewriteBreakFree(lines, last, Contents(ValuesFor(i, last)));
    }
  }

  // ----- rendering twice -----

  predicate Settled(lines: seq<string>, key: string, values: seq<string>) { Rewrite(lines, key, values) == lines }

  lemma {:induction false} AllSettled(i: Inputs, keys: seq<string>, lines: seq<string>, n: nat)
    requires AllKeys(keys) && Distinct(keys) && n < |keys|
    ensures Settled(RewriteAll(i, keys, lines), keys[n], ContentsFor(i, keys[n]))
  {
    hide Rewrite, ContentsFor, IsKey;
    var front, last := keys[..|keys| - 1], keys[|keys| - 1];
    var before := RewriteAll(i, front, lines);
    if n == |front| {
      RewriteTwice(before, last, ContentsFor(i, last), ContentsFor(i, last));
    } else {
      AllSettled(i, front, lines, n);
      RewritesCommute(before, last, ContentsFor(i, last), keys[n], ContentsFor(i, keys[n]));
    }
  }

  lemma {:induction false} SettledStays(i: Inputs, keys: seq<string>, lines: seq<string>)
    requires forall n :: 0 <= n < |keys| ==> Settled(lines, keys[n], ContentsFor(i, keys[n]))
    ensures RewriteAll(i, keys, lines) == lines
  {
    hide Rewrite, ContentsFor;
    if keys != [] {
      var front, last := keys[..|keys| - 1], keys[|keys| - 1];
      assert forall n :: 0 <= n < |front| ==> front[n] == keys[n];
      SettledStays(i, front, lines);
      assert Settled(lines, keys[|keys| - 1], ContentsFor(i, keys[|keys| - 1]));
    }
  }

  lemma KeysAreKeys()
    ensures AllKeys(LIST_KEYS) && IsKey(SCALAR_KEY)
  {
    assert IsKey("apiAllowOrigins") && IsKey("webrtcAllowOrigins");
    assert IsKey("hlsAllowOrigins") && IsKey("webrtcAdditionalHosts");
  }

  lemma KeysAreApart()
    ensures AllKeys(LIST_KEYS) && Distinct(LIST_KEYS) && IsKey(SCALAR_KEY)
    ensures forall n :: 0 <= n < |LIST_KEYS| ==> Apart(LIST_KEYS[n], SCALAR_KEY)
  {
    hide BreakFree, IsKey;
    KeysAreKeys();
    var k := LIST_KEYS;
    assert k[0][0] == 'a' && k[0][1] == 'p' && k[1][0] == 'w' && k[2][0] == 'h' && k[3][0] == 'w';
    assert |k[1]| == 18 && |k[3]| == 21;
    NotBelow(k[0], SCALAR_KEY, 1);
    NotBelow(k[1], SCALAR_KEY, 0);
    NotBelow(k[2], SCALAR_KEY, 0);
    NotBelow(k[3], SCALAR_KEY, 0);
  }

  lemma NotBelow(k: string, scalar: string, n: nat)
    requires n < |k| && n < |scalar| && k[n] != scalar[n]
    ensures Apart(k, scalar)
  {
    assert Header(k)[n] == k[n] && Header(scalar)[n] == scalar[n];
  }

  function ScalarContents(i: Inputs): string
    requires SetsScalar(i)
  {
    var lines := ValueLines(ScalarValue(i));
    if lines == [] then "" else lines[0]
  }

  /** The lines that the rendered text reads as. */
  function FinalLines(i: Inputs, lines: seq<string>): seq<string> {
    var lists := RewriteAll(i, LIST_KEYS, lines);
    if SetsScalar(i) then RewriteScalar(lists, SCALAR_KEY, ScalarContents(i)) else lists
  }

  /** The rendered text: what is written last is written as given. */
  function FinalText(i: Inputs, lines: seq<string>): string {
    var front, last := LIST_KEYS[..|LIST_KEYS| - 1], LIST_KEYS[|LIST_KEYS| - 1];
    if SetsScalar(i) then JoinLines(RewriteScalar(RewriteAll(i, LIST_KEYS, lines), SCALAR_KEY, ScalarValue(i)))
    else JoinLines(Rewrite(RewriteAll(i, front, lines), last, ValuesFor(i, last)))
  }

  /** With contained inputs the rendered text is a function of the lines, and reads as the final lines. */
  lemma RenderOnLines(i: Inputs, text: string)
    requires Contained(i) && Render(i, text).Ok?
    ensures Render(i, text).value == FinalText(i, SplitLines(text))
    ensures SplitLines(Render(i, text).value) == FinalLines(i, SplitLines(text))
  {
    hide HasScalar, SplitLines, JoinLines, AllBreakFree, RewriteAll, RenderLists, RewriteScalar, AllStay, ValueLines;
    hide BreakFree, Distinct, Expand, PutScalar;
    KeysAreApart();
    ListsOnLines(i, LIST_KEYS, text);
    var lists := RewriteAll(i, LIST_KEYS, SplitLines(text));
    if SetsScalar(i) {
      JoinedFallsApart(RewriteScalar(lists, SCALAR_KEY, ScalarValue(i)));
      ScalarReads(lists, SCALAR_KEY, ScalarValue(i));
      PutOneLine(lists, SCALAR_KEY, ScalarValue(i));
    }
  }

  lemma FinalIsSettled(i: Inputs, lines: seq<string>, n: nat)
    requires n < |LIST_KEYS|
    ensures Settled(FinalLines(i, lines), LIST_KEYS[n], ContentsFor(i, LIST_KEYS[n]))
  {
    hide Rewrite, RewriteAll, RewriteScalar, ContentsFor, IsKey, Apart, Distinct, ScalarContents;
    KeysAreApart();
    AllSettled(i, LIST_KEYS, lines, n);
    if SetsScalar(i) {
      var lists, values := RewriteAll(i, LIST_KEYS, lines), ContentsFor(i, LIST_KEYS[n]);
      ScalarCommutes(lists, LIST_KEYS[n], values, SCALAR_KEY, ScalarContents(i));
    }
  }

  /** Rendering the final lines gives the same text. */
  lemma FinalTextAgain(i: Inputs, lines: seq<string>)
    ensures FinalText(i, FinalLines(i, lines)) == FinalText(i, lines)
  {
    hide Rewrite, RewriteAll, RewriteScalar, IsKey, Apart, Distinct, Settled, JoinLines, ScalarContents;
    KeysAreApart();
    var lists, final := RewriteAll(i, LIST_KEYS, lines), FinalLines(i, lines);
    var front, last := LIST_KEYS[..|LIST_KEYS| - 1], LIST_KEYS[|LIST_KEYS| - 1];
    forall n: nat | n < |LIST_KEYS|
      ensures Settled(final, LIST_KEYS[n], ContentsFor(i, LIST_KEYS[n]))
    {
      FinalIsSettled(i, lines, n);
    }
    SettledStays(i, LIST_KEYS, final);
    assert forall n :: 0 <= n < |front| ==> front[n] == LIST_KEYS[n];
    SettledStays(i, front, final);
    if SetsScalar(i) {
      ScalarFacts(lists, SCALAR_KEY, ScalarContents(i), ScalarValue(i), LIST_KEYS[0]);
    } else {
      LastRewrite(i, LIST_KEYS, lines);
      RewriteTwice(RewriteAll(i, front, lines), last, ContentsFor(i, last), ValuesFor(i, last));
    }
  }

  lemma LastRewrite(i: Inputs, keys: seq<string>, lines: seq<string>)
    requires keys != []
    ensures RewriteAll(i, keys, lines)
         == Rewrite(RewriteAll(i, keys[..|keys| - 1], lines), keys[|keys| - 1], ContentsFor(i, keys[|keys| - 1]))
  {
  }

  lemma {:induction false} RewriteAllKeeps(i: Inputs, keys: seq<string>, lines: seq<string>, l: string)
    requires IsKey(l)
    ensures Header(l) in RewriteAll(i, keys, lines) <==> Header(l) in lines
    ensures HasScalar(RewriteAll(i, keys, lines), l) <==> HasScalar(lines, l)
  {
    hide Header, Rewrite, HasScalar, ContentsFor, IsKey;
    if keys != [] {
      var front, last := keys[..|keys| - 1], keys[|keys| - 1];
      RewriteAllKeeps(i, front, lines, l);
      RewriteKeepsHeaders(RewriteAll(i, front, lines), last, ContentsFor(i, last), l);
      RewriteKeepsScalar(RewriteAll(i, front, lines), last, ContentsFor(i, last), l);
    }
  }

  lemma FinalKeeps(i: Inputs, lines: seq<string>, n: nat)
    requires n < |LIST_KEYS|
    ensures Header(LIST_KEYS[n]) in FinalLines(i, lines) <==> Header(LIST_KEYS[n]) in lines
    ensures HasScalar(FinalLines(i, lines), SCALAR_KEY) <==> HasScalar(lines, SCALAR_KEY)
  {
    hide RewriteAll, RewriteScalar, IsKey, Apart, Distinct, HasScalar, Header, ScalarContents;
    KeysAreApart();
    RewriteAllKeeps(i, LIST_KEYS, lines, SCALAR_KEY);
    RewriteAllKeeps(i, LIST_KEYS, lines, LIST_KEYS[n]);
    if SetsScalar(i) {
      var lists := RewriteAll(i, LIST_KEYS, lines);
      ScalarFacts(lists, SCALAR_KEY, ScalarContents(i), ScalarContents(i), LIST_KEYS[n]);
    }
  }

  /** What was available stays so in the rendered text. */
  lemma RendersAgain(i: Inputs, text: string)
    requires Contained(i) && Render(i, text).Ok?
    ensures Render(i, Render(i, text).value).Ok?
  {
    hide Render, FinalLines, FinalText, SplitLines, HasScalar, ValuesFor, Header, BringsHeader, BringsScalar, Contained;
    var lines, out := SplitLines(text), Render(i, text).value;
    RenderOnLines(i, text);
    RenderSucceedsIff(i, text);
    RenderSucceedsIff(i, out);
    forall n: nat | n < |LIST_KEYS|
      ensures Header(LIST_KEYS[n]) in SplitLines(out) <==> Header(LIST_KEYS[n]) in lines
      ensures HasScalar(SplitLines(out), SCALAR_KEY) <==> HasScalar(lines, SCALAR_KEY)
    {
      FinalKeeps(i, lines, n);
    }
    FinalKeeps(i, lines, 0);
  }

  // ----- inputs that are not contained -----

  /** Rendering lists adds the lines of their values that are no items. */
  lemma {:induction false} ListsAddPlain(i: Inputs, keys: seq<string>, text: string)
    requires RenderLists(i, keys, text).Ok?
    ensures PlainLines(SplitLines(RenderLists(i, keys, text).value)) >= PlainLines(SplitLines(text))
    ensures PlainLines(SplitLines(RenderLists(i, keys, text).value)) == PlainLines(SplitLines(text)) <==>
            ListsStay(i, keys)
  {
    hide SplitLines, PlainLines, ValuesFor, AllStay, BlockText;
    if keys != [] {
      var front, last := keys[..|keys| - 1], keys[|keys| - 1];
      ListsAddPlain(i, front, text);
      BlockAddsPlain(RenderLists(i, front, text).value, last, ValuesFor(i, last));
      assert forall n :: 0 <= n < |front| ==> front[n] == keys[n];
      StaySnoc(i, keys);
    }
  }

  lemma StaySnoc(i: Inputs, keys: seq<string>)
    requires keys != []
    ensures ListsStay(i, keys) <==>
            ListsStay(i, keys[..|keys| - 1]) && AllStay(ValuesFor(i, keys[|keys| - 1]))
  {
    hide ValuesFor, AllStay;
    var front := keys[..|keys| - 1];
    if ListsStay(i, keys) {
      assert forall n :: 0 <= n < |front| ==> front[n] == keys[n];
    }
    if ListsStay(i, front) {
      assert forall n :: 0 <= n < |front| ==> AllStay(ValuesFor(i, front[n])) && front[n] == keys[n];
    }
  }

  lemma {:induction false} ListsTrail(i: Inputs, keys: seq<string>, lines: seq<string>)
    requires AllKeys(keys) && forall n :: 0 <= n < |keys| ==> Apart(keys[n], SCALAR_KEY)
    ensures Trailing(RewriteAll(i, keys, lines), SCALAR_KEY) == Trailing(lines, SCALAR_KEY)
  {
    hide Rewrite, ContentsFor, IsKey, Apart, Trailing;
    if keys != [] {
      var front, last := keys[..|keys| - 1], keys[|keys| - 1];
      assert forall n :: 0 <= n < |front| ==> front[n] == keys[n];
      ListsTrail(i, front, lines);
      KeysAreApart();
      RewriteTrails(RewriteAll(i, front, lines), last, ContentsFor(i, last), SCALAR_KEY);
    }
  }

  lemma ScalarKeyBreakFree()
    ensures BreakFree(SCALAR_KEY)
  {
    KeysAreKeys();
  }

  /** A text that rendering leaves as it is was rendered from contained inputs. */
  lemma FixedMeansContained(i: Inputs, text: string)
    requires Render(i, text) == Ok(text)
    ensures Contained(i)
  {
    hide SplitLines, JoinLines, PlainLines, AllStay, RenderLists, ValueLines, HasScalar, Trailing, RewriteScalar, IsKey;
    hide Expand, PutScalar, BreakFree, AllBreakFree, RewriteAll, Distinct;
    var lists := RenderLists(i, LIST_KEYS, text).value;
    ListsAddPlain(i, LIST_KEYS, text);
    if SetsScalar(i) {
      KeysAreApart();
      ScalarKeyBreakFree();
      var value := ScalarValue(i);
      ScalarLineSplits(SCALAR_KEY, value);
      SplitIsBreakFree(lists);
      ScalarReads(SplitLines(lists), SCALAR_KEY, value);
      JoinedFallsApart(RewriteScalar(SplitLines(lists), SCALAR_KEY, value));
      assert SplitLines(text) == PutScalar(SplitLines(lists), SCALAR_KEY, value);
      PutAddsPlain(SplitLines(lists), SCALAR_KEY, value);
      NoPlainIffItems(ValueLines(value)[1..]);
      ListsOnLines(i, LIST_KEYS, text);
      ListsTrail(i, LIST_KEYS, SplitLines(text));
      PutTrails(SplitLines(lists), SCALAR_KEY, value);
    }
  }

  /** Rendering the rendered text with the same inputs changes nothing exactly when the inputs are contained; then every
      block reads back the lines of its values, which are the values themselves when they hold no line break. */
  lemma RenderTwice(i: Inputs, text: string)
    requires Render(i, text).Ok?
    ensures Render(i, Render(i, text).value) == Render(i, text) <==> Contained(i)
    ensures Contained(i) ==> forall n :: 0 <= n < |LIST_KEYS| ==>
              ReadBlock(SplitLines(Render(i, text).value), LIST_KEYS[n]) == ContentsFor(i, LIST_KEYS[n])
    ensures forall n :: 0 <= n < |LIST_KEYS| && AllBreakFree(ValuesFor(i, LIST_KEYS[n])) ==>
              ContentsFor(i, LIST_KEYS[n]) == ValuesFor(i, LIST_KEYS[n])
  {
    hide Render, FinalLines, FinalText, SplitLines, ValuesFor, Rewrite, ReadBlock, Contained, Header, AllBreakFree;
    var out, lines := Render(i, text).value, SplitLines(text);
    if Render(i, out) == Render(i, text) {
      FixedMeansContained(i, out);
    }
    if Contained(i) {
      RenderOnLines(i, text);
      RendersAgain(i, text);
      RenderOnLines(i, out);
      FinalTextAgain(i, lines);
      forall n: nat | n < |LIST_KEYS|
        ensures ReadBlock(SplitLines(out), LIST_KEYS[n]) == ContentsFor(i, LIST_KEYS[n])
      {
        BlockReadsBack(i, text, n);
      }
    }
    forall n: nat | n < |LIST_KEYS| && AllBreakFree(ValuesFor(i, LIST_KEYS[n]))
      ensures ContentsFor(i, LIST_KEYS[n]) == ValuesFor(i, LIST_KEYS[n])
    {
      OneLineContents(ValuesFor(i, LIST_KEYS[n]));
    }
  }

  /** A host of two lines: any text that renders is rendered differently the second time. */
  lemma RenderTwiceFails(i: Inputs, text: string)
    requires i.webrtcHosts == [TWO_LINES] && Render(i, text).Ok?
    ensures Render(i, Render(i, text).value) != Render(i, text)
  {
    hide Render, StaysInBlock, Strip, SplitLines;
    RenderTwice(i, text);
    TwoLinesLeave();
    StripFacts(MediaMtx.IsSpace, TWO_LINES);
    assert Trim(TWO_LINES) == TWO_LINES;
    DedupeFixed([TWO_LINES]);
    assert ValuesFor(i, LIST_KEYS[3]) == [TWO_LINES];
    assert !AllStay(ValuesFor(i, LIST_KEYS[3]));
  }

  /** Such inputs exist: the keys alone make a text that renders. */
  lemma TwoLinesRender() returns (i: Inputs, text: string)
    ensures i.webrtcHosts == [TWO_LINES] && Render(i, text).Ok?
  {
    hide Render, SplitLines, JoinLines, Strip, Header, NormalizeOrigin, BringsHeader, BringsScalar, HasScalar;
    hide BreakFree;
    i := Inputs(["a"], [TWO_LINES], None);
    var lines := [Header(LIST_KEYS[0]), Header(LIST_KEYS[1]), Header(LIST_KEYS[2]), Header(LIST_KEYS[3])];
    text := JoinLines(lines);
    HeadersBreakFree();
    LinesRoundTrip(lines);
    StripFacts(MediaMtx.IsSpace, TWO_LINES);
    DedupeFixed([TWO_LINES]);
    PlainOrigin();
    RenderSucceedsIff(i, text);
  }

  lemma HeadersBreakFree()
    ensures forall n :: 0 <= n < |LIST_KEYS| ==> BreakFree(Header(LIST_KEYS[n]))
  {
    KeysAreKeys();
  }

  lemma PlainOrigin()
    ensures Dedupe(NormalizeAll(["a"])) == ["a"]
  {
    hide Strip, StripRight, HasScheme;
    StripFacts(MediaMtx.IsSpace, "a");
    assert NormalizeAll(["a"]) == ["a"];
    DedupeFixed(["a"]);
  }

  lemma BlockReadsBack(i: Inputs, text: string, n: nat)
    requires Contained(i) && Render(i, text).Ok? && n < |LIST_KEYS|
    ensures ReadBlock(SplitLines(Render(i, text).value), LIST_KEYS[n]) == ContentsFor(i, LIST_KEYS[n])
  {
    hide Render, FinalLines, FinalText, SplitLines, ValuesFor, Rewrite, ReadBlock, Header, ContentsFor, ListsStay;
    hide AllStay, ValueLines;
    var final := FinalLines(i, SplitLines(text));
    RenderOnLines(i, text);
    FinalIsSettled(i, SplitLines(text), n);
    FinalKeeps(i, SplitLines(text), n);
    HeadersAreThere(i, text, n);
    RewriteReadsBack(final, LIST_KEYS[n], ContentsFor(i, LIST_KEYS[n]));
  }

  lemma HeadersAreThere(i: Inputs, text: string, n: nat)
    requires Contained(i) && Render(i, text).Ok? && n < |LIST_KEYS|
    ensures Header(LIST_KEYS[n]) in SplitLines(text)
  {
    hide Render, SplitLines, ValuesFor, Header, AllStay, ValueLines, HasScalar, BringsScalar, Expand, ItemLines, IsKey;
    RenderSucceedsIff(i, text);
    KeysAreApart();
    if BringsHeader(i, LIST_KEYS, n, LIST_KEYS[n]) {
      var m :| 0 <= m < n && m < |LIST_KEYS|
               && Header(LIST_KEYS[n]) in Expand(ItemLines(ValuesFor(i, LIST_KEYS[m])));
      StayingContents(ValuesFor(i, LIST_KEYS[m]));
      NoHeaderAmongItems(Contents(ValuesFor(i, LIST_KEYS[m])), LIST_KEYS[n]);
    }
  }
}
