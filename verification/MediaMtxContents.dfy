/** What the rendered configuration says, key by key and in the literal lines of the file:
    `installer/lib/render_mediamtx_config.py`. */
module MediaMtxContents {
  import opened Common
  import opened Text
  import opened MediaMtx
  import opened MediaMtxBlocks
  import opened MediaMtxRender
  import opened MediaMtxTwice

  function Origins(i: Inputs): seq<string> { Dedupe(NormalizeAll(i.frontendOrigins)) }

  function Hosts(i: Inputs): seq<string> { Dedupe(i.webrtcHosts) }

  /** No value holds a line break. */
  predicate OneLiners(i: Inputs) {
    AllBreakFree(Origins(i)) && AllBreakFree(Hosts(i)) && (i.jwksUrl.Some? ==> BreakFree(i.jwksUrl.value))
  }

  /** The first line that is the header is followed by one item per value, and then by no further item. */
  ghost predicate Stands(lines: seq<string>, header: string, values: seq<string>) {
    exists p ::
      && 0 <= p < |lines| && lines[p] == header && header !in lines[..p]
      && p + |values| < |lines|
      && (forall k :: 0 <= k < |values| ==> lines[p + 1 + k] == "  - " + values[k])
      && (p + 1 + |values| < |lines| ==> !("  - " <= lines[p + 1 + |values|]))
  }

  /** An origin loses the space around it and, if it has a scheme, all slashes at its end; nothing else. */
  lemma NormalizedOrigin(v: string)
    ensures var s, n := Trim(v), NormalizeOrigin(v);
            && n <= s && (forall k :: |n| <= k < |s| ==> s[k] == '/')
            && if exists k {:trigger s[k]} :: 0 <= k < |s| - 2 && s[k] == ':' && s[k + 1] == '/' && s[k + 2] == '/'
               then n == "" || n[|n| - 1] != '/'
               else n == s
  {
    hide Strip, StripRight, HasScheme;
    var s := Trim(v);
    StripRightPrefix(IsSlash, s);
    SlashesGo(s);
    SchemeInPlain(s);
  }

  lemma SchemeInPlain(s: string)
    ensures HasScheme(s) <==>
            exists k {:trigger s[k]} :: 0 <= k < |s| - 2 && s[k] == ':' && s[k + 1] == '/' && s[k + 2] == '/'
  {
    if HasScheme(s) {
      var k :| 0 <= k <= |s| && "://" <= s[k..];
      assert s[k..][0] == ':' && s[k..][1] == '/' && s[k..][2] == '/';
      assert s[k] == ':' && s[k + 1] == '/' && s[k + 2] == '/';
    }
    if k :| 0 <= k < |s| - 2 && s[k] == ':' && s[k + 1] == '/' && s[k + 2] == '/' {
      assert s[k..][..3] == "://";
      assert "://" <= s[k..];
    }
  }

  lemma ValuesAreOneLiners(i: Inputs, n: nat)
    requires OneLiners(i) && n < |LIST_KEYS|
    ensures AllBreakFree(ValuesFor(i, LIST_KEYS[n]))
    ensures AllStay(ValuesFor(i, LIST_KEYS[n])) && ContentsFor(i, LIST_KEYS[n]) == ValuesFor(i, LIST_KEYS[n])
    ensures Expand(ItemLines(ValuesFor(i, LIST_KEYS[n]))) == ItemLines(ValuesFor(i, LIST_KEYS[n]))
  {
    hide AllBreakFree, AllStay, Dedupe, NormalizeAll, Contents, Expand, ItemLines, BreakFree;
    OneLineContents(ValuesFor(i, LIST_KEYS[n]));
    StayingContents(ValuesFor(i, LIST_KEYS[n]));
  }

  lemma StrippedBreakFree(s: string)
    requires BreakFree(s)
    ensures BreakFree(StripRight(IsSlash, s))
  {
    hide IsBreak;
    StripRightPrefix(IsSlash, s);
    assert forall k :: 0 <= k < |StripRight(IsSlash, s)| ==> StripRight(IsSlash, s)[k] == s[k];
  }

  lemma OneLinersAreContained(i: Inputs)
    requires OneLiners(i)
    ensures Contained(i)
    ensures SetsScalar(i) ==> ValueLines(ScalarValue(i)) == [ScalarValue(i)]
  {
    hide AllStay, ValuesFor, BreakFree, StripRight, ContentsFor, AllBreakFree, Expand;
    forall n: nat | n < |LIST_KEYS|
      ensures AllStay(ValuesFor(i, LIST_KEYS[n]))
    {
      ValuesAreOneLiners(i, n);
    }
    if SetsScalar(i) {
      StrippedBreakFree(i.jwksUrl.value);
      SplitOneLine(ScalarValue(i));
    }
  }

  lemma ItemsFollow(before: seq<string>, header: string, values: seq<string>, rest: seq<string>)
    requires header !in before && (rest != [] ==> !IsItem(rest[0]))
    ensures Stands(before + [header] + ItemLines(values) + rest, header, values)
  {
    var lines, p := before + [header] + ItemLines(values) + rest, |before|;
    assert lines[p] == header && lines[..p] == before;
    forall k | 0 <= k < |values|
      ensures lines[p + 1 + k] == "  - " + values[k]
    {
      assert lines[p + 1 + k] == ItemLines(values)[k];
    }
    assert rest != [] ==> lines[p + 1 + |values|] == rest[0];
  }

  lemma ListStands(i: Inputs, text: string, n: nat)
    requires OneLiners(i) && Render(i, text).Ok? && n < |LIST_KEYS|
    ensures ReadBlock(SplitLines(Render(i, text).value), LIST_KEYS[n]) == ValuesFor(i, LIST_KEYS[n])
    ensures Stands(SplitLines(Render(i, text).value), Header(LIST_KEYS[n]), ValuesFor(i, LIST_KEYS[n]))
  {
    hide Render, SplitLines, ValuesFor, ReadBlock, Contained, ContentsFor, Header, ItemLines, Before, After, FinalLines;
    hide FinalText, OneLiners, Stands, Expand, AllStay, AllBreakFree, IsItem;
    var lines, key := SplitLines(Render(i, text).value), LIST_KEYS[n];
    OneLinersAreContained(i);
    ValuesAreOneLiners(i, n);
    BlockReadsBack(i, text, n);
    HeadersAreThere(i, text, n);
    RenderOnLines(i, text);
    FinalKeeps(i, SplitLines(text), n);
    BlockOf(lines, key);
    NoHeaderBefore(lines, key);
    AfterIsNoItem(lines, key);
    ItemsFollow(Before(lines, key), Header(key), ValuesFor(i, key), After(lines, key));
  }

  /** Each list stands under its own keys, and reads back: the origins under the three `AllowOrigins` keys, the hosts
      under `webrtcAdditionalHosts`. */
  lemma EachListUnderItsKeys(i: Inputs, text: string)
    requires OneLiners(i) && Render(i, text).Ok?
    ensures var lines := SplitLines(Render(i, text).value);
            && ReadBlock(lines, "apiAllowOrigins") == Dedupe(NormalizeAll(i.frontendOrigins))
            && ReadBlock(lines, "webrtcAllowOrigins") == Dedupe(NormalizeAll(i.frontendOrigins))
            && ReadBlock(lines, "hlsAllowOrigins") == Dedupe(NormalizeAll(i.frontendOrigins))
            && ReadBlock(lines, "webrtcAdditionalHosts") == Dedupe(i.webrtcHosts)
            && Stands(lines, "apiAllowOrigins:", Dedupe(NormalizeAll(i.frontendOrigins)))
            && Stands(lines, "webrtcAllowOrigins:", Dedupe(NormalizeAll(i.frontendOrigins)))
            && Stands(lines, "hlsAllowOrigins:", Dedupe(NormalizeAll(i.frontendOrigins)))
            && Stands(lines, "webrtcAdditionalHosts:", Dedupe(i.webrtcHosts))
  {
    hide Render, SplitLines, ReadBlock, Stands, OneLiners, Dedupe, NormalizeAll;
    ListStands(i, text, 0);
    ListStands(i, text, 1);
    ListStands(i, text, 2);
    ListStands(i, text, 3);
    WrittenHeaders();
  }

  lemma WrittenHeaders()
    ensures Header(LIST_KEYS[0]) == "apiAllowOrigins:" && Header(LIST_KEYS[1]) == "webrtcAllowOrigins:"
    ensures Header(LIST_KEYS[2]) == "hlsAllowOrigins:" && Header(LIST_KEYS[3]) == "webrtcAdditionalHosts:"
    ensures Header(SCALAR_KEY) == "authJWTJWKS:"
    ensures LIST_KEYS[0] != LIST_KEYS[3] && LIST_KEYS[1] != LIST_KEYS[3] && LIST_KEYS[2] != LIST_KEYS[3]
  {
    assert LIST_KEYS[0][0] == 'a' && LIST_KEYS[2][0] == 'h' && LIST_KEYS[3][0] == 'w';
    assert |LIST_KEYS[1]| == 18 && |LIST_KEYS[3]| == 21;
  }

  // ----- the scalar -----

  lemma {:induction false} ScalarStands(lines: seq<string>, key: string, value: string)
    requires HasScalar(lines, key)
    ensures exists p :: 0 <= p < |lines| && p < |RewriteScalar(lines, key, value)|
                        && RewriteScalar(lines, key, value)[p] == key + ":" + " " + value
                        && forall q :: 0 <= q < p ==> !(key + ":" <= RewriteScalar(lines, key, value)[q])
  {
    if Header(key) <= lines[0] {
      assert RewriteScalar(lines, key, value)[0] == key + ":" + " " + value;
    } else {
      hide Header;
      assert lines == [lines[0]] + lines[1..];
      HasScalarHead(lines[0], lines[1..], key);
      ScalarStands(lines[1..], key, value);
      var tail, all := RewriteScalar(lines[1..], key, value), RewriteScalar(lines, key, value);
      var p :| 0 <= p < |lines| - 1 && p < |tail| && tail[p] == key + ":" + " " + value
               && forall q :: 0 <= q < p ==> !(key + ":" <= tail[q]);
      assert all == [lines[0]] + tail;
      FoundLater(lines[0], tail, p, key + ":", key + ":" + " " + value);
    }
  }

  lemma FoundLater(h: string, tail: seq<string>, p: nat, prefix: string, line: string)
    requires p < |tail| && tail[p] == line && forall q :: 0 <= q < p ==> !(prefix <= tail[q])
    requires !(prefix <= h)
    ensures ([h] + tail)[p + 1] == line && forall q :: 0 <= q < p + 1 ==> !(prefix <= ([h] + tail)[q])
  {
  }

  /** Given a URL, the first line of the scalar's key holds the URL without the slashes at its end. */
  lemma UrlUnderItsKey(i: Inputs, text: string) returns (p: nat, url: string)
    requires OneLiners(i) && Render(i, text).Ok? && i.jwksUrl.Some? && i.jwksUrl.value != ""
    ensures url <= i.jwksUrl.value && (url != "" ==> url[|url| - 1] != '/')
    ensures forall k :: |url| <= k < |i.jwksUrl.value| ==> i.jwksUrl.value[k] == '/'
    ensures var lines := SplitLines(Render(i, text).value);
            && p < |lines| && lines[p] == "authJWTJWKS: " + url
            && forall q :: 0 <= q < p ==> !("authJWTJWKS:" <= lines[q])
  {
    hide Render, SplitLines, RewriteAll, HasScalar, RewriteScalar, StripRight, OneLiners, Contained, FinalText;
    hide ValueLines, Available, BringsScalar;
    url := ScalarValue(i);
    StripRightPrefix(IsSlash, i.jwksUrl.value);
    SlashesGo(i.jwksUrl.value);
    OneLinersAreContained(i);
    RenderOnLines(i, text);
    ScalarWasThere(i, text);
    var lists := RewriteAll(i, LIST_KEYS, SplitLines(text));
    ScalarStands(lists, SCALAR_KEY, url);
    var at :| 0 <= at < |RewriteScalar(lists, SCALAR_KEY, url)|
              && RewriteScalar(lists, SCALAR_KEY, url)[at] == SCALAR_KEY + ":" + " " + url
              && forall q :: 0 <= q < at ==> !(SCALAR_KEY + ":" <= RewriteScalar(lists, SCALAR_KEY, url)[q]);
    p := at;
    assert SCALAR_KEY + ":" == "authJWTJWKS:" && SCALAR_KEY + ":" + " " == "authJWTJWKS: ";
  }

  lemma {:induction false} SlashesGo(s: string)
    ensures forall k :: |StripRight(IsSlash, s)| <= k < |s| ==> s[k] == '/'
  {
    if s != [] && s[|s| - 1] == '/' {
      SlashesGo(s[..|s| - 1]);
    }
  }

  lemma NoneBrought(i: Inputs, n: nat, l: string)
    requires OneLiners(i) && n <= |LIST_KEYS| && IsKey(l)
    ensures !BringsHeader(i, LIST_KEYS, n, l) && !BringsScalar(i, LIST_KEYS, n, l)
  {
    hide OneLiners, Expand, ItemLines, ValuesFor, Header, HasScalar, IsKey, AllStay, AllBreakFree, ContentsFor;
    forall m: nat | m < n
      ensures Header(l) !in Expand(ItemLines(ValuesFor(i, LIST_KEYS[m])))
      ensures !HasScalar(Expand(ItemLines(ValuesFor(i, LIST_KEYS[m]))), l)
    {
      ValuesAreOneLiners(i, m);
      NoHeaderAmongItems(ValuesFor(i, LIST_KEYS[m]), l);
      NoScalarAmongItems(ValuesFor(i, LIST_KEYS[m]), l);
    }
  }

  lemma ScalarWasThere(i: Inputs, text: string)
    requires OneLiners(i) && Render(i, text).Ok? && SetsScalar(i)
    ensures HasScalar(RewriteAll(i, LIST_KEYS, SplitLines(text)), SCALAR_KEY)
  {
    hide Render, SplitLines, RewriteAll, HasScalar, OneLiners, Available, BringsScalar, BringsHeader, IsKey;
    RenderSucceedsIff(i, text);
    KeysAreKeys();
    NoneBrought(i, |LIST_KEYS|, SCALAR_KEY);
    RewriteAllKeeps(i, LIST_KEYS, SplitLines(text), SCALAR_KEY);
  }

  // ----- what else changes -----

  lemma {:induction false} OtherLinesStay(i: Inputs, keys: seq<string>, lines: seq<string>, l: string)
    requires !IsItem(l)
    ensures l in RewriteAll(i, keys, lines) <==> l in lines
  {
    if keys != [] {
      hide Rewrite, ContentsFor, IsItem, Before, After, ReadBlock, ItemLines, Header;
      var front, last := keys[..|keys| - 1], keys[|keys| - 1];
      var before := RewriteAll(i, front, lines);
      OtherLinesStay(i, front, lines, l);
      if Header(last) in before {
        RewriteFrame(before, last, ContentsFor(i, last));
        NoItem(ContentsFor(i, last), l);
        NoItem(ReadBlock(before, last), l);
        InParts(l, Before(before, last), Header(last), ItemLines(ContentsFor(i, last)), After(before, last));
        InParts(l, Before(before, last), Header(last), ItemLines(ReadBlock(before, last)), After(before, last));
      } else {
        NoBlockNoChange(before, last, ContentsFor(i, last));
      }
    }
  }

  lemma NoItem(values: seq<string>, l: string)
    requires !IsItem(l)
    ensures l !in ItemLines(values)
  {
  }

  lemma {:induction false} ScalarKeepsOthers(lines: seq<string>, key: string, value: string, l: string)
    requires !(Header(key) <= l)
    ensures l in RewriteScalar(lines, key, value) <==> l in lines
  {
    hide Header;
    if lines != [] {
      assert lines == [lines[0]] + lines[1..];
      if Header(key) <= lines[0] {
        assert Header(key) <= ScalarLine(key, value);
      } else {
        ScalarKeepsOthers(lines[1..], key, value, l);
      }
    }
  }

  /** Lines that are no items come and go nowhere, but for the scalar's, and that one only when a URL is given. */
  lemma OnlyItemsAndTheScalarChange(i: Inputs, text: string, l: string)
    requires OneLiners(i) && Render(i, text).Ok? && !("  - " <= l)
    requires "authJWTJWKS:" <= l ==> i.jwksUrl.None? || i.jwksUrl.value == ""
    ensures l in SplitLines(Render(i, text).value) <==> l in SplitLines(text)
  {
    hide Render, SplitLines, RewriteAll, RewriteScalar, OneLiners, Contained, FinalText, ValueLines;
    OneLinersAreContained(i);
    RenderOnLines(i, text);
    OtherLinesStay(i, LIST_KEYS, SplitLines(text), l);
    if SetsScalar(i) {
      WrittenHeaders();
      ScalarKeepsOthers(RewriteAll(i, LIST_KEYS, SplitLines(text)), SCALAR_KEY, ScalarContents(i), l);
    }
  }

  // ----- when rendering fails, and with what -----

  lemma ListStep(i: Inputs, text: string, n: nat)
    requires OneLiners(i) && n < |LIST_KEYS| && RenderLists(i, LIST_KEYS[..n], text).Ok?
    ensures var next := RenderLists(i, LIST_KEYS[..n + 1], text);
            if ValuesFor(i, LIST_KEYS[n]) == [] then next == EmptyList(LIST_KEYS[n])
            else if Header(LIST_KEYS[n]) !in SplitLines(text) then next == MissingKey(LIST_KEYS[n])
            else next.Ok?
  {
    hide OneLiners, SplitLines, JoinLines, Rewrite, ValuesFor, Header, BringsHeader, BringsScalar, HasScalar, IsKey;
    assert LIST_KEYS[..n + 1][..n] == LIST_KEYS[..n];
    KeysAreKeys();
    ListsBring(i, LIST_KEYS[..n], text, LIST_KEYS[n]);
    NoneBrought(i, n, LIST_KEYS[n]);
    FirstKeysBring(i, n, LIST_KEYS[n]);
  }

  lemma FirstKeysBring(i: Inputs, n: nat, l: string)
    requires n <= |LIST_KEYS|
    ensures BringsHeader(i, LIST_KEYS[..n], n, l) <==> BringsHeader(i, LIST_KEYS, n, l)
  {
    hide Expand, ItemLines, ValuesFor, Header;
    assert forall m :: 0 <= m < n ==> LIST_KEYS[..n][m] == LIST_KEYS[m];
  }

  /** The first key that lacks values or a place is the one reported; otherwise rendering succeeds. */
  lemma RenderAnswers(i: Inputs, text: string)
    requires OneLiners(i)
    ensures var lines, r := SplitLines(text), Render(i, text);
            if Dedupe(NormalizeAll(i.frontendOrigins)) == [] then r == EmptyList("apiAllowOrigins")
            else if "apiAllowOrigins:" !in lines then r == MissingKey("apiAllowOrigins")
            else if "webrtcAllowOrigins:" !in lines then r == MissingKey("webrtcAllowOrigins")
            else if "hlsAllowOrigins:" !in lines then r == MissingKey("hlsAllowOrigins")
            else if Dedupe(i.webrtcHosts) == [] then r == EmptyList("webrtcAdditionalHosts")
            else if "webrtcAdditionalHosts:" !in lines then r == MissingKey("webrtcAdditionalHosts")
            else if i.jwksUrl.Some? && i.jwksUrl.value != "" && !exists l :: l in lines && "authJWTJWKS:" <= l
            then r == MissingKey("authJWTJWKS")
            else r.Ok?
  {
    hide OneLiners, SplitLines, Dedupe, NormalizeAll, RenderLists, BringsScalar, BringsHeader, ScalarText, IsKey;
    WrittenHeaders();
    NothingRendered(i, text);
    ListSteps(i, text, 4);
    if RenderLists(i, LIST_KEYS[..4], text).Ok? && SetsScalar(i) {
      assert LIST_KEYS[..4] == LIST_KEYS;
      ScalarStep(i, text);
    }
    assert LIST_KEYS[..4] == LIST_KEYS;
  }

  lemma NothingRendered(i: Inputs, text: string)
    ensures RenderLists(i, LIST_KEYS[..0], text) == Ok(text)
  {
  }

  lemma {:induction false} ListSteps(i: Inputs, text: string, n: nat)
    requires OneLiners(i) && n <= 4
    ensures forall m: nat :: m < n ==>
              if RenderLists(i, LIST_KEYS[..m], text).Ok? then
                var next := RenderLists(i, LIST_KEYS[..m + 1], text);
                if ValuesFor(i, LIST_KEYS[m]) == [] then next == EmptyList(LIST_KEYS[m])
                else if Header(LIST_KEYS[m]) !in SplitLines(text) then next == MissingKey(LIST_KEYS[m])
                else next.Ok?
              else RenderLists(i, LIST_KEYS[..m + 1], text) == RenderLists(i, LIST_KEYS[..m], text)
  {
    if n > 0 {
      hide OneLiners, SplitLines, ValuesFor, Header;
      ListSteps(i, text, n - 1);
      assert LIST_KEYS[..n][..n - 1] == LIST_KEYS[..n - 1];
      if RenderLists(i, LIST_KEYS[..n - 1], text).Ok? {
        ListStep(i, text, n - 1);
      }
    }
  }

  lemma ScalarStep(i: Inputs, text: string)
    requires OneLiners(i) && RenderLists(i, LIST_KEYS, text).Ok? && SetsScalar(i)
    ensures if exists l :: l in SplitLines(text) && "authJWTJWKS:" <= l then Render(i, text).Ok?
            else Render(i, text) == MissingKey("authJWTJWKS")
  {
    hide OneLiners, SplitLines, JoinLines, RewriteScalar, RenderLists, BringsScalar, BringsHeader, IsKey;
    KeysAreKeys();
    ListsBring(i, LIST_KEYS, text, SCALAR_KEY);
    NoneBrought(i, |LIST_KEYS|, SCALAR_KEY);
    WrittenHeaders();
    var lines := SplitLines(text);
    if HasScalar(lines, SCALAR_KEY) {
      var k :| 0 <= k < |lines| && Header(SCALAR_KEY) <= lines[k];
      assert lines[k] in lines;
    }
  }
}
