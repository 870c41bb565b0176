/** Rewriting scalars and list blocks of the MediaMTX configuration: `installer/lib/render_mediamtx_config.py`. */
module MediaMtxBlocks {
  import opened MediaMtx

  const ITEM := "  - "

  function Header(key: string): string { key + ":" }

  predicate IsItem(line: string) { ITEM <= line }

  function ItemLines(values: seq<string>): seq<string> {
    seq(|values|, i requires 0 <= i < |values| => ITEM + values[i])
  }

  /** Keys that stand at the start of a line. */
  predicate IsKey(key: string) { key != "" && key[0] != ' ' && BreakFree(key) }

  // ----- blocks, line by line -----

  /** The lines from the first one on that is not an item. */
  function SkipItems(lines: seq<string>): seq<string> {
    if lines != [] && IsItem(lines[0]) then SkipItems(lines[1..]) else lines
  }

  /** The contents of the leading items. */
  function LeadingItems(lines: seq<string>): seq<string> {
    if lines != [] && IsItem(lines[0]) then [lines[0][|ITEM|..]] + LeadingItems(lines[1..]) else []
  }

  /** The first block of the key gets other items; without one nothing changes. */
  function Rewrite(lines: seq<string>, key: string, values: seq<string>): seq<string> {
    if lines == [] then []
    else if lines[0] == Header(key) then [lines[0]] + ItemLines(values) + SkipItems(lines[1..])
    else [lines[0]] + Rewrite(lines[1..], key, values)
  }

  function ReadBlock(lines: seq<string>, key: string): seq<string> {
    if lines == [] then []
    else if lines[0] == Header(key) then LeadingItems(lines[1..])
    else ReadBlock(lines[1..], key)
  }

  function ScalarLine(key: string, value: string): string { Header(key) + " " + value }

  /** The first line that starts with the key gets another value. */
  function RewriteScalar(lines: seq<string>, key: string, value: string): seq<string> {
    if lines == [] then []
    else if Header(key) <= lines[0] then [ScalarLine(key, value)] + lines[1..]
    else [lines[0]] + RewriteScalar(lines[1..], key, value)
  }

  predicate HasScalar(lines: seq<string>, key: string) {
    exists i :: 0 <= i < |lines| && Header(key) <= lines[i]
  }

  // ----- the text operations -----

  function BlockText(text: string, key: string, values: seq<string>): Result<string> {
    if values == [] then EmptyList(key)
    else if Header(key) !in SplitLines(text) then MissingKey(key)
    else Ok(JoinLines(Rewrite(SplitLines(text), key, values)))
  }

  function ScalarText(text: string, key: string, value: string): Result<string> {
    if !HasScalar(SplitLines(text), key) then MissingKey(key)
    else Ok(JoinLines(RewriteScalar(SplitLines(text), key, value)))
  }

  lemma {:induction false} RewriteScalarAt(lines: seq<string>, index: nat, key: string, value: string)
    requires index < |lines| && Header(key) <= lines[index]
    requires forall i :: 0 <= i < index ==> !(Header(key) <= lines[i])
    ensures RewriteScalar(lines, key, value) == lines[index := ScalarLine(key, value)]
  {
    hide Header;
    if index > 0 {
      RewriteScalarAt(lines[1..], index - 1, key, value);
      assert lines[index := ScalarLine(key, value)] == [lines[0]] + lines[1..][index - 1 := ScalarLine(key, value)];
    }
  }

  method ReplaceScalar(text: string, key: string, value: string) returns (r: Result<string>)
    ensures r == ScalarText(text, key, value)
  {
    hide SplitLines, JoinLines, Header, RewriteScalar;
    var lines := SplitLines(text);
    for index := 0 to |lines|
      invariant lines == SplitLines(text)
      invariant forall i :: 0 <= i < index ==> !(Header(key) <= lines[i])
    {
      if Header(key) <= lines[index] {
        RewriteScalarAt(lines, index, key, value);
        lines := lines[index := ScalarLine(key, value)];
        return Ok(JoinLines(lines));
      }
    }
    r := MissingKey(key);
  }

  lemma {:induction false} RewriteAt(lines: seq<string>, start: nat, key: string, values: seq<string>)
    requires start < |lines| && lines[start] == Header(key) && Header(key) !in lines[..start]
    ensures Rewrite(lines, key, values)
         == lines[..start] + ([Header(key)] + ItemLines(values) + SkipItems(lines[start + 1..]))
  {
    if start > 0 {
      assert lines[..start][0] == lines[0];
      assert lines[1..][..start - 1] == lines[..start][1..];
      assert lines[1..][start..] == lines[start + 1..];
      RewriteAt(lines[1..], start - 1, key, values);
      assert lines[..start] == [lines[0]] + lines[1..][..start - 1];
    } else {
      assert lines[..0] == [];
    }
  }

  lemma {:induction false} SkipItemsAt(lines: seq<string>, end: nat)
    requires end <= |lines| && forall i :: 0 <= i < end ==> IsItem(lines[i])
    requires end < |lines| ==> !IsItem(lines[end])
    ensures SkipItems(lines) == lines[end..]
  {
    if end > 0 {
      SkipItemsAt(lines[1..], end - 1);
      assert lines[1..][end - 1..] == lines[end..];
    }
  }

  method ReplaceListBlock(text: string, key: string, values: seq<string>) returns (r: Result<string>)
    ensures r == BlockText(text, key, values)
  {
    hide SplitLines, JoinLines, Header, IsItem, ItemLines, Rewrite, SkipItems;
    if |values| == 0 {
      return EmptyList(key);
    }
    var lines := SplitLines(text);
    for start := 0 to |lines|
      invariant Header(key) !in lines[..start]
    {
      if lines[start] == Header(key) {
        var end := start + 1;
        while end < |lines| && IsItem(lines[end])
          invariant start < end <= |lines|
          invariant forall i :: start < i < end ==> IsItem(lines[i])
        {
          end := end + 1;
        }
        RewriteAt(lines, start, key, values);
        SkipItemsAt(lines[start + 1..], end - start - 1);
        var replacement := [Header(key)] + ItemLines(values);
        assert lines[start + 1..][end - start - 1..] == lines[end..];
        assert lines[..start] + replacement + lines[end..] == lines[..start] + (replacement + lines[end..]);
        return Ok(JoinLines(lines[..start] + replacement + lines[end..]));
      }
      assert lines[..start + 1] == lines[..start] + [lines[start]];
    }
    assert lines[..|lines|] == lines;
    r := MissingKey(key);
  }

  // ----- what one rewrite does -----

  /** The lines before the key's first block, and after it. */
  function Before(lines: seq<string>, key: string): seq<string> {
    if lines == [] || lines[0] == Header(key) then [] else [lines[0]] + Before(lines[1..], key)
  }

  function After(lines: seq<string>, key: string): seq<string> {
    if lines == [] then [] else if lines[0] == Header(key) then SkipItems(lines[1..]) else After(lines[1..], key)
  }

  lemma {:induction false} ItemsSplit(lines: seq<string>)
    ensures lines == ItemLines(LeadingItems(lines)) + SkipItems(lines)
  {
    if lines != [] && IsItem(lines[0]) {
      ItemsSplit(lines[1..]);
      assert ITEM + lines[0][|ITEM|..] == lines[0];
      assert ItemLines(LeadingItems(lines)) == [lines[0]] + ItemLines(LeadingItems(lines[1..]));
    }
  }

  lemma {:induction false} ItemsReadBack(values: seq<string>, rest: seq<string>)
    requires rest != [] ==> !IsItem(rest[0])
    ensures LeadingItems(ItemLines(values) + rest) == values && SkipItems(ItemLines(values) + rest) == rest
  {
    if values == [] {
      assert ItemLines(values) + rest == rest;
    } else {
      var lines := ItemLines(values) + rest;
      assert lines[1..] == ItemLines(values[1..]) + rest;
      assert lines[0] == ITEM + values[0] && lines[0][|ITEM|..] == values[0];
      ItemsReadBack(values[1..], rest);
    }
  }

  lemma SkippedIsNoItem(lines: seq<string>)
    ensures SkipItems(lines) != [] ==> !IsItem(SkipItems(lines)[0])
  {
  }

  lemma {:induction false} NoHeaderBefore(lines: seq<string>, key: string)
    ensures Header(key) !in Before(lines, key)
  {
    hide Header;
    if lines != [] && lines[0] != Header(key) {
      NoHeaderBefore(lines[1..], key);
    }
  }

  lemma InTail(lines: seq<string>, x: string)
    requires x in lines && lines[0] != x
    ensures x in lines[1..]
  {
    assert lines == [lines[0]] + lines[1..];
  }

  lemma {:induction false} BlockOf(lines: seq<string>, key: string)
    requires Header(key) in lines
    ensures lines == Before(lines, key) + [Header(key)] + ItemLines(ReadBlock(lines, key)) + After(lines, key)
  {
    hide Header, ItemLines, LeadingItems, SkipItems;
    var tail := lines[1..];
    if lines[0] == Header(key) {
      ItemsSplit(tail);
      Reassociate([], [], [Header(key)], ItemLines(LeadingItems(tail)), SkipItems(tail));
      assert lines == [Header(key)] + tail;
    } else {
      InTail(lines, Header(key));
      BlockOf(tail, key);
      Reassociate([lines[0]], Before(tail, key), [Header(key)], ItemLines(ReadBlock(tail, key)), After(tail, key));
      assert lines == [lines[0]] + tail;
    }
  }

  lemma {:induction false} BlockRewritten(lines: seq<string>, key: string, values: seq<string>)
    requires Header(key) in lines
    ensures Rewrite(lines, key, values) == Before(lines, key) + [Header(key)] + ItemLines(values) + After(lines, key)
  {
    hide Header, ItemLines, IsItem;
    if lines[0] != Header(key) {
      var tail := lines[1..];
      assert lines == [lines[0]] + tail;
      BlockRewritten(tail, key, values);
      Reassociate([lines[0]], Before(tail, key), [Header(key)], ItemLines(values), After(tail, key));
    }
  }

  lemma Reassociate<T>(a: seq<T>, b: seq<T>, c: seq<T>, d: seq<T>, e: seq<T>)
    ensures a + (b + c + d + e) == (a + b) + c + d + e
  {
  }

  lemma {:induction false} RewriteReadsBack(lines: seq<string>, key: string, values: seq<string>)
    requires Header(key) in lines
    ensures ReadBlock(Rewrite(lines, key, values), key) == values
  {
    hide Header, ItemLines, IsItem, LeadingItems;
    var tail := lines[1..];
    assert lines == [lines[0]] + tail;
    if lines[0] == Header(key) {
      SkippedIsNoItem(tail);
      ItemsReadBack(values, SkipItems(tail));
      assert Rewrite(lines, key, values)[1..] == ItemLines(values) + SkipItems(tail);
    } else {
      RewriteReadsBack(tail, key, values);
      assert Rewrite(lines, key, values)[1..] == Rewrite(tail, key, values);
    }
  }

  /** A rewrite exchanges the items of the first block and no other line; the new items read back. */
  lemma RewriteFrame(lines: seq<string>, key: string, values: seq<string>)
    requires Header(key) in lines
    ensures lines == Before(lines, key) + [Header(key)] + ItemLines(ReadBlock(lines, key)) + After(lines, key)
    ensures Rewrite(lines, key, values) == Before(lines, key) + [Header(key)] + ItemLines(values) + After(lines, key)
    ensures Header(key) !in Before(lines, key)
    ensures ReadBlock(Rewrite(lines, key, values), key) == values
  {
    hide Rewrite, ReadBlock, Before, After, ItemLines, Header;
    BlockOf(lines, key);
    NoHeaderBefore(lines, key);
    BlockRewritten(lines, key, values);
    RewriteReadsBack(lines, key, values);
  }

  // ----- rewrites of different keys -----

  lemma HeadersDiffer(k: string, l: string)
    requires k != l
    ensures Header(k) != Header(l)
  {
    assert Header(k)[..|k|] == k && Header(l)[..|l|] == l;
  }

  lemma HeaderIsNoItem(key: string)
    requires IsKey(key)
    ensures !IsItem(Header(key))
  {
    assert Header(key)[0] == key[0] && ITEM[0] == ' ';
  }

  lemma ItemIsNoHeader(line: string, key: string)
    requires IsKey(key) && IsItem(line)
    ensures line != Header(key) && !(Header(key) <= line)
  {
    assert Header(key)[0] == key[0] && line[0] == ITEM[0] == ' ';
  }

  lemma {:induction false} SkipRewrite(lines: seq<string>, key: string, values: seq<string>)
    requires IsKey(key)
    ensures SkipItems(Rewrite(lines, key, values)) == Rewrite(SkipItems(lines), key, values)
  {
    hide Header, ItemLines, IsItem, IsKey;
    if lines != [] {
      HeaderIsNoItem(key);
      if IsItem(lines[0]) {
        SkipRewrite(lines[1..], key, values);
        assert Rewrite(lines, key, values)[1..] == Rewrite(lines[1..], key, values);
      }
    }
  }

  lemma {:induction false} RewriteBehind(lines: seq<string>, items: seq<string>, key: string, values: seq<string>)
    requires IsKey(key)
    ensures Rewrite(ItemLines(items) + lines, key, values) == ItemLines(items) + Rewrite(lines, key, values)
  {
    hide Header, IsKey;
    if items == [] {
      assert ItemLines(items) + lines == lines;
      assert ItemLines(items) + Rewrite(lines, key, values) == Rewrite(lines, key, values);
    } else {
      var all := ItemLines(items) + lines;
      assert all[1..] == ItemLines(items[1..]) + lines;
      assert IsItem(all[0]);
      ItemIsNoHeader(all[0], key);
      RewriteBehind(lines, items[1..], key, values);
      assert ItemLines(items) == [all[0]] + ItemLines(items[1..]);
    }
  }

  /** Rewriting the blocks of two keys in either order gives the same lines. */
  lemma {:induction false} RewritesCommute(lines: seq<string>, k: string, v: seq<string>, l: string, w: seq<string>)
    requires IsKey(k) && IsKey(l) && k != l
    ensures Rewrite(Rewrite(lines, k, v), l, w) == Rewrite(Rewrite(lines, l, w), k, v)
  {
    hide Header, IsKey, ItemLines;
    if lines != [] {
      HeadersDiffer(k, l);
      if lines[0] == Header(k) {
        HeadFirst(lines, k, v, l, w);
      } else if lines[0] == Header(l) {
        HeadFirst(lines, l, w, k, v);
      } else {
        RewritesCommute(lines[1..], k, v, l, w);
        assert Rewrite(lines, k, v)[1..] == Rewrite(lines[1..], k, v);
        assert Rewrite(lines, l, w)[1..] == Rewrite(lines[1..], l, w);
      }
    }
  }

  lemma HeadFirst(lines: seq<string>, k: string, v: seq<string>, l: string, w: seq<string>)
    requires IsKey(k) && IsKey(l) && k != l && lines != [] && lines[0] == Header(k) && Header(k) != Header(l)
    ensures Rewrite(Rewrite(lines, k, v), l, w) == Rewrite(Rewrite(lines, l, w), k, v)
  {
    hide Header, IsKey, ItemLines, SkipItems, Rewrite;
    var h, tail := lines[0], lines[1..];
    assert lines == [h] + tail;
    RewriteHead(h, tail, k, v);
    RewriteHead(h, tail, l, w);
    RewriteHead(h, ItemLines(v) + SkipItems(tail), l, w);
    RewriteHead(h, Rewrite(tail, l, w), k, v);
    RewriteBehind(SkipItems(tail), v, l, w);
    SkipRewrite(tail, l, w);
  }

  lemma RewriteHead(h: string, tail: seq<string>, key: string, values: seq<string>)
    ensures Rewrite([h] + tail, key, values)
         == [h] + if h == Header(key) then ItemLines(values) + SkipItems(tail) else Rewrite(tail, key, values)
  {
    hide Header, ItemLines, SkipItems;
    assert ([h] + tail)[1..] == tail;
    assert [h] + ItemLines(values) + SkipItems(tail) == [h] + (ItemLines(values) + SkipItems(tail));
  }

  /** The last rewrite of a block wins; in particular rewriting it twice is rewriting it once. */
  lemma {:induction false} RewriteTwice(lines: seq<string>, key: string, v: seq<string>, w: seq<string>)
    ensures Rewrite(Rewrite(lines, key, v), key, w) == Rewrite(lines, key, w)
  {
    hide Header, ItemLines;
    if lines != [] {
      var tail := lines[1..];
      if lines[0] == Header(key) {
        SkippedIsNoItem(tail);
        ItemsReadBack(v, SkipItems(tail));
        assert Rewrite(lines, key, v)[1..] == ItemLines(v) + SkipItems(tail);
      } else {
        RewriteTwice(tail, key, v, w);
        assert Rewrite(lines, key, v)[1..] == Rewrite(tail, key, v);
      }
    }
  }

  lemma {:induction false} NoBlockNoChange(lines: seq<string>, key: string, values: seq<string>)
    requires Header(key) !in lines
    ensures Rewrite(lines, key, values) == lines
  {
    if lines != [] {
      assert lines == [lines[0]] + lines[1..];
      NoBlockNoChange(lines[1..], key, values);
    }
  }

  lemma InParts(x: string, a: seq<string>, h: string, b: seq<string>, c: seq<string>)
    ensures x in a + [h] + b + c <==> x in a || x == h || x in b || x in c
  {
  }

  lemma NoHeaderAmongItems(values: seq<string>, key: string)
    requires IsKey(key)
    ensures Header(key) !in ItemLines(values)
  {
    hide Header, IsKey;
    forall i | 0 <= i < |values|
      ensures ItemLines(values)[i] != Header(key)
    {
      assert IsItem(ItemLines(values)[i]);
      ItemIsNoHeader(ItemLines(values)[i], key);
    }
  }

  /** A rewrite neither makes nor removes a block. */
  lemma RewriteKeepsHeaders(lines: seq<string>, k: string, v: seq<string>, l: string)
    requires IsKey(l)
    ensures Header(l) in Rewrite(lines, k, v) <==> Header(l) in lines
  {
    hide Header, IsKey, ItemLines, Rewrite, Before, After, ReadBlock;
    if Header(k) in lines {
      RewriteFrame(lines, k, v);
      NoHeaderAmongItems(v, l);
      NoHeaderAmongItems(ReadBlock(lines, k), l);
      InParts(Header(l), Before(lines, k), Header(k), ItemLines(v), After(lines, k));
      InParts(Header(l), Before(lines, k), Header(k), ItemLines(ReadBlock(lines, k)), After(lines, k));
    } else {
      NoBlockNoChange(lines, k, v);
    }
  }

  // ----- scalars -----

  /** The two keys cannot be meant by one line. */
  predicate Apart(listKey: string, scalarKey: string) { !(Header(scalarKey) <= Header(listKey)) }

  lemma ScalarLineIsPlain(key: string, value: string, listKey: string)
    requires IsKey(key) && Apart(listKey, key)
    ensures !IsItem(ScalarLine(key, value)) && ScalarLine(key, value) != Header(listKey)
    ensures Header(key) <= ScalarLine(key, value)
  {
    NoItemAtHead(key, value);
  }

  lemma {:induction false} SkipScalar(lines: seq<string>, key: string, value: string)
    requires IsKey(key)
    ensures SkipItems(RewriteScalar(lines, key, value)) == RewriteScalar(SkipItems(lines), key, value)
  {
    hide IsItem, IsKey, Header;
    if lines != [] {
      if IsItem(lines[0]) {
        ItemIsNoHeader(lines[0], key);
        SkipScalar(lines[1..], key, value);
        assert RewriteScalar(lines, key, value)[1..] == RewriteScalar(lines[1..], key, value);
      } else if Header(key) <= lines[0] {
        NoItemAtHead(key, value);
      }
    }
  }

  lemma NoItemAtHead(key: string, value: string)
    requires IsKey(key)
    ensures !IsItem(ScalarLine(key, value))
  {
    assert ScalarLine(key, value)[0] == key[0] && ITEM[0] == ' ';
  }

  lemma {:induction false} ScalarBehind(items: seq<string>, lines: seq<string>, key: string, value: string)
    requires IsKey(key)
    ensures RewriteScalar(ItemLines(items) + lines, key, value) == ItemLines(items) + RewriteScalar(lines, key, value)
  {
    hide Header, IsKey;
    if items == [] {
      assert ItemLines(items) + lines == lines;
      assert ItemLines(items) + RewriteScalar(lines, key, value) == RewriteScalar(lines, key, value);
    } else {
      var all := ItemLines(items) + lines;
      assert all[1..] == ItemLines(items[1..]) + lines;
      assert IsItem(all[0]);
      ItemIsNoHeader(all[0], key);
      ScalarBehind(items[1..], lines, key, value);
      assert ItemLines(items) == [all[0]] + ItemLines(items[1..]);
    }
  }

  lemma {:induction false} ScalarCommutes(lines: seq<string>, k: string, v: seq<string>, key: string, value: string)
    requires IsKey(k) && IsKey(key) && Apart(k, key)
    ensures Rewrite(RewriteScalar(lines, key, value), k, v) == RewriteScalar(Rewrite(lines, k, v), key, value)
  {
    hide Header, IsKey, ItemLines, SkipItems;
    if lines != [] {
      var head, tail := lines[0], lines[1..];
      assert lines == [head] + tail;
      RewriteHead(head, tail, k, v);
      if head == Header(k) {
        SkipScalar(tail, key, value);
        ScalarBehind(v, SkipItems(tail), key, value);
        RewriteHead(head, RewriteScalar(tail, key, value), k, v);
        assert ([head] + (ItemLines(v) + SkipItems(tail)))[1..] == ItemLines(v) + SkipItems(tail);
      } else if Header(key) <= head {
        ScalarLineIsPlain(key, value, k);
        RewriteHead(ScalarLine(key, value), tail, k, v);
        assert ([head] + Rewrite(tail, k, v))[1..] == Rewrite(tail, k, v);
      } else {
        ScalarCommutes(tail, k, v, key, value);
        RewriteHead(head, RewriteScalar(tail, key, value), k, v);
        assert ([head] + Rewrite(tail, k, v))[1..] == Rewrite(tail, k, v);
      }
    }
  }

  /** The last value written wins; the scalar stays present, and the blocks' headers stay as they were. */
  lemma {:induction false} ScalarFacts(lines: seq<string>, key: string, v: string, w: string, k: string)
    requires IsKey(key) && Apart(k, key)
    ensures RewriteScalar(RewriteScalar(lines, key, v), key, w) == RewriteScalar(lines, key, w)
    ensures HasScalar(RewriteScalar(lines, key, v), key) == HasScalar(lines, key)
    ensures Header(k) in RewriteScalar(lines, key, v) <==> Header(k) in lines
  {
    hide Header, IsKey;
    if lines != [] {
      var head, tail := lines[0], lines[1..];
      assert lines == [head] + tail;
      ScalarLineIsPlain(key, v, k);
      ScalarFacts(tail, key, v, w, k);
      HasScalarHead(head, tail, key);
      if Header(key) <= head {
        HasScalarHead(ScalarLine(key, v), tail, key);
      } else {
        HasScalarHead(head, RewriteScalar(tail, key, v), key);
      }
    }
  }

  lemma HasScalarHead(head: string, tail: seq<string>, key: string)
    ensures HasScalar([head] + tail, key) <==> Header(key) <= head || HasScalar(tail, key)
  {
    hide Header;
    if HasScalar(tail, key) {
      var i :| 0 <= i < |tail| && Header(key) <= tail[i];
      assert ([head] + tail)[i + 1] == tail[i];
    }
    if Header(key) <= head {
      assert ([head] + tail)[0] == head;
    }
  }

  lemma RewriteKeepsScalar(lines: seq<string>, k: string, v: seq<string>, key: string)
    requires IsKey(key)
    ensures HasScalar(Rewrite(lines, k, v), key) <==> HasScalar(lines, key)
  {
    hide Header, IsKey, ItemLines, Rewrite, Before, After, ReadBlock, HasScalar;
    if Header(k) in lines {
      RewriteFrame(lines, k, v);
      NoScalarAmongItems(v, key);
      NoScalarAmongItems(ReadBlock(lines, k), key);
      ScalarInParts(key, Before(lines, k), Header(k), ItemLines(v), After(lines, k));
      ScalarInParts(key, Before(lines, k), Header(k), ItemLines(ReadBlock(lines, k)), After(lines, k));
    } else {
      NoBlockNoChange(lines, k, v);
    }
  }

  lemma NoScalarAmongItems(values: seq<string>, key: string)
    requires IsKey(key)
    ensures !HasScalar(ItemLines(values), key)
  {
    hide Header, IsKey;
    forall i | 0 <= i < |values|
      ensures !(Header(key) <= ItemLines(values)[i])
    {
      assert IsItem(ItemLines(values)[i]);
      ItemIsNoHeader(ItemLines(values)[i], key);
    }
  }

  lemma ScalarInParts(key: string, a: seq<string>, h: string, b: seq<string>, c: seq<string>)
    ensures HasScalar(a + [h] + b + c, key)
       <==> HasScalar(a, key) || Header(key) <= h || HasScalar(b, key) || HasScalar(c, key)
  {
    hide Header, HasScalar;
    ScalarInBoth(key, a + [h] + b, c);
    ScalarInBoth(key, a + [h], b);
    ScalarInBoth(key, a, [h]);
    HasScalarHead(h, [], key);
    assert [h] + [] == [h];
    NoScalarInNothing(key);
  }

  lemma NoScalarInNothing(key: string)
    ensures !HasScalar([], key)
  {
  }

  lemma ScalarInBoth(key: string, a: seq<string>, b: seq<string>)
    ensures HasScalar(a + b, key) <==> HasScalar(a, key) || HasScalar(b, key)
  {
    hide Header;
    if i :| 0 <= i < |a| && Header(key) <= a[i] {
      assert (a + b)[i] == a[i];
    }
    if i :| 0 <= i < |b| && Header(key) <= b[i] {
      assert (a + b)[|a| + i] == b[i];
    }
  }
}
