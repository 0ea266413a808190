/** The pattern matcher of grep.  A C string is the sequence of its characters without the final NUL. */
module Grep {

  // ------------------------------------------------------------------
  // What a pattern means

  datatype Item = One(c: char) | Star(c: char) | End

  /** A character before '*' is repeated; '$' at the end of the pattern stands for the end of the text. */
  function Items(re: string): (items: seq<Item>) {
    if re == "" then []
    else if |re| > 1 && re[1] == '*' then [Star(re[0])] + Items(re[2..])
    else if re == "$" then [End]
    else [One(re[0])] + Items(re[1..])
  }

  /** '.' takes any character. */
  predicate Takes(c: char, x: char) {
    c == '.' || c == x
  }

  predicate TakesAll(c: char, w: string) {
    forall k :: 0 <= k < |w| ==> Takes(c, w[k])
  }

  /** An item accounts for w when `after` is the rest of the text. */
  predicate Fits(item: Item, w: string, after: string) {
    match item
    case One(c) => |w| == 1 && Takes(c, w[0])
    case Star(c) => TakesAll(c, w)
    case End => w == "" && after == ""
  }

  function Concat(ws: seq<string>): (s: string) {
    if ws == [] then "" else ws[0] + Concat(ws[1..])
  }

  /** text is cut into one piece for each item, and an unmatched rest. */
  predicate Decomposes(items: seq<Item>, text: string, ws: seq<string>, rest: string) {
    && |ws| == |items|
    && text == Concat(ws) + rest
    && forall k :: 0 <= k < |items| ==> Fits(items[k], ws[k], Concat(ws[k + 1..]) + rest)
  }

  ghost predicate MatchesHere(items: seq<Item>, text: string) {
    exists ws, rest :: Decomposes(items, text, ws, rest)
  }

  /** The pattern occurs in the text: at its beginning if it starts with '^', anywhere otherwise. */
  ghost predicate Matches(re: string, text: string) {
    if re != "" && re[0] == '^' then MatchesHere(Items(re[1..]), text)
    else exists i :: 0 <= i <= |text| && MatchesHere(Items(re), text[i..])
  }

  // ------------------------------------------------------------------
  // Taking the first item off

  lemma NoItems(text: string)
    ensures MatchesHere([], text)
  {
    assert Decomposes([], text, [], text);
  }

  /** Item by item: the first piece w fits and the rest of the text matches the rest of the pattern. */
  ghost predicate FirstFits(items: seq<Item>, text: string, k: nat)
    requires items != [] && k <= |text|
  {
    Fits(items[0], text[..k], text[k..]) && MatchesHere(items[1..], text[k..])
  }

  lemma TakeFirst(items: seq<Item>, text: string, k: nat)
    requires items != [] && k <= |text| && FirstFits(items, text, k)
    ensures MatchesHere(items, text)
  {
    var ws, rest :| Decomposes(items[1..], text[k..], ws, rest);
    var all := [text[..k]] + ws;
    assert all[1..] == ws;
    assert text == text[..k] + text[k..];
    assert text[..k] + text[k..] == text[..k] + Concat(ws) + rest;
    forall j | 0 <= j < |items| ensures Fits(items[j], all[j], Concat(all[j + 1..]) + rest) {
      if j > 0 {
        assert all[j + 1..] == ws[j..];
        assert items[j] == items[1..][j - 1];
      }
    }
    assert Decomposes(items, text, all, rest);
  }

  lemma SplitFirst(items: seq<Item>, text: string) returns (k: nat)
    requires items != [] && MatchesHere(items, text)
    ensures k <= |text| && FirstFits(items, text, k)
  {
    var ws, rest :| Decomposes(items, text, ws, rest);
    k := |ws[0]|;
    var tail := Concat(ws[1..]) + rest;
    assert text == ws[0] + tail;
    assert text[..k] == ws[0] && text[k..] == tail;
    forall j | 0 <= j < |items| - 1 ensures Fits(items[1..][j], ws[1..][j], Concat(ws[1..][j + 1..]) + rest) {
      assert ws[1..][j + 1..] == ws[j + 2..];
      assert items[1..][j] == items[j + 1];
    }
    assert Decomposes(items[1..], text[k..], ws[1..], rest);
  }

  lemma FirstIsOne(items: seq<Item>, text: string)
    requires items != [] && items[0].One?
    ensures MatchesHere(items, text) <==> text != "" && Takes(items[0].c, text[0]) && MatchesHere(items[1..], text[1..])
  {
    if MatchesHere(items, text) {
      var k := SplitFirst(items, text);
    }
    if text != "" && Takes(items[0].c, text[0]) && MatchesHere(items[1..], text[1..]) {
      TakeFirst(items, text, 1);
    }
  }

  lemma FirstIsStar(items: seq<Item>, text: string)
    requires items != [] && items[0].Star?
    ensures MatchesHere(items, text) <==>
            exists k :: 0 <= k <= |text| && TakesAll(items[0].c, text[..k]) && MatchesHere(items[1..], text[k..])
  {
    if MatchesHere(items, text) {
      var k := SplitFirst(items, text);
    }
    if k :| 0 <= k <= |text| && TakesAll(items[0].c, text[..k]) && MatchesHere(items[1..], text[k..]) {
      TakeFirst(items, text, k);
    }
  }

  lemma OnlyEnd(text: string)
    ensures MatchesHere([End], text) <==> text == ""
  {
    if MatchesHere([End], text) {
      var k := SplitFirst([End], text);
    }
    if text == "" {
      assert [End][1..] == [];
      NoItems(text[0..]);
      TakeFirst([End], text, 0);
    }
  }

  // ------------------------------------------------------------------
  // The matcher

  method Match(re: string, text: string) returns (found: bool)
    ensures found <==> Matches(re, text)
  {
    if re != "" && re[0] == '^' {
      found := MatchHere(re[1..], text);
      return;
    }
    var i := 0;
    while true
      invariant 0 <= i <= |text|
      invariant forall j :: 0 <= j < i ==> !MatchesHere(Items(re), text[j..])
      decreases |text| - i
    {
      found := MatchHere(re, text[i..]);
      if found {
        return;
      }
      if i == |text| {
        return;
      }
      i := i + 1;
    }
  }

  method MatchHere(re: string, text: string) returns (found: bool)
    ensures found <==> MatchesHere(Items(re), text)
    decreases |re|, 1
  {
    if re == "" {
      NoItems(text);
      return true;
    }
    if |re| > 1 && re[1] == '*' {
      found := MatchStar(re[0], re[2..], text);
      FirstIsStar(Items(re), text);
      assert Items(re)[1..] == Items(re[2..]);
      return;
    }
    if re == "$" {
      OnlyEnd(text);
      return text == "";
    }
    FirstIsOne(Items(re), text);
    assert Items(re)[1..] == Items(re[1..]);
    if text != "" && (re[0] == '.' || re[0] == text[0]) {
      found := MatchHere(re[1..], text[1..]);
      return;
    }
    return false;
  }

  /** Zero or more instances of c, then the rest of the pattern. */
  method MatchStar(c: char, re: string, text: string) returns (found: bool)
    ensures found <==> exists k :: 0 <= k <= |text| && TakesAll(c, text[..k]) && MatchesHere(Items(re), text[k..])
    decreases |re|, 2
  {
    var i := 0;
    while true
      invariant 0 <= i <= |text| && TakesAll(c, text[..i])
      invariant forall k :: 0 <= k < i ==> !MatchesHere(Items(re), text[k..])
      decreases |text| - i
    {
      found := MatchHere(re, text[i..]);
      if found {
        return;
      }
      if i == |text| || !(text[i] == c || c == '.') {
        break;
      }
      i := i + 1;
    }
    forall k | i < k <= |text| ensures !TakesAll(c, text[..k]) {
      assert text[..k][i] == text[i];
    }
  }
}
