/** From the characters of a command line to its tokens, and back. */
module ShellLexer {
  import opened ShellGrammar
  import opened ShellDerivation

  /** A command line: NUL is what it ends at. */
  type Line = u: string | '\0' !in u

  function WordLength(u: string): (n: nat)
    ensures n <= |u| && (forall i :: 0 <= i < n ==> Plain(u[i])) && (n < |u| ==> !Plain(u[n]))
  {
    if u == "" || !Plain(u[0]) then 0 else 1 + WordLength(u[1..])
  }

  /** The tokens of a line. */
  function Lex(u: string): (toks: seq<Token>)
    decreases |u|
  {
    if u == "" then []
    else if IsSpace(u[0]) then Lex(u[1..])
    else if u[0] == '>' && |u| > 1 && u[1] == '>' then [Append] + Lex(u[2..])
    else if IsSymbol(u[0]) then [Sym(u[0])] + Lex(u[1..])
    else [Word(u[..WordLength(u)])] + Lex(u[WordLength(u)..])
  }

  lemma {:induction false} LexClean(u: Line)
    ensures Clean(Lex(u))
    decreases |u|
  {
    if u == "" {
    } else if IsSpace(u[0]) {
      LexClean(u[1..]);
    } else if u[0] == '>' && |u| > 1 && u[1] == '>' {
      LexClean(u[2..]);
    } else if IsSymbol(u[0]) {
      LexClean(u[1..]);
    } else {
      LexClean(u[WordLength(u)..]);
      assert CleanWord(u[..WordLength(u)]);
    }
  }

  function Text(t: Token): (u: string) {
    match t
    case Sym(c) => [c]
    case Append => ">>"
    case Word(w) => w
  }

  /** The tokens written with a space after each. */
  function Render(toks: seq<Token>): (u: string) {
    if toks == [] then "" else Text(toks[0]) + " " + Render(toks[1..])
  }

  // ------------------------------------------------------------------
  // What the tokens of a line are

  predicate AllSpace(u: string) {
    forall i :: 0 <= i < |u| ==> IsSpace(u[i])
  }

  /** The token t can end where v begins: a word is as long as it can be, and so is `>>`. */
  predicate Ends(t: Token, v: string) {
    v == "" || (if t.Word? then !Plain(v[0]) else t == Sym('>') ==> v[0] != '>')
  }

  /** The line consists of the texts of the tokens, with any white space before, between and behind them. */
  ghost predicate Spells(u: string, toks: seq<Token>)
    decreases |toks|, 1
  {
    if toks == [] then AllSpace(u) else exists k: nat :: SpellsAt(u, toks, k)
  }

  /** The first token stands behind k characters of white space. */
  ghost predicate SpellsAt(u: string, toks: seq<Token>, k: nat)
    requires toks != []
    decreases |toks|, 0
  {
    var w := Text(toks[0]);
    && k + |w| <= |u| && AllSpace(u[..k]) && u[k..k + |w|] == w && CleanToken(toks[0])
    && Ends(toks[0], u[k + |w|..]) && Spells(u[k + |w|..], toks[1..])
  }

  lemma {:induction false} LexSkips(u: string, k: nat)
    requires k <= |u| && AllSpace(u[..k])
    ensures Lex(u) == Lex(u[k..])
  {
    if k > 0 {
      assert IsSpace(u[..k][0]);
      assert u[1..][..k - 1] == u[..k][1..];
      LexSkips(u[1..], k - 1);
      assert u[1..][k - 1..] == u[k..];
    }
  }

  lemma WordIsFirst(w: string, v: string)
    requires CleanWord(w) && Ends(Word(w), v)
    ensures WordLength(w + v) == |w|
  {
    var u := w + v;
    assert |w| < |u| ==> u[|w|] == v[0];
    assert forall i :: 0 <= i < |w| ==> u[i] == w[i];
  }

  lemma LexFirst(t: Token, v: string)
    requires CleanToken(t) && Ends(t, v)
    ensures Lex(Text(t) + v) == [t] + Lex(v)
  {
    var u := Text(t) + v;
    match t
    case Sym(c) =>
      assert u[0] == c && u[1..] == v;
    case Append =>
      assert u[0] == '>' && u[1] == '>' && u[2..] == v;
    case Word(w) =>
      WordIsFirst(w, v);
      assert u[0] == w[0] && u[..|w|] == w && u[|w|..] == v;
  }

  lemma {:induction false} SpelledIsLexed(u: string, toks: seq<Token>)
    requires Spells(u, toks)
    ensures Lex(u) == toks
    decreases |toks|
  {
    if toks == [] {
      assert u[..|u|] == u;
      LexSkips(u, |u|);
    } else {
      var k: nat :| SpellsAt(u, toks, k);
      var w := Text(toks[0]);
      var v := u[k + |w|..];
      SpelledIsLexed(v, toks[1..]);
      LexSkips(u, k);
      TextFirst(u, k, w);
      LexFirst(toks[0], v);
    }
  }

  lemma TextFirst(u: string, k: nat, w: string)
    requires k + |w| <= |u| && u[k..k + |w|] == w
    ensures u[k..] == w + u[k + |w|..]
  {
  }

  lemma {:induction false} SpellsSpace(u: string, toks: seq<Token>)
    requires u != "" && IsSpace(u[0]) && Spells(u[1..], toks)
    ensures Spells(u, toks)
  {
    if toks == [] {
      assert u == [u[0]] + u[1..];
    } else {
      var k: nat :| SpellsAt(u[1..], toks, k);
      var w := Text(toks[0]);
      assert u[..k + 1] == [u[0]] + u[1..][..k];
      assert u[1..][k..k + |w|] == u[k + 1..k + 1 + |w|] && u[1..][k + |w|..] == u[k + 1 + |w|..];
      assert SpellsAt(u, toks, k + 1);
    }
  }

  lemma SpellsToken(t: Token, v: string, u: string, toks: seq<Token>)
    requires CleanToken(t) && Ends(t, v) && u == Text(t) + v && Spells(v, toks)
    ensures Spells(u, [t] + toks)
  {
    assert ([t] + toks)[1..] == toks && u[..0] == "";
    assert u[0..|Text(t)|] == Text(t) && u[0 + |Text(t)|..] == v;
    assert SpellsAt(u, [t] + toks, 0);
  }

  lemma {:induction false} LexedIsSpelled(u: Line)
    ensures Spells(u, Lex(u))
    decreases |u|
  {
    if u == "" {
    } else if IsSpace(u[0]) {
      LexedIsSpelled(u[1..]);
      SpellsSpace(u, Lex(u[1..]));
    } else {
      var t := if u[0] == '>' && |u| > 1 && u[1] == '>' then Append
               else if IsSymbol(u[0]) then Sym(u[0])
               else Word(u[..WordLength(u)]);
      var v := u[|Text(t)|..];
      LexedIsSpelled(v);
      assert u == Text(t) + v;
      SpellsToken(t, v, u, Lex(v));
    }
  }

  /** The tokens of a line are exactly those that it spells. */
  lemma LexExact(u: Line, toks: seq<Token>)
    ensures Lex(u) == toks <==> Spells(u, toks)
  {
    LexedIsSpelled(u);
    if Spells(u, toks) {
      SpelledIsLexed(u, toks);
    }
  }

  /** The tokens are recovered from the text. */
  lemma {:induction false} LexRender(toks: seq<Token>)
    requires Clean(toks)
    ensures Lex(Render(toks)) == toks
  {
    if toks != [] {
      var v := Render(toks[1..]);
      LexRender(toks[1..]);
      LexFirst(toks[0], " " + v);
      assert Text(toks[0]) + " " + v == Text(toks[0]) + (" " + v);
      assert (" " + v)[1..] == v;
    }
  }

  /** `parsecmd` on a command line. */
  function ParseText(u: Line): (r: Result<Tree>) {
    Parse(Lex(u))
  }

  /** A line is parsed to a tree exactly if it spells tokens from which the grammar derives that tree. */
  lemma ParseTextExact(u: Line, t: Tree)
    ensures ParseText(u) == Ok(t, []) <==> exists toks: seq<Token> :: Spells(u, toks) && LineOf(t, toks)
  {
    LexExact(u, Lex(u));
    ParseExact(t, Lex(u));
    if toks: seq<Token> :| Spells(u, toks) && LineOf(t, toks) {
      LexExact(u, toks);
    }
  }

  /** The text of clean tokens is a string: NUL is not in it. */
  lemma {:induction false} RenderIsString(toks: seq<Token>)
    requires Clean(toks)
    ensures '\0' !in Render(toks)
  {
    if toks != [] {
      RenderIsString(toks[1..]);
      assert '\0' !in Text(toks[0]);
    }
  }

  /** Every writable command can be typed, and is then parsed as it was meant. */
  lemma TextRoundTrip(t: Tree)
    requires Writable(t)
    ensures '\0' !in Render(PrintLine(t)) && ParseText(Render(PrintLine(t))) == Ok(t, [])
  {
    PrintLineClean(t);
    RenderIsString(PrintLine(t));
    LexRender(PrintLine(t));
    WritableFits(t);
    RoundTrip(t);
  }

  /** The commands that can be typed are exactly the writable ones. */
  lemma TypeableExact(t: Tree)
    ensures Writable(t) <==> exists u: Line :: ParseText(u) == Ok(t, [])
  {
    if Writable(t) {
      TextRoundTrip(t);
      var u: Line := Render(PrintLine(t));
      assert ParseText(u) == Ok(t, []);
    }
    if u: Line :| ParseText(u) == Ok(t, []) {
      LexClean(u);
      LineWritable(Lex(u));
    }
  }
}
