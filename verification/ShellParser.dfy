/**
 The parser as it works on the characters of the line: it keeps positions, not
 copies, of the words, which `nulterminate` finally turns into C strings.
 */
module ShellParser {
  import opened ShellGrammar
  import opened ShellLexer

  /** A word of the line: from q up to eq. */
  datatype Span = Span(q: nat, eq: nat)

  datatype Cmd =
    | ExecCmd(argv: seq<Span>)
    | RedirCmd(cmd: Cmd, file: Span, input: bool)
    | PipeCmd(left: Cmd, right: Cmd)
    | ListCmd(first: Cmd, second: Cmd)
    | BackCmd(job: Cmd)

  /** A span of plain characters that ends at the end of the line or at a space or symbol. */
  predicate GoodSpan(s: string, sp: Span) {
    && sp.q < sp.eq <= |s|
    && (forall i :: sp.q <= i < sp.eq ==> Plain(s[i]))
    && (sp.eq < |s| ==> !Plain(s[sp.eq]))
  }

  predicate GoodSpans(s: string, c: Cmd) {
    match c
    case ExecCmd(argv) => forall i :: 0 <= i < |argv| ==> GoodSpan(s, argv[i])
    case RedirCmd(d, f, _) => GoodSpans(s, d) && GoodSpan(s, f)
    case PipeCmd(l, r) => GoodSpans(s, l) && GoodSpans(s, r)
    case ListCmd(a, b) => GoodSpans(s, a) && GoodSpans(s, b)
    case BackCmd(d) => GoodSpans(s, d)
  }

  function TextOf(s: string, sp: Span): (w: string) {
    if sp.q <= sp.eq <= |s| then s[sp.q..sp.eq] else ""
  }

  function TextsOf(s: string, argv: seq<Span>): (ws: seq<string>)
    ensures |ws| == |argv|
  {
    if argv == [] then [] else TextsOf(s, argv[..|argv| - 1]) + [TextOf(s, argv[|argv| - 1])]
  }

  /** The command that the positions stand for. */
  function TreeOf(s: string, c: Cmd): (t: Tree) {
    match c
    case ExecCmd(argv) => Exec(TextsOf(s, argv))
    case RedirCmd(d, f, input) => Redir(TreeOf(s, d), Redirection(input, TextOf(s, f)))
    case PipeCmd(l, r) => Pipe(TreeOf(s, l), TreeOf(s, r))
    case ListCmd(a, b) => List(TreeOf(s, a), TreeOf(s, b))
    case BackCmd(d) => Back(TreeOf(s, d))
  }

  // ------------------------------------------------------------------
  // gettoken and peek

  /** The character that `gettoken` returns for a token. */
  function Code(t: Token): (c: char) {
    match t
    case Sym(c) => c
    case Append => '+'
    case Word(_) => 'a'
  }

  lemma SpaceStep(s: string, p: nat)
    requires p < |s| && IsSpace(s[p])
    ensures Lex(s[p..]) == Lex(s[p + 1..])
  {
    assert s[p..][1..] == s[p + 1..];
  }

  /** Skip white space. */
  method Skip(s: string, p: nat) returns (q: nat)
    requires p <= |s|
    ensures p <= q <= |s| && Lex(s[q..]) == Lex(s[p..]) && (q < |s| ==> !IsSpace(s[q]))
  {
    q := p;
    ghost var toks := Lex(s[p..]);
    while q < |s| && IsSpace(s[q])
      invariant p <= q <= |s| && Lex(s[q..]) == toks
    {
      SpaceStep(s, q);
      q := q + 1;
    }
  }

  /** `gettoken`: NUL at the end of the line, otherwise the next token, whose word is sp. */
  method GetToken(s: Line, p: nat) returns (ret: char, sp: Span, p': nat, ghost tok: Token)
    requires p <= |s|
    ensures p <= p' <= |s|
    ensures ret == '\0' <==> Lex(s[p..]) == []
    ensures ret == '\0' ==> Lex(s[p'..]) == []
    ensures ret != '\0' ==> Lex(s[p..]) == [tok] + Lex(s[p'..]) && ret == Code(tok) && CleanToken(tok) && p < p'
    ensures ret != '\0' && tok.Word? ==> GoodSpan(s, sp) && TextOf(s, sp) == tok.w
  {
    var q := Skip(s, p);
    var e := q;
    tok := Append;
    if q == |s| {
      return '\0', Span(q, q), q, tok;
    }
    ret, e, tok := ReadToken(s, q);
    p' := Skip(s, e);
    sp := Span(q, e);
  }

  /** The switch of `gettoken`. */
  method ReadToken(s: Line, q: nat) returns (ret: char, e: nat, ghost tok: Token)
    requires q < |s| && !IsSpace(s[q])
    ensures q < e <= |s| && ret != '\0'
    ensures Lex(s[q..]) == [tok] + Lex(s[e..]) && ret == Code(tok) && CleanToken(tok)
    ensures tok.Word? ==> GoodSpan(s, Span(q, e)) && TextOf(s, Span(q, e)) == tok.w
  {
    var c := s[q];
    if c == '|' || c == '(' || c == ')' || c == ';' || c == '&' || c == '<' {
      assert s[q..][1..] == s[q + 1..];
      return c, q + 1, Sym(c);
    }
    if c == '>' {
      if q + 1 < |s| && s[q + 1] == '>' {
        assert s[q..][2..] == s[q + 2..];
        return '+', q + 2, Append;
      }
      assert s[q..][1..] == s[q + 1..];
      return '>', q + 1, Sym('>');
    }
    e := q;
    while e < |s| && !IsSpace(s[e]) && !IsSymbol(s[e])
      invariant q <= e <= |s| && forall i :: q <= i < e ==> Plain(s[i])
    {
      e := e + 1;
    }
    WordIs(s, q, e);
    return 'a', e, Word(s[q..e]);
  }

  lemma WordIs(s: Line, q: nat, e: nat)
    requires q < e <= |s| && (forall i :: q <= i < e ==> Plain(s[i])) && (e < |s| ==> !Plain(s[e]))
    ensures Lex(s[q..]) == [Word(s[q..e])] + Lex(s[e..]) && CleanWord(s[q..e])
  {
    var u := s[q..];
    WordLengthIs(u, e - q);
    assert u[..e - q] == s[q..e] && u[e - q..] == s[e..];
  }

  lemma {:induction false} WordLengthIs(u: string, n: nat)
    requires n <= |u| && (forall i :: 0 <= i < n ==> Plain(u[i])) && (n < |u| ==> !Plain(u[n]))
    ensures WordLength(u) == n
  {
    if n > 0 {
      WordLengthIs(u[1..], n - 1);
    }
  }

  /** The first character of a token. */
  function FirstChar(t: Token): (c: char) {
    match t
    case Sym(c) => c
    case Append => '>'
    case Word(w) => if w == "" then ' ' else w[0]
  }

  /** `peek`: does the next token start with one of these characters? */
  method Peek(s: Line, p: nat, toks: string) returns (p': nat, found: bool)
    requires p <= |s|
    ensures p <= p' <= |s| && Lex(s[p'..]) == Lex(s[p..])
    ensures found <==> Lex(s[p..]) != [] && FirstChar(Lex(s[p..])[0]) in toks
  {
    p' := Skip(s, p);
    if p' < |s| {
      FirstOfLex(s[p'..]);
    }
    found := p' < |s| && s[p'] in toks;
  }

  lemma FirstOfLex(u: string)
    requires u != "" && !IsSpace(u[0])
    ensures Lex(u) != [] && FirstChar(Lex(u)[0]) == u[0]
  {
  }

  // ------------------------------------------------------------------
  // The parser

  datatype Outcome = Parsed(cmd: Cmd) | Failed(error: Error)

  /** The outcome o, at position p', is what the grammar says. */
  ghost predicate Agrees(s: string, r: Result<Tree>, o: Outcome, p': nat) {
    match r
    case Err(e) => o == Failed(e)
    case Ok(t, rest) =>
      && o.Parsed? && TreeOf(s, o.cmd) == t && GoodSpans(s, o.cmd)
      && p' <= |s| && Lex(s[p'..]) == rest
  }

  /** The next token, if there is one, has the class that `peek` reports. */
  lemma PeekMeans(toks: seq<Token>, cs: string)
    requires Clean(toks)
    requires forall i :: 0 <= i < |cs| ==> IsSymbol(cs[i]) && cs[i] != '>'
    ensures (toks != [] && FirstChar(toks[0]) in cs) <==> Starts(toks, cs)
  {
    if toks != [] {
      assert CleanToken(toks[0]);
    }
  }

  lemma PeekRedir(toks: seq<Token>)
    requires Clean(toks)
    ensures (toks != [] && FirstChar(toks[0]) in "<>") <==> (toks != [] && IsRedir(toks[0]))
  {
    if toks != [] {
      assert CleanToken(toks[0]);
    }
  }

  /** `peek` for tokens other than redirections. */
  method PeekFor(s: Line, p: nat, cs: string) returns (p': nat, found: bool)
    requires p <= |s| && forall i :: 0 <= i < |cs| ==> IsSymbol(cs[i]) && cs[i] != '>'
    ensures p <= p' <= |s| && Lex(s[p'..]) == Lex(s[p..])
    ensures found <==> Starts(Lex(s[p..]), cs)
  {
    LexClean(s[p..]);
    PeekMeans(Lex(s[p..]), cs);
    p', found := Peek(s, p, cs);
  }

  /** `parseredirs`: cmd is base within the redirections rs. */
  method ParseRedirs(s: Line, p: nat, cmd: Cmd, ghost base: Tree, ghost rs: seq<Redirection>)
    returns (o: Outcome, p': nat, ghost rs': seq<Redirection>)
    requires p <= |s| && GoodSpans(s, cmd) && TreeOf(s, cmd) == Wrap(base, rs)
    ensures match Redirs(Lex(s[p..]), rs)
            case Err(e) => o == Failed(e)
            case Ok(v, rest) => rs' == v && p <= p' && Agrees(s, Ok(Wrap(base, v), rest), o, p')
  {
    p', rs' := p, rs;
    var ret := cmd;
    while true
      invariant p <= p' <= |s| && GoodSpans(s, ret) && TreeOf(s, ret) == Wrap(base, rs')
      invariant Redirs(Lex(s[p'..]), rs') == Redirs(Lex(s[p..]), rs)
      decreases |s| - p'
    {
      LexClean(s[p'..]);
      PeekRedir(Lex(s[p'..]));
      var found;
      p', found := Peek(s, p', "<>");
      if !found {
        return Parsed(ret), p', rs';
      }
      var input, file;
      ghost var t;
      o, p', input, file, t := RedirTarget(s, p', rs');
      if o.Failed? {
        return;
      }
      WrapMore(base, rs', t);
      ret := RedirCmd(ret, file, input);
      rs' := rs' + [t];
    }
  }

  /** The body of the loop: a redirection and the file that it needs. */
  method RedirTarget(s: Line, p: nat, ghost rs: seq<Redirection>)
    returns (o: Outcome, p': nat, input: bool, file: Span, ghost t: Redirection)
    requires p <= |s| && Lex(s[p..]) != [] && IsRedir(Lex(s[p..])[0])
    ensures o.Failed? ==> Redirs(Lex(s[p..]), rs) == Err(MissingFile) && o.error == MissingFile
    ensures o.Parsed? ==> p < p' <= |s| && GoodSpan(s, file) && t == Redirection(input, TextOf(s, file))
    ensures o.Parsed? ==> Redirs(Lex(s[p..]), rs) == Redirs(Lex(s[p'..]), rs + [t])
  {
    var tok, ret;
    ghost var t1, t2;
    tok, file, p', t1 := GetToken(s, p);
    ghost var rest := Lex(s[p'..]);
    ret, file, p', t2 := GetToken(s, p');
    input := tok == '<';
    t := Redirection(input, TextOf(s, file));
    if ret != 'a' {
      RedirsBad(t1, rest, rs);
      return Failed(MissingFile), p', input, file, t;
    }
    RedirsNext(t1, t2, Lex(s[p'..]), rs);
    o := Parsed(ExecCmd([]));
  }

  lemma RedirsNext(t1: Token, t2: Token, rest: seq<Token>, rs: seq<Redirection>)
    requires IsRedir(t1) && t2.Word?
    ensures Redirs([t1] + ([t2] + rest), rs) == Redirs(rest, rs + [Redirection(t1 == Sym('<'), t2.w)])
  {
    var toks := [t1] + ([t2] + rest);
    assert toks[0] == t1 && toks[1] == t2 && toks[2..] == rest;
  }

  lemma RedirsBad(t1: Token, rest: seq<Token>, rs: seq<Redirection>)
    requires IsRedir(t1) && (rest == [] || !rest[0].Word?)
    ensures Redirs([t1] + rest, rs) == Err(MissingFile)
  {
  }

  lemma WrapMore(base: Tree, rs: seq<Redirection>, r: Redirection)
    ensures Wrap(base, rs + [r]) == Redir(Wrap(base, rs), r)
  {
    assert (rs + [r])[..|rs|] == rs;
  }

  /** One more argument for the command inside the redirections. */
  function AddArg(c: Cmd, sp: Span): (c': Cmd) {
    match c
    case ExecCmd(argv) => ExecCmd(argv + [sp])
    case RedirCmd(d, f, input) => RedirCmd(AddArg(d, sp), f, input)
    case _ => c
  }

  lemma {:induction false} AddArgMeans(s: string, c: Cmd, sp: Span, argv: seq<string>, rs: seq<Redirection>)
    requires GoodSpans(s, c) && GoodSpan(s, sp) && TreeOf(s, c) == Wrap(Exec(argv), rs)
    ensures GoodSpans(s, AddArg(c, sp)) && TreeOf(s, AddArg(c, sp)) == Wrap(Exec(argv + [TextOf(s, sp)]), rs)
    decreases |rs|
  {
    if rs == [] {
      assert c.ExecCmd?;
      assert (c.argv + [sp])[..|c.argv|] == c.argv;
    } else {
      AddArgMeans(s, c.cmd, sp, argv, rs[..|rs| - 1]);
    }
  }

  lemma ArgsStep(w: string, rest: seq<Token>, argv: seq<string>, rs: seq<Redirection>)
    ensures Args([Word(w)] + rest, argv, rs) ==
            if |argv| + 1 >= MAXARGS then Err(TooManyArgs)
            else
              var more := Redirs(rest, rs);
              if more.Err? then Err(more.error) else Args(more.rest, argv + [w], more.value)
  {
    assert ([Word(w)] + rest)[1..] == rest;
  }

  method ParseExecCmd(s: Line, p: nat) returns (o: Outcome, p': nat)
    requires p <= |s|
    ensures Agrees(s, ParseExec(Lex(s[p..])), o, p') && (o.Parsed? ==> p <= p')
    decreases |s| - p, 1
  {
    var found;
    p', found := PeekFor(s, p, "(");
    if found {
      o, p' := ParseBlockCmd(s, p');
      return;
    }
    ghost var argv: seq<string>, rs: seq<Redirection> := [], [];
    o, p', rs := ParseRedirs(s, p', ExecCmd([]), Exec([]), []);
    if o.Failed? {
      return;
    }
    o, p' := ParseArgs(s, p', o.cmd, rs);
  }

  /** The loop of `parseexec`. */
  method ParseArgs(s: Line, p: nat, cmd: Cmd, ghost rs0: seq<Redirection>) returns (o: Outcome, p': nat)
    requires p <= |s| && GoodSpans(s, cmd) && TreeOf(s, cmd) == Wrap(Exec([]), rs0)
    ensures Agrees(s, Args(Lex(s[p..]), [], rs0), o, p') && (o.Parsed? ==> p <= p')
  {
    ghost var argv: seq<string>, rs := [], rs0;
    var argc, done := 0, false;
    o, p' := Parsed(cmd), p;
    while !done
      invariant p <= p' <= |s| && argc <= MAXARGS
      invariant !done ==> o.Parsed? && GoodSpans(s, o.cmd) && TreeOf(s, o.cmd) == Wrap(Exec(argv), rs)
      invariant !done ==> argc == |argv| < MAXARGS
      invariant !done ==> Args(Lex(s[p'..]), argv, rs) == Args(Lex(s[p..]), [], rs0)
      invariant done ==> Agrees(s, Args(Lex(s[p..]), [], rs0), o, p')
      decreases if done then 0 else 1, |s| - p'
    {
      o, p', argc, done, argv, rs := ParseArg(s, p', o.cmd, argc, argv, rs);
    }
  }

  /** One round of the loop: it is done at the end of the command or on a panic. */
  method ParseArg(s: Line, p: nat, ret: Cmd, argc: nat, ghost argv: seq<string>, ghost rs: seq<Redirection>)
    returns (o: Outcome, p': nat, argc': nat, done: bool, ghost argv': seq<string>, ghost rs': seq<Redirection>)
    requires p <= |s| && GoodSpans(s, ret) && TreeOf(s, ret) == Wrap(Exec(argv), rs) && argc == |argv| < MAXARGS
    ensures p <= p' <= |s| && argc' <= MAXARGS
    ensures done ==> Agrees(s, Args(Lex(s[p..]), argv, rs), o, p')
    ensures !done ==> o.Parsed? && p < p' && GoodSpans(s, o.cmd) && TreeOf(s, o.cmd) == Wrap(Exec(argv'), rs')
    ensures !done ==> argc' == |argv'| < MAXARGS
    ensures !done ==> Args(Lex(s[p'..]), argv', rs') == Args(Lex(s[p..]), argv, rs)
  {
    argv', rs', argc', done := argv, rs, argc, true;
    var found, tok, sp;
    ghost var t;
    p', found := PeekFor(s, p, "|)&;");
    if found {
      return Parsed(ret), p', argc', done, argv', rs';
    }
    tok, sp, p', t := GetToken(s, p');
    if tok == '\0' {
      return Parsed(ret), p', argc', done, argv', rs';
    }
    if tok != 'a' {
      ArgsBad(t, Lex(s[p'..]), argv, rs);
      return Failed(SyntaxError), p', argc', done, argv', rs';
    }
    ArgsStep(t.w, Lex(s[p'..]), argv, rs);
    argc' := argc + 1;
    if argc' >= MAXARGS {
      return Failed(TooManyArgs), p', argc', done, argv', rs';
    }
    argv' := argv + [t.w];
    o, p', rs' := TakeArg(s, p', ret, sp, argv, rs);
    done := o.Failed?;
  }

  /** The word at sp becomes an argument, and the redirections behind it are parsed. */
  method TakeArg(s: Line, p: nat, ret: Cmd, sp: Span, ghost argv: seq<string>, ghost rs: seq<Redirection>)
    returns (o: Outcome, p': nat, ghost rs': seq<Redirection>)
    requires p <= |s| && GoodSpans(s, ret) && TreeOf(s, ret) == Wrap(Exec(argv), rs) && GoodSpan(s, sp)
    ensures p <= p' <= |s|
    ensures match Redirs(Lex(s[p..]), rs)
            case Err(e) => o == Failed(e)
            case Ok(v, rest) =>
              && rs' == v && Lex(s[p'..]) == rest
              && o.Parsed? && GoodSpans(s, o.cmd) && TreeOf(s, o.cmd) == Wrap(Exec(argv + [TextOf(s, sp)]), v)
  {
    AddArgMeans(s, ret, sp, argv, rs);
    o, p', rs' := ParseRedirs(s, p, AddArg(ret, sp), Exec(argv + [TextOf(s, sp)]), rs);
    if o.Failed? {
      p' := p;
    }
  }

  lemma ArgsBad(t: Token, rest: seq<Token>, argv: seq<string>, rs: seq<Redirection>)
    requires !t.Word? && !Starts([t] + rest, "|)&;")
    ensures Args([t] + rest, argv, rs) == Err(SyntaxError)
  {
  }

  method ParseBlockCmd(s: Line, p: nat) returns (o: Outcome, p': nat)
    requires p <= |s| && Starts(Lex(s[p..]), "(")
    ensures Agrees(s, ParseBlock(Lex(s[p..])), o, p') && (o.Parsed? ==> p <= p')
    decreases |s| - p, 0
  {
    var tok, sp, found;
    ghost var t, rs;
    tok, sp, p', t := GetToken(s, p);
    o, p' := ParseLineCmd(s, p');
    if o.Failed? {
      return;
    }
    p', found := PeekFor(s, p', ")");
    if !found {
      return Failed(MissingParen), p';
    }
    tok, sp, p', t := GetToken(s, p');
    o, p', rs := ParseRedirs(s, p', o.cmd, TreeOf(s, o.cmd), []);
  }

  method ParsePipeCmd(s: Line, p: nat) returns (o: Outcome, p': nat)
    requires p <= |s|
    ensures Agrees(s, ParsePipe(Lex(s[p..])), o, p') && (o.Parsed? ==> p <= p')
    decreases |s| - p, 2
  {
    o, p' := ParseExecCmd(s, p);
    if o.Failed? {
      return;
    }
    var left, found, tok, sp := o.cmd, false, '\0', Span(0, 0);
    ghost var t;
    p', found := PeekFor(s, p', "|");
    if found {
      tok, sp, p', t := GetToken(s, p');
      o, p' := ParsePipeCmd(s, p');
      if o.Parsed? {
        o := Parsed(PipeCmd(left, o.cmd));
      }
    }
  }

  method ParseLineCmd(s: Line, p: nat) returns (o: Outcome, p': nat)
    requires p <= |s|
    ensures Agrees(s, ParseLine(Lex(s[p..])), o, p') && (o.Parsed? ==> p <= p')
    decreases |s| - p, 3
  {
    o, p' := ParsePipeCmd(s, p);
    if o.Failed? {
      return;
    }
    var cmd, found, tok, sp := o.cmd, false, '\0', Span(0, 0);
    ghost var t, p1 := Append, p';
    p', found := PeekFor(s, p', "&");
    while found
      invariant p <= p' <= |s| && GoodSpans(s, cmd) && found == Starts(Lex(s[p'..]), "&")
      invariant Backs(TreeOf(s, cmd), Lex(s[p'..])) == Backs(TreeOf(s, o.cmd), Lex(s[p1..]))
      decreases |s| - p'
    {
      tok, sp, p', t := GetToken(s, p');
      cmd := BackCmd(cmd);
      p', found := PeekFor(s, p', "&");
    }
    o := Parsed(cmd);
    p', found := PeekFor(s, p', ";");
    if found {
      tok, sp, p', t := GetToken(s, p');
      o, p' := ParseLineCmd(s, p');
      if o.Parsed? {
        o := Parsed(ListCmd(cmd, o.cmd));
      }
    }
  }

  /** `parsecmd` up to the call of `nulterminate`. */
  method ParseCommand(s: Line) returns (o: Outcome)
    ensures match ParseText(s)
            case Err(e) => o == Failed(e)
            case Ok(t, _) => o.Parsed? && TreeOf(s, o.cmd) == t && GoodSpans(s, o.cmd)
  {
    assert s[0..] == s;
    var p;
    o, p := ParseLineCmd(s, 0);
    if o.Parsed? {
      p := Skip(s, p);
      if p != |s| {
        FirstOfLex(s[p..]);
        return Failed(Leftovers);
      }
    }
  }

  // ------------------------------------------------------------------
  // nulterminate

  /** The C string that starts at position q. */
  function CString(b: string, q: nat): (w: string)
    decreases |b| - q
  {
    if q >= |b| || b[q] == '\0' then "" else [b[q]] + CString(b, q + 1)
  }

  function CStrings(b: string, argv: seq<Span>): (ws: seq<string>) {
    if argv == [] then [] else CStrings(b, argv[..|argv| - 1]) + [CString(b, argv[|argv| - 1].q)]
  }

  /** The command as `runcmd` sees it: every word is read up to the next NUL. */
  function SeenTree(b: string, c: Cmd): (t: Tree) {
    match c
    case ExecCmd(argv) => Exec(CStrings(b, argv))
    case RedirCmd(d, f, input) => Redir(SeenTree(b, d), Redirection(input, CString(b, f.q)))
    case PipeCmd(l, r) => Pipe(SeenTree(b, l), SeenTree(b, r))
    case ListCmd(a, e) => List(SeenTree(b, a), SeenTree(b, e))
    case BackCmd(d) => Back(SeenTree(b, d))
  }

  /** b is the line with NULs at some places, none of them inside a word. */
  ghost predicate WordsKept(s: string, b: string) {
    |b| == |s| + 1 && forall i :: 0 <= i < |s| && Plain(s[i]) ==> b[i] == s[i]
  }

  /** A NUL follows every word of c. */
  predicate Terminated(b: string, c: Cmd) {
    match c
    case ExecCmd(argv) => forall i :: 0 <= i < |argv| ==> argv[i].eq < |b| && b[argv[i].eq] == '\0'
    case RedirCmd(d, f, _) => Terminated(b, d) && f.eq < |b| && b[f.eq] == '\0'
    case PipeCmd(l, r) => Terminated(b, l) && Terminated(b, r)
    case ListCmd(a, e) => Terminated(b, a) && Terminated(b, e)
    case BackCmd(d) => Terminated(b, d)
  }

  /** More NULs. */
  ghost predicate MoreNuls(b: string, b': string) {
    |b'| == |b| && forall i :: 0 <= i < |b| && b[i] == '\0' ==> b'[i] == '\0'
  }

  lemma {:induction false} StillTerminated(b: string, b': string, c: Cmd)
    requires Terminated(b, c) && MoreNuls(b, b')
    ensures Terminated(b', c)
  {
    match c
    case ExecCmd(_) =>
    case RedirCmd(d, _, _) => StillTerminated(b, b', d);
    case PipeCmd(l, r) => StillTerminated(b, b', l); StillTerminated(b, b', r);
    case ListCmd(a, e) => StillTerminated(b, b', a); StillTerminated(b, b', e);
    case BackCmd(d) => StillTerminated(b, b', d);
  }

  method Nulterminate(buf: array<char>, c: Cmd, ghost s: string)
    requires WordsKept(s, buf[..]) && GoodSpans(s, c)
    modifies buf
    ensures WordsKept(s, buf[..]) && Terminated(buf[..], c) && MoreNuls(old(buf[..]), buf[..])
    decreases c
  {
    match c
    case ExecCmd(argv) =>
      var i := 0;
      while i < |argv|
        invariant 0 <= i <= |argv| && WordsKept(s, buf[..]) && MoreNuls(old(buf[..]), buf[..])
        invariant forall j :: 0 <= j < i ==> argv[j].eq < buf.Length && buf[argv[j].eq] == '\0'
      {
        assert GoodSpan(s, argv[i]);
        buf[argv[i].eq] := '\0';
        i := i + 1;
      }
    case RedirCmd(d, f, _) =>
      Nulterminate(buf, d, s);
      ghost var b := buf[..];
      buf[f.eq] := '\0';
      StillTerminated(b, buf[..], d);
    case PipeCmd(l, r) =>
      Nulterminate(buf, l, s);
      ghost var b := buf[..];
      Nulterminate(buf, r, s);
      StillTerminated(b, buf[..], l);
    case ListCmd(a, e) =>
      Nulterminate(buf, a, s);
      ghost var b := buf[..];
      Nulterminate(buf, e, s);
      StillTerminated(b, buf[..], a);
    case BackCmd(d) =>
      Nulterminate(buf, d, s);
  }

  /** With a NUL right after it, a word is read exactly. */
  lemma {:induction false} ReadsWord(s: Line, b: string, q: nat, eq: nat)
    requires WordsKept(s, b) && q <= eq <= |s| && b[eq] == '\0' && forall i :: q <= i < eq ==> Plain(s[i])
    ensures CString(b, q) == s[q..eq]
    decreases eq - q
  {
    if q < eq {
      assert b[q] == s[q] && s[q] in s;
      ReadsWord(s, b, q + 1, eq);
      assert s[q..eq] == [s[q]] + s[q + 1..eq];
    }
  }

  lemma {:induction false} ReadsArgs(s: Line, b: string, argv: seq<Span>)
    requires WordsKept(s, b)
    requires forall i :: 0 <= i < |argv| ==> GoodSpan(s, argv[i]) && b[argv[i].eq] == '\0'
    ensures CStrings(b, argv) == TextsOf(s, argv)
  {
    if argv != [] {
      ReadsArgs(s, b, argv[..|argv| - 1]);
      ReadsWord(s, b, argv[|argv| - 1].q, argv[|argv| - 1].eq);
    }
  }

  lemma {:induction false} ReadsTree(s: Line, b: string, c: Cmd)
    requires WordsKept(s, b) && GoodSpans(s, c) && Terminated(b, c)
    ensures SeenTree(b, c) == TreeOf(s, c)
  {
    match c
    case ExecCmd(argv) => ReadsArgs(s, b, argv);
    case RedirCmd(d, f, _) => ReadsTree(s, b, d); ReadsWord(s, b, f.q, f.eq);
    case PipeCmd(l, r) => ReadsTree(s, b, l); ReadsTree(s, b, r);
    case ListCmd(a, e) => ReadsTree(s, b, a); ReadsTree(s, b, e);
    case BackCmd(d) => ReadsTree(s, b, d);
  }

  /** `parsecmd`: the line in buf is parsed, and its words can then be read as C strings. */
  method ParseCmd(buf: array<char>, n: nat) returns (o: Outcome)
    requires n + 1 == buf.Length && '\0' !in buf[..n] && buf[n] == '\0'
    modifies buf
    ensures match ParseText(old(buf[..n]))
            case Err(e) => o == Failed(e)
            case Ok(t, _) => o.Parsed? && SeenTree(buf[..], o.cmd) == t
  {
    var s := buf[..n];
    o := ParseCommand(s);
    if o.Parsed? {
      Nulterminate(buf, o.cmd, s);
      ReadsTree(s, buf[..], o.cmd);
    }
  }
}
