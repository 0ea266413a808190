/**
 The command language of the shell on the level of tokens: the parser as functions,
 a printer, and the proof that parsing undoes printing.
 */
module ShellGrammar {
  import opened Basics

  const MAXARGS: nat := 10

  /** The characters | ( ) ; & < > stand for themselves; Append is >>. */
  datatype Token = Sym(c: char) | Append | Word(w: string)

  /** A redirection; `>` and `>>` open the file in the same way. */
  datatype Redirection = Redirection(input: bool, file: string)

  /** A parsed command. */
  datatype Tree =
    | Exec(argv: seq<string>)
    | Redir(cmd: Tree, to: Redirection)
    | Pipe(left: Tree, right: Tree)
    | List(first: Tree, second: Tree)
    | Back(job: Tree)

  /** The panics of the parser. */
  datatype Error = MissingFile | SyntaxError | TooManyArgs | MissingParen | Leftovers

  datatype Result<T> = Ok(value: T, rest: seq<Token>) | Err(error: Error)

  predicate Starts(toks: seq<Token>, cs: string) {
    toks != [] && toks[0].Sym? && toks[0].c in cs
  }

  // ------------------------------------------------------------------
  // The parser

  predicate IsRedir(t: Token) {
    t == Sym('<') || t == Sym('>') || t == Append
  }

  /** `parseredirs`: further redirections after rs. */
  function Redirs(toks: seq<Token>, rs: seq<Redirection>): (r: Result<seq<Redirection>>)
    ensures r.Ok? ==> |r.rest| <= |toks| && (r.rest == toks || |r.rest| < |toks|)
  {
    if toks == [] || !IsRedir(toks[0]) then Ok(rs, toks)
    else if |toks| < 2 || !toks[1].Word? then Err(MissingFile)
    else Redirs(toks[2..], rs + [Redirection(toks[0] == Sym('<'), toks[1].w)])
  }

  function Wrap(base: Tree, rs: seq<Redirection>): (t: Tree) {
    if rs == [] then base else Redir(Wrap(base, rs[..|rs| - 1]), rs[|rs| - 1])
  }

  /** The loop of `parseexec`, with the arguments and redirections found so far. */
  function Args(toks: seq<Token>, argv: seq<string>, rs: seq<Redirection>): (r: Result<Tree>)
    ensures r.Ok? ==> |r.rest| <= |toks|
    decreases |toks|
  {
    if toks == [] || Starts(toks, "|)&;") then Ok(Wrap(Exec(argv), rs), toks)
    else if !toks[0].Word? then Err(SyntaxError)
    else if |argv| + 1 >= MAXARGS then Err(TooManyArgs)
    else
      var more := Redirs(toks[1..], rs);
      if more.Err? then Err(more.error) else Args(more.rest, argv + [toks[0].w], more.value)
  }

  function ParseExec(toks: seq<Token>): (r: Result<Tree>)
    ensures r.Ok? ==> |r.rest| <= |toks|
    decreases |toks|, 1
  {
    if Starts(toks, "(") then ParseBlock(toks)
    else
      var rs := Redirs(toks, []);
      if rs.Err? then Err(rs.error) else Args(rs.rest, [], rs.value)
  }

  function ParseBlock(toks: seq<Token>): (r: Result<Tree>)
    requires Starts(toks, "(")
    ensures r.Ok? ==> |r.rest| <= |toks|
    decreases |toks|, 0
  {
    var line := ParseLine(toks[1..]);
    if line.Err? then line
    else if !Starts(line.rest, ")") then Err(MissingParen)
    else
      var rs := Redirs(line.rest[1..], []);
      if rs.Err? then Err(rs.error) else Ok(Wrap(line.value, rs.value), rs.rest)
  }

  function ParsePipe(toks: seq<Token>): (r: Result<Tree>)
    ensures r.Ok? ==> |r.rest| <= |toks|
    decreases |toks|, 2
  {
    var left := ParseExec(toks);
    if left.Err? || !Starts(left.rest, "|") then left
    else
      var right := ParsePipe(left.rest[1..]);
      if right.Err? then right else Ok(Pipe(left.value, right.value), right.rest)
  }

  /** The loop of `parseline` over ampersands. */
  function Backs(t: Tree, toks: seq<Token>): (r: Result<Tree>)
    ensures r.Ok? && |r.rest| <= |toks|
    decreases |toks|
  {
    if Starts(toks, "&") then Backs(Back(t), toks[1..]) else Ok(t, toks)
  }

  function ParseLine(toks: seq<Token>): (r: Result<Tree>)
    ensures r.Ok? ==> |r.rest| <= |toks|
    decreases |toks|, 3
  {
    var pipe := ParsePipe(toks);
    if pipe.Err? then pipe
    else
      var job := Backs(pipe.value, pipe.rest);
      if !Starts(job.rest, ";") then job
      else
        var more := ParseLine(job.rest[1..]);
        if more.Err? then more else Ok(List(job.value, more.value), more.rest)
  }

  /** `parsecmd` on the tokens of the whole line. */
  function Parse(toks: seq<Token>): (r: Result<Tree>)
    ensures r.Ok? ==> r.rest == []
  {
    var line := ParseLine(toks);
    if line.Err? then line else if line.rest != [] then Err(Leftovers) else line
  }

  // ------------------------------------------------------------------
  // The printer

  function Words(argv: seq<string>): (toks: seq<Token>)
    ensures |toks| == |argv|
  {
    if argv == [] then [] else [Word(argv[0])] + Words(argv[1..])
  }

  function PrintRedir(r: Redirection): (toks: seq<Token>) {
    [Sym(if r.input then '<' else '>'), Word(r.file)]
  }

  /** Position in the printer's call order, which depends on where the tree itself belongs in the grammar. */
  function Rank(t: Tree, level: nat): (n: nat) {
    match t
    case List(_, _) => (level + 1) % 4
    case Back(_) => (level + 2) % 4
    case Pipe(_, _) => (level + 3) % 4
    case _ => level
  }

  function PrintExec(t: Tree): (toks: seq<Token>)
    decreases t, Rank(t, 0)
  {
    match t
    case Exec(argv) => Words(argv)
    case Redir(c, r) => PrintExec(c) + PrintRedir(r)
    case _ => [Sym('(')] + PrintLine(t) + [Sym(')')]
  }

  function PrintPipe(t: Tree): (toks: seq<Token>)
    decreases t, Rank(t, 1)
  {
    match t
    case Pipe(l, r) => PrintExec(l) + [Sym('|')] + PrintPipe(r)
    case _ => PrintExec(t)
  }

  function PrintBack(t: Tree): (toks: seq<Token>)
    decreases t, Rank(t, 2)
  {
    match t
    case Back(c) => PrintBack(c) + [Sym('&')]
    case _ => PrintPipe(t)
  }

  function PrintLine(t: Tree): (toks: seq<Token>)
    decreases t, Rank(t, 3)
  {
    match t
    case List(a, b) => PrintBack(a) + [Sym(';')] + PrintLine(b)
    case _ => PrintBack(t)
  }

  // ------------------------------------------------------------------
  // Parsing undoes printing

  /** Every command has at most nine arguments; the code has room for a tenth only to detect it. */
  predicate Fits(t: Tree) {
    match t
    case Exec(argv) => |argv| < MAXARGS
    case Redir(c, _) => Fits(c)
    case Pipe(l, r) => Fits(l) && Fits(r)
    case List(a, b) => Fits(a) && Fits(b)
    case Back(c) => Fits(c)
  }

  /** What is inside all the redirections of t, and these redirections in order. */
  function Base(t: Tree): (b: Tree)
    ensures !b.Redir?
  {
    if t.Redir? then Base(t.cmd) else t
  }

  function Chain(t: Tree): (rs: seq<Redirection>) {
    if t.Redir? then Chain(t.cmd) + [t.to] else []
  }

  function PrintRedirs(rs: seq<Redirection>): (toks: seq<Token>) {
    if rs == [] then [] else PrintRedir(rs[0]) + PrintRedirs(rs[1..])
  }

  lemma {:induction false} WrapChain(t: Tree)
    ensures Wrap(Base(t), Chain(t)) == t
  {
    if t.Redir? {
      WrapChain(t.cmd);
      assert Chain(t)[..|Chain(t)| - 1] == Chain(t.cmd);
    }
  }

  lemma {:induction false} PrintRedirsSnoc(rs: seq<Redirection>, r: Redirection)
    ensures PrintRedirs(rs + [r]) == PrintRedirs(rs) + PrintRedir(r)
  {
    if rs == [] {
      assert PrintRedirs([]) == [] && [r][1..] == [];
      assert PrintRedirs([r]) == PrintRedir(r);
      assert rs + [r] == [r];
    } else {
      PrintRedirsSnoc(rs[1..], r);
      assert (rs + [r])[1..] == rs[1..] + [r];
    }
  }

  lemma {:induction false} PrintExecParts(t: Tree)
    ensures PrintExec(t) == PrintExec(Base(t)) + PrintRedirs(Chain(t))
  {
    if t.Redir? {
      PrintExecParts(t.cmd);
      PrintRedirsSnoc(Chain(t.cmd), t.to);
    }
  }

  /** What may follow a command. */
  predicate Follows(rest: seq<Token>, cs: string) {
    rest == [] || Starts(rest, cs)
  }

  lemma {:induction false} RedirsPrinted(rs: seq<Redirection>, acc: seq<Redirection>, rest: seq<Token>)
    requires rest == [] || !IsRedir(rest[0])
    ensures Redirs(PrintRedirs(rs) + rest, acc) == Ok(acc + rs, rest)
    decreases |rs|
  {
    if rs == [] {
      assert PrintRedirs(rs) + rest == rest && acc + rs == acc;
    } else {
      var p := PrintRedir(rs[0]);
      PairThen(p[0], p[1], PrintRedirs(rs[1..]), rest);
      RedirsPrinted(rs[1..], acc + [rs[0]], rest);
      assert acc + [rs[0]] + rs[1..] == acc + rs;
    }
  }

  lemma PairThen<T>(x: T, y: T, b: seq<T>, c: seq<T>)
    ensures ([x, y] + b + c)[0] == x && ([x, y] + b + c)[1] == y && ([x, y] + b + c)[2..] == b + c
  {
  }

  /** The remaining arguments and then the redirections are read as printed. */
  lemma {:induction false} ArgsPrinted(argv: seq<string>, before: seq<string>, tail: seq<Token>, rs: seq<Redirection>,
                                       rest: seq<Token>)
    requires argv != [] && |before| + |argv| < MAXARGS && Redirs(tail, []) == Ok(rs, rest) && Follows(rest, "|)&;")
    ensures Args(Words(argv) + tail, before, []) == Ok(Wrap(Exec(before + argv), rs), rest)
    decreases |argv|
  {
    var toks := Words(argv) + tail;
    WordsFirst(argv, tail);
    ArgFirst(before, argv);
    if |argv| == 1 {
      assert toks[1..] == tail;
      LastArg(toks, before, tail, rs, rest);
    } else {
      WordsFirst(argv[1..], tail);
      NextArg(toks, before, toks[1..]);
      ArgsPrinted(argv[1..], before + [argv[0]], tail, rs, rest);
    }
  }

  lemma ArgFirst(before: seq<string>, argv: seq<string>)
    requires argv != []
    ensures before + [argv[0]] + argv[1..] == before + argv
    ensures |argv| == 1 ==> before + [argv[0]] == before + argv
  {
  }

  lemma {:induction false} WordsFirst(argv: seq<string>, tail: seq<Token>)
    requires argv != []
    ensures var toks := Words(argv) + tail;
            toks[0] == Word(argv[0]) && toks[1..] == Words(argv[1..]) + tail
  {
    ConsThen(Word(argv[0]), Words(argv[1..]), tail);
  }

  lemma ConsThen<T>(x: T, b: seq<T>, c: seq<T>)
    ensures ([x] + b + c)[0] == x && ([x] + b + c)[1..] == b + c
  {
  }

  lemma {:induction false} NextArg(toks: seq<Token>, before: seq<string>, tail: seq<Token>)
    requires toks != [] && toks[0].Word? && toks[1..] == tail && |before| + 1 < MAXARGS && tail != [] && tail[0].Word?
    ensures Args(toks, before, []) == Args(tail, before + [toks[0].w], [])
  {
    assert Redirs(tail, []) == Ok([], tail);
  }

  lemma {:induction false} LastArg(toks: seq<Token>, before: seq<string>, tail: seq<Token>, rs: seq<Redirection>,
                                   rest: seq<Token>)
    requires toks != [] && toks[0].Word? && toks[1..] == tail && |before| + 1 < MAXARGS
    requires Redirs(tail, []) == Ok(rs, rest) && Follows(rest, "|)&;")
    ensures Args(toks, before, []) == Ok(Wrap(Exec(before + [toks[0].w]), rs), rest)
  {
  }

  lemma NoBlock(rs: seq<Redirection>, rest: seq<Token>)
    requires Follows(rest, "|)&;")
    ensures !Starts(PrintRedirs(rs) + rest, "(")
  {
    if rs == [] {
      assert PrintRedirs(rs) + rest == rest;
    } else {
      assert (PrintRedirs(rs) + rest)[0] == PrintRedir(rs[0])[0];
    }
  }

  lemma RedirsOnly(rs: seq<Redirection>, rest: seq<Token>)
    requires Follows(rest, "|)&;")
    ensures ParseExec(PrintRedirs(rs) + rest) == Ok(Wrap(Exec([]), rs), rest)
  {
    NoBlock(rs, rest);
    RedirsPrinted(rs, [], rest);
    assert [] + rs == rs;
  }

  lemma ExecPrinted(argv: seq<string>, rs: seq<Redirection>, rest: seq<Token>)
    requires |argv| < MAXARGS && Follows(rest, "|)&;")
    ensures ParseExec(Words(argv) + (PrintRedirs(rs) + rest)) == Ok(Wrap(Exec(argv), rs), rest)
  {
    var toks := Words(argv) + (PrintRedirs(rs) + rest);
    if argv == [] {
      RedirsOnly(rs, rest);
      assert toks == PrintRedirs(rs) + rest;
    } else {
      assert toks[0] == Word(argv[0]);
      RedirsPrinted(rs, [], rest);
      assert [] + rs == rs && [] + argv == argv;
      ArgsPrinted(argv, [], PrintRedirs(rs) + rest, rs, rest);
    }
  }

  // Regrouping of token sequences.

  lemma Four<T>(a: seq<T>, b: seq<T>, c: seq<T>, d: seq<T>)
    ensures a + b + c + d == a + (b + (c + d))
  {
  }

  /** A block: the line is parsed first, then the redirections. */
  lemma BlockPrinted(toks: seq<Token>, t: Tree, tail: seq<Token>, rs: seq<Redirection>, rest: seq<Token>)
    requires ParseLine(toks) == Ok(t, [Sym(')')] + tail) && Redirs(tail, []) == Ok(rs, rest)
    ensures ParseExec([Sym('(')] + toks) == Ok(Wrap(t, rs), rest)
  {
    assert ([Sym('(')] + toks)[1..] == toks;
    assert ([Sym(')')] + tail)[1..] == tail;
  }

  lemma BlockRoundTrip(t: Tree, rs: seq<Redirection>, rest: seq<Token>)
    requires !t.Exec? && !t.Redir? && Follows(rest, "|)&;")
    requires ParseLine(PrintLine(t) + ([Sym(')')] + (PrintRedirs(rs) + rest)))
             == Ok(t, [Sym(')')] + (PrintRedirs(rs) + rest))
    ensures ParseExec(PrintExec(t) + (PrintRedirs(rs) + rest)) == Ok(Wrap(t, rs), rest)
  {
    var tail := PrintRedirs(rs) + rest;
    RedirsPrinted(rs, [], rest);
    assert [] + rs == rs;
    BlockPrinted(PrintLine(t) + ([Sym(')')] + tail), t, tail, rs, rest);
    Four([Sym('(')], PrintLine(t), [Sym(')')], tail);
  }

  lemma {:induction false} ExecRoundTrip(t: Tree, rest: seq<Token>)
    requires Fits(t) && Follows(rest, "|)&;")
    ensures ParseExec(PrintExec(t) + rest) == Ok(t, rest)
    decreases t, Rank(t, 0)
  {
    var base, rs := Base(t), Chain(t);
    PrintExecParts(t);
    WrapChain(t);
    BaseFits(t);
    Regroup(PrintExec(base), PrintRedirs(rs), rest);
    if base.Exec? {
      ExecPrinted(base.argv, rs, rest);
    } else {
      LineRoundTrip(base, [Sym(')')] + (PrintRedirs(rs) + rest));
      BlockRoundTrip(base, rs, rest);
    }
  }

  lemma {:induction false} BaseFits(t: Tree)
    requires Fits(t)
    ensures Fits(Base(t)) && (Base(t) == t || (t.Redir? && Base(t) < t))
  {
    if t.Redir? {
      BaseFits(t.cmd);
    }
  }

  lemma {:induction false} PipeRoundTrip(t: Tree, rest: seq<Token>)
    requires Fits(t) && Follows(rest, ")&;")
    ensures ParsePipe(PrintPipe(t) + rest) == Ok(t, rest)
    decreases t, Rank(t, 1)
  {
    if t.Pipe? {
      var tail := [Sym('|')] + (PrintPipe(t.right) + rest);
      Four(PrintExec(t.left), [Sym('|')], PrintPipe(t.right), rest);
      ExecRoundTrip(t.left, tail);
      assert tail[1..] == PrintPipe(t.right) + rest;
      PipeRoundTrip(t.right, rest);
    } else {
      ExecRoundTrip(t, rest);
    }
  }

  /** The pipeline at the core of t comes first; the ampersands that follow make it t. */
  lemma {:induction false} BackRoundTrip(t: Tree, rest: seq<Token>)
    requires Fits(t) && Follows(rest, ")&;")
    ensures var pipe := ParsePipe(PrintBack(t) + rest);
            pipe.Ok? && Backs(pipe.value, pipe.rest) == Backs(t, rest)
    decreases t, Rank(t, 2)
  {
    if t.Back? {
      Regroup(PrintBack(t.job), [Sym('&')], rest);
      BackRoundTrip(t.job, [Sym('&')] + rest);
      assert ([Sym('&')] + rest)[1..] == rest;
    } else {
      PipeRoundTrip(t, rest);
    }
  }

  lemma {:induction false} LineRoundTrip(t: Tree, rest: seq<Token>)
    requires Fits(t) && Follows(rest, ")")
    ensures ParseLine(PrintLine(t) + rest) == Ok(t, rest)
    decreases t, Rank(t, 3)
  {
    if t.List? {
      var tail := [Sym(';')] + (PrintLine(t.second) + rest);
      Four(PrintBack(t.first), [Sym(';')], PrintLine(t.second), rest);
      BackRoundTrip(t.first, tail);
      assert tail[1..] == PrintLine(t.second) + rest;
      LineRoundTrip(t.second, rest);
    } else {
      BackRoundTrip(t, rest);
    }
  }

  /** Parsing undoes printing, for every tree that fits. */
  lemma RoundTrip(t: Tree)
    requires Fits(t)
    ensures Parse(PrintLine(t)) == Ok(t, [])
  {
    LineRoundTrip(t, []);
    assert PrintLine(t) + [] == PrintLine(t);
  }

  // ------------------------------------------------------------------
  // What the parser produces

  predicate IsSpace(c: char) {
    c == ' ' || c == '\t' || c == '\r' || c == '\n' || c == '\U{0b}'
  }

  predicate IsSymbol(c: char) {
    c == '<' || c == '|' || c == '>' || c == '&' || c == ';' || c == '(' || c == ')'
  }

  /** A character of a word. */
  predicate Plain(c: char) {
    !IsSpace(c) && !IsSymbol(c)
  }

  predicate CleanWord(w: string) {
    w != "" && '\0' !in w && forall i :: 0 <= i < |w| ==> Plain(w[i])
  }

  predicate CleanToken(t: Token) {
    match t
    case Sym(c) => IsSymbol(c)
    case Append => true
    case Word(w) => CleanWord(w)
  }

  predicate Clean(toks: seq<Token>) {
    forall i :: 0 <= i < |toks| ==> CleanToken(toks[i])
  }

  predicate CleanWords(ws: seq<string>) {
    forall i :: 0 <= i < |ws| ==> CleanWord(ws[i])
  }

  /** A tree that can be written down: words of plain characters, and not too many arguments. */
  predicate Writable(t: Tree) {
    match t
    case Exec(argv) => |argv| < MAXARGS && CleanWords(argv)
    case Redir(c, r) => Writable(c) && CleanWord(r.file)
    case Pipe(l, r) => Writable(l) && Writable(r)
    case List(a, b) => Writable(a) && Writable(b)
    case Back(c) => Writable(c)
  }

  predicate CleanRedirs(rs: seq<Redirection>) {
    forall i :: 0 <= i < |rs| ==> CleanWord(rs[i].file)
  }

  lemma {:induction false} WrapWritable(t: Tree, rs: seq<Redirection>)
    requires Writable(t) && CleanRedirs(rs)
    ensures Writable(Wrap(t, rs))
  {
    if rs != [] {
      WrapWritable(t, rs[..|rs| - 1]);
    }
  }

  lemma {:induction false} RedirsClean(toks: seq<Token>, rs: seq<Redirection>)
    requires Clean(toks) && CleanRedirs(rs) && Redirs(toks, rs).Ok?
    ensures Clean(Redirs(toks, rs).rest) && CleanRedirs(Redirs(toks, rs).value)
    decreases |toks|
  {
    if toks != [] && IsRedir(toks[0]) {
      assert CleanToken(toks[1]);
      RedirsClean(toks[2..], rs + [Redirection(toks[0] == Sym('<'), toks[1].w)]);
    }
  }

  lemma {:induction false} ArgsWritable(toks: seq<Token>, argv: seq<string>, rs: seq<Redirection>)
    requires Clean(toks) && |argv| < MAXARGS && CleanWords(argv) && CleanRedirs(rs) && Args(toks, argv, rs).Ok?
    ensures Writable(Args(toks, argv, rs).value) && Clean(Args(toks, argv, rs).rest)
    decreases |toks|
  {
    if toks == [] || Starts(toks, "|)&;") {
      WrapWritable(Exec(argv), rs);
    } else {
      assert CleanToken(toks[0]);
      RedirsClean(toks[1..], rs);
      var more := Redirs(toks[1..], rs);
      ArgsWritable(more.rest, argv + [toks[0].w], more.value);
    }
  }

  lemma {:induction false} ExecWritable(toks: seq<Token>)
    requires Clean(toks) && ParseExec(toks).Ok?
    ensures Writable(ParseExec(toks).value) && Clean(ParseExec(toks).rest)
    decreases |toks|, 1
  {
    if Starts(toks, "(") {
      LineWritable(toks[1..]);
      var line := ParseLine(toks[1..]);
      RedirsClean(line.rest[1..], []);
      WrapWritable(line.value, Redirs(line.rest[1..], []).value);
    } else {
      RedirsClean(toks, []);
      ArgsWritable(Redirs(toks, []).rest, [], Redirs(toks, []).value);
    }
  }

  lemma {:induction false} PipeWritable(toks: seq<Token>)
    requires Clean(toks) && ParsePipe(toks).Ok?
    ensures Writable(ParsePipe(toks).value) && Clean(ParsePipe(toks).rest)
    decreases |toks|, 2
  {
    ExecWritable(toks);
    var left := ParseExec(toks);
    if Starts(left.rest, "|") {
      PipeWritable(left.rest[1..]);
    }
  }

  lemma {:induction false} BacksWritable(t: Tree, toks: seq<Token>)
    requires Writable(t) && Clean(toks)
    ensures Writable(Backs(t, toks).value) && Clean(Backs(t, toks).rest)
    decreases |toks|
  {
    if Starts(toks, "&") {
      BacksWritable(Back(t), toks[1..]);
    }
  }

  lemma {:induction false} LineWritable(toks: seq<Token>)
    requires Clean(toks) && ParseLine(toks).Ok?
    ensures Writable(ParseLine(toks).value) && Clean(ParseLine(toks).rest)
    decreases |toks|, 3
  {
    PipeWritable(toks);
    var pipe := ParsePipe(toks);
    BacksWritable(pipe.value, pipe.rest);
    var job := Backs(pipe.value, pipe.rest);
    if Starts(job.rest, ";") {
      LineWritable(job.rest[1..]);
    }
  }

  // ------------------------------------------------------------------
  // What the printer produces

  lemma {:induction false} WritableFits(t: Tree)
    requires Writable(t)
    ensures Fits(t)
  {
    match t
    case Exec(_) =>
    case Redir(c, _) => WritableFits(c);
    case Pipe(l, r) => WritableFits(l); WritableFits(r);
    case List(a, b) => WritableFits(a); WritableFits(b);
    case Back(c) => WritableFits(c);
  }

  lemma {:induction false} WordsClean(argv: seq<string>)
    requires CleanWords(argv)
    ensures Clean(Words(argv))
  {
    if argv != [] {
      WordsClean(argv[1..]);
    }
  }

  lemma {:induction false} PrintExecClean(t: Tree)
    requires Writable(t)
    ensures Clean(PrintExec(t))
    decreases t, Rank(t, 0)
  {
    match t
    case Exec(argv) => WordsClean(argv);
    case Redir(c, _) => PrintExecClean(c);
    case _ => PrintLineClean(t);
  }

  lemma {:induction false} PrintPipeClean(t: Tree)
    requires Writable(t)
    ensures Clean(PrintPipe(t))
    decreases t, Rank(t, 1)
  {
    if t.Pipe? {
      PrintExecClean(t.left);
      PrintPipeClean(t.right);
    } else {
      PrintExecClean(t);
    }
  }

  lemma {:induction false} PrintBackClean(t: Tree)
    requires Writable(t)
    ensures Clean(PrintBack(t))
    decreases t, Rank(t, 2)
  {
    if t.Back? {
      PrintBackClean(t.job);
    } else {
      PrintPipeClean(t);
    }
  }

  lemma {:induction false} PrintLineClean(t: Tree)
    requires Writable(t)
    ensures Clean(PrintLine(t))
    decreases t, Rank(t, 3)
  {
    if t.List? {
      PrintBackClean(t.first);
      PrintLineClean(t.second);
    } else {
      PrintBackClean(t);
    }
  }
}
