/**
 The grammar of the command language as a relation between trees and token sequences,
 without the parser, and the proof that the parser accepts exactly what can be derived.
 */
module ShellDerivation {
  import opened Basics
  import opened ShellGrammar

  // ------------------------------------------------------------------
  // The grammar

  /** The words argv and the redirections rs, each in their order, mixed in any way; `>>` means the same as `>`. */
  predicate Mixed(toks: seq<Token>, argv: seq<string>, rs: seq<Redirection>)
    decreases |toks|
  {
    if toks == [] then argv == [] && rs == []
    else if toks[0].Word? then argv != [] && toks[0].w == argv[0] && Mixed(toks[1..], argv[1..], rs)
    else
      && toks[0] in [Sym('<'), Sym('>'), Append] && |toks| >= 2 && toks[1].Word?
      && rs != [] && rs[0] == Redirection(toks[0] == Sym('<'), toks[1].w)
      && Mixed(toks[2..], argv, rs[1..])
  }

  /** t is base inside the redirections rs, the first of them innermost. */
  predicate Wrapped(t: Tree, base: Tree, rs: seq<Redirection>)
    decreases |rs|
  {
    if rs == [] then t == base
    else t.Redir? && t.to == rs[|rs| - 1] && Wrapped(t.cmd, base, rs[..|rs| - 1])
  }

  /** A command with at most nine arguments and any redirections. */
  ghost predicate Simple(t: Tree, toks: seq<Token>) {
    exists argv: seq<string>, rs: seq<Redirection> ::
      |argv| <= 9 && Mixed(toks, argv, rs) && Wrapped(t, Exec(argv), rs)
  }

  /** A line in parentheses, which end at position i, and redirections behind it. */
  ghost predicate BlockAt(t: Tree, toks: seq<Token>, i: nat, base: Tree, rs: seq<Redirection>)
    decreases |toks|, 0
  {
    && 0 < i < |toks| && toks[0] == Sym('(') && toks[i] == Sym(')')
    && LineOf(base, toks[1..i]) && Mixed(toks[i + 1..], [], rs) && Wrapped(t, base, rs)
  }

  ghost predicate ExecOf(t: Tree, toks: seq<Token>)
    decreases |toks|, 1
  {
    Simple(t, toks) || exists i: nat, base: Tree, rs: seq<Redirection> :: BlockAt(t, toks, i, base, rs)
  }

  /** Commands separated by vertical bars. */
  ghost predicate PipeOf(t: Tree, toks: seq<Token>)
    decreases |toks|, 3
  {
    ExecOf(t, toks) || exists i: nat :: PipeAt(t, toks, i)
  }

  ghost predicate PipeAt(t: Tree, toks: seq<Token>, i: nat)
    decreases |toks|, 2
  {
    t.Pipe? && i < |toks| && toks[i] == Sym('|') && ExecOf(t.left, toks[..i]) && PipeOf(t.right, toks[i + 1..])
  }

  /** A pipeline and any number of ampersands. */
  ghost predicate BackOf(t: Tree, toks: seq<Token>)
    decreases |toks|, 4
  {
    || PipeOf(t, toks)
    || (t.Back? && toks != [] && toks[|toks| - 1] == Sym('&') && BackOf(t.job, toks[..|toks| - 1]))
  }

  /** Jobs separated by semicolons. */
  ghost predicate LineOf(t: Tree, toks: seq<Token>)
    decreases |toks|, 6
  {
    BackOf(t, toks) || exists i: nat :: ListAt(t, toks, i)
  }

  ghost predicate ListAt(t: Tree, toks: seq<Token>, i: nat)
    decreases |toks|, 5
  {
    t.List? && i < |toks| && toks[i] == Sym(';') && BackOf(t.first, toks[..i]) && LineOf(t.second, toks[i + 1..])
  }

  lemma {:induction false} WrappedIs(t: Tree, base: Tree, rs: seq<Redirection>)
    ensures Wrapped(t, base, rs) <==> t == Wrap(base, rs)
    decreases |rs|
  {
    if rs != [] {
      if t.Redir? {
        WrappedIs(t.cmd, base, rs[..|rs| - 1]);
      }
    }
  }

  // ------------------------------------------------------------------
  // What can be derived is parsed

  lemma TailOf<T>(a: seq<T>, b: seq<T>, k: nat)
    requires k <= |a|
    ensures (a + b)[k..] == a[k..] + b
    ensures forall i :: 0 <= i < k ==> (a + b)[i] == a[i]
  {
  }

  lemma Onwards<T>(before: seq<T>, s: seq<T>)
    requires s != []
    ensures before + [s[0]] + s[1..] == before + s
  {
  }

  /** Wherever the redirections stand, the parser collects words and redirections in their order. */
  lemma {:induction false} MixedArgs(toks: seq<Token>, argv: seq<string>, rs: seq<Redirection>, before: seq<string>,
                                     rs0: seq<Redirection>, rest: seq<Token>)
    requires Mixed(toks, argv, rs) && |before| + |argv| < MAXARGS && Follows(rest, "|)&;")
    ensures var r := Redirs(toks + rest, rs0);
            r.Ok? && Args(r.rest, before, r.value) == Ok(Wrap(Exec(before + argv), rs0 + rs), rest)
    decreases |toks|
  {
    if toks == [] {
      assert [] + rest == rest && before + [] == before && rs0 + [] == rs0;
    } else if toks[0].Word? {
      TailOf(toks, rest, 1);
      Onwards(before, argv);
      MixedArgs(toks[1..], argv[1..], rs, before + [argv[0]], rs0, rest);
      ArgTaken(toks + rest, before, rs0);
    } else {
      TailOf(toks, rest, 2);
      Onwards(rs0, rs);
      MixedArgs(toks[2..], argv, rs[1..], before, rs0 + [rs[0]], rest);
    }
  }

  lemma ArgTaken(toks: seq<Token>, before: seq<string>, rs0: seq<Redirection>)
    requires toks != [] && toks[0].Word? && |before| + 1 < MAXARGS && Redirs(toks[1..], rs0).Ok?
    ensures Redirs(toks, rs0) == Ok(rs0, toks)
    ensures var more := Redirs(toks[1..], rs0);
            Args(toks, before, rs0) == Args(more.rest, before + [toks[0].w], more.value)
  {
  }

  lemma {:induction false} MixedRedirs(toks: seq<Token>, rs: seq<Redirection>, rs0: seq<Redirection>, rest: seq<Token>)
    requires Mixed(toks, [], rs) && Follows(rest, "|)&;")
    ensures Redirs(toks + rest, rs0) == Ok(rs0 + rs, rest)
    decreases |toks|
  {
    if toks == [] {
      assert [] + rest == rest && rs0 + [] == rs0;
    } else {
      TailOf(toks, rest, 2);
      Onwards(rs0, rs);
      MixedRedirs(toks[2..], rs[1..], rs0 + [rs[0]], rest);
    }
  }

  /** Redirections may stand before, between and behind the arguments. */
  lemma SimpleParses(toks: seq<Token>, argv: seq<string>, rs: seq<Redirection>, rest: seq<Token>)
    requires Mixed(toks, argv, rs) && |argv| <= 9 && Follows(rest, "|)&;")
    ensures ParseExec(toks + rest) == Ok(Wrap(Exec(argv), rs), rest)
  {
    MixedArgs(toks, argv, rs, [], [], rest);
    assert [] + argv == argv && [] + rs == rs;
    assert !Starts(toks + rest, "(") by {
      if toks == [] {
        assert toks + rest == rest;
      }
    }
  }

  lemma {:induction false} ExecParses(t: Tree, toks: seq<Token>, rest: seq<Token>)
    requires ExecOf(t, toks) && Follows(rest, "|)&;")
    ensures ParseExec(toks + rest) == Ok(t, rest)
    decreases |toks|, 1
  {
    if Simple(t, toks) {
      var argv: seq<string>, rs: seq<Redirection> :|
        |argv| <= 9 && Mixed(toks, argv, rs) && Wrapped(t, Exec(argv), rs);
      WrappedIs(t, Exec(argv), rs);
      SimpleParses(toks, argv, rs, rest);
    } else {
      var i: nat, base: Tree, rs: seq<Redirection> :| BlockAt(t, toks, i, base, rs);
      var tail := toks[i + 1..] + rest;
      LineParses(base, toks[1..i], [Sym(')')] + tail);
      MixedRedirs(toks[i + 1..], rs, [], rest);
      assert [] + rs == rs;
      BlockPrinted(toks[1..i] + ([Sym(')')] + tail), base, tail, rs, rest);
      WrappedIs(t, base, rs);
      BlockParts(toks, i, rest);
    }
  }

  lemma BlockParts<T>(toks: seq<T>, i: nat, rest: seq<T>)
    requires 0 < i < |toks|
    ensures toks + rest == [toks[0]] + (toks[1..i] + ([toks[i]] + (toks[i + 1..] + rest)))
  {
  }

  lemma SplitAt<T>(toks: seq<T>, i: nat, rest: seq<T>)
    requires i < |toks|
    ensures toks + rest == toks[..i] + ([toks[i]] + (toks[i + 1..] + rest))
    ensures ([toks[i]] + (toks[i + 1..] + rest))[1..] == toks[i + 1..] + rest
  {
  }

  lemma {:induction false} PipeParses(t: Tree, toks: seq<Token>, rest: seq<Token>)
    requires PipeOf(t, toks) && Follows(rest, ")&;")
    ensures ParsePipe(toks + rest) == Ok(t, rest)
    decreases |toks|, 3
  {
    if ExecOf(t, toks) {
      ExecParses(t, toks, rest);
    } else {
      var i: nat :| PipeAt(t, toks, i);
      SplitAt(toks, i, rest);
      ExecParses(t.left, toks[..i], [toks[i]] + (toks[i + 1..] + rest));
      PipeParses(t.right, toks[i + 1..], rest);
    }
  }

  /** The pipeline is parsed, and the ampersands that are in toks make it t. */
  lemma {:induction false} BackParses(t: Tree, toks: seq<Token>, rest: seq<Token>)
    requires BackOf(t, toks) && Follows(rest, ")&;")
    ensures var pipe := ParsePipe(toks + rest);
            pipe.Ok? && Backs(pipe.value, pipe.rest) == Backs(t, rest)
    decreases |toks|, 4
  {
    if PipeOf(t, toks) {
      PipeParses(t, toks, rest);
    } else {
      var n := |toks| - 1;
      assert toks + rest == toks[..n] + ([toks[n]] + rest);
      assert ([toks[n]] + rest)[1..] == rest;
      BackParses(t.job, toks[..n], [toks[n]] + rest);
    }
  }

  lemma {:induction false} LineParses(t: Tree, toks: seq<Token>, rest: seq<Token>)
    requires LineOf(t, toks) && Follows(rest, ")")
    ensures ParseLine(toks + rest) == Ok(t, rest)
    decreases |toks|, 6
  {
    if BackOf(t, toks) {
      BackParses(t, toks, rest);
    } else {
      var i: nat :| ListAt(t, toks, i);
      SplitAt(toks, i, rest);
      BackParses(t.first, toks[..i], [toks[i]] + (toks[i + 1..] + rest));
      LineParses(t.second, toks[i + 1..], rest);
    }
  }

  // ------------------------------------------------------------------
  // What is parsed can be derived

  lemma {:induction false} MixedJoin(a: seq<Token>, xs: seq<string>, rs: seq<Redirection>, b: seq<Token>,
                                     ys: seq<string>, qs: seq<Redirection>)
    requires Mixed(a, xs, rs) && Mixed(b, ys, qs)
    ensures Mixed(a + b, xs + ys, rs + qs)
    decreases |a|
  {
    if a == [] {
      assert a + b == b && xs + ys == ys && rs + qs == qs;
    } else if a[0].Word? {
      MixedJoin(a[1..], xs[1..], rs, b, ys, qs);
      TailOf(a, b, 1);
      TailOf(xs, ys, 1);
    } else {
      MixedJoin(a[2..], xs, rs[1..], b, ys, qs);
      TailOf(a, b, 2);
      TailOf(rs, qs, 1);
    }
  }

  lemma {:induction false} RedirsDerived(toks: seq<Token>, rs0: seq<Redirection>) returns (n: nat, rs: seq<Redirection>)
    requires Redirs(toks, rs0).Ok?
    ensures n <= |toks| && Mixed(toks[..n], [], rs) && Redirs(toks, rs0) == Ok(rs0 + rs, toks[n..])
    decreases |toks|
  {
    if toks == [] || !IsRedir(toks[0]) {
      n, rs := 0, [];
      assert rs0 + [] == rs0;
    } else {
      var r := Redirection(toks[0] == Sym('<'), toks[1].w);
      n, rs := RedirsDerived(toks[2..], rs0 + [r]);
      assert toks[2..][..n] == toks[..n + 2][2..] && toks[2..][n..] == toks[n + 2..];
      assert rs0 + [r] + rs == rs0 + ([r] + rs) && ([r] + rs)[1..] == rs;
      n, rs := n + 2, [r] + rs;
    }
  }

  lemma {:induction false} ArgsDerived(toks: seq<Token>, before: seq<string>, rs0: seq<Redirection>)
    returns (n: nat, argv: seq<string>, rs: seq<Redirection>)
    requires Args(toks, before, rs0).Ok? && |before| < MAXARGS
    ensures n <= |toks| && Mixed(toks[..n], argv, rs) && |before + argv| < MAXARGS
    ensures Args(toks, before, rs0) == Ok(Wrap(Exec(before + argv), rs0 + rs), toks[n..])
    decreases |toks|
  {
    if toks == [] || Starts(toks, "|)&;") {
      n, argv, rs := 0, [], [];
      assert before + [] == before && rs0 + [] == rs0;
    } else {
      var w := toks[0].w;
      var m, r1 := RedirsDerived(toks[1..], rs0);
      var rest := toks[1..][m..];
      var k, more, r2 := ArgsDerived(rest, before + [w], rs0 + r1);
      n, argv, rs := 1 + m + k, [w] + more, r1 + r2;
      MixedBuilt(toks, m, k, more, r1, r2);
      Regroup(before, [w], more);
      Regroup(rs0, r1, r2);
    }
  }

  /** A word, redirections, and more of both. */
  lemma MixedBuilt(toks: seq<Token>, m: nat, k: nat, more: seq<string>, r1: seq<Redirection>, r2: seq<Redirection>)
    requires 1 + m + k <= |toks| && toks[0].Word? && Mixed(toks[1..][..m], [], r1)
    requires Mixed(toks[1..][m..][..k], more, r2)
    ensures Mixed(toks[..1 + m + k], [toks[0].w] + more, r1 + r2) && toks[1..][m..][k..] == toks[1 + m + k..]
  {
    MixedJoin(toks[1..][..m], [], r1, toks[1..][m..][..k], more, r2);
    assert [] + more == more;
    assert toks[..1 + m + k][1..] == toks[1..][..m] + toks[1..][m..][..k];
    WordFirst(toks[..1 + m + k], toks[1..][..m] + toks[1..][m..][..k], more, r1 + r2);
  }

  lemma WordFirst(toks: seq<Token>, tail: seq<Token>, argv: seq<string>, rs: seq<Redirection>)
    requires toks != [] && toks[0].Word? && toks[1..] == tail && Mixed(tail, argv, rs)
    ensures Mixed(toks, [toks[0].w] + argv, rs)
  {
    assert ([toks[0].w] + argv)[1..] == argv;
  }

  lemma SimpleDerived(toks: seq<Token>) returns (n: nat)
    requires ParseExec(toks).Ok? && !Starts(toks, "(")
    ensures n <= |toks| && ParseExec(toks).rest == toks[n..] && ExecOf(ParseExec(toks).value, toks[..n])
  {
    var m, r1 := RedirsDerived(toks, []);
    var k, argv, r2 := ArgsDerived(toks[m..], [], [] + r1);
    n := m + k;
    SimpleBuilt(toks, m, k, argv, r1, r2, Wrap(Exec([] + argv), [] + r1 + r2));
  }

  lemma SimpleBuilt(toks: seq<Token>, m: nat, k: nat, argv: seq<string>, r1: seq<Redirection>, r2: seq<Redirection>,
                    t: Tree)
    requires m + k <= |toks| && Mixed(toks[..m], [], r1) && Mixed(toks[m..][..k], argv, r2)
    requires |argv| <= 9 && t == Wrap(Exec([] + argv), [] + r1 + r2)
    ensures ExecOf(t, toks[..m + k]) && toks[m..][k..] == toks[m + k..]
  {
    MixedJoin(toks[..m], [], r1, toks[m..][..k], argv, r2);
    assert toks[..m] + toks[m..][..k] == toks[..m + k];
    assert [] + argv == argv && [] + r1 + r2 == r1 + r2;
    WrappedIs(t, Exec(argv), r1 + r2);
    assert Simple(t, toks[..m + k]);
  }

  lemma {:induction false} BlockDerived(toks: seq<Token>) returns (n: nat)
    requires ParseExec(toks).Ok? && Starts(toks, "(")
    ensures n <= |toks| && ParseExec(toks).rest == toks[n..] && ExecOf(ParseExec(toks).value, toks[..n])
    decreases |toks|, 0
  {
    var m := LineDerived(toks[1..]);
    var base := ParseLine(toks[1..]).value;
    var k, rs := RedirsDerived(toks[1..][m..][1..], []);
    n := m + 2 + k;
    BlockBuilt(toks, m, k, base, rs, Wrap(base, [] + rs));
  }

  lemma BlockBuilt(toks: seq<Token>, m: nat, k: nat, base: Tree, rs: seq<Redirection>, t: Tree)
    requires m + 2 + k <= |toks| && toks[0] == Sym('(') && toks[1..][m..][0] == Sym(')')
    requires LineOf(base, toks[1..][..m]) && Mixed(toks[1..][m..][1..][..k], [], rs) && t == Wrap(base, [] + rs)
    ensures ExecOf(t, toks[..m + 2 + k]) && toks[1..][m..][1..][k..] == toks[m + 2 + k..]
  {
    BlockPieces(toks, m, k);
    assert [] + rs == rs;
    WrappedIs(t, base, rs);
    assert BlockAt(t, toks[..m + 2 + k], m + 1, base, rs);
  }

  lemma BlockPieces<T>(toks: seq<T>, m: nat, k: nat)
    requires m + 2 + k <= |toks|
    ensures var pre := toks[..m + 2 + k];
            && pre[1..m + 1] == toks[1..][..m] && pre[m + 1] == toks[1..][m..][0]
            && pre[m + 2..] == toks[1..][m..][1..][..k] && toks[1..][m..][1..][k..] == toks[m + 2 + k..]
  {
  }

  lemma {:induction false} ExecDerived(toks: seq<Token>) returns (n: nat)
    requires ParseExec(toks).Ok?
    ensures n <= |toks| && ParseExec(toks).rest == toks[n..] && ExecOf(ParseExec(toks).value, toks[..n])
    decreases |toks|, 1
  {
    if Starts(toks, "(") {
      n := BlockDerived(toks);
    } else {
      n := SimpleDerived(toks);
    }
  }

  lemma SplitPieces<T>(toks: seq<T>, i: nat, k: nat)
    requires i + 1 + k <= |toks|
    ensures var pre := toks[..i + 1 + k];
            && pre[..i] == toks[..i] && pre[i] == toks[i..][0] && pre[i + 1..] == toks[i..][1..][..k]
            && toks[i..][1..][k..] == toks[i + 1 + k..]
  {
  }

  lemma {:induction false} PipeDerived(toks: seq<Token>) returns (n: nat)
    requires ParsePipe(toks).Ok?
    ensures n <= |toks| && ParsePipe(toks).rest == toks[n..] && PipeOf(ParsePipe(toks).value, toks[..n])
    decreases |toks|, 2
  {
    var i := ExecDerived(toks);
    n := i;
    if Starts(toks[i..], "|") {
      var k := PipeDerived(toks[i..][1..]);
      n := i + 1 + k;
      PipeBuilt(toks, i, k, ParsePipe(toks).value);
    }
  }

  lemma PipeBuilt(toks: seq<Token>, i: nat, k: nat, t: Tree)
    requires i + 1 + k <= |toks| && toks[i..][0] == Sym('|') && t.Pipe?
    requires ExecOf(t.left, toks[..i]) && PipeOf(t.right, toks[i..][1..][..k])
    ensures PipeOf(t, toks[..i + 1 + k]) && toks[i..][1..][k..] == toks[i + 1 + k..]
  {
    SplitPieces(toks, i, k);
    assert PipeAt(t, toks[..i + 1 + k], i);
  }

  lemma {:induction false} BacksDerived(t: Tree, toks: seq<Token>, i: nat) returns (n: nat)
    requires i <= |toks| && BackOf(t, toks[..i])
    ensures i <= n <= |toks| && Backs(t, toks[i..]).rest == toks[n..] && BackOf(Backs(t, toks[i..]).value, toks[..n])
    decreases |toks| - i
  {
    n := i;
    if Starts(toks[i..], "&") {
      assert toks[..i + 1][..i] == toks[..i] && toks[i..][1..] == toks[i + 1..];
      n := BacksDerived(Back(t), toks, i + 1);
    }
  }

  lemma {:induction false} LineDerived(toks: seq<Token>) returns (n: nat)
    requires ParseLine(toks).Ok?
    ensures n <= |toks| && ParseLine(toks).rest == toks[n..] && LineOf(ParseLine(toks).value, toks[..n])
    decreases |toks|, 3
  {
    var i := PipeDerived(toks);
    var t := ParsePipe(toks).value;
    var m := BacksDerived(t, toks, i);
    n := m;
    if Starts(toks[m..], ";") {
      var k := LineDerived(toks[m..][1..]);
      n := m + 1 + k;
      ListBuilt(toks, m, k, ParseLine(toks).value);
    }
  }

  lemma ListBuilt(toks: seq<Token>, i: nat, k: nat, t: Tree)
    requires i + 1 + k <= |toks| && toks[i..][0] == Sym(';') && t.List?
    requires BackOf(t.first, toks[..i]) && LineOf(t.second, toks[i..][1..][..k])
    ensures LineOf(t, toks[..i + 1 + k]) && toks[i..][1..][k..] == toks[i + 1 + k..]
  {
    SplitPieces(toks, i, k);
    assert ListAt(t, toks[..i + 1 + k], i);
  }

  /** The parser accepts exactly the lines of the grammar, with their trees. */
  lemma ParseExact(t: Tree, toks: seq<Token>)
    ensures Parse(toks) == Ok(t, []) <==> LineOf(t, toks)
  {
    if LineOf(t, toks) {
      LineParses(t, toks, []);
      assert toks + [] == toks;
    }
    if Parse(toks) == Ok(t, []) {
      var n := LineDerived(toks);
      assert toks[..n] == toks;
    }
  }
}
