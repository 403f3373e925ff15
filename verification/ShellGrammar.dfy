/**
  The shell's grammar, as a relation between the tokens of a text and a command, and that the
  parser accepts exactly the texts of the grammar and builds exactly the command it gives them.
 */
module ShellGrammar {
  import opened CStrings
  import opened Shell

  // ---- The grammar.

  predicate IsWord(k: Token) { k.kind == 'a' }
  predicate IsOperator(k: Token) { k.kind == '<' || k.kind == '>' || k.kind == '+' }

  function SpanOf(k: Token): Span { Span(k.q, k.eq) }

  /** The tokens of the text from position i on. */
  function Toks(t: CString, i: nat): (ks: seq<Token>)
    requires i <= |t|
    decreases |t| - i
  {
    if Tok(t, i).kind == '\0' then [] else TokenMoves(t, i); [Tok(t, i)] + Toks(t, Tok(t, i).pos)
  }

  /** A file name: the word after a redirection operator. */
  predicate IsFile(ks: seq<Token>, k: nat)
    requires k < |ks|
  {
    k > 0 && IsOperator(ks[k - 1])
  }

  /** Words and redirections in any order, each operator followed by its file. */
  predicate Simple(ks: seq<Token>) {
    && (forall k :: 0 <= k < |ks| ==> IsWord(ks[k]) || IsOperator(ks[k]))
    && (forall k :: 0 <= k < |ks| && IsOperator(ks[k]) ==> k + 1 < |ks| && IsWord(ks[k + 1]))
  }

  /** The arguments: the words that are no file names, in order. */
  function Args(ks: seq<Token>): (argv: seq<Span>) {
    if ks == [] then []
    else
      var n := |ks| - 1;
      Args(ks[..n]) + if IsWord(ks[n]) && !IsFile(ks, n) then [SpanOf(ks[n])] else []
  }

  /** The redirections, in order: standard input for <, standard output for > and >>. */
  function Redirections(ks: seq<Token>): (rs: seq<Redirection>) {
    if ks == [] then [] else Redirections(ks[..|ks| - 1]) + LastRedirection(ks)
  }

  /** The redirection that the last token completes, if any. */
  function LastRedirection(ks: seq<Token>): (rs: seq<Redirection>)
    requires ks != []
  {
    var n := |ks| - 1;
    if !IsFile(ks, n) then []
    else if ks[n - 1].kind == '<' then [Redirection(SpanOf(ks[n]), 0, 0)]
    else [Redirection(SpanOf(ks[n]), 0x201, 1)]
  }

  /** c is base inside these redirections, the first one innermost. */
  ghost predicate Inside(c: Cmd<Span>, base: Cmd<Span>, rs: seq<Redirection>) {
    if rs == [] then c == base
    else
      var r := rs[|rs| - 1];
      c.Redir? && c.file == r.file && c.mode == r.mode && c.fd == r.fd && Inside(c.cmd, base, rs[..|rs| - 1])
  }

  ghost predicate Command(ks: seq<Token>, c: Cmd<Span>)
    decreases |ks|, 0
  {
    || (Simple(ks) && |Args(ks)| < MAXARGS && Inside(c, Exec(Args(ks)), Redirections(ks)))
    || exists k, base :: Block(ks, c, k, base)
  }

  /** A line in parentheses, the closing one at k, and redirections after it. */
  ghost predicate Block(ks: seq<Token>, c: Cmd<Span>, k: nat, base: Cmd<Span>)
    decreases |ks|, 0, 0
  {
    && 0 < k < |ks| && ks[0].kind == '(' && ks[k].kind == ')' && Line(ks[1..k], base)
    && Simple(ks[k + 1..]) && Args(ks[k + 1..]) == [] && Inside(c, base, Redirections(ks[k + 1..]))
  }

  /** Commands with bars between them, nested to the right. */
  ghost predicate Pipeline(ks: seq<Token>, c: Cmd<Span>)
    decreases |ks|, 1
  {
    || Command(ks, c)
    || (c.Pipe? && exists k :: 0 <= k < |ks| && ks[k].kind == '|' && Command(ks[..k], c.left)
                               && Pipeline(ks[k + 1..], c.right))
  }

  /** A pipeline with ampersands after it. */
  ghost predicate Item(ks: seq<Token>, c: Cmd<Span>)
    decreases |ks|, 2
  {
    || Pipeline(ks, c)
    || (c.Back? && ks != [] && ks[|ks| - 1].kind == '&' && Item(ks[..|ks| - 1], c.cmd))
  }

  /** Items with semicolons between them, nested to the right. */
  ghost predicate Line(ks: seq<Token>, c: Cmd<Span>)
    decreases |ks|, 3
  {
    || Item(ks, c)
    || (c.List? && exists k :: 0 <= k < |ks| && ks[k].kind == ';' && Item(ks[..k], c.left)
                               && Line(ks[k + 1..], c.right))
  }

  // ---- Tokens.

  /** What a peek tells about the next token. */
  lemma PeekKind(t: CString, i: nat)
    requires i <= |t|
    ensures var k := Tok(t, i).kind;
      && (Peeks(t, i, "<>") <==> k == '<' || k == '>' || k == '+')
      && (Peeks(t, i, "|)&;") <==> k == '|' || k == ')' || k == '&' || k == ';')
      && (Peeks(t, i, "(") <==> k == '(') && (Peeks(t, i, ")") <==> k == ')') && (Peeks(t, i, "|") <==> k == '|')
      && (Peeks(t, i, "&") <==> k == '&') && (Peeks(t, i, ";") <==> k == ';')
      && k in "\0a<>+|)&;("
  {
    hide Skip, WordEnd;
  }

  /** Where a token starts and ends, and what it is: the text's own character, a doubled >, or a word. */
  lemma TokenIs(t: CString, i: nat)
    requires i <= |t| && Tok(t, i).kind != '\0'
    ensures var k := Tok(t, i);
      && i <= k.q < k.eq <= |t| && (forall p :: i <= p < k.q || k.eq <= p < k.pos ==> t[p] in " \t\r\n\U{B}")
      && t[k.q] !in " \t\r\n\U{B}" && (k.pos < |t| ==> t[k.pos] !in " \t\r\n\U{B}")
      && (if t[k.q] == '>' && k.q + 1 < |t| && t[k.q + 1] == '>' then k.kind == '+' && k.eq == k.q + 2
          else if t[k.q] in "<|>&;()" then k.kind == t[k.q] && k.eq == k.q + 1
          else k.kind == 'a' && WordSpan(t, Span(k.q, k.eq)))
  {
  }

  /** The first token, and the others. */
  lemma {:induction false} Next(t: CString, i: nat)
    requires i <= |t|
    ensures Toks(t, i) == [] <==> Tok(t, i).kind == '\0'
    ensures Toks(t, i) != [] ==>
      i < Tok(t, i).pos && Toks(t, i)[0] == Tok(t, i) && Toks(t, Tok(t, i).pos) == Toks(t, i)[1..]
    ensures Toks(t, Skip(t, i)) == Toks(t, i) && Skip(t, Skip(t, i)) == Skip(t, i)
    ensures Toks(t, i) == [] ==> Tok(t, i).pos == |t| == Skip(t, i)
  {
    PeekMoves(t, i);
    TokEnd(t, i);
    hide Tok, Skip;
    if Tok(t, i).kind != '\0' {
      TokenMoves(t, i);
      assert ([Tok(t, i)] + Toks(t, Tok(t, i).pos))[1..] == Toks(t, Tok(t, i).pos);
    }
  }

  lemma {:induction false} TokEnd(t: CString, i: nat)
    requires i <= |t|
    ensures Tok(t, i).kind == '\0' ==> Tok(t, i).pos == |t| == Skip(t, i)
    ensures Skip(t, Tok(t, i).pos) == Tok(t, i).pos
  {
  }

  // ---- Words and redirections.

  lemma {:induction false} ArgsJoined(a: seq<Token>, b: seq<Token>)
    requires a == [] || !IsOperator(a[|a| - 1])
    ensures Args(a + b) == Args(a) + Args(b)
    decreases |b|
  {
    hide IsWord, IsOperator, SpanOf;
    if b == [] {
      assert a + b == a;
    } else {
      var n := |b| - 1;
      assert (a + b)[..|a + b| - 1] == a + b[..n];
      ArgsJoined(a, b[..n]);
      assert IsFile(a + b, |a| + n) == IsFile(b, n) && (a + b)[|a| + n] == b[n];
    }
  }

  lemma {:induction false} RedirectionsJoined(a: seq<Token>, b: seq<Token>)
    requires a == [] || !IsOperator(a[|a| - 1])
    ensures Redirections(a + b) == Redirections(a) + Redirections(b)
    decreases |b|
  {
    hide LastRedirection;
    if b == [] {
      assert a + b == a;
    } else {
      assert (a + b)[..|a + b| - 1] == a + b[..|b| - 1];
      RedirectionsJoined(a, b[..|b| - 1]);
      LastJoined(a, b);
    }
  }

  lemma LastJoined(a: seq<Token>, b: seq<Token>)
    requires b != [] && (a == [] || !IsOperator(a[|a| - 1]))
    ensures LastRedirection(a + b) == LastRedirection(b)
  {
    hide IsOperator, SpanOf;
    var n := |b| - 1;
    assert (a + b)[|a| + n] == b[n] && IsFile(a + b, |a| + n) == IsFile(b, n);
    assert n > 0 ==> (a + b)[|a| + n - 1] == b[n - 1];
  }

  lemma {:induction false} SimpleJoined(a: seq<Token>, b: seq<Token>)
    requires Simple(a)
    ensures Simple(b) ==> Simple(a + b)
    ensures Args(a + b) == Args(a) + Args(b) && Redirections(a + b) == Redirections(a) + Redirections(b)
  {
    hide IsWord, IsOperator, Args, Redirections;
    ArgsJoined(a, b);
    RedirectionsJoined(a, b);
  }

  lemma SimpleRest(a: seq<Token>, b: seq<Token>)
    requires Simple(a + b)
    ensures Simple(b)
  {
    hide IsWord, IsOperator;
    forall k | 0 <= k < |b|
      ensures IsWord(b[k]) || IsOperator(b[k])
    {
      assert (a + b)[|a| + k] == b[k];
    }
    forall k | 0 <= k < |b| && IsOperator(b[k])
      ensures k + 1 < |b| && IsWord(b[k + 1])
    {
      assert (a + b)[|a| + k] == b[k];
      assert k + 1 < |b| ==> (a + b)[|a| + k + 1] == b[k + 1];
    }
  }

  lemma OneWord(w: Token)
    requires IsWord(w)
    ensures Simple([w]) && Args([w]) == [SpanOf(w)] && Redirections([w]) == []
  {
    assert [w][..0] == [];
  }

  lemma OnePair(op: Token, f: Token)
    requires IsOperator(op) && IsWord(f)
    ensures Simple([op, f]) && Args([op, f]) == [] && Redirections([op, f]) == [Redirect(op.kind, SpanOf(f))]
  {
    hide Args, Redirections;
    OneOperator(op);
    Appended([op], f);
    assert [op] + [f] == [op, f];
  }

  lemma OneOperator(op: Token)
    requires IsOperator(op)
    ensures Args([op]) == [] && Redirections([op]) == []
  {
    assert [op][..0] == [];
  }

  lemma {:induction false} Appended(ks: seq<Token>, k: Token)
    requires ks != [] && IsOperator(ks[|ks| - 1]) && IsWord(k)
    ensures Args(ks + [k]) == Args(ks)
    ensures Redirections(ks + [k]) == Redirections(ks) + [Redirect(ks[|ks| - 1].kind, SpanOf(k))]
  {
    assert (ks + [k])[..|ks|] == ks;
  }

  lemma {:induction false} WrapInside(c: Cmd<Span>, base: Cmd<Span>, rs: seq<Redirection>)
    ensures Inside(c, base, rs) <==> c == Wrap(base, rs)
    decreases |rs|
  {
    if rs != [] && c.Redir? {
      WrapInside(c.cmd, base, rs[..|rs| - 1]);
    }
  }

  // ---- What the parser accepts is in the grammar.

  lemma {:induction false} RedirsEnd(t: CString, i: nat, rs: seq<Redirection>)
    requires i <= |t| && (Toks(t, i) == [] || !IsOperator(Toks(t, i)[0]))
    ensures RedirsFrom(t, i, rs) == Redirs(rs, Skip(t, i)) && Toks(t, Skip(t, i)) == Toks(t, i)
  {
    hide Tok, Skip, Peeks, Toks;
    Next(t, i);
    PeekKind(t, i);
  }

  lemma {:induction false} RedirsStep(t: CString, i: nat, rs: seq<Redirection>)
    requires i <= |t| && Toks(t, i) != [] && IsOperator(Toks(t, i)[0])
    ensures var ks := Toks(t, i);
      if |ks| < 2 || !IsWord(ks[1]) then RedirsFrom(t, i, rs) == NoFile
      else
        && i < ks[1].pos <= |t| && Toks(t, ks[1].pos) == ks[2..]
        && RedirsFrom(t, i, rs) == RedirsFrom(t, ks[1].pos, rs + [Redirect(ks[0].kind, SpanOf(ks[1]))])
  {
    hide Tok, Skip, Peeks, Toks;
    Next(t, i);
    PeekKind(t, i);
    Next(t, Tok(t, i).pos);
    assert Toks(t, i)[1..] != [] ==> Toks(t, i)[1..][0] == Toks(t, i)[1] && Toks(t, i)[1..][1..] == Toks(t, i)[2..];
  }

  lemma {:induction false} RedirsSound(t: CString, i: nat, rs: seq<Redirection>) returns (ks: seq<Token>)
    requires i <= |t| && RedirsFrom(t, i, rs).Redirs?
    ensures var r := RedirsFrom(t, i, rs);
      && Toks(t, i) == ks + Toks(t, r.pos) && Simple(ks) && Args(ks) == [] && r.list == rs + Redirections(ks)
    decreases |t| - i
  {
    hide Simple, Toks, Args, Redirections, RedirsFrom;
    var all := Toks(t, i);
    if all == [] || !IsOperator(all[0]) {
      ks := [];
      RedirsEnd(t, i, rs);
      NoTokens();
      assert rs + [] == rs && [] + all == all;
    } else {
      RedirsStep(t, i, rs);
      var op, f := all[0], all[1];
      var one := Redirect(op.kind, SpanOf(f));
      var more := RedirsSound(t, f.pos, rs + [one]);
      ks := [op, f] + more;
      OnePair(op, f);
      SimpleJoined([op, f], more);
      assert rs + [one] + Redirections(more) == rs + ([one] + Redirections(more));
      assert all == [op, f] + all[2..];
    }
  }

  lemma NoTokens()
    ensures Simple([]) && Args([]) == [] && Redirections([]) == []
  {
  }

  lemma {:induction false} ArgsEnd(t: CString, i: nat, argv: seq<Span>, rs: seq<Redirection>)
    requires i <= |t| && |argv| < MAXARGS && (Toks(t, i) == [] || Toks(t, i)[0].kind in "|)&;")
    ensures var r := ArgsFrom(t, i, argv, rs);
      r.Ok? && r.cmd == Wrap(Exec(argv), rs) && r.pos <= |t| && Toks(t, r.pos) == Toks(t, i)
  {
    hide Tok, Skip, Peeks, Toks, Wrap, RedirsFrom;
    Next(t, i);
    PeekKind(t, i);
    Next(t, Tok(t, i).pos);
  }

  lemma {:induction false} ArgsStep(t: CString, i: nat, argv: seq<Span>, rs: seq<Redirection>)
    requires i <= |t| && |argv| + 1 < MAXARGS && Toks(t, i) != [] && IsWord(Toks(t, i)[0])
    ensures var w := Toks(t, i)[0];
      && i < w.pos <= |t| && Toks(t, w.pos) == Toks(t, i)[1..]
      && var r := RedirsFrom(t, w.pos, rs);
      ArgsFrom(t, i, argv, rs) ==
      if r.NoFile? then Bad(MissingFile) else ArgsFrom(t, r.pos, argv + [SpanOf(w)], r.list)
  {
    hide Tok, Skip, Peeks, Toks, Wrap, RedirsFrom;
    Next(t, i);
    PeekKind(t, i);
  }

  lemma {:induction false} ArgsSound(t: CString, i: nat, argv: seq<Span>, rs: seq<Redirection>) returns (ks: seq<Token>)
    requires i <= |t| && |argv| < MAXARGS && ArgsFrom(t, i, argv, rs).Ok?
    ensures var r := ArgsFrom(t, i, argv, rs);
      && Toks(t, i) == ks + Toks(t, r.pos) && Simple(ks) && |argv + Args(ks)| < MAXARGS
      && r.cmd == Wrap(Exec(argv + Args(ks)), rs + Redirections(ks))
    decreases |t| - i
  {
    hide Simple, Toks, Wrap, RedirsFrom, ArgsFrom, Args, Redirections;
    var all := Toks(t, i);
    if all == [] || all[0].kind in "|)&;" {
      ks := [];
      NoTokens();
      ArgsEnd(t, i, argv, rs);
      assert argv + [] == argv && rs + [] == rs && [] + all == all;
    } else {
      var w := all[0];
      ArgsGoOn(t, i, argv, rs);
      ArgsStep(t, i, argv, rs);
      var reds := RedirsSound(t, w.pos, rs);
      var r := RedirsFrom(t, w.pos, rs);
      var more := ArgsSound(t, r.pos, argv + [SpanOf(w)], r.list);
      ks := [w] + reds + more;
      WordFirst(w, reds, more);
      assert all == [w] + all[1..];
      assert argv + [SpanOf(w)] + Args(more) == argv + Args(ks);
      assert rs + Redirections(reds) + Redirections(more) == rs + Redirections(ks);
    }
  }

  /** A word, redirections, and the rest of a command. */
  lemma {:induction false} WordFirst(w: Token, reds: seq<Token>, more: seq<Token>)
    requires IsWord(w) && Simple(reds) && Args(reds) == []
    ensures var ks := [w] + reds + more;
      && Args(ks) == [SpanOf(w)] + Args(more) && Redirections(ks) == Redirections(reds) + Redirections(more)
      && (Simple(more) ==> Simple(ks))
  {
    hide Simple, Args, Redirections;
    OneWord(w);
    SimpleJoined([w], reds);
    SimpleJoined([w] + reds, more);
    assert [SpanOf(w)] + [] == [SpanOf(w)] && [] + Redirections(reds) == Redirections(reds);
  }

  lemma {:induction false} ArgsGoOn(t: CString, i: nat, argv: seq<Span>, rs: seq<Redirection>)
    requires i <= |t| && |argv| < MAXARGS && ArgsFrom(t, i, argv, rs).Ok?
    requires Toks(t, i) != [] && Toks(t, i)[0].kind !in "|)&;"
    ensures IsWord(Toks(t, i)[0]) && |argv| + 1 < MAXARGS
  {
    hide Tok, Skip, Peeks, Toks, Wrap, RedirsFrom;
    Next(t, i);
    PeekKind(t, i);
  }

  lemma {:induction false} CommandSound(t: CString, i: nat) returns (ks: seq<Token>)
    requires i <= |t| && ExecAt(t, i).Ok?
    ensures Toks(t, i) == ks + Toks(t, ExecAt(t, i).pos) && Command(ks, ExecAt(t, i).cmd)
    decreases |t| - i, 1
  {
    hide Tok, Skip, Peeks, Simple, Toks, Wrap, RedirsFrom, ArgsFrom, Args, Redirections, Inside, LineAt, Line;
    Next(t, i);
    PeekKind(t, i);
    if Peeks(t, i, "(") {
      ks := BlockSound(t, i);
    } else {
      var reds := RedirsSound(t, i, []);
      var r := RedirsFrom(t, i, []);
      var more := ArgsSound(t, r.pos, [], r.list);
      ks := reds + more;
      SimpleJoined(reds, more);
      assert [] + Redirections(reds) + Redirections(more) == Redirections(ks) && [] + Args(more) == Args(ks);
      assert ks + Toks(t, ExecAt(t, i).pos) == reds + (more + Toks(t, ExecAt(t, i).pos));
      WrapInside(ExecAt(t, i).cmd, Exec(Args(ks)), Redirections(ks));
    }
  }

  lemma {:induction false} BlockSound(t: CString, i: nat) returns (ks: seq<Token>)
    requires i <= |t| && Peeks(t, i, "(") && BlockAt(t, i).Ok?
    ensures Toks(t, i) == ks + Toks(t, BlockAt(t, i).pos) && Command(ks, BlockAt(t, i).cmd)
    decreases |t| - i, 0
  {
    hide Tok, Skip, Peeks, Simple, Toks, Wrap, RedirsFrom, Args, Redirections, Inside, LineAt, Line;
    Next(t, i);
    PeekKind(t, i);
    var open := Tok(t, i);
    var r := LineAt(t, open.pos);
    var body := LineSound(t, open.pos);
    Next(t, r.pos);
    PeekKind(t, r.pos);
    var close := Tok(t, r.pos);
    var reds := RedirsSound(t, close.pos, []);
    var rs := RedirsFrom(t, close.pos, []);
    ks := [open] + body + [close] + reds;
    var k := 1 + |body|;
    assert ks[1..k] == body && ks[k] == close && ks[k + 1..] == reds;
    assert [] + Redirections(reds) == Redirections(reds);
    WrapInside(BlockAt(t, i).cmd, r.cmd, Redirections(reds));
    assert Block(ks, BlockAt(t, i).cmd, k, r.cmd);
    assert ks + Toks(t, rs.pos) == [open] + (body + ([close] + (reds + Toks(t, rs.pos))));
  }

  lemma {:induction false} PipelineSound(t: CString, i: nat) returns (ks: seq<Token>)
    requires i <= |t| && PipeAt(t, i).Ok?
    ensures Toks(t, i) == ks + Toks(t, PipeAt(t, i).pos) && Pipeline(ks, PipeAt(t, i).cmd)
    decreases |t| - i, 2
  {
    hide Tok, Skip, Peeks, Toks, Command, ExecAt;
    var l := ExecAt(t, i);
    ks := CommandSound(t, i);
    Next(t, l.pos);
    PeekKind(t, l.pos);
    if Peeks(t, l.pos, "|") {
      var bar := Tok(t, l.pos);
      var left := ks;
      var more := PipelineSound(t, bar.pos);
      ks := left + [bar] + more;
      assert ks[..|left|] == left && ks[|left|] == bar && ks[|left| + 1..] == more;
      assert ks + Toks(t, PipeAt(t, i).pos) == left + ([bar] + (more + Toks(t, PipeAt(t, i).pos)));
    }
  }

  lemma {:induction false} ItemSound(t: CString, i: nat, c: Cmd<Span>, ks: seq<Token>) returns (ks': seq<Token>)
    requires i <= |t| && Item(ks, c)
    ensures ks <= ks' && Toks(t, i) == ks'[|ks|..] + Toks(t, BacksFrom(t, i, c).pos)
      && Item(ks', BacksFrom(t, i, c).cmd)
    decreases |t| - i
  {
    hide Tok, Skip, Peeks, Toks, Pipeline;
    Next(t, i);
    PeekKind(t, i);
    if Peeks(t, i, "&") {
      var amp := Tok(t, i);
      assert (ks + [amp])[..|ks|] == ks;
      ks' := ItemSound(t, amp.pos, Back(c), ks + [amp]);
      assert ks'[|ks|..] == [amp] + ks'[|ks| + 1..];
    } else {
      ks' := ks;
      assert ks'[|ks|..] + Toks(t, i) == Toks(t, i);
    }
  }

  lemma {:induction false} LineSound(t: CString, i: nat) returns (ks: seq<Token>)
    requires i <= |t| && LineAt(t, i).Ok?
    ensures Toks(t, i) == ks + Toks(t, LineAt(t, i).pos) && Line(ks, LineAt(t, i).cmd)
    decreases |t| - i, 3
  {
    hide Tok, Skip, Peeks, Toks, Pipeline, Item, PipeAt, BacksFrom;
    var p := PipeAt(t, i);
    var pipe := PipelineSound(t, i);
    ItemOf(pipe, p.cmd);
    ks := ItemSound(t, p.pos, p.cmd, pipe);
    var l := BacksFrom(t, p.pos, p.cmd);
    assert ks == pipe + ks[|pipe|..];
    assert ks + Toks(t, l.pos) == pipe + (ks[|pipe|..] + Toks(t, l.pos));
    Next(t, l.pos);
    PeekKind(t, l.pos);
    if Peeks(t, l.pos, ";") {
      var semi := Tok(t, l.pos);
      var left := ks;
      var more := LineSound(t, semi.pos);
      ks := left + [semi] + more;
      assert ks[..|left|] == left && ks[|left|] == semi && ks[|left| + 1..] == more;
      assert ks + Toks(t, LineAt(t, i).pos) == left + ([semi] + (more + Toks(t, LineAt(t, i).pos)));
    }
  }

  lemma {:induction false} ItemOf(ks: seq<Token>, c: Cmd<Span>)
    requires Pipeline(ks, c)
    ensures Item(ks, c)
  {
    hide Pipeline;
  }

  // ---- What is in the grammar the parser accepts.

  /** The tokens a command, a pipeline, an item and a line may be followed by. */
  predicate Then(rest: seq<Token>, kinds: string) {
    rest == [] || rest[0].kind in kinds
  }

  lemma {:induction false} RedirsComplete(t: CString, i: nat, rs: seq<Redirection>, ks: seq<Token>, rest: seq<Token>)
    requires i <= |t| && Toks(t, i) == ks + rest && Simple(ks) && Args(ks) == [] && (rest == [] || !IsOperator(rest[0]))
    ensures var r := RedirsFrom(t, i, rs);
      && r.Redirs? && r.list == rs + Redirections(ks) && r.pos <= |t| && Toks(t, r.pos) == rest
    decreases |t| - i
  {
    hide Toks, Args, Redirections, Simple, RedirsFrom;
    if ks == [] {
      NoTokens();
      RedirsEnd(t, i, rs);
      assert rs + [] == rs && ks + rest == rest;
    } else {
      FirstIsOperator(ks);
      var op, f := ks[0], ks[1];
      var one := Redirect(op.kind, SpanOf(f));
      assert (ks + rest)[0] == op && (ks + rest)[1] == f && (ks + rest)[2..] == ks[2..] + rest;
      RedirsStep(t, i, rs);
      OnePair(op, f);
      assert ks == [op, f] + ks[2..];
      SimpleJoined([op, f], ks[2..]);
      SimpleRest([op, f], ks[2..]);
      RedirsComplete(t, f.pos, rs + [one], ks[2..], rest);
      assert rs + [one] + Redirections(ks[2..]) == rs + ([one] + Redirections(ks[2..]));
    }
  }

  lemma {:induction false} FirstIsOperator(ks: seq<Token>)
    requires Simple(ks) && Args(ks) == [] && ks != []
    ensures IsOperator(ks[0]) && |ks| >= 2 && IsWord(ks[1])
  {
    if IsWord(ks[0]) {
      OneWord(ks[0]);
      assert ks == [ks[0]] + ks[1..];
      ArgsJoined([ks[0]], ks[1..]);
    }
  }

  /** The redirections in front of the next argument. */
  lemma {:induction false} Front(ks: seq<Token>) returns (n: nat)
    requires Simple(ks)
    ensures n <= |ks| && Simple(ks[..n]) && Args(ks[..n]) == [] && Simple(ks[n..]) && (n < |ks| ==> IsWord(ks[n]))
  {
    hide Args, Redirections;
    NoTokens();
    if ks == [] || IsWord(ks[0]) {
      n := 0;
      assert ks[..0] == [] && ks[0..] == ks;
    } else {
      var pair := ks[..2];
      assert pair == [ks[0], ks[1]] && ks == pair + ks[2..];
      OnePair(ks[0], ks[1]);
      SimpleRest(pair, ks[2..]);
      var m := Front(ks[2..]);
      n := m + 2;
      assert ks[..n] == pair + ks[2..][..m] && ks[n..] == ks[2..][m..];
      SimpleJoined(pair, ks[2..][..m]);
    }
  }

  lemma {:induction false} ArgsComplete(t: CString, i: nat, argv: seq<Span>, rs: seq<Redirection>, ks: seq<Token>,
                                        rest: seq<Token>)
    requires i <= |t| && Toks(t, i) == ks + rest && Simple(ks) && (ks != [] ==> IsWord(ks[0])) && Then(rest, "|)&;")
    requires |argv| + |Args(ks)| < MAXARGS
    ensures var r := ArgsFrom(t, i, argv, rs);
      && r.Ok? && r.cmd == Wrap(Exec(argv + Args(ks)), rs + Redirections(ks)) && r.pos <= |t| && Toks(t, r.pos) == rest
    decreases |t| - i
  {
    hide Toks, Args, Redirections, Simple, Wrap, RedirsFrom, ArgsFrom;
    if ks == [] {
      NoTokens();
      ArgsEnd(t, i, argv, rs);
      assert argv + [] == argv && rs + [] == rs && ks + rest == rest;
    } else {
      var w := ks[0];
      assert (ks + rest)[0] == w && (ks + rest)[1..] == ks[1..] + rest && ks == [w] + ks[1..];
      SimpleRest([w], ks[1..]);
      var n := Front(ks[1..]);
      var reds, more := ks[1..][..n], ks[1..][n..];
      assert ks[1..] == reds + more && ks[1..] + rest == reds + (more + rest) && ks == [w] + reds + more;
      WordFirst(w, reds, more);
      ArgsStep(t, i, argv, rs);
      NoOperator(more, rest);
      RedirsComplete(t, w.pos, rs, reds, more + rest);
      var r := RedirsFrom(t, w.pos, rs);
      ArgsComplete(t, r.pos, argv + [SpanOf(w)], r.list, more, rest);
      assert argv + [SpanOf(w)] + Args(more) == argv + Args(ks);
      assert rs + Redirections(reds) + Redirections(more) == rs + Redirections(ks);
    }
  }

  lemma NoOperator(more: seq<Token>, rest: seq<Token>)
    requires (more != [] ==> IsWord(more[0])) && Then(rest, "|)&;")
    ensures more + rest == [] || !IsOperator((more + rest)[0])
  {
    assert more == [] ==> more + rest == rest;
  }

  lemma {:induction false} SimpleComplete(t: CString, i: nat, ks: seq<Token>, rest: seq<Token>)
    requires i <= |t| && Toks(t, i) == ks + rest && Simple(ks) && |Args(ks)| < MAXARGS && Then(rest, "|)&;")
    ensures var r := ExecAt(t, i);
      && r.Ok? && r.cmd == Wrap(Exec(Args(ks)), Redirections(ks)) && r.pos <= |t| && Toks(t, r.pos) == rest
  {
    hide Tok, Skip, Peeks, Toks, Args, Redirections, Wrap, RedirsFrom, ArgsFrom;
    Next(t, i);
    PeekKind(t, i);
    assert ks != [] ==> (ks + rest)[0] == ks[0];
    assert ks == [] ==> ks + rest == rest;
    var n := Front(ks);
    var reds, more := ks[..n], ks[n..];
    assert ks == reds + more && ks + rest == reds + (more + rest);
    SimpleJoined(reds, more);
    NoOperator(more, rest);
    RedirsComplete(t, i, [], reds, more + rest);
    var r := RedirsFrom(t, i, []);
    ArgsComplete(t, r.pos, [], r.list, more, rest);
    assert [] + Args(more) == Args(ks) && [] + Redirections(reds) + Redirections(more) == Redirections(ks);
  }

  lemma {:induction false} CommandComplete(t: CString, i: nat, c: Cmd<Span>, ks: seq<Token>, rest: seq<Token>)
    requires i <= |t| && Toks(t, i) == ks + rest && Command(ks, c) && Then(rest, "|)&;")
    ensures var r := ExecAt(t, i); r.Ok? && r.cmd == c && r.pos <= |t| && Toks(t, r.pos) == rest
    decreases |ks|, 0
  {
    hide Toks, Args, Redirections, Wrap, Simple, ExecAt, Inside, Block, Then;
    if Simple(ks) && |Args(ks)| < MAXARGS && Inside(c, Exec(Args(ks)), Redirections(ks)) {
      SimpleComplete(t, i, ks, rest);
      WrapInside(c, Exec(Args(ks)), Redirections(ks));
    } else {
      var k, base :| Block(ks, c, k, base);
      BlockComplete(t, i, c, ks, rest, k, base);
    }
  }

  lemma {:induction false} BlockComplete(t: CString, i: nat, c: Cmd<Span>, ks: seq<Token>, rest: seq<Token>, k: nat,
                                         base: Cmd<Span>)
    requires i <= |t| && Toks(t, i) == ks + rest && Block(ks, c, k, base) && Then(rest, "|)&;")
    ensures var r := ExecAt(t, i); r.Ok? && r.cmd == c && r.pos <= |t| && Toks(t, r.pos) == rest
    decreases |ks|, 0, 0
  {
    hide Tok, Skip, Peeks, Toks, Args, Redirections, Wrap, Simple, RedirsFrom, LineAt, Line, Inside;
    Next(t, i);
    PeekKind(t, i);
    assert (ks + rest)[0] == ks[0] && (ks + rest)[1..] == ks[1..k] + (ks[k..] + rest);
    assert (ks[k..] + rest)[0] == ks[k] && (ks[k..] + rest)[1..] == ks[k + 1..] + rest;
    LineComplete(t, Tok(t, i).pos, base, ks[1..k], ks[k..] + rest);
    var r := LineAt(t, Tok(t, i).pos);
    Next(t, r.pos);
    PeekKind(t, r.pos);
    RedirsComplete(t, Tok(t, r.pos).pos, [], ks[k + 1..], rest);
    assert [] + Redirections(ks[k + 1..]) == Redirections(ks[k + 1..]);
    WrapInside(c, base, Redirections(ks[k + 1..]));
  }

  lemma {:induction false} PipelineComplete(t: CString, i: nat, c: Cmd<Span>, ks: seq<Token>, rest: seq<Token>)
    requires i <= |t| && Toks(t, i) == ks + rest && Pipeline(ks, c) && Then(rest, ")&;")
    ensures var r := PipeAt(t, i); r.Ok? && r.cmd == c && r.pos <= |t| && Toks(t, r.pos) == rest
    decreases |ks|, 1
  {
    hide Tok, Skip, Peeks, Toks, Command, ExecAt;
    if Command(ks, c) {
      CommandComplete(t, i, c, ks, rest);
      var l := ExecAt(t, i);
      Next(t, l.pos);
      PeekKind(t, l.pos);
    } else {
      var k :| 0 <= k < |ks| && ks[k].kind == '|' && Command(ks[..k], c.left) && Pipeline(ks[k + 1..], c.right);
      assert ks + rest == ks[..k] + (ks[k..] + rest);
      assert (ks[k..] + rest)[0] == ks[k] && (ks[k..] + rest)[1..] == ks[k + 1..] + rest;
      CommandComplete(t, i, c.left, ks[..k], ks[k..] + rest);
      var l := ExecAt(t, i);
      Next(t, l.pos);
      PeekKind(t, l.pos);
      PipelineComplete(t, Tok(t, l.pos).pos, c.right, ks[k + 1..], rest);
    }
  }

  /** Up to the end of the item, the loop over ampersands has built it. */
  lemma {:induction false} ItemComplete(t: CString, i: nat, c: Cmd<Span>, ks: seq<Token>, rest: seq<Token>)
    returns (j: nat)
    requires i <= |t| && Toks(t, i) == ks + rest && Item(ks, c) && Then(rest, ")&;")
    ensures j <= |t| && Toks(t, j) == rest && PipeAt(t, i).Ok?
    ensures BacksFrom(t, PipeAt(t, i).pos, PipeAt(t, i).cmd) == BacksFrom(t, j, c)
    decreases |ks|, 2
  {
    hide Tok, Skip, Peeks, Toks, Pipeline, PipeAt;
    if Pipeline(ks, c) {
      PipelineComplete(t, i, c, ks, rest);
      j := PipeAt(t, i).pos;
    } else {
      var n := |ks| - 1;
      assert ks + rest == ks[..n] + ([ks[n]] + rest) && ([ks[n]] + rest)[1..] == rest;
      var m := ItemComplete(t, i, c.cmd, ks[..n], [ks[n]] + rest);
      Next(t, m);
      PeekKind(t, m);
      j := Tok(t, m).pos;
    }
  }

  lemma {:induction false} BacksEnd(t: CString, j: nat, c: Cmd<Span>, rest: seq<Token>)
    requires j <= |t| && Toks(t, j) == rest && Then(rest, ");")
    ensures BacksFrom(t, j, c) == Ok(c, Skip(t, j)) && Toks(t, Skip(t, j)) == rest
  {
    hide Tok, Skip, Peeks, Toks;
    Next(t, j);
    PeekKind(t, j);
  }

  lemma {:induction false} LineComplete(t: CString, i: nat, c: Cmd<Span>, ks: seq<Token>, rest: seq<Token>)
    requires i <= |t| && Toks(t, i) == ks + rest && Line(ks, c) && Then(rest, ")")
    ensures var r := LineAt(t, i); r.Ok? && r.cmd == c && r.pos <= |t| && Toks(t, r.pos) == rest
    decreases |ks|, 3
  {
    hide Tok, Skip, Peeks, Toks, Item, PipeAt, BacksFrom;
    if Item(ks, c) {
      var j := ItemComplete(t, i, c, ks, rest);
      BacksEnd(t, j, c, rest);
      LastItem(t, i, c, Skip(t, j), rest);
    } else {
      var k :| 0 <= k < |ks| && ks[k].kind == ';' && Item(ks[..k], c.left) && Line(ks[k + 1..], c.right);
      assert ks + rest == ks[..k] + (ks[k..] + rest);
      assert (ks[k..] + rest)[0] == ks[k] && (ks[k..] + rest)[1..] == ks[k + 1..] + rest;
      var j := ItemComplete(t, i, c.left, ks[..k], ks[k..] + rest);
      BacksEnd(t, j, c.left, ks[k..] + rest);
      Next(t, Skip(t, j));
      PeekKind(t, Skip(t, j));
      LineComplete(t, Tok(t, Skip(t, j)).pos, c.right, ks[k + 1..], rest);
    }
  }

  lemma {:induction false} LastItem(t: CString, i: nat, c: Cmd<Span>, j: nat, rest: seq<Token>)
    requires i <= |t| && PipeAt(t, i).Ok? && BacksFrom(t, PipeAt(t, i).pos, PipeAt(t, i).cmd) == Ok(c, j)
    requires Toks(t, j) == rest && Then(rest, ")")
    ensures LineAt(t, i) == Ok(c, Skip(t, j)) && Toks(t, Skip(t, j)) == rest
  {
    hide Tok, Skip, Peeks, Toks, PipeAt, BacksFrom;
    Next(t, j);
    PeekKind(t, j);
  }

  lemma {:induction false} LineSkips(t: CString, i: nat)
    requires i <= |t| && LineAt(t, i).Ok?
    ensures Skip(t, LineAt(t, i).pos) == LineAt(t, i).pos
    decreases |t| - i
  {
    hide Tok, Skip, Peeks, PipeAt, BacksFrom;
    var p := PipeAt(t, i);
    var l := BacksFrom(t, p.pos, p.cmd);
    PeekMoves(t, l.pos);
    if Peeks(t, l.pos, ";") {
      PeekToken(t, l.pos, ";");
      LineSkips(t, Tok(t, l.pos).pos);
    }
  }

  /** The parser builds a command from a text exactly if the grammar gives the text that command. */
  lemma {:induction false} ParserIsGrammar(t: CString, c: Cmd<Span>)
    ensures Parse(t).Ok? && Parse(t).cmd == c <==> Line(Toks(t, 0), c)
    ensures Parse(t).Ok? ==> Parse(t).pos == |t|
  {
    hide Toks, LineAt, Line, Skip;
    if LineAt(t, 0).Ok? {
      var ks := LineSound(t, 0);
      LineSkips(t, 0);
      Next(t, LineAt(t, 0).pos);
      assert ks + [] == ks;
    }
    if Line(Toks(t, 0), c) {
      assert Toks(t, 0) == Toks(t, 0) + [];
      LineComplete(t, 0, c, Toks(t, 0), []);
      Next(t, LineAt(t, 0).pos);
    }
  }

  // ---- What each panic is about.

  /** The mistake that a panic points at. */
  ghost predicate Fault(ks: seq<Token>, why: Panic) {
    match why
    case MissingFile => exists k :: 0 <= k < |ks| && Nameless(ks, k)
    case Syntax => exists k :: 0 < k < |ks| && ks[k].kind == '(' && IsWord(ks[k - 1])
    case TooManyArgs => exists a, b :: 0 <= a <= b <= |ks| && Simple(ks[a..b]) && |Args(ks[a..b])| >= MAXARGS
    case MissingParen => exists a: nat, b: nat, c: Cmd<Span> :: Unclosed(ks, a, b, c)
    case Leftovers => exists b, c :: 0 <= b < |ks| && Line(ks[..b], c)
    case NoBlock => false
  }

  predicate Nameless(ks: seq<Token>, k: nat)
    requires k < |ks|
  {
    IsOperator(ks[k]) && (k + 1 == |ks| || !IsWord(ks[k + 1]))
  }

  /** A line after the parenthesis at a ends at b, and there is no closing one. */
  ghost predicate Unclosed(ks: seq<Token>, a: nat, b: nat, c: Cmd<Span>) {
    a < b <= |ks| && ks[a].kind == '(' && Line(ks[a + 1..b], c) && (b == |ks| || ks[b].kind != ')')
  }

  lemma SliceAfter(pre: seq<Token>, ks: seq<Token>, a: nat, b: nat)
    requires a <= b <= |ks|
    ensures (pre + ks)[|pre| + a..|pre| + b] == ks[a..b]
  {
  }

  lemma FaultAfter(pre: seq<Token>, ks: seq<Token>, why: Panic)
    requires Fault(ks, why) && !why.Leftovers?
    ensures Fault(pre + ks, why)
  {
    hide Simple, Args, Line, IsWord, IsOperator;
    var n, all := |pre|, pre + ks;
    match why
    case MissingFile =>
      var k :| 0 <= k < |ks| && Nameless(ks, k);
      assert Nameless(all, n + k);
    case Syntax =>
      var k :| 0 < k < |ks| && ks[k].kind == '(' && IsWord(ks[k - 1]);
      assert all[n + k].kind == '(' && IsWord(all[n + k - 1]);
    case TooManyArgs =>
      var a, b :| 0 <= a <= b <= |ks| && Simple(ks[a..b]) && |Args(ks[a..b])| >= MAXARGS;
      SliceAfter(pre, ks, a, b);
    case MissingParen =>
      var a: nat, b: nat, c: Cmd<Span> :| Unclosed(ks, a, b, c);
      SliceAfter(pre, ks, a + 1, b);
      assert Unclosed(all, n + a, n + b, c);
    case NoBlock => assert false;
  }

  lemma {:induction false} RedirsFault(t: CString, i: nat, rs: seq<Redirection>)
    requires i <= |t| && RedirsFrom(t, i, rs).NoFile?
    ensures Fault(Toks(t, i), MissingFile)
    decreases |t| - i
  {
    hide Toks, RedirsFrom, Fault;
    var all := Toks(t, i);
    if all == [] || !IsOperator(all[0]) {
      RedirsEnd(t, i, rs);
    } else {
      RedirsStep(t, i, rs);
      if |all| < 2 || !IsWord(all[1]) {
        NamelessFirst(all);
      } else {
        RedirsFault(t, all[1].pos, rs + [Redirect(all[0].kind, SpanOf(all[1]))]);
        assert all == all[..2] + all[2..];
        FaultAfter(all[..2], all[2..], MissingFile);
      }
    }
  }

  lemma NamelessFirst(ks: seq<Token>)
    requires ks != [] && IsOperator(ks[0]) && (|ks| < 2 || !IsWord(ks[1]))
    ensures Fault(ks, MissingFile)
  {
    assert Nameless(ks, 0);
  }

  /** pre are the words and redirections of the command so far. */
  lemma {:induction false} ArgsFault(t: CString, i: nat, argv: seq<Span>, rs: seq<Redirection>, pre: seq<Token>)
    requires i <= |t| && |argv| < MAXARGS && ArgsFrom(t, i, argv, rs).Bad?
    requires Simple(pre) && |Args(pre)| == |argv| && (Toks(t, i) == [] || !IsOperator(Toks(t, i)[0]))
    requires pre == [] ==> Toks(t, i) == [] || Toks(t, i)[0].kind != '('
    ensures Fault(pre + Toks(t, i), ArgsFrom(t, i, argv, rs).why)
    decreases |t| - i
  {
    hide Tok, Skip, Peeks, Simple, Toks, RedirsFrom, Args, Redirections, Fault, Wrap;
    Next(t, i);
    PeekKind(t, i);
    var all, w := Toks(t, i), Tok(t, i);
    if w.kind != 'a' {
      Misplaced(pre, all);
    } else {
      assert all == [w] + all[1..];
      OneWord(w);
      SimpleJoined(pre, [w]);
      if |argv| + 1 >= MAXARGS {
        TooMany(pre + [w], all[1..]);
        assert pre + all == pre + [w] + all[1..];
      } else {
        var r := RedirsFrom(t, w.pos, rs);
        if r.NoFile? {
          RedirsFault(t, w.pos, rs);
          FaultAfter(pre + [w], all[1..], MissingFile);
          assert pre + all == pre + [w] + all[1..];
        } else {
          var reds := RedirsSound(t, w.pos, rs);
          RedirsStopped(t, w.pos, rs);
          SimpleJoined(pre + [w], reds);
          ArgsFault(t, r.pos, argv + [SpanOf(w)], r.list, pre + [w] + reds);
          assert pre + all == pre + [w] + reds + Toks(t, r.pos);
        }
      }
    }
  }

  lemma Misplaced(pre: seq<Token>, all: seq<Token>)
    requires Simple(pre) && pre != [] && all != [] && all[0].kind == '('
    ensures Fault(pre + all, Syntax)
  {
    var ks, k := pre + all, |pre|;
    assert ks[k] == all[0] && ks[k - 1] == pre[k - 1];
    assert ks[k].kind == '(' && IsWord(ks[k - 1]);
  }

  lemma {:induction false} TooMany(ks: seq<Token>, rest: seq<Token>)
    requires Simple(ks) && |Args(ks)| >= MAXARGS
    ensures Fault(ks + rest, TooManyArgs)
  {
    hide Simple, Args;
    assert (ks + rest)[0..|ks|] == ks;
  }

  lemma {:induction false} RedirsStopped(t: CString, i: nat, rs: seq<Redirection>)
    requires i <= |t| && RedirsFrom(t, i, rs).Redirs?
    ensures var ks := Toks(t, RedirsFrom(t, i, rs).pos); ks == [] || !IsOperator(ks[0])
    decreases |t| - i
  {
    hide Toks, RedirsFrom;
    var all := Toks(t, i);
    if all == [] || !IsOperator(all[0]) {
      RedirsEnd(t, i, rs);
    } else {
      RedirsStep(t, i, rs);
      RedirsStopped(t, all[1].pos, rs + [Redirect(all[0].kind, SpanOf(all[1]))]);
    }
  }

  lemma {:induction false} CommandFault(t: CString, i: nat)
    requires i <= |t| && ExecAt(t, i).Bad?
    ensures Fault(Toks(t, i), ExecAt(t, i).why) && !ExecAt(t, i).why.Leftovers?
    decreases |t| - i, 1
  {
    hide Tok, Skip, Peeks, Simple, Toks, RedirsFrom, ArgsFrom, Args, Redirections, Fault, LineAt;
    Next(t, i);
    PeekKind(t, i);
    if Peeks(t, i, "(") {
      BlockFault(t, i);
    } else {
      var r := RedirsFrom(t, i, []);
      if r.NoFile? {
        RedirsFault(t, i, []);
      } else {
        var reds := RedirsSound(t, i, []);
        RedirsStopped(t, i, []);
        assert reds == [] ==> reds + Toks(t, r.pos) == Toks(t, r.pos);
        ArgsFault(t, r.pos, [], r.list, reds);
        ArgsWhy(t, r.pos, [], r.list);
      }
    }
  }

  lemma {:induction false} ArgsWhy(t: CString, i: nat, argv: seq<Span>, rs: seq<Redirection>)
    requires i <= |t| && |argv| < MAXARGS && ArgsFrom(t, i, argv, rs).Bad?
    ensures !ArgsFrom(t, i, argv, rs).why.Leftovers?
    decreases |t| - i
  {
    hide Skip, Peeks, RedirsFrom;
    var w := Tok(t, i);
    if !Peeks(t, i, "|)&;") && w.kind == 'a' && |argv| + 1 < MAXARGS && RedirsFrom(t, w.pos, rs).Redirs? {
      var r := RedirsFrom(t, w.pos, rs);
      ArgsWhy(t, r.pos, argv + [SpanOf(w)], r.list);
    }
  }

  lemma {:induction false} BlockFault(t: CString, i: nat)
    requires i <= |t| && Peeks(t, i, "(") && BlockAt(t, i).Bad?
    ensures Fault(Toks(t, i), BlockAt(t, i).why) && !BlockAt(t, i).why.Leftovers?
    decreases |t| - i, 0
  {
    hide Tok, Skip, Peeks, Toks, RedirsFrom, Fault, LineAt, Line, Wrap;
    Next(t, i);
    PeekKind(t, i);
    var open := Tok(t, i);
    var all, r := Toks(t, i), LineAt(t, open.pos);
    assert all == [open] + all[1..];
    if r.Bad? {
      LineFault(t, open.pos);
      FaultAfter([open], all[1..], r.why);
    } else {
      var body := LineSound(t, open.pos);
      Next(t, r.pos);
      PeekKind(t, r.pos);
      if !Peeks(t, r.pos, ")") {
        NeverClosed(open, body, Toks(t, r.pos), r.cmd);
        assert all == [open] + body + Toks(t, r.pos);
      } else {
        var close := Tok(t, r.pos);
        RedirsFault(t, close.pos, []);
        FaultAfter([open] + body + [close], Toks(t, close.pos), MissingFile);
        assert all == [open] + body + [close] + Toks(t, close.pos);
      }
    }
  }

  lemma {:induction false} NeverClosed(open: Token, body: seq<Token>, rest: seq<Token>, c: Cmd<Span>)
    requires open.kind == '(' && Line(body, c) && (rest == [] || rest[0].kind != ')')
    ensures Fault([open] + body + rest, MissingParen)
  {
    hide Line;
    var ks := [open] + body + rest;
    assert ks[1..1 + |body|] == body;
    assert Unclosed(ks, 0, 1 + |body|, c);
  }

  lemma {:induction false} PipelineFault(t: CString, i: nat)
    requires i <= |t| && PipeAt(t, i).Bad?
    ensures Fault(Toks(t, i), PipeAt(t, i).why) && !PipeAt(t, i).why.Leftovers?
    decreases |t| - i, 2
  {
    hide Tok, Skip, Peeks, Toks, Fault, ExecAt, Command;
    var l := ExecAt(t, i);
    if l.Bad? {
      CommandFault(t, i);
    } else {
      var left := CommandSound(t, i);
      Next(t, l.pos);
      PeekKind(t, l.pos);
      var bar := Tok(t, l.pos);
      PipelineFault(t, bar.pos);
      FaultAfter(left + [bar], Toks(t, bar.pos), PipeAt(t, bar.pos).why);
      assert Toks(t, i) == left + [bar] + Toks(t, bar.pos);
    }
  }

  lemma {:induction false} LineFault(t: CString, i: nat)
    requires i <= |t| && LineAt(t, i).Bad?
    ensures Fault(Toks(t, i), LineAt(t, i).why) && !LineAt(t, i).why.Leftovers?
    decreases |t| - i, 3
  {
    hide Tok, Skip, Peeks, Toks, Fault, PipeAt, BacksFrom, Item, Pipeline;
    var p := PipeAt(t, i);
    if p.Bad? {
      PipelineFault(t, i);
    } else {
      var pipe := PipelineSound(t, i);
      ItemOf(pipe, p.cmd);
      var left := ItemSound(t, p.pos, p.cmd, pipe);
      var l := BacksFrom(t, p.pos, p.cmd);
      assert left == pipe + left[|pipe|..];
      Next(t, l.pos);
      PeekKind(t, l.pos);
      var semi := Tok(t, l.pos);
      LineFault(t, semi.pos);
      FaultAfter(left + [semi], Toks(t, semi.pos), LineAt(t, semi.pos).why);
      assert Toks(t, i) == left + [semi] + Toks(t, semi.pos);
    }
  }

  /** A text that is refused has the mistake that the panic names; "parseblock" is never seen. */
  lemma {:induction false} PanicIsFault(t: CString)
    requires Parse(t).Bad?
    ensures Fault(Toks(t, 0), Parse(t).why)
  {
    hide Toks, LineAt, Line, Skip;
    if LineAt(t, 0).Bad? {
      hide Fault;
      LineFault(t, 0);
    } else {
      var c := LineAt(t, 0).cmd;
      var ks := LineSound(t, 0);
      Next(t, LineAt(t, 0).pos);
      assert Toks(t, 0)[..|ks|] == ks;
    }
  }
}
