/** Printing a command with all its parentheses and parsing the result gives the command back. */
module ShellPrint {
  import opened CStrings
  import opened Shell
  import opened ShellWords

  predicate IsWord(w: string) {
    w != [] && forall k :: 0 <= k < |w| ==> WordChar(w[k])
  }

  /** The commands that can be typed. */
  ghost predicate Proper(c: Cmd<string>) {
    match c
    case Exec(argv) => |argv| < MAXARGS && forall k :: 0 <= k < |argv| ==> IsWord(argv[k])
    case Redir(d, file, mode, fd) => Proper(d) && IsWord(file) && RedirOk(mode, fd)
    case Pipe(l, r) => Proper(l) && Proper(r)
    case List(l, r) => Proper(l) && Proper(r)
    case Back(d) => Proper(d)
  }

  function Join(argv: seq<string>): string {
    if argv == [] then "" else if |argv| == 1 then argv[0] else argv[0] + " " + Join(argv[1..])
  }

  function Block(c: Cmd<string>): string
    decreases c, 1
  {
    "(" + Print(c) + ")"
  }

  function Print(c: Cmd<string>): string
    decreases c, 0
  {
    match c
    case Exec(argv) => Join(argv)
    case Redir(d, file, mode, fd) => Block(d) + (if mode == O_RDONLY then "<" else ">") + file
    case Pipe(l, r) => Block(l) + "|" + Block(r)
    case List(l, r) => Block(l) + ";" + Block(r)
    case Back(d) => Block(d) + "&"
  }

  function Slice(t: CString, w: Span): string {
    if w.q <= w.eq <= |t| then t[w.q..w.eq] else ""
  }

  /** A parsed command with its words written out. */
  function Text(t: CString, c: Cmd<Span>): Cmd<string> {
    match c
    case Exec(argv) => Exec(seq(|argv|, k requires 0 <= k < |argv| => Slice(t, argv[k])))
    case Redir(d, file, mode, fd) => Redir(Text(t, d), Slice(t, file), mode, fd)
    case Pipe(l, r) => Pipe(Text(t, l), Text(t, r))
    case List(l, r) => List(Text(t, l), Text(t, r))
    case Back(d) => Back(Text(t, d))
  }

  // ---- Pieces of the line.

  predicate Here(t: CString, i: nat, x: string) {
    i + |x| <= |t| && t[i..i + |x|] == x
  }

  lemma HereSplit(t: CString, i: nat, x: string, y: string)
    requires Here(t, i, x + y)
    ensures Here(t, i, x) && Here(t, i + |x|, y)
  {
    assert (x + y)[..|x|] == x && (x + y)[|x|..] == y;
  }

  lemma HereChar(t: CString, i: nat, c: char)
    requires Here(t, i, [c])
    ensures i < |t| && t[i] == c
  {
    assert t[i..i + 1][0] == t[i];
  }

  lemma TokWord(t: CString, i: nat, w: string)
    requires Here(t, i, w) && IsWord(w) && !WordChar(At(t, i + |w|))
    ensures Tok(t, i) == Token('a', i, i + |w|, Skip(t, i + |w|)) && Skip(t, i) == i && Slice(t, Span(i, i + |w|)) == w
    ensures WordChar(At(t, i))
  {
    assert t[i] == w[0];
    forall k | i <= k < i + |w|
      ensures WordChar(t[k])
    {
      assert t[k] == w[k - i];
    }
  }

  /** A symbol followed by something that is not white space. */
  lemma {:induction false} TokSymbol(t: CString, i: nat)
    requires i < |t| && Symbol(t[i]) && !White(At(t, i + 1)) && (t[i] == '>' ==> At(t, i + 1) != '>')
    ensures Skip(t, i) == i && Tok(t, i) == Token(t[i], i, i + 1, i + 1)
  {
  }

  /** The text ends here, or the enclosing parenthesis closes. */
  predicate Stop(t: CString, i: nat) {
    i <= |t| && (i == |t| || t[i] == ')')
  }

  /** What a peek sees where there is no white space. */
  lemma {:induction false} PeekIs(t: CString, i: nat)
    requires i <= |t| && !White(At(t, i))
    ensures Skip(t, i) == i
    ensures Peeks(t, i, "<>") <==> At(t, i) == '<' || At(t, i) == '>'
    ensures Peeks(t, i, "|)&;") <==> At(t, i) == '|' || At(t, i) == ')' || At(t, i) == '&' || At(t, i) == ';'
    ensures Peeks(t, i, "(") <==> At(t, i) == '('
    ensures Peeks(t, i, ")") <==> At(t, i) == ')'
    ensures Peeks(t, i, "|") <==> At(t, i) == '|'
    ensures Peeks(t, i, "&") <==> At(t, i) == '&'
    ensures Peeks(t, i, ";") <==> At(t, i) == ';'
  {
  }

  lemma {:induction false} NoRedirs(t: CString, i: nat)
    requires i <= |t| && !White(At(t, i)) && At(t, i) != '<' && At(t, i) != '>'
    ensures RedirsFrom(t, i, []) == Redirs([], i)
  {
    hide Skip, Peeks, Tok;
    PeekIs(t, i);
  }

  lemma StopAt(t: CString, i: nat)
    requires Stop(t, i)
    ensures !White(At(t, i)) && !WordChar(At(t, i)) && (At(t, i) == ')' || At(t, i) == '\0')
      && (At(t, i) == '\0' <==> i == |t|)
  {
  }

  // ---- Arguments.

  lemma {:induction false} ArgsParse(t: CString, i: nat, rest: seq<string>, acc: seq<Span>) returns (spans: seq<Span>)
    requires Here(t, i, Join(rest)) && Stop(t, i + |Join(rest)|)
    requires |acc| + |rest| < MAXARGS && forall k :: 0 <= k < |rest| ==> IsWord(rest[k])
    ensures ArgsFrom(t, i, acc, []) == Ok(Exec(acc + spans), i + |Join(rest)|)
    ensures |spans| == |rest| && forall k :: 0 <= k < |rest| ==> Slice(t, spans[k]) == rest[k]
    decreases |rest|
  {
    hide Tok, Skip, Peeks, White, WordChar, Symbol, RedirsFrom, Slice, Stop, Here, IsWord;
    if rest == [] {
      spans := [];
      NoArgs(t, i, acc);
      assert acc + [] == acc;
    } else {
      OneArg(t, i, rest);
      var j := i + |rest[0]|;
      var next := if |rest| == 1 then j else j + 1;
      var more := ArgsParse(t, next, rest[1..], acc + [Span(i, j)]);
      spans := [Span(i, j)] + more;
      assert acc + [Span(i, j)] + more == acc + spans;
    }
  }

  lemma {:induction false} NoArgs(t: CString, i: nat, acc: seq<Span>)
    requires Stop(t, i) && |acc| < MAXARGS
    ensures ArgsFrom(t, i, acc, []) == Ok(Exec(acc), i)
  {
    StopAt(t, i);
    PeekIs(t, i);
    if i == |t| {
      assert Tok(t, i) == Token('\0', i, i, i);
    }
    hide Tok, Skip, Peeks;
  }

  /** The first argument is one token, with no redirection after it. */
  lemma {:induction false} OneArg(t: CString, i: nat, rest: seq<string>)
    requires rest != [] && Here(t, i, Join(rest)) && Stop(t, i + |Join(rest)|)
      && forall k :: 0 <= k < |rest| ==> IsWord(rest[k])
    ensures var j := i + |rest[0]|; var next := if |rest| == 1 then j else j + 1;
      && next <= |t| && Tok(t, i) == Token('a', i, j, next) && Slice(t, Span(i, j)) == rest[0]
      && !Peeks(t, i, "|)&;") && RedirsFrom(t, next, []) == Redirs([], next)
      && Here(t, next, Join(rest[1..])) && next + |Join(rest[1..])| == i + |Join(rest)|
  {
    hide Tok, Skip, Peeks, RedirsFrom, Slice, IsWord, Here;
    var w := rest[0];
    var j := i + |w|;
    if |rest| == 1 {
      assert rest[1..] == [];
      HereEmpty(t, i, w);
      StopAt(t, j);
      PeekIs(t, j);
      TokWord(t, i, w);
      NoRedirs(t, j);
    } else {
      HereSplit(t, i, w + " ", Join(rest[1..]));
      HereSplit(t, i, w, " ");
      HereChar(t, j, ' ');
      TokWord(t, i, w);
      JoinFirst(t, j + 1, rest[1..]);
      SkipOne(t, j);
      NoRedirs(t, j + 1);
    }
    PeekIs(t, i);
  }

  lemma {:induction false} SkipOne(t: CString, i: nat)
    requires i < |t| && White(t[i]) && !White(At(t, i + 1))
    ensures Skip(t, i) == i + 1
  {
  }

  lemma HereEmpty(t: CString, i: nat, w: string)
    requires Here(t, i, w)
    ensures Here(t, i + |w|, "")
  {
  }

  lemma {:induction false} JoinFirst(t: CString, i: nat, rest: seq<string>)
    requires rest != [] && Here(t, i, Join(rest)) && IsWord(rest[0])
    ensures i < |t| && WordChar(t[i])
  {
    if |rest| > 1 {
      HereSplit(t, i, rest[0] + " ", Join(rest[1..]));
      HereSplit(t, i, rest[0], " ");
    }
    assert t[i] == rest[0][0];
  }

  // ---- Commands.

  lemma {:induction false} PipeStop(t: CString, i: nat, c: Cmd<Span>, j: nat)
    requires i <= |t| && ExecAt(t, i) == Ok(c, j) && Stop(t, j)
    ensures PipeAt(t, i) == Ok(c, j)
  {
    hide Tok, Skip, Peeks, ExecAt;
    StopAt(t, j);
    PeekIs(t, j);
  }

  lemma {:induction false} LineStop(t: CString, i: nat, c: Cmd<Span>, j: nat)
    requires i <= |t| && PipeAt(t, i) == Ok(c, j) && Stop(t, j)
    ensures LineAt(t, i) == Ok(c, j)
  {
    hide Tok, Skip, Peeks, PipeAt;
    StopAt(t, j);
    PeekIs(t, j);
  }

  /** A parenthesised line, and then its redirections. */
  lemma {:induction false} BlockBody(t: CString, i: nat, c: Cmd<Span>, j: nat)
    requires i + 1 <= j < |t| && t[i] == '(' && t[j] == ')' && !White(At(t, i + 1)) && !White(At(t, j + 1))
    requires LineAt(t, i + 1) == Ok(c, j)
    ensures ExecAt(t, i) == Finish(c, RedirsFrom(t, j + 1, []))
  {
    hide Skip, Tok, Peeks, RedirsFrom, LineAt, Finish;
    PeekIs(t, i);
    PeekIs(t, j);
    TokSymbol(t, i);
    TokSymbol(t, j);
  }

  lemma {:induction false} PrintFirst(t: CString, i: nat, w: Cmd<string>)
    requires Proper(w) && Here(t, i, Print(w)) && Stop(t, i + |Print(w)|)
    ensures !White(At(t, i))
  {
    match w {
      case Exec(argv) => if argv != [] { JoinFirst(t, i, argv); } else { StopAt(t, i); }
      case _ =>
        assert Print(w)[0] == '(';
        assert t[i] == t[i..i + |Print(w)|][0];
    }
  }

  /** Where a block stands, its parts stand. */
  lemma {:induction false} BlockPlaces(t: CString, i: nat, w: Cmd<string>)
    requires Proper(w) && Here(t, i, Block(w))
    ensures i < |t| && t[i] == '(' && Here(t, i + 1, Print(w))
    ensures i + 1 + |Print(w)| < |t| && t[i + 1 + |Print(w)|] == ')' && |Block(w)| == |Print(w)| + 2
    ensures !White(At(t, i + 1)) && Stop(t, i + 1 + |Print(w)|)
  {
    hide Print, Proper;
    assert Block(w) == "(" + Print(w) + ")";
    HereSplit(t, i, "(" + Print(w), ")");
    HereSplit(t, i, "(", Print(w));
    HereChar(t, i, '(');
    HereChar(t, i + 1 + |Print(w)|, ')');
    PrintFirst(t, i + 1, w);
  }

  /** What may follow a block without changing it. */
  predicate After(t: CString, i: nat) {
    i <= |t| && !White(At(t, i)) && At(t, i) != '<' && At(t, i) != '>'
  }

  lemma {:induction false} BlockParses(t: CString, i: nat, w: Cmd<string>) returns (c: Cmd<Span>)
    requires Proper(w) && Here(t, i, Block(w)) && After(t, i + |Block(w)|)
    ensures ExecAt(t, i) == Ok(c, i + |Block(w)|) && Text(t, c) == w
    decreases w, 3
  {
    hide Print, Block, Proper, Here, ExecAt, LineAt, RedirsFrom, Stop, White;
    BlockPlaces(t, i, w);
    c := LineParses(t, i + 1, w);
    var j := i + 1 + |Print(w)|;
    BlockBody(t, i, c, j);
    NoRedirs(t, j + 1);
  }

  /** Printing and parsing again gives the same command, wherever the text stands. */
  lemma {:induction false} LineParses(t: CString, i: nat, w: Cmd<string>) returns (c: Cmd<Span>)
    requires Proper(w) && Here(t, i, Print(w)) && Stop(t, i + |Print(w)|)
    ensures LineAt(t, i) == Ok(c, i + |Print(w)|) && Text(t, c) == w
    decreases w, 2
  {
    hide Here, ExecAt, PipeAt, LineAt, RedirsFrom, ArgsFrom, Stop, White, Join, Block, Text;
    var end := i + |Print(w)|;
    match w {
      case Exec(argv) =>
        c := ExecParses(t, i, argv);
        PipeStop(t, i, c, end);
        LineStop(t, i, c, end);
      case Redir(d, file, mode, fd) =>
        c := RedirParses(t, i, d, file, mode, fd);
        PipeStop(t, i, c, end);
        LineStop(t, i, c, end);
      case Pipe(l, r) =>
        c := PipeParses(t, i, l, r);
        LineStop(t, i, c, end);
      case List(l, r) => c := ListParses(t, i, l, r);
      case Back(d) => c := BackParses(t, i, d);
    }
  }

  lemma ExecParses(t: CString, i: nat, argv: seq<string>) returns (c: Cmd<Span>)
    requires Proper(Exec(argv)) && Here(t, i, Join(argv)) && Stop(t, i + |Join(argv)|)
    ensures ExecAt(t, i) == Ok(c, i + |Join(argv)|) && Text(t, c) == Exec(argv)
  {
    hide Tok, Skip, Peeks, RedirsFrom, ArgsFrom, Here, Slice, IsWord;
    if argv == [] {
      StopAt(t, i);
    } else {
      JoinFirst(t, i, argv);
    }
    NoRedirs(t, i);
    PeekIs(t, i);
    var spans := ArgsParse(t, i, argv, []);
    c := Exec([] + spans);
    assert Text(t, c).argv == argv;
  }

  lemma {:induction false} RedirParses(t: CString, i: nat, d: Cmd<string>, file: string, mode: nat, fd: nat)
    returns (c: Cmd<Span>)
    requires var w := Redir(d, file, mode, fd); Proper(w) && Here(t, i, Print(w)) && Stop(t, i + |Print(w)|)
    ensures var w := Redir(d, file, mode, fd); ExecAt(t, i) == Ok(c, i + |Print(w)|) && Text(t, c) == w
    decreases Redir(d, file, mode, fd), 1
  {
    hide Here, ExecAt, LineAt, RedirsFrom, Stop, White, Block, Slice;
    var op := if mode == O_RDONLY then "<" else ">";
    var j := i + |Block(d)|;
    HereSplit(t, i, Block(d) + op, file);
    HereSplit(t, i, Block(d), op);
    HereChar(t, j, op[0]);
    BlockPlaces(t, i, d);
    var c0 := LineParses(t, i + 1, d);
    OneRedir(t, j, file, op[0]);
    BlockBody(t, i, c0, j - 1);
    var f := Span(j + 1, j + 1 + |file|);
    c := Redir(c0, f, mode, fd);
    assert Wrap(c0, [Redirect(op[0], f)]) == c;
  }

  lemma {:induction false} OneRedir(t: CString, j: nat, file: string, op: char)
    requires j < |t| && t[j] == op && (op == '<' || op == '>') && Here(t, j + 1, file) && IsWord(file)
      && Stop(t, j + 1 + |file|)
    ensures var f := Span(j + 1, j + 1 + |file|);
      !White(At(t, j)) && Slice(t, f) == file && RedirsFrom(t, j, []) == Redirs([Redirect(op, f)], j + 1 + |file|)
  {
    hide Tok, Skip, Peeks, Here, IsWord, Stop, Slice;
    var e := j + 1 + |file|;
    StopAt(t, e);
    TokWord(t, j + 1, file);
    TokSymbol(t, j);
    PeekIs(t, j);
    PeekIs(t, e);
    assert [] + [Redirect(op, Span(j + 1, e))] == [Redirect(op, Span(j + 1, e))];
  }

  lemma {:induction false} PipeParses(t: CString, i: nat, l: Cmd<string>, r: Cmd<string>) returns (c: Cmd<Span>)
    requires Proper(Pipe(l, r)) && Here(t, i, Print(Pipe(l, r))) && Stop(t, i + |Print(Pipe(l, r))|)
    ensures PipeAt(t, i) == Ok(c, i + |Print(Pipe(l, r))|) && Text(t, c) == Pipe(l, r)
    decreases Pipe(l, r), 1
  {
    hide Here, ExecAt, LineAt, RedirsFrom, Stop, Block, Tok, Skip, Peeks;
    var j, e := i + |Block(l)|, i + |Print(Pipe(l, r))|;
    HereSplit(t, i, Block(l) + "|", Block(r));
    HereSplit(t, i, Block(l), "|");
    HereChar(t, j, '|');
    BlockPlaces(t, j + 1, r);
    StopAt(t, e);
    var cl := BlockParses(t, i, l);
    var cr := BlockParses(t, j + 1, r);
    PipeStop(t, j + 1, cr, e);
    PeekIs(t, j);
    TokSymbol(t, j);
    c := Pipe(cl, cr);
  }

  lemma {:induction false} ListParses(t: CString, i: nat, l: Cmd<string>, r: Cmd<string>) returns (c: Cmd<Span>)
    requires Proper(List(l, r)) && Here(t, i, Print(List(l, r))) && Stop(t, i + |Print(List(l, r))|)
    ensures LineAt(t, i) == Ok(c, i + |Print(List(l, r))|) && Text(t, c) == List(l, r)
    decreases List(l, r), 1
  {
    hide Here, ExecAt, RedirsFrom, Stop, Block, Tok, Skip, Peeks;
    var j, e := i + |Block(l)|, i + |Print(List(l, r))|;
    HereSplit(t, i, Block(l) + ";", Block(r));
    HereSplit(t, i, Block(l), ";");
    HereChar(t, j, ';');
    BlockPlaces(t, j + 1, r);
    StopAt(t, e);
    var cl := BlockParses(t, i, l);
    var cr := BlockParses(t, j + 1, r);
    PipeStop(t, j + 1, cr, e);
    LineStop(t, j + 1, cr, e);
    PeekIs(t, j);
    TokSymbol(t, j);
    c := List(cl, cr);
    assert PipeAt(t, i) == Ok(cl, j);
    assert BacksFrom(t, j, cl) == Ok(cl, j);
  }

  lemma {:induction false} BackParses(t: CString, i: nat, d: Cmd<string>) returns (c: Cmd<Span>)
    requires Proper(Back(d)) && Here(t, i, Print(Back(d))) && Stop(t, i + |Print(Back(d))|)
    ensures LineAt(t, i) == Ok(c, i + |Print(Back(d))|) && Text(t, c) == Back(d)
    decreases Back(d), 1
  {
    hide Here, ExecAt, RedirsFrom, Stop, Block, Tok, Skip, Peeks;
    var j, e := i + |Block(d)|, i + |Print(Back(d))|;
    HereSplit(t, i, Block(d), "&");
    HereChar(t, j, '&');
    StopAt(t, e);
    var cd := BlockParses(t, i, d);
    PeekIs(t, j);
    TokSymbol(t, j);
    PeekIs(t, e);
    c := Back(cd);
    assert PipeAt(t, i) == Ok(cd, j);
    assert BacksFrom(t, e, c) == Ok(c, e);
  }

  lemma {:induction false} PrintClean(w: Cmd<string>)
    requires Proper(w)
    ensures '\0' !in Print(w)
  {
    match w {
      case Exec(argv) => JoinClean(argv);
      case Redir(d, _, _, _) => PrintClean(d);
      case Pipe(l, r) => PrintClean(l); PrintClean(r);
      case List(l, r) => PrintClean(l); PrintClean(r);
      case Back(d) => PrintClean(d);
    }
  }

  lemma {:induction false} JoinClean(argv: seq<string>)
    requires forall k :: 0 <= k < |argv| ==> IsWord(argv[k])
    ensures '\0' !in Join(argv)
  {
    if argv != [] {
      assert IsWord(argv[0]);
      JoinClean(argv[1..]);
    }
  }

  /** Every command that can be typed is what its printed form parses to. */
  lemma {:induction false} RoundTrip(w: Cmd<string>)
    requires Proper(w)
    ensures '\0' !in Print(w) && Parse(Print(w)).Ok? && Text(Print(w), Parse(Print(w)).cmd) == w
  {
    PrintClean(w);
    var t: CString := Print(w);
    hide Print, LineAt, Text;
    assert t[0..|t|] == t;
    var c := LineParses(t, 0, w);
  }

  /** What the parser builds from any text can be printed. */
  lemma {:induction false} TextProper(t: CString, c: Cmd<Span>)
    requires Words(t, c)
    ensures Proper(Text(t, c))
  {
    hide WordChar;
    match c
    case Exec(argv) =>
      forall k | 0 <= k < |argv|
        ensures IsWord(Slice(t, argv[k]))
      {
        SliceWord(t, argv[k]);
      }
    case Redir(d, file, _, _) =>
      TextProper(t, d);
      SliceWord(t, file);
    case Pipe(l, r) =>
      TextProper(t, l);
      TextProper(t, r);
    case List(l, r) =>
      TextProper(t, l);
      TextProper(t, r);
    case Back(d) => TextProper(t, d);
  }

  lemma SliceWord(t: CString, w: Span)
    requires WordSpan(t, w)
    ensures IsWord(Slice(t, w))
  {
    hide WordChar;
  }

  /** Every text that parses: its command, printed and parsed again, is the same command. */
  lemma {:induction false} Reparse(t: CString)
    requires Parse(t).Ok?
    ensures var w := Text(t, Parse(t).cmd);
      Proper(w) && '\0' !in Print(w) && Parse(Print(w)).Ok? && Text(Print(w), Parse(Print(w)).cmd) == w
  {
    hide LineAt, Text, Print, Proper;
    LineWords(t, 0);
    TextProper(t, Parse(t).cmd);
    RoundTrip(Text(t, Parse(t).cmd));
  }
}
