/** The shell's parser (sh.c): what it builds from a command line. */
module Shell {
  import opened CStrings

  const MAXARGS: nat := 10
  const O_RDONLY: nat := 0
  const O_WRONLY_CREATE: nat := 0x201

  // Commands.  The parser's words are spans of the command line; W is also used for strings.
  datatype Cmd<W> =
    | Exec(argv: seq<W>)
    | Redir(cmd: Cmd<W>, file: W, mode: nat, fd: nat)
    | Pipe(left: Cmd<W>, right: Cmd<W>)
    | List(left: Cmd<W>, right: Cmd<W>)
    | Back(cmd: Cmd<W>)

  datatype Span = Span(q: nat, eq: nat)

  // The panics of the parser.
  datatype Panic = MissingFile | NoBlock | MissingParen | Syntax | TooManyArgs | Leftovers

  datatype Parsed = Ok(cmd: Cmd<Span>, pos: nat) | Bad(why: Panic)

  datatype Token = Token(kind: char, q: nat, eq: nat, pos: nat)

  datatype Redirection = Redirection(file: Span, mode: nat, fd: nat)

  datatype Redirs = Redirs(list: seq<Redirection>, pos: nat) | NoFile

  // ---- Tokens.

  predicate White(c: char) { c == ' ' || c == '\t' || c == '\r' || c == '\n' || c == '\U{B}' }
  predicate Symbol(c: char) { c == '<' || c == '|' || c == '>' || c == '&' || c == ';' || c == '(' || c == ')' }
  predicate WordChar(c: char) { c != '\0' && !White(c) && !Symbol(c) }

  function At(t: CString, i: nat): char {
    if i < |t| then t[i] else '\0'
  }

  /** The first position from i on that is not white space. */
  function Skip(t: CString, i: nat): (r: nat)
    requires i <= |t|
    ensures i <= r <= |t| && !White(At(t, r)) && forall k :: i <= k < r ==> White(t[k])
    decreases |t| - i
  {
    if i < |t| && White(t[i]) then Skip(t, i + 1) else i
  }

  /** The end of the run of word characters at i. */
  function WordEnd(t: CString, i: nat): (r: nat)
    requires i <= |t|
    ensures i <= r <= |t| && !WordChar(At(t, r)) && forall k :: i <= k < r ==> WordChar(t[k])
    decreases |t| - i
  {
    if i < |t| && WordChar(t[i]) then WordEnd(t, i + 1) else i
  }

  function Tok(t: CString, i: nat): (r: Token)
    requires i <= |t|
    ensures i <= r.q <= r.eq <= r.pos <= |t|
    ensures r.kind == '\0' <==> r.q == |t|
    ensures r.kind == 'a' ==> WordSpan(t, Span(r.q, r.eq))
    ensures Skip(t, i) < |t| ==> i < r.pos
  {
    var s := Skip(t, i);
    var c := At(t, s);
    var kind := if c == '>' && At(t, s + 1) == '>' then '+' else if WordChar(c) then 'a' else c;
    var e := if c == '\0' then s else if kind == '+' then s + 2 else if kind == 'a' then WordEnd(t, s) else s + 1;
    Token(kind, s, e, Skip(t, e))
  }

  /** A maximal run of word characters. */
  ghost predicate WordSpan(t: CString, w: Span) {
    w.q < w.eq <= |t| && (forall k :: w.q <= k < w.eq ==> WordChar(t[k])) && !WordChar(At(t, w.eq))
  }

  predicate Peeks(t: CString, i: nat, toks: string)
    requires i <= |t|
  {
    At(t, Skip(t, i)) in toks
  }

  method SkipWhite(t: CString, i: nat) returns (s: nat)
    requires i <= |t|
    ensures i <= s <= |t| && s == Skip(t, i)
  {
    s := i;
    while s < |t| && White(t[s])
      invariant i <= s <= |t| && Skip(t, i) == Skip(t, s)
    {
      s := s + 1;
    }
  }

  method ScanWord(t: CString, q: nat) returns (s: nat)
    requires q <= |t|
    ensures q <= s <= |t| && s == WordEnd(t, q)
  {
    s := q;
    while s < |t| && !White(t[s]) && !Symbol(t[s])
      invariant q <= s <= |t| && WordEnd(t, q) == WordEnd(t, s)
    {
      s := s + 1;
    }
  }

  method GetToken(t: CString, i: nat) returns (r: Token)
    requires i <= |t|
    ensures r == Tok(t, i)
  {
    hide Skip, WordEnd;
    var s := SkipWhite(t, i);
    var q := s;
    var ret := At(t, s);
    if ret == '\0' {
    } else if ret == '|' || ret == '(' || ret == ')' || ret == ';' || ret == '&' || ret == '<' {
      s := s + 1;
    } else if ret == '>' {
      s := s + 1;
      if At(t, s) == '>' {
        ret := '+';
        s := s + 1;
      }
    } else {
      ret := 'a';
      s := ScanWord(t, s);
    }
    var eq := s;
    s := SkipWhite(t, s);
    return Token(ret, q, eq, s);
  }

  method Peek(t: CString, i: nat, toks: string) returns (b: bool, pos: nat)
    requires i <= |t| && '\0' !in toks
    ensures pos == Skip(t, i) && (b <==> Peeks(t, i, toks))
  {
    pos := SkipWhite(t, i);
    b := At(t, pos) in toks;
  }

  // ---- The parser.

  /** What a redirection operator asks for; '+' stands for >>, which is treated as >. */
  function Redirect(kind: char, file: Span): Redirection {
    if kind == '<' then Redirection(file, O_RDONLY, 0) else Redirection(file, O_WRONLY_CREATE, 1)
  }

  /** parseredirs, with the redirections in the order found. */
  function RedirsFrom(t: CString, i: nat, rs: seq<Redirection>): (r: Redirs)
    requires i <= |t|
    ensures r.Redirs? ==> i <= r.pos <= |t| && r.pos == Skip(t, r.pos)
    ensures r.Redirs? && RedirWords(t, rs) ==> RedirWords(t, r.list)
    decreases |t| - i
  {
    if !Peeks(t, i, "<>") then Redirs(rs, Skip(t, i))
    else
      var op := Tok(t, i);
      var f := Tok(t, op.pos);
      if f.kind != 'a' then NoFile else RedirsFrom(t, f.pos, rs + [Redirect(op.kind, Span(f.q, f.eq))])
  }

  ghost predicate RedirWords(t: CString, rs: seq<Redirection>) {
    forall k :: 0 <= k < |rs| ==> WordSpan(t, rs[k].file) && RedirOk(rs[k].mode, rs[k].fd)
  }

  predicate RedirOk(mode: nat, fd: nat) {
    (mode == O_RDONLY && fd == 0) || (mode == O_WRONLY_CREATE && fd == 1)
  }

  /** Redirections wrap a command, the first one innermost. */
  function Wrap(cmd: Cmd<Span>, rs: seq<Redirection>): Cmd<Span> {
    if rs == [] then cmd
    else var last := rs[|rs| - 1]; Redir(Wrap(cmd, rs[..|rs| - 1]), last.file, last.mode, last.fd)
  }

  function Finish(cmd: Cmd<Span>, r: Redirs): Parsed {
    if r.NoFile? then Bad(MissingFile) else Ok(Wrap(cmd, r.list), r.pos)
  }

  /** parseexec's loop over arguments. */
  function ArgsFrom(t: CString, i: nat, argv: seq<Span>, rs: seq<Redirection>): (r: Parsed)
    requires i <= |t| && |argv| < MAXARGS
    ensures r.Ok? ==> i <= r.pos <= |t|
    decreases |t| - i
  {
    if Peeks(t, i, "|)&;") then Ok(Wrap(Exec(argv), rs), Skip(t, i))
    else
      var w := Tok(t, i);
      if w.kind == '\0' then Ok(Wrap(Exec(argv), rs), w.pos)
      else if w.kind != 'a' then Bad(Syntax)
      else if |argv| + 1 >= MAXARGS then Bad(TooManyArgs)
      else
        var r := RedirsFrom(t, w.pos, rs);
        if r.NoFile? then Bad(MissingFile) else ArgsFrom(t, r.pos, argv + [Span(w.q, w.eq)], r.list)
  }

  function ExecAt(t: CString, i: nat): (r: Parsed)
    requires i <= |t|
    ensures r.Ok? ==> i <= r.pos <= |t|
    decreases |t| - i, 1
  {
    if Peeks(t, i, "(") then BlockAt(t, i)
    else
      var r := RedirsFrom(t, i, []);
      if r.NoFile? then Bad(MissingFile) else ArgsFrom(t, r.pos, [], r.list)
  }

  function BlockAt(t: CString, i: nat): (r: Parsed)
    requires i <= |t|
    ensures r.Ok? ==> i <= r.pos <= |t|
    decreases |t| - i, 0
  {
    if !Peeks(t, i, "(") then Bad(NoBlock)
    else
      var r := LineAt(t, Tok(t, i).pos);
      if r.Bad? then r
      else if !Peeks(t, r.pos, ")") then Bad(MissingParen)
      else Finish(r.cmd, RedirsFrom(t, Tok(t, r.pos).pos, []))
  }

  function PipeAt(t: CString, i: nat): (r: Parsed)
    requires i <= |t|
    ensures r.Ok? ==> i <= r.pos <= |t|
    decreases |t| - i, 2
  {
    var l := ExecAt(t, i);
    if l.Bad? || !Peeks(t, l.pos, "|") then (if l.Bad? then l else Ok(l.cmd, Skip(t, l.pos)))
    else
      var r := PipeAt(t, Tok(t, l.pos).pos);
      if r.Bad? then r else Ok(Pipe(l.cmd, r.cmd), r.pos)
  }

  /** parseline's loop over ampersands. */
  function BacksFrom(t: CString, i: nat, cmd: Cmd<Span>): (r: Parsed)
    requires i <= |t|
    ensures r.Ok? && i <= r.pos <= |t|
    decreases |t| - i
  {
    if Peeks(t, i, "&") then BacksFrom(t, Tok(t, i).pos, Back(cmd)) else Ok(cmd, Skip(t, i))
  }

  function LineAt(t: CString, i: nat): (r: Parsed)
    requires i <= |t|
    ensures r.Ok? ==> i <= r.pos <= |t|
    decreases |t| - i, 3
  {
    var p := PipeAt(t, i);
    if p.Bad? then p
    else
      var l := BacksFrom(t, p.pos, p.cmd);
      if !Peeks(t, l.pos, ";") then Ok(l.cmd, Skip(t, l.pos))
      else
        var r := LineAt(t, Tok(t, l.pos).pos);
        if r.Bad? then r else Ok(List(l.cmd, r.cmd), r.pos)
  }

  function Parse(t: CString): Parsed {
    var r := LineAt(t, 0);
    if r.Bad? then r else if Skip(t, r.pos) != |t| then Bad(Leftovers) else r
  }

  // The same in the source's form: a cursor that moves, loops, and panics.

  method ParseRedirs(t: CString, i: nat, rs0: seq<Redirection>) returns (r: Redirs)
    requires i <= |t|
    ensures r == RedirsFrom(t, i, rs0)
  {
    hide Tok, Skip, Peeks;
    var pos, rs := i, rs0;
    while true
      invariant i <= pos <= |t| && RedirsFrom(t, i, rs0) == RedirsFrom(t, pos, rs)
      decreases |t| - pos
    {
      var b, s := Peek(t, pos, "<>");
      PeekMoves(t, pos);
      if !b {
        return Redirs(rs, s);
      }
      var op := GetToken(t, s);
      var f := GetToken(t, op.pos);
      if f.kind != 'a' {
        return NoFile;
      }
      PeekToken(t, pos, "<>");
      rs := rs + [Redirect(op.kind, Span(f.q, f.eq))];
      pos := f.pos;
    }
  }

  method ParseExec(t: CString, i: nat) returns (r: Parsed)
    requires i <= |t|
    ensures r == ExecAt(t, i)
    decreases |t| - i, 1
  {
    hide Tok, Skip, Peeks, RedirsFrom;
    var b, s := Peek(t, i, "(");
    PeekMoves(t, i);
    if b {
      BlockMoves(t, i);
      r := ParseBlock(t, s);
      return;
    }
    var rs := ParseRedirs(t, s, []);
    RedirsMove(t, i, []);
    if rs.NoFile? {
      return Bad(MissingFile);
    }
    r := ParseArgs(t, rs.pos, rs.list);
  }

  method ParseArgs(t: CString, i: nat, rs0: seq<Redirection>) returns (r: Parsed)
    requires i <= |t|
    ensures r == ArgsFrom(t, i, [], rs0)
  {
    hide Tok, Skip, Peeks, RedirsFrom;
    var pos, rs := i, rs0;
    var argv: seq<Span> := [];
    while true
      invariant i <= pos <= |t| && |argv| < MAXARGS && ArgsFrom(t, i, [], rs0) == ArgsFrom(t, pos, argv, rs)
      decreases |t| - pos
    {
      var b, s := Peek(t, pos, "|)&;");
      PeekMoves(t, pos);
      if b {
        return Ok(Wrap(Exec(argv), rs), s);
      }
      var w := GetToken(t, s);
      if w.kind == '\0' {
        return Ok(Wrap(Exec(argv), rs), w.pos);
      }
      if w.kind != 'a' {
        return Bad(Syntax);
      }
      argv := argv + [Span(w.q, w.eq)];
      if |argv| >= MAXARGS {
        return Bad(TooManyArgs);
      }
      var more := ParseRedirs(t, w.pos, rs);
      if more.NoFile? {
        return Bad(MissingFile);
      }
      TokenMoves(t, pos);
      pos, rs := more.pos, more.list;
    }
  }

  method ParseBlock(t: CString, i: nat) returns (r: Parsed)
    requires i <= |t|
    ensures r == BlockAt(t, i)
    decreases |t| - i, 0
  {
    hide Tok, Skip, Peeks, RedirsFrom;
    var b, s := Peek(t, i, "(");
    PeekMoves(t, i);
    if !b {
      return Bad(NoBlock);
    }
    PeekToken(t, i, "(");
    var open := GetToken(t, s);
    r := ParseLine(t, open.pos);
    if r.Bad? {
      return;
    }
    b, s := Peek(t, r.pos, ")");
    PeekMoves(t, r.pos);
    if !b {
      return Bad(MissingParen);
    }
    var close := GetToken(t, s);
    var rs := ParseRedirs(t, close.pos, []);
    return Finish(r.cmd, rs);
  }

  method ParsePipe(t: CString, i: nat) returns (r: Parsed)
    requires i <= |t|
    ensures r == PipeAt(t, i)
    decreases |t| - i, 2
  {
    hide Tok, Skip, Peeks, RedirsFrom;
    r := ParseExec(t, i);
    if r.Bad? {
      return;
    }
    var b, s := Peek(t, r.pos, "|");
    PeekMoves(t, r.pos);
    if b {
      PeekToken(t, r.pos, "|");
      var bar := GetToken(t, s);
      var right := ParsePipe(t, bar.pos);
      if right.Bad? {
        return right;
      }
      return Ok(Pipe(r.cmd, right.cmd), right.pos);
    }
    return Ok(r.cmd, s);
  }

  method ParseLine(t: CString, i: nat) returns (r: Parsed)
    requires i <= |t|
    ensures r == LineAt(t, i)
    decreases |t| - i, 3
  {
    hide Tok, Skip, Peeks, RedirsFrom;
    r := ParsePipe(t, i);
    if r.Bad? {
      return;
    }
    ghost var p := r;
    var cmd, pos := r.cmd, r.pos;
    while true
      invariant i <= pos <= |t| && BacksFrom(t, p.pos, p.cmd) == BacksFrom(t, pos, cmd)
      decreases |t| - pos
    {
      var amp, s := Peek(t, pos, "&");
      PeekMoves(t, pos);
      if !amp {
        pos := s;
        break;
      }
      PeekToken(t, pos, "&");
      var tok := GetToken(t, s);
      cmd, pos := Back(cmd), tok.pos;
    }
    var b, s := Peek(t, pos, ";");
    PeekMoves(t, pos);
    if b {
      PeekToken(t, pos, ";");
      var semi := GetToken(t, s);
      var right := ParseLine(t, semi.pos);
      if right.Bad? {
        return right;
      }
      return Ok(List(cmd, right.cmd), right.pos);
    }
    return Ok(cmd, s);
  }

  /** parsecmd, without the final nulterminate. */
  method ParseCmd(t: CString) returns (r: Parsed)
    ensures r == Parse(t)
  {
    hide Skip, LineAt;
    r := ParseLine(t, 0);
    if r.Bad? {
      return;
    }
    var b, s := Peek(t, r.pos, "");
    if s != |t| {
      return Bad(Leftovers);
    }
  }

  /** Skipping white space first changes nothing. */
  lemma {:induction false} PeekMoves(t: CString, i: nat)
    requires i <= |t|
    ensures Skip(t, Skip(t, i)) == Skip(t, i) && Tok(t, Skip(t, i)) == Tok(t, i)
  {
  }

  lemma PeekToken(t: CString, i: nat, toks: string)
    requires i <= |t| && Peeks(t, i, toks) && '\0' !in toks
    ensures i < Tok(t, i).pos
  {
  }

  lemma TokenMoves(t: CString, i: nat)
    requires i <= |t| && Tok(t, i).kind != '\0'
    ensures i < Tok(t, i).pos
  {
  }

  lemma {:induction false} BlockMoves(t: CString, i: nat)
    requires i <= |t|
    ensures BlockAt(t, Skip(t, i)) == BlockAt(t, i)
  {
    PeekMoves(t, i);
    hide Tok, Skip;
  }

  lemma {:induction false} RedirsMove(t: CString, i: nat, rs: seq<Redirection>)
    requires i <= |t|
    ensures RedirsFrom(t, Skip(t, i), rs) == RedirsFrom(t, i, rs)
  {
    PeekMoves(t, i);
    hide Tok, Skip;
  }
}
