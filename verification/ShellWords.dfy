/** What the parser's words are, and what nulterminate (sh.c) does to the command line. */
module ShellWords {
  import opened CStrings
  import opened Shell

  /** All words are whole words of the line, and every argument vector has room for its 0. */
  ghost predicate Words(t: CString, cmd: Cmd<Span>) {
    match cmd
    case Exec(argv) => |argv| < MAXARGS && forall k :: 0 <= k < |argv| ==> WordSpan(t, argv[k])
    case Redir(c, file, mode, fd) => Words(t, c) && WordSpan(t, file) && RedirOk(mode, fd)
    case Pipe(l, r) => Words(t, l) && Words(t, r)
    case List(l, r) => Words(t, l) && Words(t, r)
    case Back(c) => Words(t, c)
  }

  lemma {:induction false} WrapWords(t: CString, cmd: Cmd<Span>, rs: seq<Redirection>)
    requires Words(t, cmd) && RedirWords(t, rs)
    ensures Words(t, Wrap(cmd, rs))
  {
    if rs != [] {
      WrapWords(t, cmd, rs[..|rs| - 1]);
    }
  }

  lemma {:induction false} ArgsWords(t: CString, i: nat, argv: seq<Span>, rs: seq<Redirection>)
    requires i <= |t| && |argv| < MAXARGS && Words(t, Exec(argv)) && RedirWords(t, rs)
    ensures ArgsFrom(t, i, argv, rs).Ok? ==> Words(t, ArgsFrom(t, i, argv, rs).cmd)
    decreases |t| - i
  {
    hide RedirsFrom;
    WrapWords(t, Exec(argv), rs);
    var w := Tok(t, i);
    if !Peeks(t, i, "|)&;") && w.kind == 'a' && |argv| + 1 < MAXARGS {
      var r := RedirsFrom(t, w.pos, rs);
      if r.Redirs? {
        ArgsWords(t, r.pos, argv + [Span(w.q, w.eq)], r.list);
      }
    }
  }

  lemma {:induction false} BacksWords(t: CString, i: nat, cmd: Cmd<Span>)
    requires i <= |t| && Words(t, cmd)
    ensures Words(t, BacksFrom(t, i, cmd).cmd)
    decreases |t| - i
  {
    hide Tok, Skip;
    if Peeks(t, i, "&") {
      PeekToken(t, i, "&");
      BacksWords(t, Tok(t, i).pos, Back(cmd));
    }
  }

  lemma {:induction false} ExecWords(t: CString, i: nat)
    requires i <= |t|
    ensures ExecAt(t, i).Ok? ==> Words(t, ExecAt(t, i).cmd)
    decreases |t| - i, 1
  {
    hide RedirsFrom, ArgsFrom;
    if Peeks(t, i, "(") {
      BlockWords(t, i);
    } else {
      var r := RedirsFrom(t, i, []);
      if r.Redirs? {
        ArgsWords(t, r.pos, [], r.list);
      }
    }
  }

  lemma {:induction false} BlockWords(t: CString, i: nat)
    requires i <= |t|
    ensures BlockAt(t, i).Ok? ==> Words(t, BlockAt(t, i).cmd)
    decreases |t| - i, 0
  {
    hide RedirsFrom, LineAt, Tok;
    if Peeks(t, i, "(") {
      PeekToken(t, i, "(");
      LineWords(t, Tok(t, i).pos);
      var r := LineAt(t, Tok(t, i).pos);
      if r.Ok? && Peeks(t, r.pos, ")") {
        var rs := RedirsFrom(t, Tok(t, r.pos).pos, []);
        if rs.Redirs? {
          WrapWords(t, r.cmd, rs.list);
        }
      }
    }
  }

  lemma {:induction false} PipeWords(t: CString, i: nat)
    requires i <= |t|
    ensures PipeAt(t, i).Ok? ==> Words(t, PipeAt(t, i).cmd)
    decreases |t| - i, 2
  {
    hide ExecAt, Tok;
    ExecWords(t, i);
    var l := ExecAt(t, i);
    if l.Ok? && Peeks(t, l.pos, "|") {
      PeekToken(t, l.pos, "|");
      PipeWords(t, Tok(t, l.pos).pos);
    }
  }

  lemma {:induction false} LineWords(t: CString, i: nat)
    requires i <= |t|
    ensures LineAt(t, i).Ok? ==> Words(t, LineAt(t, i).cmd)
    decreases |t| - i, 3
  {
    hide PipeAt, BacksFrom, Tok;
    PipeWords(t, i);
    var p := PipeAt(t, i);
    if p.Ok? {
      BacksWords(t, p.pos, p.cmd);
      var l := BacksFrom(t, p.pos, p.cmd);
      if Peeks(t, l.pos, ";") {
        PeekToken(t, l.pos, ";");
        LineWords(t, Tok(t, l.pos).pos);
      }
    }
  }

  // ---- nulterminate

  predicate WordOf(w: Span, cmd: Cmd<Span>) {
    match cmd
    case Exec(argv) => w in argv
    case Redir(c, file, _, _) => w == file || WordOf(w, c)
    case Pipe(l, r) => WordOf(w, l) || WordOf(w, r)
    case List(l, r) => WordOf(w, l) || WordOf(w, r)
    case Back(c) => WordOf(w, c)
  }

  ghost predicate EndOf(k: nat, cmd: Cmd<Span>) {
    exists w :: WordOf(w, cmd) && w.eq == k
  }

  lemma {:induction false} WordIs(t: CString, w: Span, cmd: Cmd<Span>)
    requires Words(t, cmd) && WordOf(w, cmd)
    ensures WordSpan(t, w)
  {
    match cmd {
      case Exec(argv) =>
      case Redir(c, file, _, _) => if w != file { WordIs(t, w, c); }
      case Pipe(l, r) => if WordOf(w, l) { WordIs(t, w, l); } else { WordIs(t, w, r); }
      case List(l, r) => if WordOf(w, l) { WordIs(t, w, l); } else { WordIs(t, w, r); }
      case Back(c) => WordIs(t, w, c);
    }
  }

  ghost predicate Nulled(before: seq<char>, after: seq<char>, cmd: Cmd<Span>) {
    && |after| == |before|
    && forall k :: 0 <= k < |before| ==> after[k] == if EndOf(k, cmd) then '\0' else before[k]
  }

  lemma {:induction false} NulledTwo(a: seq<char>, b: seq<char>, c: seq<char>, l: Cmd<Span>, r: Cmd<Span>,
                                     both: Cmd<Span>)
    requires Nulled(a, b, l) && Nulled(b, c, r)
    requires forall w :: WordOf(w, both) <==> WordOf(w, l) || WordOf(w, r)
    ensures Nulled(a, c, both)
  {
    forall k | 0 <= k < |a|
      ensures EndOf(k, both) <==> EndOf(k, l) || EndOf(k, r)
    {
    }
  }

  /** nulterminate writes a NUL at the end of each word and nowhere else. */
  method Nulterminate(cmd: Cmd<Span>, buf: array<char>)
    requires forall w :: WordOf(w, cmd) ==> w.eq < buf.Length
    modifies buf
    ensures Nulled(old(buf[..]), buf[..], cmd)
    decreases cmd
  {
    ghost var b := buf[..];
    match cmd {
      case Exec(argv) =>
        var i := 0;
        while i < |argv|
          invariant 0 <= i <= |argv| && Nulled(b, buf[..], Exec(argv[..i]))
        {
          ghost var b1 := buf[..];
          assert WordOf(argv[i], cmd);
          buf[argv[i].eq] := '\0';
          OneMore(b, b1, buf[..], argv, i);
          i := i + 1;
        }
        assert argv[..|argv|] == argv;
      case Redir(c, file, _, _) =>
        Nulterminate(c, buf);
        ghost var b1 := buf[..];
        assert WordOf(file, cmd);
        buf[file.eq] := '\0';
        assert Nulled(b1, buf[..], Exec([file])) by { OneEnd(b1, buf[..], file); }
        NulledTwo(b, b1, buf[..], c, Exec([file]), cmd);
      case Pipe(l, r) =>
        Nulterminate(l, buf);
        ghost var b1 := buf[..];
        Nulterminate(r, buf);
        NulledTwo(b, b1, buf[..], l, r, cmd);
      case List(l, r) =>
        Nulterminate(l, buf);
        ghost var b1 := buf[..];
        Nulterminate(r, buf);
        NulledTwo(b, b1, buf[..], l, r, cmd);
      case Back(c) =>
        Nulterminate(c, buf);
        ghost var b1 := buf[..];
        assert Nulled(b1, b1, Exec([]));
        NulledTwo(b, b1, b1, c, Exec([]), cmd);
    }
  }

  lemma OneEnd(b: seq<char>, b': seq<char>, w: Span)
    requires w.eq < |b| && b' == b[w.eq := '\0']
    ensures Nulled(b, b', Exec([w]))
  {
    forall k | 0 <= k < |b|
      ensures EndOf(k, Exec([w])) <==> k == w.eq
    {
      assert WordOf(w, Exec([w]));
    }
  }

  lemma OneMore(b: seq<char>, b1: seq<char>, b2: seq<char>, argv: seq<Span>, i: nat)
    requires i < |argv| && Nulled(b, b1, Exec(argv[..i])) && argv[i].eq < |b| && b2 == b1[argv[i].eq := '\0']
    ensures Nulled(b, b2, Exec(argv[..i + 1]))
  {
    OneEnd(b1, b2, argv[i]);
    NulledTwo(b, b1, b2, Exec(argv[..i]), Exec([argv[i]]), Exec(argv[..i + 1]));
  }

  /** The C string at position q. */
  function StringAt(buf: seq<char>, q: nat): string
    requires q <= |buf|
    decreases |buf| - q
  {
    if q == |buf| || buf[q] == '\0' then "" else [buf[q]] + StringAt(buf, q + 1)
  }

  lemma {:induction false} StringIs(buf: seq<char>, q: nat, eq: nat)
    requires q <= eq < |buf| && buf[eq] == '\0' && forall k :: q <= k < eq ==> buf[k] != '\0'
    ensures StringAt(buf, q) == buf[q..eq]
    decreases eq - q
  {
    if q < eq {
      StringIs(buf, q + 1, eq);
    }
  }

  /** A NUL at the end of one word is never inside another, so every word reads as it was typed. */
  lemma {:induction false} WordReads(t: CString, cmd: Cmd<Span>, after: seq<char>, w: Span)
    requires Words(t, cmd) && WordOf(w, cmd) && Nulled(t + ['\0'], after, cmd)
    ensures w.q < w.eq <= |t| && StringAt(after, w.q) == t[w.q..w.eq]
  {
    WordIs(t, w, cmd);
    assert EndOf(w.eq, cmd);
    forall k | w.q <= k < w.eq
      ensures after[k] == t[k]
    {
      if EndOf(k, cmd) {
        var v :| WordOf(v, cmd) && v.eq == k;
        WordIs(t, v, cmd);
      }
    }
    StringIs(after, w.q, w.eq);
  }

  /** parsecmd: on success every word of the command is a string of its own in the buffer. */
  method ParseLineInPlace(t: CString, buf: array<char>) returns (r: Parsed)
    requires buf[..] == t + ['\0']
    modifies buf
    ensures r == Parse(t)
    ensures r.Bad? ==> buf[..] == old(buf[..])
    ensures r.Ok? ==> Words(t, r.cmd)
    ensures r.Ok? ==> forall w :: WordOf(w, r.cmd) ==> w.q < w.eq <= |t| && StringAt(buf[..], w.q) == t[w.q..w.eq]
  {
    hide LineAt;
    r := ParseCmd(t);
    if r.Ok? {
      LineWords(t, 0);
      forall w | WordOf(w, r.cmd)
        ensures w.eq < buf.Length
      {
        WordIs(t, w, r.cmd);
      }
      Nulterminate(r.cmd, buf);
      forall w | WordOf(w, r.cmd)
        ensures w.q < w.eq <= |t| && StringAt(buf[..], w.q) == t[w.q..w.eq]
      {
        WordReads(t, r.cmd, buf[..], w);
      }
    }
  }
}
