/** The shell's parser as it moves a cursor along the line, and nulterminate, which writes into
    the line's buffer (user/sh.c:266-494). */
module ShellCode {
  import opened ShellModel
  import opened ShellTrip

  class Parser {
    const t: string
    var ps: nat

    constructor (t: string)
      ensures this.t == t && ps == 0
    {
      this.t := t;
      ps := 0;
    }

    /** The loops over white space (user/sh.c:273-274, 305-306 and 317-318). */
    method Skip(p: nat) returns (s: nat)
      requires p <= |t|
      ensures s == SkipWs(t, p)
    {
      s := p;
      while s < |t| && White(t[s])
        invariant s <= |t| && SkipWs(t, s) == SkipWs(t, p)
      {
        s := s + 1;
      }
    }

    /** The loop over a word (user/sh.c:298-299). */
    method SkipWord(p: nat) returns (s: nat)
      requires p <= |t|
      ensures s == WordEnd(t, p)
    {
      s := p;
      while s < |t| && !White(t[s]) && !Symbol(t[s])
        invariant s <= |t| && WordEnd(t, s) == WordEnd(t, p)
      {
        s := s + 1;
      }
    }

    /** gettoken, user/sh.c:267-309. */
    method Token() returns (kind: char, q: nat, e: nat)
      requires ps <= |t|
      modifies this
      ensures GetToken(t, old(ps)) == ShellModel.Token(kind, Span(q, e), ps) && ps <= |t|
    {
      hide SkipWs, WordEnd;
      q := Skip(ps);
      e := q;
      kind := if q < |t| then t[q] else 0 as char;
      if kind == 0 as char {
      } else if kind == '|' || kind == '(' || kind == ')' || kind == ';' || kind == '&' || kind == '<' {
        e := q + 1;
      } else if kind == '>' {
        e := q + 1;
        if e < |t| && t[e] == '>' {
          kind := '+';
          e := e + 1;
        }
      } else {
        kind := 'a';
        e := SkipWord(q);
      }
      ps := Skip(e);
    }

    /** peek, user/sh.c:312-321. */
    method Peeks(toks: set<char>) returns (yes: bool)
      requires ps <= |t|
      modifies this
      ensures ps == SkipWs(t, old(ps)) && (yes <==> Peek(t, old(ps), toks))
    {
      ps := Skip(ps);
      yes := ps < |t| && t[ps] != 0 as char && t[ps] in toks;
    }

    /** user/sh.c:381-396: the loop of parseredirs. */
    method RedirLoop() returns (r: Result<seq<Redirection>>)
      requires ps <= |t|
      modifies this
      ensures ps <= |t| && r == Redirs(t, old(ps)) && (r.Ok? ==> ps == r.p)
    {
      hide Redirs, GetToken, SkipWs, Peek, RedirsSoFar;
      var done: seq<Redirection> := [];
      RedirsStart(t, ps);
      while true
        invariant ps <= |t| && RedirsSoFar(t, old(ps), ps, done)
        decreases |t| - ps
      {
        RedirsStep(t, old(ps), ps, done);
        var more := Peeks({'<', '>'});
        if !more { break; }
        var k, q, e := Token();
        var f, fq, fe := Token();
        if f != 'a' { return Fail(MissingFile); }
        done := done + [Redirection(if k == '<' then In else if k == '>' then Out else Append, Span(fq, fe))];
      }
      r := Ok(done, ps);
    }

    /** user/sh.c:432-443: the loop of parseexec. */
    method ArgLoop() returns (r: Result<Simple>)
      requires ps <= |t|
      modifies this
      ensures ps <= |t| && r == Args(t, old(ps), 0) && (r.Ok? ==> ps == r.p)
    {
      hide Args, Redirs, GetToken, SkipWs, Peek, ArgsSoFar;
      var argv: seq<Span>, rs: seq<Redirection> := [], [];
      ArgsStart(t, ps);
      while true
        invariant ps <= |t| && ArgsSoFar(t, old(ps), ps, argv, rs)
        decreases |t| - ps
      {
        ArgsStep(t, old(ps), ps, argv, rs);
        var stop := Peeks({'|', ')', '&', ';'});
        if stop { break; }
        var k, q, e := Token();
        if k == 0 as char { break; }
        if k != 'a' { return Fail(Syntax); }
        argv := argv + [Span(q, e)];
        if |argv| >= MAXARGS { return Fail(TooManyArgs); }
        var more := RedirLoop();
        if more.Fail? { return Fail(more.e); }
        rs := rs + more.v;
      }
      r := Ok(Simple(argv, rs), ps);
    }

    /** user/sh.c:417-447. */
    method ParseExec() returns (r: Result<Cmd>)
      requires ps <= |t|
      modifies this
      ensures ps <= |t| && r == ShellModel.ParseExec(t, old(ps)) && (r.Ok? ==> ps == r.p)
      decreases |t| - ps, 1
    {
      hide Args, Redirs, GetToken, SkipWs, Peek, Wrap, ShellModel.ParseBlock;
      ghost var p := ps;
      SkipAgain(t, p);
      ExecCases(t, p);
      var block := Peeks({'('});
      if block {
        r := ParseBlock();
        return;
      }
      var rs := RedirLoop();
      if rs.Fail? { return Fail(rs.e); }
      var a := ArgLoop();
      if a.Fail? { return Fail(a.e); }
      r := Ok(Wrap(Exec(a.v.argv), rs.v + a.v.rs), ps);
    }

    /** user/sh.c:401-414; parseexec calls it only in front of a parenthesis. */
    method ParseBlock() returns (r: Result<Cmd>)
      requires ps <= |t| && Peek(t, ps, {'('})
      modifies this
      ensures ps <= |t| && r == ShellModel.ParseBlock(t, old(ps)) && (r.Ok? ==> ps == r.p)
      decreases |t| - ps, 0
    {
      hide Redirs, SkipWs, Wrap, ShellModel.ParseLine, WordEnd;
      SkipAgain(t, ps);
      var open := Peeks({'('});
      var k, q, e := Token();
      var c := ParseLine();
      if c.Fail? { return c; }
      SkipAgain(t, ps);
      var close := Peeks({')'});
      if !close { return Fail(MissingParen); }
      k, q, e := Token();
      var rs := RedirLoop();
      if rs.Fail? { return Fail(rs.e); }
      r := Ok(Wrap(c.v, rs.v), ps);
    }

    /** user/sh.c:363-373. */
    method ParsePipe() returns (r: Result<Cmd>)
      requires ps <= |t|
      modifies this
      ensures ps <= |t| && r == ShellModel.ParsePipe(t, old(ps)) && (r.Ok? ==> ps == r.p)
      decreases |t| - ps, 2
    {
      hide SkipWs, ShellModel.ParseExec, WordEnd;
      var c := ParseExec();
      if c.Fail? { return c; }
      SkipAgain(t, ps);
      var bar := Peeks({'|'});
      if !bar { return Ok(c.v, ps); }
      var k, q, e := Token();
      var rest := ParsePipe();
      if rest.Fail? { return rest; }
      r := Ok(Pipe(c.v, rest.v), ps);
    }

    /** user/sh.c:346-360. */
    method ParseLine() returns (r: Result<Cmd>)
      requires ps <= |t|
      modifies this
      ensures ps <= |t| && r == ShellModel.ParseLine(t, old(ps)) && (r.Ok? ==> ps == r.p)
      decreases |t| - ps, 3
    {
      hide SkipWs, ShellModel.ParsePipe, WordEnd;
      var c := ParsePipe();
      if c.Fail? { return c; }
      ghost var b := Backs(t, ps, c.v);
      var cmd := c.v;
      while true
        invariant old(ps) <= ps <= |t| && Backs(t, ps, cmd) == b
        decreases |t| - ps
      {
        SkipAgain(t, ps);
        var more := Peeks({'&'});
        if !more { break; }
        var k, q, e := Token();
        cmd := Back(cmd);
      }
      SkipAgain(t, ps);
      var semi := Peeks({';'});
      if !semi { return Ok(cmd, ps); }
      var k, q, e := Token();
      var rest := ParseLine();
      if rest.Fail? { return rest; }
      r := Ok(List(cmd, rest.v), ps);
    }

    /** user/sh.c:329-340. */
    method Parse() returns (r: Result<Cmd>)
      requires ps == 0
      modifies this
      ensures r == ParseCmd(t)
    {
      hide SkipWs, ShellModel.ParseLine;
      r := ParseLine();
      if r.Ok? {
        var x := Peeks({});
        if ps != |t| { return Fail(Leftovers); }
      }
    }
  }

  /** The redirections from `p0` on are `done` and then those from `p` on. */
  ghost predicate RedirsSoFar(t: string, p0: nat, p: nat, done: seq<Redirection>)
    requires p0 <= |t| && p <= |t|
  {
    var rest := Redirs(t, p);
    Redirs(t, p0) == if rest.Fail? then rest else Ok(done + rest.v, rest.p)
  }

  lemma RedirsStart(t: string, p: nat)
    requires p <= |t|
    ensures RedirsSoFar(t, p, p, [])
  {
    hide Redirs;
    var r := Redirs(t, p);
    if r.Ok? { assert [] + r.v == r.v; }
  }

  /** What a turn of the loop of parseredirs finds. */
  lemma RedirsStep(t: string, p0: nat, p: nat, done: seq<Redirection>)
    requires p0 <= |t| && p <= |t| && RedirsSoFar(t, p0, p, done)
    ensures var q := SkipWs(t, p);
      if !Peek(t, p, {'<', '>'}) then Redirs(t, p0) == Ok(done, q) else
      var k := GetToken(t, q); var f := GetToken(t, k.next);
      if f.kind != 'a' then Redirs(t, p0) == Fail(MissingFile)
      else f.next > p && RedirsSoFar(t, p0, f.next, done + [Redirection(ToKind(k.kind), f.s)])
  {
    hide SkipWs, WordEnd, Redirs;
    SkipAgain(t, p);
    RedirsIs(t, p);
    if !Peek(t, p, {'<', '>'}) {
      assert done + [] == done;
    } else {
      var k := GetToken(t, p);
      var f := GetToken(t, k.next);
      if f.kind == 'a' {
        var rest, r := Redirs(t, f.next), Redirection(ToKind(k.kind), f.s);
        if rest.Ok? { assert done + ([r] + rest.v) == done + [r] + rest.v; }
      }
    }
  }

  /** The words from `p0` on are `argv` and `rs` and then those from `p` on. */
  ghost predicate ArgsSoFar(t: string, p0: nat, p: nat, argv: seq<Span>, rs: seq<Redirection>)
    requires p0 <= |t| && p <= |t|
  {
    var rest := Args(t, p, |argv|);
    Args(t, p0, 0) == if rest.Fail? then rest else Ok(Simple(argv + rest.v.argv, rs + rest.v.rs), rest.p)
  }

  lemma ArgsStart(t: string, p: nat)
    requires p <= |t|
    ensures ArgsSoFar(t, p, p, [], [])
  {
    hide Args;
    var r := Args(t, p, 0);
    if r.Ok? { assert [] + r.v.argv == r.v.argv && [] + r.v.rs == r.v.rs; }
  }

  /** What a turn of the loop of parseexec finds. */
  lemma ArgsStep(t: string, p0: nat, p: nat, argv: seq<Span>, rs: seq<Redirection>)
    requires p0 <= |t| && p <= |t| && ArgsSoFar(t, p0, p, argv, rs)
    ensures var q := SkipWs(t, p);
      if Peek(t, p, {'|', ')', '&', ';'}) then Args(t, p0, 0) == Ok(Simple(argv, rs), q) else
      var k := GetToken(t, q);
      if k.kind == 0 as char then Args(t, p0, 0) == Ok(Simple(argv, rs), k.next) else
      if k.kind != 'a' then Args(t, p0, 0) == Fail(Syntax) else
      if |argv| + 1 >= MAXARGS then Args(t, p0, 0) == Fail(TooManyArgs) else
      var more := Redirs(t, k.next);
      if more.Fail? then Args(t, p0, 0) == Fail(more.e)
      else more.p > p && ArgsSoFar(t, p0, more.p, argv + [k.s], rs + more.v)
  {
    hide SkipWs, WordEnd, Redirs, Args;
    SkipAgain(t, p);
    ArgsIs(t, p, |argv|);
    assert argv + [] == argv && rs + [] == rs;
    var k := GetToken(t, p);
    if !Peek(t, p, {'|', ')', '&', ';'}) && k.kind == 'a' && |argv| + 1 < MAXARGS {
      var more := Redirs(t, k.next);
      if more.Ok? {
        var rest := Args(t, more.p, |argv| + 1);
        if rest.Ok? {
          assert argv + ([k.s] + rest.v.argv) == argv + [k.s] + rest.v.argv;
          assert rs + (more.v + rest.v.rs) == rs + more.v + rest.v.rs;
        }
      }
    }
  }

  lemma ExecCases(t: string, p: nat)
    requires p <= |t|
    ensures var q := SkipWs(t, p);
      if Peek(t, p, {'('}) then ShellModel.ParseExec(t, p) == ShellModel.ParseBlock(t, p)
        && Peek(t, q, {'('}) && ShellModel.ParseBlock(t, q) == ShellModel.ParseBlock(t, p)
      else Redirs(t, q) == Redirs(t, p)
  {
    hide WordEnd;
    SkipAgain(t, p);
  }

  lemma SkipAgain(t: string, p: nat)
    requires p <= |t|
    ensures var q := SkipWs(t, p); SkipWs(t, q) == q && GetToken(t, q) == GetToken(t, p) && Redirs(t, q) == Redirs(t, p)
    ensures forall toks :: Peek(t, SkipWs(t, p), toks) == Peek(t, p, toks)
  {
  }

  // ---- nulterminate ----

  const NUL: char := 0 as char

  /** Every span of the command ends inside the buffer. */
  predicate Fits(n: nat, c: Cmd) {
    match c
    case Exec(argv) => forall i :: 0 <= i < |argv| ==> argv[i].e < n
    case Redir(d, r) => Fits(n, d) && r.file.e < n
    case Pipe(l, r) => Fits(n, l) && Fits(n, r)
    case List(l, r) => Fits(n, l) && Fits(n, r)
    case Back(d) => Fits(n, d)
  }

  /** Where the spans of a command end. */
  function Ends(c: Cmd): set<nat> {
    match c
    case Exec(argv) => set i | 0 <= i < |argv| :: argv[i].e
    case Redir(d, r) => Ends(d) + {r.file.e}
    case Pipe(l, r) => Ends(l) + Ends(r)
    case List(l, r) => Ends(l) + Ends(r)
    case Back(d) => Ends(d)
  }

  /** A buffer with a NUL at each place in `at`. */
  function Nuls(b: seq<char>, at: set<nat>): (r: seq<char>)
    ensures |r| == |b| && forall i :: 0 <= i < |b| ==> r[i] == if i in at then NUL else b[i]
  {
    seq(|b|, i requires 0 <= i < |b| => if i in at then NUL else b[i])
  }

  lemma NulsTwice(b: seq<char>, x: set<nat>, y: set<nat>)
    ensures Nuls(Nuls(b, x), y) == Nuls(b, x + y)
  {
  }

  /** user/sh.c:451-494. */
  method NulTerminate(buf: array<char>, c: Cmd)
    requires Fits(buf.Length, c)
    modifies buf
    ensures buf[..] == Nuls(old(buf[..]), Ends(c))
    decreases c
  {
    ghost var was := buf[..];
    match c {
      case Exec(argv) =>
        ghost var done: set<nat> := {};
        var i := 0;
        while i < |argv|
          invariant 0 <= i <= |argv| && done == (set j | 0 <= j < i :: argv[j].e) && buf[..] == Nuls(was, done)
        {
          buf[argv[i].e] := NUL;
          NulsTwice(was, done, {argv[i].e});
          assert buf[..] == Nuls(Nuls(was, done), {argv[i].e});
          done := done + {argv[i].e};
          i := i + 1;
        }
      case Redir(d, r) =>
        NulTerminate(buf, d);
        buf[r.file.e] := NUL;
        NulsTwice(was, Ends(d), {r.file.e});
        assert buf[..] == Nuls(Nuls(was, Ends(d)), {r.file.e});
      case Pipe(l, r) =>
        NulTerminate(buf, l);
        NulTerminate(buf, r);
        NulsTwice(was, Ends(l), Ends(r));
      case List(l, r) =>
        NulTerminate(buf, l);
        NulTerminate(buf, r);
        NulsTwice(was, Ends(l), Ends(r));
      case Back(d) => NulTerminate(buf, d);
    }
  }

  /** The spans of a command. */
  ghost predicate Has(c: Cmd, s: Span) {
    match c
    case Exec(argv) => s in argv
    case Redir(d, r) => Has(d, s) || s == r.file
    case Pipe(l, r) => Has(l, s) || Has(r, s)
    case List(l, r) => Has(l, s) || Has(r, s)
    case Back(d) => Has(d, s)
  }

  lemma {:induction false} SpansGood(t: string, c: Cmd, s: Span)
    requires Good(t, c) && Has(c, s)
    ensures WordSpan(t, s) && s.e in Ends(c)
  {
    match c
    case Exec(argv) => var i :| 0 <= i < |argv| && argv[i] == s;
    case Redir(d, r) => if Has(d, s) { SpansGood(t, d, s); }
    case Pipe(l, r) => if Has(l, s) { SpansGood(t, l, s); } else { SpansGood(t, r, s); }
    case List(l, r) => if Has(l, s) { SpansGood(t, l, s); } else { SpansGood(t, r, s); }
    case Back(d) => SpansGood(t, d, s);
  }

  /** The ends of words are not in words. */
  lemma {:induction false} EndsGood(t: string, c: Cmd, e: nat)
    requires Good(t, c) && e in Ends(c)
    ensures e <= |t| && (e < |t| ==> !WordChar(t[e]))
  {
    match c
    case Exec(argv) =>
    case Redir(d, r) => if e in Ends(d) { EndsGood(t, d, e); }
    case Pipe(l, r) => if e in Ends(l) { EndsGood(t, l, e); } else { EndsGood(t, r, e); }
    case List(l, r) => if e in Ends(l) { EndsGood(t, l, e); } else { EndsGood(t, r, e); }
    case Back(d) => EndsGood(t, d, e);
  }

  lemma {:induction false} GoodFits(t: string, c: Cmd)
    requires Good(t, c)
    ensures Fits(|t| + 1, c)
  {
    match c
    case Exec(argv) =>
    case Redir(d, r) => GoodFits(t, d);
    case Pipe(l, r) => GoodFits(t, l); GoodFits(t, r);
    case List(l, r) => GoodFits(t, l); GoodFits(t, r);
    case Back(d) => GoodFits(t, d);
  }

  /** The C string that starts at `q`. */
  function CString(b: seq<char>, q: nat): string
    decreases |b| - q
  {
    if q >= |b| || b[q] == NUL then "" else [b[q]] + CString(b, q + 1)
  }

  lemma {:induction false} CStringIs(b: seq<char>, q: nat, e: nat)
    requires q <= e < |b| && b[e] == NUL && forall i :: q <= i < e ==> b[i] != NUL
    ensures CString(b, q) == b[q..e]
    decreases e - q
  {
    if q < e {
      CStringIs(b, q + 1, e);
      assert b[q..e] == [b[q]] + b[q + 1..e];
    }
  }

  /** After nulterminate every argument and file name of a parsed command, read as a C string, is
      the text of its token. */
  lemma StringsAreTokens(t: string, s: Span)
    requires NoNul(t) && ParseCmd(t).Ok? && Has(ParseCmd(t).v, s)
    ensures Fits(|t| + 1, ParseCmd(t).v) && CString(Nuls(t + [NUL], Ends(ParseCmd(t).v)), s.q) == Text(t, s) != ""
  {
    hide ShellModel.ParseLine, Good, Has, Ends;
    var c := ParseCmd(t).v;
    LineGood(t, 0);
    GoodFits(t, c);
    SpansGood(t, c, s);
    var b := Nuls(t + [NUL], Ends(c));
    forall i | s.q <= i < s.e ensures b[i] == t[i] != NUL { if i in Ends(c) { EndsGood(t, c, i); } }
    CStringIs(b, s.q, s.e);
    assert b[s.q..s.e] == t[s.q..s.e];
  }
}
