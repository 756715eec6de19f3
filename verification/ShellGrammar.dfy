/** The shell's language (user/sh.c:342-447): a line is accepted exactly when its tokens are a sentence
    of the grammar, and what is run is what the sentence means. */
module ShellGrammar {
  import opened ShellModel
  import opened ShellTrip

  // ---- tokens ----

  datatype Tok = TWord(w: string) | TSign(c: char)

  /** The tokens of the line from `p` on. */
  function Lex(t: string, p: nat): seq<Tok>
    requires p <= |t|
    decreases |t| - p
  {
    var k := GetToken(t, p);
    if k.kind == 0 as char then [] else
    [if k.kind == 'a' then TWord(Text(t, k.s)) else TSign(k.kind)] + Lex(t, k.next)
  }

  /** The first token of the line is the sign `c`. */
  predicate Starts(q: seq<Tok>, cs: set<char>) { q != [] && q[0].TSign? && q[0].c in cs }

  lemma LexHead(t: string, p: nat)
    requires NoNul(t) && p <= |t|
    ensures var q, k, l := SkipWs(t, p), GetToken(t, p), Lex(t, p);
      if q == |t| then l == [] && k.kind == 0 as char
      else
        && l != [] && l[1..] == Lex(t, k.next) && k.kind != 0 as char && p < k.next
        && (k.kind == 'a' <==> l[0].TWord?) && (k.kind == 'a' <==> !Symbol(t[q]))
        && (l[0].TWord? ==> l[0].w == Text(t, k.s))
        && (l[0].TSign? ==> l[0].c == k.kind)
        && (l[0].TSign? ==> t[q] == (if k.kind == '+' then '>' else k.kind))
  {
    var q := SkipWs(t, p);
    if q < |t| {
      assert t[q] as int != 0;
      assert Lex(t, p)[1..] == Lex(t, GetToken(t, p).next);
    }
  }

  /** peek looks at the next token. */
  lemma PeekLex(t: string, p: nat)
    requires NoNul(t) && p <= |t|
    ensures Peek(t, p, {'<', '>'}) <==> Starts(Lex(t, p), {'<', '>', '+'})
    ensures Peek(t, p, {'|', ')', '&', ';'}) <==> Starts(Lex(t, p), {'|', ')', '&', ';'})
    ensures Peek(t, p, {'('}) <==> Starts(Lex(t, p), {'('})
    ensures Peek(t, p, {')'}) <==> Starts(Lex(t, p), {')'})
    ensures Peek(t, p, {'&'}) <==> Starts(Lex(t, p), {'&'})
    ensures Peek(t, p, {';'}) <==> Starts(Lex(t, p), {';'})
    ensures Peek(t, p, {'|'}) <==> Starts(Lex(t, p), {'|'})
  {
    hide Lex, SkipWs, GetToken;
    LexHead(t, p);
  }

  /** White space in front of a token does not matter. */
  lemma LexSkip(t: string, p: nat)
    requires p <= |t|
    ensures Lex(t, SkipWs(t, p)) == Lex(t, p)
  {
    hide WordEnd;
    var q := SkipWs(t, p);
    assert SkipWs(t, q) == q;
    assert GetToken(t, q) == GetToken(t, p);
  }

  // ---- the grammar ----

  datatype SRedir = SRedir(kind: Kind, file: string)
  datatype SWord = SWord(w: string, rs: seq<SRedir>)

  /** Redirections stand before, between and after the words. */
  datatype SExec = Plain(first: seq<SRedir>, words: seq<SWord>) | Block(line: SLine, rs: seq<SRedir>)
  datatype SPipe = One(e: SExec) | Bar(e: SExec, rest: SPipe)
  datatype SLine = SLine(p: SPipe, backs: nat, rest: SRest)
  datatype SRest = End | Semi(line: SLine)

  function SignOf(k: Kind): char { match k case In => '<' case Out => '>' case Append => '+' }

  function RedirToks(rs: seq<SRedir>): seq<Tok> {
    if rs == [] then [] else [TSign(SignOf(rs[0].kind)), TWord(rs[0].file)] + RedirToks(rs[1..])
  }

  function WordToks(ws: seq<SWord>): seq<Tok> {
    if ws == [] then [] else [TWord(ws[0].w)] + RedirToks(ws[0].rs) + WordToks(ws[1..])
  }

  function ExecToks(e: SExec): seq<Tok> {
    match e
    case Plain(first, words) => RedirToks(first) + WordToks(words)
    case Block(line, rs) => [TSign('(')] + LineToks(line) + [TSign(')')] + RedirToks(rs)
  }

  function PipeToks(p: SPipe): seq<Tok> {
    match p
    case One(e) => ExecToks(e)
    case Bar(e, rest) => ExecToks(e) + [TSign('|')] + PipeToks(rest)
  }

  function Amps(n: nat): seq<Tok> { if n == 0 then [] else [TSign('&')] + Amps(n - 1) }

  function LineToks(x: SLine): seq<Tok> { PipeToks(x.p) + Amps(x.backs) + RestToks(x.rest) }

  function RestToks(r: SRest): seq<Tok> { match r case End => [] case Semi(line) => [TSign(';')] + LineToks(line) }

  /** No command has too many words. */
  predicate LegalExec(e: SExec) {
    match e
    case Plain(_, words) => |words| < MAXARGS
    case Block(line, _) => LegalLine(line)
  }
  predicate LegalPipe(p: SPipe) {
    match p
    case One(e) => LegalExec(e)
    case Bar(e, rest) => LegalExec(e) && LegalPipe(rest)
  }
  predicate LegalLine(x: SLine) { LegalPipe(x.p) && (x.rest.Semi? ==> LegalLine(x.rest.line)) }

  // ---- what a sentence means ----

  /** The first redirection is the innermost. */
  function Redirected(c: Tree, rs: seq<SRedir>): Tree
    decreases |rs|
  {
    if rs == [] then c else Redirected(TRedir(c, rs[0].kind, rs[0].file), rs[1..])
  }

  function AllWords(ws: seq<SWord>): seq<string> { if ws == [] then [] else [ws[0].w] + AllWords(ws[1..]) }
  function AllRedirs(ws: seq<SWord>): seq<SRedir> { if ws == [] then [] else ws[0].rs + AllRedirs(ws[1..]) }

  function Backed(c: Tree, n: nat): Tree
    decreases n
  {
    if n == 0 then c else Backed(TBack(c), n - 1)
  }

  function MeanExec(e: SExec): Tree {
    match e
    case Plain(first, words) => Redirected(TExec(AllWords(words)), first + AllRedirs(words))
    case Block(line, rs) => Redirected(MeanLine(line), rs)
  }

  function MeanPipe(p: SPipe): Tree {
    match p
    case One(e) => MeanExec(e)
    case Bar(e, rest) => TPipe(MeanExec(e), MeanPipe(rest))
  }

  function MeanLine(x: SLine): Tree {
    var c := Backed(MeanPipe(x.p), x.backs);
    match x.rest
    case End => c
    case Semi(line) => TList(c, MeanLine(line))
  }

  // ---- redirections ----

  function Names(t: string, rs: seq<Redirection>): (r: seq<SRedir>)
    ensures |r| == |rs| && forall i :: 0 <= i < |rs| ==> r[i] == SRedir(rs[i].kind, Text(t, rs[i].file))
  {
    seq(|rs|, i requires 0 <= i < |rs| => SRedir(rs[i].kind, Text(t, rs[i].file)))
  }

  lemma {:induction false} WrapMeans(t: string, c: Cmd, rs: seq<Redirection>)
    ensures Resolve(t, Wrap(c, rs)) == Redirected(Resolve(t, c), Names(t, rs))
    decreases |rs|
  {
    if rs != [] {
      WrapMeans(t, Redir(c, rs[0]), rs[1..]);
      assert Names(t, rs)[1..] == Names(t, rs[1..]);
    }
  }

  /** The redirection at `p` is `r`, and the line goes on at `next`. */
  ghost predicate RedirAt(t: string, p: nat, r: Redirection, next: nat) {
    && p < next <= |t| && Lex(t, p) == [TSign(SignOf(r.kind)), TWord(Text(t, r.file))] + Lex(t, next)
    && var rest := Redirs(t, next); Redirs(t, p) == if rest.Fail? then rest else Ok([r] + rest.v, rest.p)
  }

  /** One turn of the loop of parseredirs. */
  lemma RedirTurn(t: string, p: nat) returns (r: Redirection, next: nat)
    requires NoNul(t) && p <= |t| && Starts(Lex(t, p), {'<', '>', '+'})
    ensures if |Lex(t, p)| > 1 && Lex(t, p)[1].TWord? then RedirAt(t, p, r, next) else Redirs(t, p) == Fail(MissingFile)
  {
    hide Lex, SkipWs, GetToken, Redirs, Peek;
    PeekLex(t, p);
    RedirsIs(t, p);
    LexHead(t, p);
    var k, l := GetToken(t, p), Lex(t, p);
    LexHead(t, k.next);
    var f := GetToken(t, k.next);
    r, next := Redirection(ToKind(k.kind), f.s), f.next;
    assert |l| > 1 ==> l == [l[0], l[1]] + l[2..];
  }

  /** The loop of parseredirs ends in front of anything else. */
  lemma RedirEnd(t: string, p: nat)
    requires NoNul(t) && p <= |t| && !Starts(Lex(t, p), {'<', '>', '+'})
    ensures var r := Redirs(t, p); r.Ok? && r.v == [] && Lex(t, r.p) == Lex(t, p)
  {
    hide Lex, SkipWs, GetToken, Redirs, Peek;
    PeekLex(t, p);
    RedirsIs(t, p);
    LexSkip(t, p);
  }

  lemma OneName(t: string, r: Redirection, rs: seq<Redirection>)
    ensures Names(t, [r] + rs) == [SRedir(r.kind, Text(t, r.file))] + Names(t, rs)
  {}

  /** What parseredirs reads are redirections. */
  lemma {:induction false} RedirsSound(t: string, p: nat)
    requires NoNul(t) && p <= |t|
    ensures var r := Redirs(t, p); r.Ok? ==> Lex(t, p) == RedirToks(Names(t, r.v)) + Lex(t, r.p)
    decreases |t| - p
  {
    hide Lex, Redirs, Names, Text, NoNul;
    if Starts(Lex(t, p), {'<', '>', '+'}) {
      var r, next := RedirTurn(t, p);
      if Redirs(t, p).Ok? {
        RedirsSound(t, next);
        OneName(t, r, Redirs(t, next).v);
      }
    } else {
      RedirEnd(t, p);
      assert Names(t, []) == [] by { NoTexts(t); }
    }
  }

  lemma RedirHead(rs: seq<SRedir>, rest: seq<Tok>)
    requires rs != []
    ensures RedirToks(rs) + rest
            == [TSign(SignOf(rs[0].kind)), TWord(rs[0].file)] + (RedirToks(rs[1..]) + rest)
  {}

  /** parseredirs reads all the redirections there are. */
  lemma {:induction false} RedirsComplete(t: string, p: nat, rs: seq<SRedir>, rest: seq<Tok>)
    requires NoNul(t) && p <= |t| && Lex(t, p) == RedirToks(rs) + rest && !Starts(rest, {'<', '>', '+'})
    ensures var r := Redirs(t, p); r.Ok? && Names(t, r.v) == rs && Lex(t, r.p) == rest
    decreases |rs|
  {
    hide Lex, Redirs, Names, Text, NoNul, RedirToks;
    if rs == [] {
      NoToks(rest);
      NoTexts(t);
      RedirEnd(t, p);
    } else {
      RedirHead(rs, rest);
      var r, next := RedirTurn(t, p);
      assert Lex(t, next) == Lex(t, p)[2..];
      RedirsComplete(t, next, rs[1..], rest);
      OneName(t, r, Redirs(t, next).v);
      SameSign(r.kind, rs[0].kind);
    }
  }

  lemma SameSign(a: Kind, b: Kind)
    ensures SignOf(a) == SignOf(b) ==> a == b
  {}

  // ---- words ----

  /** What may follow a command. */
  predicate Ends(q: seq<Tok>) { q == [] || Starts(q, {'|', ')', '&', ';'}) }

  lemma NamesPlus(t: string, a: seq<Redirection>, b: seq<Redirection>)
    ensures Names(t, a + b) == Names(t, a) + Names(t, b)
  {}

  lemma TextsPlus(t: string, a: seq<Span>, b: seq<Span>)
    ensures Texts(t, a + b) == Texts(t, a) + Texts(t, b)
  {}

  /** What the loop of parseexec reads are words with redirections among them. */
  lemma {:induction false} ArgsSound(t: string, p: nat, argc: nat) returns (ws: seq<SWord>)
    requires NoNul(t) && p <= |t| && Args(t, p, argc).Ok? && argc < MAXARGS
    ensures var r := Args(t, p, argc);
      && Lex(t, p) == WordToks(ws) + Lex(t, r.p) && argc + |ws| < MAXARGS
      && AllWords(ws) == Texts(t, r.v.argv) && AllRedirs(ws) == Names(t, r.v.rs)
    decreases |t| - p
  {
    hide Lex, SkipWs, GetToken, Redirs, Peek, Args, Texts, Names;
    ArgsIs(t, p, argc);
    PeekLex(t, p);
    LexSkip(t, p);
    LexHead(t, p);
    NoTexts(t);
    var k, l := GetToken(t, p), Lex(t, p);
    if Peek(t, p, {'|', ')', '&', ';'}) || k.kind == 0 as char {
      ws := [];
      if k.kind == 0 as char && !Peek(t, p, {'|', ')', '&', ';'}) { LexEnd(t, p); }
    } else {
      RedirsSound(t, k.next);
      var rs := Redirs(t, k.next);
      var more := ArgsSound(t, rs.p, argc + 1);
      var rest := Args(t, rs.p, argc + 1);
      ws := [SWord(l[0].w, Names(t, rs.v))] + more;
      NamesPlus(t, rs.v, rest.v.rs);
      TextsPlus(t, [k.s], rest.v.argv);
      OneText(t, k.s);
      assert ws[1..] == more;
      assert l == [l[0]] + l[1..];
      assert l == [l[0]] + RedirToks(Names(t, rs.v)) + WordToks(more) + Lex(t, rest.p);
    }
  }

  lemma NoTexts(t: string)
    ensures Texts(t, []) == [] && Names(t, []) == []
  {}

  lemma OneText(t: string, s: Span)
    ensures Texts(t, [s]) == [Text(t, s)]
  {}

  lemma LexEnd(t: string, p: nat)
    requires NoNul(t) && p <= |t| && GetToken(t, p).kind == 0 as char
    ensures Lex(t, p) == [] && Lex(t, GetToken(t, p).next) == []
  {
    hide WordEnd;
    LexHead(t, p);
    var q := SkipWs(t, p);
    assert SkipWs(t, q) == q;
  }

  lemma NoToks(rest: seq<Tok>)
    ensures WordToks([]) + rest == rest && RedirToks([]) + rest == rest
  {}

  lemma WordHead(ws: seq<SWord>, rest: seq<Tok>)
    requires ws != [] && Ends(rest)
    ensures var l, more := WordToks(ws) + rest, WordToks(ws[1..]) + rest;
      && l != [] && l[0] == TWord(ws[0].w) && l[1..] == RedirToks(ws[0].rs) + more
      && !Starts(more, {'<', '>', '+'})
  {
    hide RedirToks, WordToks;
    WordsStart(ws[1..], rest);
    WordsSplit(ws);
    Regroup([TWord(ws[0].w)], RedirToks(ws[0].rs), WordToks(ws[1..]), rest);
  }

  lemma Regroup(a: seq<Tok>, b: seq<Tok>, c: seq<Tok>, d: seq<Tok>)
    ensures a + b + c + d == a + (b + (c + d))
  {}

  lemma WordsSplit(ws: seq<SWord>)
    requires ws != []
    ensures WordToks(ws) == [TWord(ws[0].w)] + RedirToks(ws[0].rs) + WordToks(ws[1..])
  {}

  lemma WordsStart(ws: seq<SWord>, rest: seq<Tok>)
    requires Ends(rest)
    ensures !Starts(WordToks(ws) + rest, {'<', '>', '+'}) && !Starts(WordToks(ws) + rest, {'('})
  {
    hide RedirToks;
    if ws == [] { NoToks(rest); }
  }

  /** The loop of parseexec ends where a command may end. */
  lemma ArgsEnd(t: string, p: nat, argc: nat)
    requires NoNul(t) && p <= |t| && Ends(Lex(t, p))
    ensures var r := Args(t, p, argc); r.Ok? && r.v == Simple([], []) && Lex(t, r.p) == Lex(t, p)
  {
    hide Lex, SkipWs, GetToken, Redirs, Peek, Args;
    ArgsIs(t, p, argc);
    PeekLex(t, p);
    LexSkip(t, p);
    LexHead(t, p);
    if Lex(t, p) == [] { LexEnd(t, p); }
  }

  /** One turn of the loop of parseexec, in front of a word. */
  lemma ArgsTurn(t: string, p: nat, argc: nat)
    requires NoNul(t) && p <= |t| && Lex(t, p) != [] && Lex(t, p)[0].TWord? && argc + 1 < MAXARGS
    ensures var k := GetToken(t, p);
      && Lex(t, k.next) == Lex(t, p)[1..] && Text(t, k.s) == Lex(t, p)[0].w
      && var rs := Redirs(t, k.next);
        rs.Ok? && Args(t, rs.p, argc + 1).Ok? ==>
          var a := Args(t, rs.p, argc + 1); Args(t, p, argc) == Ok(Simple([k.s] + a.v.argv, rs.v + a.v.rs), a.p)
  {
    hide Lex, SkipWs, GetToken, Redirs, Peek, Args;
    ArgsIs(t, p, argc);
    PeekLex(t, p);
    LexHead(t, p);
  }

  /** The loop of parseexec reads all the words there are. */
  lemma {:induction false} ArgsComplete(t: string, p: nat, argc: nat, ws: seq<SWord>, rest: seq<Tok>)
    requires NoNul(t) && p <= |t| && Lex(t, p) == WordToks(ws) + rest && argc + |ws| < MAXARGS && Ends(rest)
    ensures var r := Args(t, p, argc);
      r.Ok? && Texts(t, r.v.argv) == AllWords(ws) && Names(t, r.v.rs) == AllRedirs(ws) && Lex(t, r.p) == rest
    decreases |ws|
  {
    hide Lex, GetToken, Redirs, Args, Texts, Names, WordToks, RedirToks, Starts, Ends, Text, NoNul;
    NoTexts(t);
    if ws == [] {
      NoToks(rest);
      ArgsEnd(t, p, argc);
    } else {
      WordHead(ws, rest);
      ArgsTurn(t, p, argc);
      var k := GetToken(t, p);
      RedirsComplete(t, k.next, ws[0].rs, WordToks(ws[1..]) + rest);
      var rs := Redirs(t, k.next);
      ArgsComplete(t, rs.p, argc + 1, ws[1..], rest);
      var a := Args(t, rs.p, argc + 1);
      NamesPlus(t, rs.v, a.v.rs);
      TextsPlus(t, [k.s], a.v.argv);
      OneText(t, k.s);
    }
  }

  // ---- commands, pipes and lines: what is accepted is a sentence ----

  /** The token of a sign, and where the line goes on. */
  lemma SignHead(t: string, p: nat, c: char)
    requires NoNul(t) && p <= |t| && Starts(Lex(t, p), {c})
    ensures var k := GetToken(t, p); p < k.next && Lex(t, p) == [TSign(c)] + Lex(t, k.next)
  {
    hide Lex, SkipWs, GetToken;
    LexHead(t, p);
  }

  lemma {:induction false} BacksSound(t: string, p: nat, c: Cmd) returns (n: nat)
    requires NoNul(t) && p <= |t|
    ensures var b := Backs(t, p, c); Lex(t, p) == Amps(n) + Lex(t, b.p) && Resolve(t, b.v) == Backed(Resolve(t, c), n)
    decreases |t| - p
  {
    hide Lex, SkipWs, GetToken, Peek;
    PeekLex(t, p);
    LexSkip(t, p);
    n := 0;
    if Peek(t, p, {'&'}) {
      SignHead(t, p, '&');
      n := BacksSound(t, GetToken(t, p).next, Back(c));
      n := n + 1;
    }
  }

  lemma {:induction false} LineSound(t: string, p: nat) returns (x: SLine)
    requires NoNul(t) && p <= |t| && ParseLine(t, p).Ok?
    ensures var r := ParseLine(t, p);
      Lex(t, p) == LineToks(x) + Lex(t, r.p) && LegalLine(x) && Resolve(t, r.v) == MeanLine(x)
    decreases |t| - p, 3
  {
    hide Lex, SkipWs, GetToken, Peek, Backs, ParsePipe, PipeToks, Amps, MeanPipe, LegalPipe, Backed;
    var pipe := PipeSound(t, p);
    var c := ParsePipe(t, p);
    var n := BacksSound(t, c.p, c.v);
    var b := Backs(t, c.p, c.v);
    PeekLex(t, b.p);
    LexSkip(t, b.p);
    x := SLine(pipe, n, End);
    if Peek(t, b.p, {';'}) {
      SignHead(t, b.p, ';');
      var more := LineSound(t, GetToken(t, b.p).next);
      x := SLine(pipe, n, Semi(more));
      assert RestToks(Semi(more)) == [TSign(';')] + LineToks(more);
    } else {
      assert RestToks(End) == [];
    }
  }

  lemma {:induction false} PipeSound(t: string, p: nat) returns (x: SPipe)
    requires NoNul(t) && p <= |t| && ParsePipe(t, p).Ok?
    ensures var r := ParsePipe(t, p);
      Lex(t, p) == PipeToks(x) + Lex(t, r.p) && LegalPipe(x) && Resolve(t, r.v) == MeanPipe(x)
    decreases |t| - p, 2
  {
    hide Lex, SkipWs, GetToken, Peek, ParseExec, ExecToks, MeanExec, LegalExec;
    var e := ExecSound(t, p);
    var c := ParseExec(t, p);
    PeekLex(t, c.p);
    LexSkip(t, c.p);
    x := One(e);
    if Peek(t, c.p, {'|'}) {
      SignHead(t, c.p, '|');
      var more := PipeSound(t, GetToken(t, c.p).next);
      x := Bar(e, more);
    }
  }

  lemma {:induction false} ExecSound(t: string, p: nat) returns (e: SExec)
    requires NoNul(t) && p <= |t| && ParseExec(t, p).Ok?
    ensures var r := ParseExec(t, p);
      Lex(t, p) == ExecToks(e) + Lex(t, r.p) && LegalExec(e) && Resolve(t, r.v) == MeanExec(e)
    decreases |t| - p, 1
  {
    hide Lex, SkipWs, GetToken, Peek, Redirs, Args, ParseBlock, Wrap, Redirected, WordToks, RedirToks;
    if Peek(t, p, {'('}) {
      e := BlockSound(t, p);
    } else {
      RedirsSound(t, p);
      var rs := Redirs(t, p);
      var ws := ArgsSound(t, rs.p, 0);
      var a := Args(t, rs.p, 0);
      e := Plain(Names(t, rs.v), ws);
      NamesPlus(t, rs.v, a.v.rs);
      WrapMeans(t, Exec(a.v.argv), rs.v + a.v.rs);
    }
  }

  lemma {:induction false} BlockSound(t: string, p: nat) returns (e: SExec)
    requires NoNul(t) && p <= |t| && Peek(t, p, {'('}) && ParseBlock(t, p).Ok?
    ensures var r := ParseBlock(t, p);
      Lex(t, p) == ExecToks(e) + Lex(t, r.p) && LegalExec(e) && Resolve(t, r.v) == MeanExec(e)
    decreases |t| - p, 0
  {
    hide Lex, SkipWs, GetToken, Peek, Redirs, ParseLine, Wrap, Redirected, RedirToks, LineToks, MeanLine, LegalLine;
    PeekLex(t, p);
    SignHead(t, p, '(');
    var k := GetToken(t, p);
    var x := LineSound(t, k.next);
    var c := ParseLine(t, k.next);
    PeekLex(t, c.p);
    SignHead(t, c.p, ')');
    var z := GetToken(t, c.p);
    RedirsSound(t, z.next);
    var rs := Redirs(t, z.next);
    e := Block(x, Names(t, rs.v));
    WrapMeans(t, c.v, rs.v);
  }

  // ---- every sentence is accepted ----

  lemma AmpsStart(n: nat, rest: seq<Tok>)
    ensures n == 0 ==> Amps(n) + rest == rest
    ensures n > 0 ==> Amps(n) + rest == [TSign('&')] + (Amps(n - 1) + rest)
  {}

  lemma {:induction false} BacksComplete(t: string, p: nat, c: Cmd, n: nat, rest: seq<Tok>)
    requires NoNul(t) && p <= |t| && Lex(t, p) == Amps(n) + rest && !Starts(rest, {'&'})
    ensures var b := Backs(t, p, c); Lex(t, b.p) == rest && Resolve(t, b.v) == Backed(Resolve(t, c), n)
    decreases n
  {
    hide Lex, SkipWs, GetToken, Peek, Amps;
    PeekLex(t, p);
    LexSkip(t, p);
    AmpsStart(n, rest);
    if n > 0 {
      SignHead(t, p, '&');
      assert Lex(t, GetToken(t, p).next) == Lex(t, p)[1..];
      BacksComplete(t, GetToken(t, p).next, Back(c), n - 1, rest);
    }
  }

  lemma PlainStart(first: seq<SRedir>, words: seq<SWord>, rest: seq<Tok>)
    requires Ends(rest)
    ensures var l := RedirToks(first) + (WordToks(words) + rest);
      ExecToks(Plain(first, words)) + rest == l && !Starts(l, {'('}) && !Starts(WordToks(words) + rest, {'<', '>', '+'})
  {
    hide RedirToks, WordToks, Starts, Ends;
    WordsStart(words, rest);
    RedirStart(first, WordToks(words) + rest);
    assert ExecToks(Plain(first, words)) == RedirToks(first) + WordToks(words);
  }

  lemma RedirStart(rs: seq<SRedir>, rest: seq<Tok>)
    requires !Starts(rest, {'('})
    ensures !Starts(RedirToks(rs) + rest, {'('})
  {
    if rs == [] { NoToks(rest); } else { RedirHead(rs, rest); }
  }

  lemma {:induction false} ExecComplete(t: string, p: nat, e: SExec, rest: seq<Tok>)
    requires NoNul(t) && p <= |t| && Lex(t, p) == ExecToks(e) + rest && LegalExec(e) && Ends(rest)
    ensures var r := ParseExec(t, p); r.Ok? && Resolve(t, r.v) == MeanExec(e) && Lex(t, r.p) == rest
    decreases e
  {
    hide Lex, SkipWs, GetToken, Peek, Redirs, Args, ParseBlock, Wrap, Redirected, WordToks, RedirToks, LineToks;
    match e
    case Plain(first, words) =>
      PlainStart(first, words, rest);
      PeekLex(t, p);
      RedirsComplete(t, p, first, WordToks(words) + rest);
      var rs := Redirs(t, p);
      ArgsComplete(t, rs.p, 0, words, rest);
      var a := Args(t, rs.p, 0);
      NamesPlus(t, rs.v, a.v.rs);
      WrapMeans(t, Exec(a.v.argv), rs.v + a.v.rs);
    case Block(line, rs) => BlockComplete(t, p, line, rs, rest);
  }

  lemma BlockToks(line: SLine, rs: seq<SRedir>, rest: seq<Tok>)
    ensures ExecToks(Block(line, rs)) + rest
            == [TSign('(')] + (LineToks(line) + ([TSign(')')] + (RedirToks(rs) + rest)))
  {}

  lemma {:induction false} BlockComplete(t: string, p: nat, line: SLine, rs: seq<SRedir>, rest: seq<Tok>)
    requires NoNul(t) && p <= |t| && Lex(t, p) == ExecToks(Block(line, rs)) + rest && LegalLine(line) && Ends(rest)
    ensures var r := ParseExec(t, p); r.Ok? && Resolve(t, r.v) == MeanExec(Block(line, rs)) && Lex(t, r.p) == rest
    decreases line, 1
  {
    hide Lex, SkipWs, GetToken, Peek, Redirs, Args, ParseLine, Wrap, Redirected, RedirToks, LineToks, ExecToks,
         LegalLine, MeanLine;
    BlockToks(line, rs, rest);
    PeekLex(t, p);
    SignHead(t, p, '(');
    var k := GetToken(t, p);
    var tail := [TSign(')')] + (RedirToks(rs) + rest);
    assert Lex(t, k.next) == Lex(t, p)[1..];
    LineComplete(t, k.next, line, tail);
    var c := ParseLine(t, k.next);
    PeekLex(t, c.p);
    SignHead(t, c.p, ')');
    var z := GetToken(t, c.p);
    assert Lex(t, z.next) == tail[1..];
    RedirsComplete(t, z.next, rs, rest);
    WrapMeans(t, c.v, Redirs(t, z.next).v);
  }

  lemma {:induction false} PipeComplete(t: string, p: nat, x: SPipe, rest: seq<Tok>)
    requires NoNul(t) && p <= |t| && Lex(t, p) == PipeToks(x) + rest && LegalPipe(x)
    requires rest == [] || Starts(rest, {')', '&', ';'})
    ensures var r := ParsePipe(t, p); r.Ok? && Resolve(t, r.v) == MeanPipe(x) && Lex(t, r.p) == rest
    decreases x
  {
    hide Lex, SkipWs, GetToken, Peek, ParseExec, ExecToks, LegalExec, MeanExec;
    match x
    case One(e) =>
      ExecComplete(t, p, e, rest);
      var c := ParseExec(t, p);
      PeekLex(t, c.p);
      LexSkip(t, c.p);
    case Bar(e, more) =>
      var tail := [TSign('|')] + (PipeToks(more) + rest);
      assert PipeToks(x) + rest == ExecToks(e) + tail;
      ExecComplete(t, p, e, tail);
      var c := ParseExec(t, p);
      PeekLex(t, c.p);
      SignHead(t, c.p, '|');
      assert Lex(t, GetToken(t, c.p).next) == tail[1..];
      PipeComplete(t, GetToken(t, c.p).next, more, rest);
  }

  /** What follows the pipe and the ampersands of a line. */
  lemma RestStart(r: SRest, rest: seq<Tok>)
    requires rest == [] || Starts(rest, {')'})
    ensures var after := RestToks(r) + rest;
      && !Starts(after, {'&'}) && (Starts(after, {';'}) <==> r.Semi?) && (after == [] || Starts(after, {')', ';'}))
      && (r.End? ==> after == rest) && (r.Semi? ==> after == [TSign(';')] + (LineToks(r.line) + rest))
  {
    hide LineToks;
  }

  lemma AfterPipe(n: nat, after: seq<Tok>)
    requires after == [] || Starts(after, {')', ';'})
    ensures Amps(n) + after == [] || Starts(Amps(n) + after, {')', '&', ';'})
  {
    AmpsStart(n, after);
  }

  lemma LineSplit(x: SLine, rest: seq<Tok>)
    ensures LineToks(x) + rest == PipeToks(x.p) + (Amps(x.backs) + (RestToks(x.rest) + rest))
  {
    hide PipeToks, RestToks, Amps;
  }

  lemma {:induction false} LineComplete(t: string, p: nat, x: SLine, rest: seq<Tok>)
    requires NoNul(t) && p <= |t| && Lex(t, p) == LineToks(x) + rest && LegalLine(x)
    requires rest == [] || Starts(rest, {')'})
    ensures var r := ParseLine(t, p); r.Ok? && Resolve(t, r.v) == MeanLine(x) && Lex(t, r.p) == rest
    decreases x, 0
  {
    hide Lex, SkipWs, GetToken, Peek, Backs, ParsePipe, PipeToks, LineToks, Amps, MeanPipe, LegalPipe, Backed, RestToks;
    LineSplit(x, rest);
    RestStart(x.rest, rest);
    var after := RestToks(x.rest) + rest;
    AfterPipe(x.backs, after);
    PipeComplete(t, p, x.p, Amps(x.backs) + after);
    var c := ParsePipe(t, p);
    BacksComplete(t, c.p, c.v, x.backs, after);
    var b := Backs(t, c.p, c.v);
    PeekLex(t, b.p);
    LexSkip(t, b.p);
    if x.rest.Semi? {
      SignHead(t, b.p, ';');
      assert Lex(t, GetToken(t, b.p).next) == after[1..];
      LineComplete(t, GetToken(t, b.p).next, x.rest.line, rest);
    }
  }

  // ---- the language ----

  /** The tokens of the line are those of the sentence. */
  ghost predicate Says(t: string, x: SLine) { Lex(t, 0) == LineToks(x) && LegalLine(x) }

  lemma LexAll(t: string, p: nat)
    requires NoNul(t) && p <= |t|
    ensures Lex(t, p) == [] <==> SkipWs(t, p) == |t|
  {
    hide Lex, SkipWs, GetToken;
    LexHead(t, p);
  }

  /** A sentence is accepted, and what is run is what it means. */
  lemma SentencesAccepted(t: string, x: SLine)
    requires NoNul(t) && Says(t, x)
    ensures ParseCmd(t).Ok? && Resolve(t, ParseCmd(t).v) == MeanLine(x)
  {
    hide Lex, SkipWs, ParseLine, LineToks;
    assert LineToks(x) + [] == LineToks(x);
    LineComplete(t, 0, x, []);
    LexAll(t, ParseLine(t, 0).p);
  }

  /** The shell accepts exactly the sentences of its grammar. */
  lemma AcceptsExactly(t: string)
    requires NoNul(t)
    ensures ParseCmd(t).Ok? <==> exists x :: Says(t, x)
  {
    hide Lex, SkipWs, ParseLine, LineToks, Says;
    if ParseCmd(t).Ok? {
      var x := AcceptedSays(t);
    }
    if x :| Says(t, x) { SentencesAccepted(t, x); }
  }

  lemma AcceptedSays(t: string) returns (x: SLine)
    requires NoNul(t) && ParseCmd(t).Ok?
    ensures Says(t, x)
  {
    hide Lex, SkipWs, ParseLine, LineToks;
    x := LineSound(t, 0);
    LexAll(t, ParseLine(t, 0).p);
    assert LineToks(x) + [] == LineToks(x);
  }

  /** A line is a sentence in at most one sense. */
  lemma Unambiguous(t: string, x: SLine, y: SLine)
    requires NoNul(t) && Says(t, x) && Says(t, y)
    ensures MeanLine(x) == MeanLine(y)
  {
    hide Says;
    SentencesAccepted(t, x);
    SentencesAccepted(t, y);
  }

  // ---- spelling ----

  function TokText(k: Tok): string {
    match k
    case TWord(w) => w
    case TSign(c) => if c == '+' then ">>" else [c]
  }

  predicate GoodTok(k: Tok) {
    match k
    case TWord(w) => Word(w)
    case TSign(c) => c in {'<', '>', '+', '|', '&', ';', '(', ')'}
  }

  predicate Gap(g: string) { forall i :: 0 <= i < |g| ==> White(g[i]) }

  /** Without a gap the two would run into one, or into others. */
  predicate Sticks(a: Tok, b: Tok) {
    (a.TWord? && b.TWord?) || (a == TSign('>') && (b == TSign('>') || b == TSign('+')))
  }

  /** A line that spells the tokens, with white space in front of each and at the end. */
  function Spell(toks: seq<Tok>, gaps: seq<string>): string
    requires |gaps| == |toks| + 1
  {
    if toks == [] then gaps[0] else gaps[0] + TokText(toks[0]) + Spell(toks[1..], gaps[1..])
  }

  predicate GoodSpelling(toks: seq<Tok>, gaps: seq<string>) {
    && |gaps| == |toks| + 1 && (forall i :: 0 <= i < |gaps| ==> Gap(gaps[i]))
    && (forall i :: 0 <= i < |toks| ==> GoodTok(toks[i]))
    && (forall i {:trigger toks[i]} :: 0 < i < |toks| && Sticks(toks[i - 1], toks[i]) ==> gaps[i] != "")
  }

  lemma {:induction false} SkipGap(t: string, p: nat, g: string)
    requires At(t, p, g) && Gap(g) && (p + |g| == |t| || !White(t[p + |g|]))
    ensures SkipWs(t, p) == p + |g|
    decreases |g|
  {
    if g != "" {
      assert t[p] == g[0];
      assert g == [g[0]] + g[1..];
      Split(t, p, [g[0]], g[1..]);
      SkipGap(t, p + 1, g[1..]);
    }
  }

  /** What follows a token does not stick to it. */
  predicate Apart(t: string, k: Tok, e: nat) {
    e == |t| || (e < |t| && (k.TWord? ==> White(t[e]) || Symbol(t[e])) && (k == TSign('>') ==> t[e] != '>'))
  }

  lemma TokenAt(t: string, p: nat, k: Tok)
    requires At(t, p, TokText(k)) && GoodTok(k) && Apart(t, k, p + |TokText(k)|)
    ensures p < |t| && !White(t[p]) && SkipWs(t, p) == p
    ensures var e, g := p + |TokText(k)|, GetToken(t, p);
      && g.next == SkipWs(t, e) && g.kind == (if k.TWord? then 'a' else k.c) && g.s == Span(p, e)
      && (k.TWord? ==> Text(t, g.s) == k.w)
  {
    hide WordEnd;
    if k.TWord? {
      assert t[p] == k.w[0];
      WordAt(t, p, k.w);
    } else {
      assert t[p] == TokText(k)[0];
      assert k.c == '+' ==> t[p + 1] == TokText(k)[1];
    }
  }

  lemma TokHead(k: Tok)
    requires GoodTok(k)
    ensures var x := TokText(k);
      && x != "" && !White(x[0]) && (k.TSign? ==> Symbol(x[0]))
      && (x[0] == '>' ==> k == TSign('>') || k == TSign('+'))
  {}

  lemma FirstOf(a: string, b: string, c: string)
    ensures a != "" ==> a + b + c != "" && (a + b + c)[0] == a[0]
    ensures a == "" && b != "" ==> a + b + c != "" && (a + b + c)[0] == b[0]
  {}

  /** How the line begins: with white space, or with its first token, or not at all. */
  lemma SpellStart(toks: seq<Tok>, gaps: seq<string>)
    requires GoodSpelling(toks, gaps)
    ensures var l := Spell(toks, gaps);
      && (gaps[0] != "" ==> l != "" && White(l[0]))
      && (gaps[0] == "" && toks == [] ==> l == "")
      && (gaps[0] == "" && toks != [] ==> l != "" && l[0] == (TokText(toks[0]) + " ")[0])
  {
    hide TokText;
    assert Gap(gaps[0]);
    if toks != [] {
      TokHead(toks[0]);
      FirstOf(gaps[0], TokText(toks[0]), Spell(toks[1..], gaps[1..]));
    }
  }

  lemma SpellingRest(toks: seq<Tok>, gaps: seq<string>)
    requires GoodSpelling(toks, gaps) && toks != []
    ensures GoodSpelling(toks[1..], gaps[1..])
    ensures |toks| > 1 && Sticks(toks[0], toks[1]) ==> gaps[1] != ""
  {
    forall i | 0 < i < |toks[1..]| && Sticks(toks[1..][i - 1], toks[1..][i]) ensures gaps[1..][i] != "" {
      assert toks[i + 1] == toks[1..][i] && toks[i] == toks[1..][i - 1];
    }
  }

  lemma SpellApart(t: string, toks: seq<Tok>, gaps: seq<string>, e: nat)
    requires GoodSpelling(toks, gaps) && toks != [] && e + |Spell(toks[1..], gaps[1..])| == |t|
    requires At(t, e, Spell(toks[1..], gaps[1..]))
    ensures Apart(t, toks[0], e)
  {
    SpellingRest(toks, gaps);
    SpellStart(toks[1..], gaps[1..]);
    var l := Spell(toks[1..], gaps[1..]);
    if toks[1..] != [] { TokHead(toks[1]); }
    if l != "" { assert t[e] == l[0]; }
  }

  /** Reading a line back gives the tokens it was spelled from, however they were spaced. */
  lemma {:induction false} LexSpell(t: string, p: nat, toks: seq<Tok>, gaps: seq<string>)
    requires |gaps| == |toks| + 1 && GoodSpelling(toks, gaps)
    requires At(t, p, Spell(toks, gaps)) && p + |Spell(toks, gaps)| == |t|
    ensures Lex(t, p) == toks
    decreases |toks|
  {
    hide GoodSpelling, SkipWs, GetToken, WordEnd, At, TokText;
    if toks == [] {
      GapAtEnd(t, p, gaps);
    } else {
      var g, k := gaps[0], toks[0];
      SpellParts(t, p, toks, gaps);
      var q := p + |g|;
      var e := q + |TokText(k)|;
      SpellApart(t, toks, gaps, e);
      TokenAt(t, q, k);
      SkipGap(t, p, g);
      LexSkip(t, p);
      SpellingRest(toks, gaps);
      LexSpell(t, e, toks[1..], gaps[1..]);
      LexSkip(t, e);
    }
  }

  lemma GapAtEnd(t: string, p: nat, gaps: seq<string>)
    requires GoodSpelling([], gaps) && At(t, p, gaps[0]) && p + |gaps[0]| == |t|
    ensures Lex(t, p) == []
  {
    SkipGap(t, p, gaps[0]);
  }

  lemma SpellParts(t: string, p: nat, toks: seq<Tok>, gaps: seq<string>)
    requires GoodSpelling(toks, gaps) && toks != [] && At(t, p, Spell(toks, gaps))
    ensures At(t, p, gaps[0]) && Gap(gaps[0]) && GoodTok(toks[0])
    ensures At(t, p + |gaps[0]|, TokText(toks[0]))
    ensures At(t, p + |gaps[0]| + |TokText(toks[0])|, Spell(toks[1..], gaps[1..]))
  {
    hide TokText;
    var a, b := gaps[0] + TokText(toks[0]), Spell(toks[1..], gaps[1..]);
    Split(t, p, a, b);
    Split(t, p, gaps[0], TokText(toks[0]));
  }

  lemma {:induction false} SpellNoNul(toks: seq<Tok>, gaps: seq<string>)
    requires GoodSpelling(toks, gaps)
    ensures NoNul(Spell(toks, gaps))
    decreases |toks|
  {
    assert Gap(gaps[0]);
    GapNoNul(gaps[0]);
    if toks != [] {
      SpellingRest(toks, gaps);
      SpellNoNul(toks[1..], gaps[1..]);
      assert NoNul(TokText(toks[0])) by { assert GoodTok(toks[0]); }
      NoNulPlus(gaps[0], TokText(toks[0]));
      NoNulPlus(gaps[0] + TokText(toks[0]), Spell(toks[1..], gaps[1..]));
    }
  }

  lemma GapNoNul(g: string)
    requires Gap(g)
    ensures NoNul(g)
  {}

  lemma NoNulPlus(a: string, b: string)
    requires NoNul(a) && NoNul(b)
    ensures NoNul(a + b)
  {}

  /** Write any sentence of the grammar with any spacing, redirections before, between and after its
      words: the shell reads it as what it means. */
  lemma SpellingRoundTrip(x: SLine, gaps: seq<string>)
    requires LegalLine(x) && |gaps| == |LineToks(x)| + 1 && GoodSpelling(LineToks(x), gaps)
    ensures var t := Spell(LineToks(x), gaps); ParseCmd(t).Ok? && Resolve(t, ParseCmd(t).v) == MeanLine(x)
  {
    hide GoodSpelling, Spell, LineToks, LegalLine, Lex;
    var t := Spell(LineToks(x), gaps);
    SpellNoNul(LineToks(x), gaps);
    assert t[0..0 + |t|] == t;
    LexSpell(t, 0, LineToks(x), gaps);
    SentencesAccepted(t, x);
  }
}
