/** Printing a command and parsing it back (user/sh.c:261-447). */
module ShellTrip {
  import opened ShellModel

  /** A command with the text of its words. */
  datatype Tree =
    | TExec(args: seq<string>)
    | TRedir(c: Tree, kind: Kind, file: string)
    | TPipe(l: Tree, r: Tree)
    | TList(l: Tree, r: Tree)
    | TBack(c: Tree)

  predicate Word(w: string) { w != "" && forall i :: 0 <= i < |w| ==> WordChar(w[i]) }

  predicate Legal(x: Tree) {
    match x
    case TExec(args) => |args| < MAXARGS && forall i :: 0 <= i < |args| ==> Word(args[i])
    case TRedir(c, _, file) => Legal(c) && Word(file)
    case TPipe(l, r) => Legal(l) && Legal(r)
    case TList(l, r) => Legal(l) && Legal(r)
    case TBack(c) => Legal(c)
  }

  function Words(args: seq<string>): string {
    if args == [] then "" else if |args| == 1 then args[0] else args[0] + " " + Words(args[1..])
  }

  function Sign(k: Kind): string { match k case In => "<" case Out => ">" case Append => ">>" }

  /** Every command that is part of another stands in parentheses. */
  function Print(x: Tree): string {
    match x
    case TExec(args) => Words(args)
    case TRedir(c, k, file) => "(" + Print(c) + ")" + Sign(k) + file
    case TPipe(l, r) => "(" + Print(l) + ")|(" + Print(r) + ")"
    case TList(l, r) => "(" + Print(l) + ");(" + Print(r) + ")"
    case TBack(c) => "(" + Print(c) + ")&"
  }

  function Text(t: string, s: Span): string { if s.q <= s.e <= |t| then t[s.q..s.e] else "" }

  function Texts(t: string, ss: seq<Span>): (r: seq<string>)
    ensures |r| == |ss| && forall i :: 0 <= i < |ss| ==> r[i] == Text(t, ss[i])
  {
    seq(|ss|, i requires 0 <= i < |ss| => Text(t, ss[i]))
  }

  /** The command with its words read off the line. */
  function Resolve(t: string, c: Cmd): Tree {
    match c
    case Exec(argv) => TExec(Texts(t, argv))
    case Redir(d, r) => TRedir(Resolve(t, d), r.kind, Text(t, r.file))
    case Pipe(l, r) => TPipe(Resolve(t, l), Resolve(t, r))
    case List(l, r) => TList(Resolve(t, l), Resolve(t, r))
    case Back(d) => TBack(Resolve(t, d))
  }

  /** The line has `x` at `p`. */
  predicate At(t: string, p: nat, x: string) { p + |x| <= |t| && t[p..p + |x|] == x }

  /** What may follow a printed command: the end or a closing parenthesis. */
  predicate Stops(t: string, p: nat) { p == |t| || (p < |t| && t[p] == ')') }

  lemma Split(t: string, p: nat, a: string, b: string)
    requires At(t, p, a + b)
    ensures At(t, p, a) && At(t, p + |a|, b)
  {
    assert t[p..p + |a + b|][..|a|] == a && t[p..p + |a + b|][|a|..] == b;
  }

  lemma SymbolAt(t: string, p: nat)
    requires p < |t| && Symbol(t[p]) && t[p] != '>'
    ensures SkipWs(t, p) == p && GetToken(t, p) == Token(t[p], Span(p, p + 1), SkipWs(t, p + 1))
  {
  }

  lemma {:induction false} WordRun(t: string, p: nat, w: string)
    requires At(t, p, w) && (forall i :: 0 <= i < |w| ==> WordChar(w[i]))
    requires (p + |w| == |t| || White(t[p + |w|]) || Symbol(t[p + |w|]))
    ensures WordEnd(t, p) == p + |w|
    decreases |w|
  {
    if w != "" {
      assert t[p] == w[0];
      assert w == [w[0]] + w[1..];
      Split(t, p, [w[0]], w[1..]);
      WordRun(t, p + 1, w[1..]);
    }
  }

  lemma WordAt(t: string, p: nat, w: string)
    requires At(t, p, w) && Word(w) && (p + |w| == |t| || White(t[p + |w|]) || Symbol(t[p + |w|]))
    ensures SkipWs(t, p) == p && GetToken(t, p) == Token('a', Span(p, p + |w|), SkipWs(t, p + |w|))
    ensures Text(t, Span(p, p + |w|)) == w
    ensures !Symbol(t[p])
  {
    assert t[p] == w[0];
    WordRun(t, p, w);
  }

  lemma NoRedirs(t: string, p: nat)
    requires p <= |t| && (p == |t| || (!White(t[p]) && t[p] != '<' && t[p] != '>'))
    ensures SkipWs(t, p) == p && Redirs(t, p) == Ok([], p)
  {
  }

  /** One word of a command, when no redirection follows it. */
  lemma OneArg(t: string, p: nat, w: string, argc: nat)
    requires At(t, p, w) && Word(w) && (p + |w| == |t| || White(t[p + |w|]) || Symbol(t[p + |w|])) && argc + 1 < MAXARGS
    requires var n := SkipWs(t, p + |w|); Redirs(t, n) == Ok([], n) && Args(t, n, argc + 1).Ok?
    ensures var rest := Args(t, SkipWs(t, p + |w|), argc + 1);
      Args(t, p, argc) == Ok(Simple([Span(p, p + |w|)] + rest.v.argv, rest.v.rs), rest.p)
    ensures Text(t, Span(p, p + |w|)) == w
  {
    hide Redirs, SkipWs, WordEnd;
    WordAt(t, p, w);
    var rest := Args(t, SkipWs(t, p + |w|), argc + 1);
    assert [] + rest.v.rs == rest.v.rs;
  }

  /** Where the word after the first one starts. */
  function SecondAt(p: nat, args: seq<string>): nat
    requires args != []
  {
    p + |args[0]| + if |args| == 1 then 0 else 1
  }

  lemma SecondWord(t: string, p: nat, args: seq<string>)
    requires args != [] && At(t, p, Words(args)) && Stops(t, p + |Words(args)|)
    requires forall i :: 0 <= i < |args| ==> Word(args[i])
    ensures var w, n := args[0], SecondAt(p, args);
      && At(t, p, w) && (p + |w| == |t| || White(t[p + |w|]) || Symbol(t[p + |w|]))
      && n <= |t| && SkipWs(t, p + |w|) == n && Redirs(t, n) == Ok([], n) && At(t, n, Words(args[1..]))
        && n + |Words(args[1..])| == p + |Words(args)|
  {
    hide Redirs;
    var w, rest, n := args[0], args[1..], SecondAt(p, args);
    if rest == [] {
      assert Words(args) == w;
      NoRedirs(t, n);
    } else {
      Split(t, p, w + " ", Words(rest));
      Split(t, p, w, " ");
      assert t[p + |w|] == ' ';
      FirstWord(t, n, rest);
      NoRedirs(t, n);
    }
  }

  lemma {:induction false} ArgsTrip(t: string, p: nat, args: seq<string>, argc: nat)
    requires At(t, p, Words(args)) && Stops(t, p + |Words(args)|) && argc + |args| < MAXARGS
    requires forall i :: 0 <= i < |args| ==> Word(args[i])
    ensures var r := Args(t, p, argc); r.Ok? && r.p == p + |Words(args)| && r.v.rs == [] && Texts(t, r.v.argv) == args
    decreases |args|
  {
    hide Args, Redirs, SkipWs, WordEnd, At, Word, Words, Text;
    if args == [] {
      NoWords();
      NoArgs(t, p, argc);
    } else {
      SecondWord(t, p, args);
      var w, n := args[0], SecondAt(p, args);
      ArgsTrip(t, n, args[1..], argc + 1);
      OneArg(t, p, w, argc);
      var r := Args(t, n, argc + 1);
      assert Texts(t, [Span(p, p + |w|)] + r.v.argv) == [w] + Texts(t, r.v.argv);
    }
  }

  lemma NoWords()
    ensures Words([]) == ""
  {
  }

  lemma NoArgs(t: string, p: nat, argc: nat)
    requires Stops(t, p)
    ensures Args(t, p, argc) == Ok(Simple([], []), p)
  {
  }

  lemma FirstWord(t: string, p: nat, args: seq<string>)
    requires At(t, p, Words(args)) && args != [] && Word(args[0])
    ensures p < |t| && WordChar(t[p])
  {
    assert Words(args)[0] == args[0][0];
  }

  // ---- the parser on what has been printed ----

  /** Nothing of a line goes on at `e`. */
  lemma LineEnds(t: string, p: nat, c: Cmd, e: nat)
    requires p <= e && Stops(t, e) && ParsePipe(t, p) == Ok(c, e)
    ensures ParseLine(t, p) == Ok(c, e)
  {
    hide ParsePipe;
    assert SkipWs(t, e) == e;
    assert Backs(t, e, c) == Ok(c, e);
  }

  /** A pipe ends before anything but a bar. */
  lemma PipeEnds(t: string, p: nat, c: Cmd, e: nat)
    requires p <= e <= |t| && (e == |t| || (Symbol(t[e]) && t[e] != '|')) && ParseExec(t, p) == Ok(c, e)
    ensures ParsePipe(t, p) == Ok(c, e)
  {
    hide ParseExec;
    assert SkipWs(t, e) == e;
  }

  lemma PipeGoesOn(t: string, p: nat, l: Cmd, q: nat, r: Cmd, e: nat)
    requires p <= q < |t| && t[q] == '|' && q + 1 < |t| && t[q + 1] == '(' && ParseExec(t, p) == Ok(l, q)
    requires ParsePipe(t, q + 1) == Ok(r, e)
    ensures ParsePipe(t, p) == Ok(Pipe(l, r), e)
  {
    hide ParseExec;
    SymbolAt(t, q);
    SymbolAt(t, q + 1);
  }

  lemma LineGoesOn(t: string, p: nat, l: Cmd, q: nat, r: Cmd, e: nat)
    requires p <= q < |t| && t[q] == ';' && q + 1 < |t| && t[q + 1] == '(' && ParsePipe(t, p) == Ok(l, q)
    requires ParseLine(t, q + 1) == Ok(r, e)
    ensures ParseLine(t, p) == Ok(List(l, r), e)
  {
    hide ParsePipe;
    SymbolAt(t, q);
    SymbolAt(t, q + 1);
    assert Backs(t, q, l) == Ok(l, q);
  }

  lemma LineBacks(t: string, p: nat, c: Cmd, q: nat)
    requires p <= q < |t| && t[q] == '&' && Stops(t, q + 1) && ParsePipe(t, p) == Ok(c, q)
    ensures ParseLine(t, p) == Ok(Back(c), q + 1)
  {
    hide ParsePipe;
    SymbolAt(t, q);
    assert SkipWs(t, q + 1) == q + 1;
    assert Backs(t, q + 1, Back(c)) == Ok(Back(c), q + 1);
    assert Backs(t, q, c) == Ok(Back(c), q + 1);
  }

  /** A block with no redirection behind it. */
  lemma BlockPlain(t: string, p: nat, c: Cmd, e: nat)
    requires p + 1 <= e < |t| && t[p] == '(' && t[e] == ')' && SkipWs(t, p + 1) == p + 1
    requires ParseLine(t, p + 1) == Ok(c, e)
    requires e + 1 == |t| || (Symbol(t[e + 1]) && t[e + 1] != '<' && t[e + 1] != '>')
    ensures ParseExec(t, p) == Ok(c, e + 1)
  {
    hide ParseLine, Redirs;
    SymbolAt(t, p);
    SymbolAt(t, e);
    NoRedirs(t, e + 1);
    assert ParseBlock(t, p) == Ok(Wrap(c, []), e + 1);
  }

  lemma OneRedir(t: string, p: nat, k: Kind, file: string)
    requires At(t, p, Sign(k) + file) && Word(file) && Stops(t, p + |Sign(k) + file|)
    ensures var q := p + |Sign(k)|; var e := q + |file|;
      Redirs(t, p) == Ok([Redirection(k, Span(q, e))], e) && Text(t, Span(q, e)) == file && SkipWs(t, p) == p
  {
    hide SkipWs, WordEnd, GetToken, Peek, Text;
    var q := p + |Sign(k)|;
    var e := q + |file|;
    Split(t, p, Sign(k), file);
    WordAt(t, q, file);
    assert t[q] == file[0];
    SignToken(t, p, k);
    NoRedirs(t, e);
    var rs := [Redirection(k, Span(q, e))];
    assert rs + [] == rs;
  }

  lemma SignToken(t: string, p: nat, k: Kind)
    requires At(t, p, Sign(k)) && p + |Sign(k)| < |t| && WordChar(t[p + |Sign(k)|])
    ensures SkipWs(t, p) == p && Peek(t, p, {'<', '>'}) && GetToken(t, p).next == p + |Sign(k)|
    ensures ToKind(GetToken(t, p).kind) == k
  {
    assert t[p] == Sign(k)[0];
    assert k.Append? ==> t[p + 1] == Sign(k)[1];
  }

  lemma BlockRedir(t: string, p: nat, c: Cmd, e: nat, k: Kind, file: string)
    requires p + 1 <= e < |t| && t[p] == '(' && t[e] == ')' && SkipWs(t, p + 1) == p + 1
    requires ParseLine(t, p + 1) == Ok(c, e)
    requires At(t, e + 1, Sign(k) + file) && Word(file) && Stops(t, e + 1 + |Sign(k) + file|)
    ensures var q := e + 1 + |Sign(k)|;
      ParseExec(t, p) == Ok(Redir(c, Redirection(k, Span(q, q + |file|))), q + |file|)
        && Text(t, Span(q, q + |file|)) == file
  {
    hide ParseLine, Redirs, SkipWs, WordEnd, Word, At, Text;
    SymbolAt(t, p);
    SymbolAt(t, e);
    OneRedir(t, e + 1, k, file);
    var q := e + 1 + |Sign(k)|;
    var r := Redirection(k, Span(q, q + |file|));
    assert Wrap(c, [r]) == Redir(c, r);
  }

  /** A printed command starts with a parenthesis, a word or nothing. */
  lemma PrintStart(t: string, p: nat, x: Tree)
    requires At(t, p, Print(x)) && Stops(t, p + |Print(x)|) && Legal(x)
    ensures SkipWs(t, p) == p
  {
    if Print(x) != "" {
      assert t[p] == Print(x)[0];
      if x.TExec? { FirstWord(t, p, x.args); }
    }
  }

  lemma ExecTrip(t: string, p: nat, args: seq<string>)
    requires At(t, p, Words(args)) && Stops(t, p + |Words(args)|) && Legal(TExec(args))
    ensures var r := ParseExec(t, p); r.Ok? && r.p == p + |Words(args)| && Resolve(t, r.v) == TExec(args)
  {
    hide Args, Redirs;
    PrintStart(t, p, TExec(args));
    if args != [] { FirstWord(t, p, args); }
    NoRedirs(t, p);
    ArgsTrip(t, p, args, 0);
    var a := Args(t, p, 0);
    assert [] + a.v.rs == [];
  }

  function Paired(l: string, sign: char, r: string): string { "(" + l + ")" + [sign] + "(" + r + ")" }

  lemma PrintPair(l: Tree, r: Tree)
    ensures Print(TPipe(l, r)) == Paired(Print(l), '|', Print(r))
    ensures Print(TList(l, r)) == Paired(Print(l), ';', Print(r))
  {
  }

  /** Where the parts of a printed pair lie: `(left)` sign `(right)`. */
  lemma PairAt(t: string, p: nat, l: string, sign: char, r: string)
    requires At(t, p, Paired(l, sign, r))
    ensures var q := p + 1 + |l|; var e := q + 3 + |r|;
      && e < |t| && t[p] == '(' && At(t, p + 1, l) && t[q] == ')' && t[q + 1] == sign
        && t[q + 2] == '(' && At(t, q + 3, r) && t[e] == ')'
      && e + 1 == p + |Paired(l, sign, r)|
  {
    var a, b := "(" + l + ")", [sign] + "(" + r + ")";
    assert Paired(l, sign, r) == a + b;
    Split(t, p, a, b);
    BlockAt(t, p, l);
    assert b == [sign] + ("(" + r + ")");
    Split(t, p + |a|, [sign], "(" + r + ")");
    assert t[p + |a|] == sign;
    BlockAt(t, p + |a| + 1, r);
  }

  lemma BlockAt(t: string, p: nat, x: string)
    requires At(t, p, "(" + x + ")")
    ensures t[p] == '(' && At(t, p + 1, x) && t[p + 1 + |x|] == ')'
  {
    assert "(" + x + ")" == "(" + (x + ")");
    Split(t, p, "(", x + ")");
    Split(t, p + 1, x, ")");
    assert t[p..p + 1] == "(" && t[p + 1 + |x|..p + 2 + |x|] == ")";
    assert t[p..p + 1][0] == '(' && t[p + 1 + |x|..p + 2 + |x|][0] == ')';
  }

  /** A part in parentheses parses to itself, if no redirection follows. */
  lemma {:induction false} PartTrip(t: string, p: nat, x: Tree)
    requires p < |t| && t[p] == '(' && At(t, p + 1, Print(x)) && p + 1 + |Print(x)| < |t|
    requires t[p + 1 + |Print(x)|] == ')' && Legal(x)
    requires var e := p + 2 + |Print(x)|; e == |t| || (Symbol(t[e]) && t[e] != '<' && t[e] != '>')
    ensures var r := ParseExec(t, p); r.Ok? && r.p == p + 2 + |Print(x)| && Resolve(t, r.v) == x
    decreases x, 1
  {
    hide ParseExec, ParseLine, SkipWs, Print;
    LineTrip(t, p + 1, x);
    PrintStart(t, p + 1, x);
    BlockPlain(t, p, ParseLine(t, p + 1).v, p + 1 + |Print(x)|);
  }

  /** What has been printed parses to itself, wherever it stands. */
  lemma {:induction false} LineTrip(t: string, p: nat, x: Tree)
    requires At(t, p, Print(x)) && Stops(t, p + |Print(x)|) && Legal(x)
    ensures var r := ParseLine(t, p); r.Ok? && r.p == p + |Print(x)| && Resolve(t, r.v) == x
    decreases x, 0
  {
    hide ParseExec, ParsePipe, ParseLine, SkipWs, At;
    var e := p + |Print(x)|;
    match x
    case TExec(args) =>
      ExecTrip(t, p, args);
      PipeEnds(t, p, ParseExec(t, p).v, e);
      LineEnds(t, p, ParseExec(t, p).v, e);
    case TRedir(c, k, file) => RedirTrip(t, p, c, k, file);
    case TPipe(l, r) => PipeTrip(t, p, l, r);
    case TList(l, r) => ListTrip(t, p, l, r);
    case TBack(c) => BackTrip(t, p, c);
  }

  lemma {:induction false} RedirTrip(t: string, p: nat, c: Tree, k: Kind, file: string)
    requires var x := TRedir(c, k, file); At(t, p, Print(x)) && Stops(t, p + |Print(x)|) && Legal(x)
    ensures var x := TRedir(c, k, file); var r := ParseLine(t, p);
      r.Ok? && r.p == p + |Print(x)| && Resolve(t, r.v) == x
    decreases c, 2
  {
    hide ParseExec, ParsePipe, ParseLine, SkipWs, Word, Text;
    var l, a := Print(c), "(" + Print(c) + ")";
    assert Print(TRedir(c, k, file)) == a + (Sign(k) + file);
    Split(t, p, a, Sign(k) + file);
    BlockAt(t, p, l);
    LineTrip(t, p + 1, c);
    PrintStart(t, p + 1, c);
    BlockRedir(t, p, ParseLine(t, p + 1).v, p + 1 + |l|, k, file);
    PipeEnds(t, p, ParseExec(t, p).v, p + |Print(TRedir(c, k, file))|);
    LineEnds(t, p, ParseExec(t, p).v, p + |Print(TRedir(c, k, file))|);
  }

  lemma {:induction false} PipeTrip(t: string, p: nat, l: Tree, r: Tree)
    requires var x := TPipe(l, r); At(t, p, Print(x)) && Stops(t, p + |Print(x)|) && Legal(x)
    ensures var x := TPipe(l, r); var y := ParseLine(t, p); y.Ok? && y.p == p + |Print(x)| && Resolve(t, y.v) == x
    decreases TPipe(l, r), -1
  {
    hide ParseExec, ParsePipe, ParseLine, SkipWs, At, Print, Paired;
    PrintPair(l, r);
    PairAt(t, p, Print(l), '|', Print(r));
    var q := p + 2 + |Print(l)|;
    var e := p + |Print(TPipe(l, r))|;
    PartTrip(t, p, l);
    PartTrip(t, q + 1, r);
    PipeEnds(t, q + 1, ParseExec(t, q + 1).v, e);
    PipeGoesOn(t, p, ParseExec(t, p).v, q, ParseExec(t, q + 1).v, e);
    LineEnds(t, p, Pipe(ParseExec(t, p).v, ParseExec(t, q + 1).v), e);
  }

  lemma {:induction false} ListTrip(t: string, p: nat, l: Tree, r: Tree)
    requires var x := TList(l, r); At(t, p, Print(x)) && Stops(t, p + |Print(x)|) && Legal(x)
    ensures var x := TList(l, r); var y := ParseLine(t, p); y.Ok? && y.p == p + |Print(x)| && Resolve(t, y.v) == x
    decreases TList(l, r), -1
  {
    hide ParseExec, ParsePipe, ParseLine, SkipWs, At, Print, Paired;
    PrintPair(l, r);
    PairAt(t, p, Print(l), ';', Print(r));
    var q := p + 2 + |Print(l)|;
    var e := p + |Print(TList(l, r))|;
    PartTrip(t, p, l);
    PipeEnds(t, p, ParseExec(t, p).v, q);
    PartTrip(t, q + 1, r);
    PipeEnds(t, q + 1, ParseExec(t, q + 1).v, e);
    LineEnds(t, q + 1, ParseExec(t, q + 1).v, e);
    LineGoesOn(t, p, ParseExec(t, p).v, q, ParseExec(t, q + 1).v, e);
  }

  lemma {:induction false} BackTrip(t: string, p: nat, c: Tree)
    requires var x := TBack(c); At(t, p, Print(x)) && Stops(t, p + |Print(x)|) && Legal(x)
    ensures var x := TBack(c); var y := ParseLine(t, p); y.Ok? && y.p == p + |Print(x)| && Resolve(t, y.v) == x
    decreases TBack(c), -1
  {
    hide ParseExec, ParsePipe, ParseLine, SkipWs;
    var a := "(" + Print(c) + ")";
    assert Print(TBack(c)) == a + "&";
    Split(t, p, a, "&");
    BlockAt(t, p, Print(c));
    var q := p + |a|;
    assert t[q..q + 1][0] == '&';
    PartTrip(t, p, c);
    PipeEnds(t, p, ParseExec(t, p).v, q);
    LineBacks(t, p, ParseExec(t, p).v, q);
  }

  /** Parsing the printed form of a command gives the command back. */
  lemma RoundTrip(x: Tree)
    requires Legal(x)
    ensures var r := ParseCmd(Print(x)); r.Ok? && r.p == |Print(x)| && Resolve(Print(x), r.v) == x
  {
    hide ParseLine;
    var t := Print(x);
    assert t[0..|t|] == t;
    LineTrip(t, 0, x);
  }

  // ---- what any line parses to ----

  predicate NoNul(t: string) { forall i :: 0 <= i < |t| ==> t[i] as int != 0 }

  /** A whole word of the line. */
  predicate WordSpan(t: string, s: Span) {
    s.q < s.e <= |t| && (forall i :: s.q <= i < s.e ==> WordChar(t[i])) && (s.e < |t| ==> !WordChar(t[s.e]))
  }

  /** Every word of the command is a whole word of the line, and there are not too many. */
  predicate Good(t: string, c: Cmd) {
    match c
    case Exec(argv) => |argv| < MAXARGS && forall i :: 0 <= i < |argv| ==> WordSpan(t, argv[i])
    case Redir(d, r) => Good(t, d) && WordSpan(t, r.file)
    case Pipe(l, r) => Good(t, l) && Good(t, r)
    case List(l, r) => Good(t, l) && Good(t, r)
    case Back(d) => Good(t, d)
  }

  predicate GoodFiles(t: string, rs: seq<Redirection>) { forall i :: 0 <= i < |rs| ==> WordSpan(t, rs[i].file) }

  lemma TokenGood(t: string, p: nat)
    requires NoNul(t) && p <= |t|
    ensures GetToken(t, p).kind == 'a' ==> WordSpan(t, GetToken(t, p).s)
  {
  }

  lemma {:induction false} RedirsGood(t: string, p: nat)
    requires NoNul(t) && p <= |t|
    ensures Redirs(t, p).Ok? ==> GoodFiles(t, Redirs(t, p).v)
    decreases |t| - p
  {
    if Peek(t, p, {'<', '>'}) {
      var f := GetToken(t, GetToken(t, p).next);
      TokenGood(t, GetToken(t, p).next);
      if f.kind == 'a' { RedirsGood(t, f.next); }
    }
  }

  lemma {:induction false} ArgsGood(t: string, p: nat, argc: nat)
    requires NoNul(t) && p <= |t|
    ensures var r := Args(t, p, argc);
      r.Ok? && argc < MAXARGS ==>
        && argc + |r.v.argv| < MAXARGS && GoodFiles(t, r.v.rs)
        && forall i :: 0 <= i < |r.v.argv| ==> WordSpan(t, r.v.argv[i])
    decreases |t| - p
  {
    hide WordSpan, Redirs, Args, SkipWs, WordEnd;
    ArgsIs(t, p, argc);
    var k := GetToken(t, p);
    if !Peek(t, p, {'|', ')', '&', ';'}) && k.kind == 'a' && argc + 1 < MAXARGS {
      TokenGood(t, p);
      RedirsGood(t, k.next);
      var rs := Redirs(t, k.next);
      if rs.Ok? { ArgsGood(t, rs.p, argc + 1); }
    }
  }

  lemma {:induction false} WrapGood(t: string, c: Cmd, rs: seq<Redirection>)
    requires Good(t, c) && GoodFiles(t, rs)
    ensures Good(t, Wrap(c, rs))
    decreases |rs|
  {
    if rs != [] { WrapGood(t, Redir(c, rs[0]), rs[1..]); }
  }

  lemma {:induction false} BacksGood(t: string, p: nat, c: Cmd)
    requires p <= |t| && Good(t, c)
    ensures Good(t, Backs(t, p, c).v)
    decreases |t| - p
  {
    if Peek(t, p, {'&'}) { BacksGood(t, GetToken(t, p).next, Back(c)); }
  }

  lemma {:induction false} LineGood(t: string, p: nat)
    requires NoNul(t) && p <= |t|
    ensures ParseLine(t, p).Ok? ==> Good(t, ParseLine(t, p).v)
    decreases |t| - p, 3
  {
    hide ParsePipe, Good, Backs;
    PipeGood(t, p);
    var c := ParsePipe(t, p);
    if c.Ok? {
      BacksGood(t, c.p, c.v);
      var b := Backs(t, c.p, c.v);
      if Peek(t, b.p, {';'}) {
        var rest := ParseLine(t, GetToken(t, b.p).next);
        LineGood(t, GetToken(t, b.p).next);
        if rest.Ok? { assert Good(t, List(b.v, rest.v)) by { BothGood(t, b.v, rest.v); } }
      }
    }
  }

  lemma BothGood(t: string, l: Cmd, r: Cmd)
    requires Good(t, l) && Good(t, r)
    ensures Good(t, List(l, r)) && Good(t, Pipe(l, r))
  {
  }

  lemma {:induction false} PipeGood(t: string, p: nat)
    requires NoNul(t) && p <= |t|
    ensures ParsePipe(t, p).Ok? ==> Good(t, ParsePipe(t, p).v)
    decreases |t| - p, 2
  {
    hide ParseExec, Good;
    ExecGood(t, p);
    var c := ParseExec(t, p);
    if c.Ok? && Peek(t, c.p, {'|'}) {
      var rest := ParsePipe(t, GetToken(t, c.p).next);
      PipeGood(t, GetToken(t, c.p).next);
      if rest.Ok? { BothGood(t, c.v, rest.v); }
    }
  }

  lemma {:induction false} ExecGood(t: string, p: nat)
    requires NoNul(t) && p <= |t|
    ensures ParseExec(t, p).Ok? ==> Good(t, ParseExec(t, p).v)
    decreases |t| - p, 1
  {
    hide ParseLine, Redirs, Args, Wrap, WordSpan;
    if Peek(t, p, {'('}) {
      BlockGood(t, p);
    } else {
      RedirsGood(t, p);
      var rs := Redirs(t, p);
      if rs.Ok? {
        ArgsGood(t, rs.p, 0);
        var a := Args(t, rs.p, 0);
        if a.Ok? { WrapGood(t, Exec(a.v.argv), rs.v + a.v.rs); }
      }
    }
  }

  lemma {:induction false} BlockGood(t: string, p: nat)
    requires NoNul(t) && p <= |t| && Peek(t, p, {'('})
    ensures ParseBlock(t, p).Ok? ==> Good(t, ParseBlock(t, p).v)
    decreases |t| - p, 0
  {
    hide ParseLine, Redirs, Wrap, Good;
    var k := GetToken(t, p);
    LineGood(t, k.next);
    var c := ParseLine(t, k.next);
    if c.Ok? && Peek(t, c.p, {')'}) {
      var z := GetToken(t, c.p);
      RedirsGood(t, z.next);
      if Redirs(t, z.next).Ok? { WrapGood(t, c.v, Redirs(t, z.next).v); }
    }
  }

  lemma {:induction false} GoodLegal(t: string, c: Cmd)
    requires Good(t, c)
    ensures Legal(Resolve(t, c))
  {
    match c
    case Exec(argv) =>
    case Redir(d, r) => GoodLegal(t, d);
    case Pipe(l, r) => GoodLegal(t, l); GoodLegal(t, r);
    case List(l, r) => GoodLegal(t, l); GoodLegal(t, r);
    case Back(d) => GoodLegal(t, d);
  }

  /** Every line the parser accepts means the same as its fully parenthesised form. */
  lemma NormalForm(t: string)
    requires NoNul(t) && ParseCmd(t).Ok?
    ensures var x := Resolve(t, ParseCmd(t).v);
      Legal(x) && ParseCmd(Print(x)).Ok? && Resolve(Print(x), ParseCmd(Print(x)).v) == x
  {
    hide ParseLine, Resolve, Legal, Print;
    LineGood(t, 0);
    GoodLegal(t, ParseCmd(t).v);
    RoundTrip(Resolve(t, ParseCmd(t).v));
  }
}
