/** The shell's parser (user/sh.c:261-447) as functions of the line and a position in it. */
module ShellModel {

  const MAXARGS: nat := 10

  predicate White(c: char) { c == ' ' || c == '\t' || c == '\r' || c == '\n' || c as int == 11 }
  predicate Symbol(c: char) { c == '<' || c == '|' || c == '>' || c == '&' || c == ';' || c == '(' || c == ')' }
  predicate WordChar(c: char) { !White(c) && !Symbol(c) && c as int != 0 }

  /** A piece of the line: the bytes from `q` up to `e`. */
  datatype Span = Span(q: nat, e: nat)

  datatype Kind = In | Out | Append
  datatype Redirection = Redirection(kind: Kind, file: Span)

  datatype Cmd =
    | Exec(argv: seq<Span>)
    | Redir(cmd: Cmd, r: Redirection)
    | Pipe(left: Cmd, right: Cmd)
    | List(left: Cmd, right: Cmd)
    | Back(cmd: Cmd)

  datatype Error = MissingFile | Syntax | MissingParen | TooManyArgs | Leftovers

  datatype Result<T> = Ok(v: T, p: nat) | Fail(e: Error)

  function SkipWs(t: string, p: nat): (r: nat)
    requires p <= |t|
    ensures p <= r <= |t| && (r < |t| ==> !White(t[r])) && forall i :: p <= i < r ==> White(t[i])
    decreases |t| - p
  {
    if p < |t| && White(t[p]) then SkipWs(t, p + 1) else p
  }

  /** One past the word that starts at `p`. */
  function WordEnd(t: string, p: nat): (r: nat)
    requires p <= |t|
    ensures p <= r <= |t| && (r < |t| ==> White(t[r]) || Symbol(t[r]))
    ensures forall i :: p <= i < r ==> !White(t[i]) && !Symbol(t[i])
    decreases |t| - p
  {
    if p < |t| && !White(t[p]) && !Symbol(t[p]) then WordEnd(t, p + 1) else p
  }

  /** `kind` is 0 at the end, 'a' for a word, '+' for >> and the symbol itself otherwise. */
  datatype Token = Token(kind: char, s: Span, next: nat)

  function GetToken(t: string, p: nat): (k: Token)
    requires p <= |t|
    ensures p <= k.s.q <= k.s.e <= k.next <= |t| && (k.kind != 0 as char ==> k.s.q < k.s.e)
    ensures k.kind == 'a' ==> k.s == Span(SkipWs(t, p), WordEnd(t, SkipWs(t, p))) && k.s.q < |t|
  {
    var q := SkipWs(t, p);
    var c := if q < |t| then t[q] else 0 as char;
    var k := if c == 0 as char then (c, q) else if c == '>'
      then (if q + 1 < |t| && t[q + 1] == '>' then ('+', q + 2) else (c, q + 1))
             else if Symbol(c) then (c, q + 1) else ('a', WordEnd(t, q));
    Token(k.0, Span(q, k.1), SkipWs(t, k.1))
  }

  predicate Peek(t: string, p: nat, toks: set<char>)
    requires p <= |t|
  {
    var q := SkipWs(t, p);
    q < |t| && t[q] in toks && t[q] != 0 as char
  }

  function ToKind(c: char): Kind { if c == '<' then In else if c == '>' then Out else Append }

  /** parseredirs: the redirections at `p`. */
  function Redirs(t: string, p: nat): (r: Result<seq<Redirection>>)
    requires p <= |t|
    ensures r.Ok? ==> p <= r.p <= |t|
    decreases |t| - p
  {
    if !Peek(t, p, {'<', '>'}) then Ok([], SkipWs(t, p)) else
    var k := GetToken(t, p);
    var f := GetToken(t, k.next);
    if f.kind != 'a' then Fail(MissingFile) else
    var rest := Redirs(t, f.next);
    if rest.Fail? then rest else Ok([Redirection(ToKind(k.kind), f.s)] + rest.v, rest.p)
  }

  /** The words of a command with the redirections among them. */
  datatype Simple = Simple(argv: seq<Span>, rs: seq<Redirection>)

  /** The loop of parseexec (user/sh.c:432-443) after `argc` words. */
  function Args(t: string, p: nat, argc: nat): (r: Result<Simple>)
    requires p <= |t|
    ensures r.Ok? ==> p <= r.p <= |t|
    decreases |t| - p
  {
    if Peek(t, p, {'|', ')', '&', ';'}) then Ok(Simple([], []), SkipWs(t, p)) else
    var k := GetToken(t, p);
    if k.kind == 0 as char then Ok(Simple([], []), k.next) else
    if k.kind != 'a' then Fail(Syntax) else
    if argc + 1 >= MAXARGS then Fail(TooManyArgs) else
    var rs := Redirs(t, k.next);
    if rs.Fail? then Fail(rs.e) else
    var rest := Args(t, rs.p, argc + 1);
    if rest.Fail? then rest else Ok(Simple([k.s] + rest.v.argv, rs.v + rest.v.rs), rest.p)
  }

  /** Each redirection goes around the command so far. */
  function Wrap(c: Cmd, rs: seq<Redirection>): Cmd
    decreases |rs|
  {
    if rs == [] then c else Wrap(Redir(c, rs[0]), rs[1..])
  }

  function Backs(t: string, p: nat, c: Cmd): (r: Result<Cmd>)
    requires p <= |t|
    ensures r.Ok? && p <= r.p <= |t|
    decreases |t| - p
  {
    if !Peek(t, p, {'&'}) then Ok(c, SkipWs(t, p)) else Backs(t, GetToken(t, p).next, Back(c))
  }

  function ParseLine(t: string, p: nat): (r: Result<Cmd>)
    requires p <= |t|
    ensures r.Ok? ==> p <= r.p <= |t|
    decreases |t| - p, 3
  {
    var c := ParsePipe(t, p);
    if c.Fail? then c else
    var b := Backs(t, c.p, c.v);
    if !Peek(t, b.p, {';'}) then Ok(b.v, SkipWs(t, b.p)) else
    var k := GetToken(t, b.p);
    var rest := ParseLine(t, k.next);
    if rest.Fail? then rest else Ok(List(b.v, rest.v), rest.p)
  }

  function ParsePipe(t: string, p: nat): (r: Result<Cmd>)
    requires p <= |t|
    ensures r.Ok? ==> p <= r.p <= |t|
    decreases |t| - p, 2
  {
    var c := ParseExec(t, p);
    if c.Fail? then c else
    if !Peek(t, c.p, {'|'}) then Ok(c.v, SkipWs(t, c.p)) else
    var k := GetToken(t, c.p);
    var rest := ParsePipe(t, k.next);
    if rest.Fail? then rest else Ok(Pipe(c.v, rest.v), rest.p)
  }

  function ParseExec(t: string, p: nat): (r: Result<Cmd>)
    requires p <= |t|
    ensures r.Ok? ==> p <= r.p <= |t|
    decreases |t| - p, 1
  {
    if Peek(t, p, {'('}) then ParseBlock(t, p) else
    var rs := Redirs(t, p);
    if rs.Fail? then Fail(rs.e) else
    var a := Args(t, rs.p, 0);
    if a.Fail? then Fail(a.e) else Ok(Wrap(Exec(a.v.argv), rs.v + a.v.rs), a.p)
  }

  function ParseBlock(t: string, p: nat): (r: Result<Cmd>)
    requires p <= |t| && Peek(t, p, {'('})
    ensures r.Ok? ==> p <= r.p <= |t|
    decreases |t| - p, 0
  {
    var k := GetToken(t, p);
    var c := ParseLine(t, k.next);
    if c.Fail? then c else
    if !Peek(t, c.p, {')'}) then Fail(MissingParen) else
    var z := GetToken(t, c.p);
    var rs := Redirs(t, z.next);
    if rs.Fail? then Fail(rs.e) else Ok(Wrap(c.v, rs.v), rs.p)
  }

  /** parsecmd, short of writing the NULs. */
  function ParseCmd(t: string): Result<Cmd> {
    var c := ParseLine(t, 0);
    if c.Fail? then c else if SkipWs(t, c.p) != |t| then Fail(Leftovers) else c
  }

  // ---- the two loops, one turn at a time ----

  lemma RedirsIs(t: string, p: nat)
    requires p <= |t|
    ensures !Peek(t, p, {'<', '>'}) ==> Redirs(t, p) == Ok([], SkipWs(t, p))
    ensures Peek(t, p, {'<', '>'}) ==>
      var k := GetToken(t, p);
      var f := GetToken(t, k.next);
      k.next > p && if f.kind != 'a' then Redirs(t, p) == Fail(MissingFile) else
        var rest := Redirs(t, f.next);
        Redirs(t, p) == if rest.Fail? then rest else Ok([Redirection(ToKind(k.kind), f.s)] + rest.v, rest.p)
  {
    hide WordEnd;
  }

  lemma ArgsIs(t: string, p: nat, argc: nat)
    requires p <= |t|
    ensures Peek(t, p, {'|', ')', '&', ';'}) ==> Args(t, p, argc) == Ok(Simple([], []), SkipWs(t, p))
    ensures !Peek(t, p, {'|', ')', '&', ';'}) ==>
      var k := GetToken(t, p);
      if k.kind == 0 as char then Args(t, p, argc) == Ok(Simple([], []), k.next)
      else if k.kind != 'a' then Args(t, p, argc) == Fail(Syntax)
      else if argc + 1 >= MAXARGS then Args(t, p, argc) == Fail(TooManyArgs)
      else
        var rs := Redirs(t, k.next);
        k.next > p && if rs.Fail? then Args(t, p, argc) == Fail(rs.e) else
          var rest := Args(t, rs.p, argc + 1);
          Args(t, p, argc) == if rest.Fail? then rest else Ok(Simple([k.s] + rest.v.argv, rs.v + rest.v.rs), rest.p)
  {
    hide SkipWs, WordEnd, Redirs;
  }
}
