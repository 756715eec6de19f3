/** The regular expression matcher of user/grep.c:65-106 and the language it recognises. */
module Grep {

  // ---- what a pattern means ----

  /** One character, or any number of one character; '.' stands for every character. */
  datatype Item = One(c: char) | Star(c: char)

  predicate Is(c: char, x: char) { c == '.' || c == x }

  /** The items of a pattern after any '^'. A '*' applies to whatever stands before it. */
  function Items(re: string): seq<Item> {
    if re == "" || re == "$" then []
    else if |re| >= 2 && re[1] == '*' then [Star(re[0])] + Items(re[2..])
    else [One(re[0])] + Items(re[1..])
  }

  /** The pattern ends in a '$' that anchors it. */
  predicate AtEnd(re: string) {
    if re == "" then false
    else if |re| >= 2 && re[1] == '*' then AtEnd(re[2..])
    else re == "$" || AtEnd(re[1..])
  }

  predicate Fits(it: Item, w: string) {
    match it
    case One(c) => |w| == 1 && Is(c, w[0])
    case Star(c) => forall i :: 0 <= i < |w| ==> Is(c, w[i])
  }

  function Concat(ws: seq<string>): string { if ws == [] then "" else ws[0] + Concat(ws[1..]) }

  /** The words `ws` fit the items one by one. */
  predicate Denotes(items: seq<Item>, ws: seq<string>)
  {
    |ws| == |items| && forall i :: 0 <= i < |ws| ==> Fits(items[i], ws[i])
  }

  /** `ws` shows that the text starts with a match of the pattern. */
  predicate Shows(re: string, text: string, ws: seq<string>) {
    Denotes(Items(re), ws) && Concat(ws) <= text && (AtEnd(re) ==> Concat(ws) == text)
  }

  ghost predicate MatchesHere(re: string, text: string) { exists ws :: Shows(re, text, ws) }

  // ---- the matcher ----

  predicate MatchHere(re: string, text: string)
    decreases |re|, |text| + 1
  {
    if re == "" then true
    else if |re| >= 2 && re[1] == '*' then MatchStar(re[0], re[2..], text)
    else if re == "$" then text == ""
    else text != "" && Is(re[0], text[0]) && MatchHere(re[1..], text[1..])
  }

  predicate MatchStar(c: char, re: string, text: string)
    decreases |re| + 1, |text|
  {
    MatchHere(re, text) || (text != "" && Is(c, text[0]) && MatchStar(c, re, text[1..]))
  }

  /** Whether a match starts at or after `i`. */
  predicate MatchFrom(re: string, text: string, i: nat)
    requires i <= |text|
    decreases |text| - i
  {
    MatchHere(re, text[i..]) || (i < |text| && MatchFrom(re, text, i + 1))
  }

  predicate Match(re: string, text: string)
  {
    if re != "" && re[0] == '^' then MatchHere(re[1..], text) else MatchFrom(re, text, 0)
  }

  // ---- the matcher recognises the language ----

  lemma OneStep(re: string, text: string, ws: seq<string>)
    requires re != "" && re != "$" && !(|re| >= 2 && re[1] == '*') && Shows(re, text, ws)
    ensures text != "" && Is(re[0], text[0]) && Shows(re[1..], text[1..], ws[1..])
  {
    var w, rest := ws[0], ws[1..];
    assert Fits(Items(re)[0], w);
    assert Concat(ws) == w + Concat(rest) && w == [w[0]];
    assert text[0] == Concat(ws)[0];
    forall i | 0 <= i < |rest| ensures Fits(Items(re[1..])[i], rest[i]) { assert Fits(Items(re)[i + 1], ws[i + 1]); }
  }

  lemma StarStep(re: string, text: string, ws: seq<string>)
    requires |re| >= 2 && re[1] == '*' && Shows(re, text, ws)
    ensures ws[0] == "" ==> Shows(re[2..], text, ws[1..])
    ensures ws[0] != "" ==> text != "" && Is(re[0], text[0]) && Shows(re, text[1..], [ws[0][1..]] + ws[1..])
  {
    var w, rest := ws[0], ws[1..];
    assert Fits(Items(re)[0], w);
    assert Concat(ws) == w + Concat(rest);
    forall i | 0 <= i < |rest| ensures Fits(Items(re[2..])[i], rest[i]) { assert Fits(Items(re)[i + 1], ws[i + 1]); }
    if w != "" {
      var vs := [w[1..]] + rest;
      assert text[0] == Concat(ws)[0] == w[0];
      assert Concat(vs) == w[1..] + Concat(rest) by { assert vs[1..] == rest; }
      forall i | 0 <= i < |vs| ensures Fits(Items(re)[i], vs[i]) { assert Fits(Items(re)[i], ws[i]); }
    }
  }

  /** Whatever the pattern means is found. */
  lemma {:induction false} Complete(re: string, text: string, ws: seq<string>)
    requires Shows(re, text, ws)
    ensures MatchHere(re, text)
    decreases |re|, |text|
  {
    if re == "" {
    } else if |re| >= 2 && re[1] == '*' {
      StarStep(re, text, ws);
      if ws[0] == "" {
        Complete(re[2..], text, ws[1..]);
      } else {
        Complete(re, text[1..], [ws[0][1..]] + ws[1..]);
      }
    } else if re == "$" {
      assert Concat(ws) == "";
    } else {
      OneStep(re, text, ws);
      Complete(re[1..], text[1..], ws[1..]);
    }
  }

  lemma Consed(re: string, it: Item, w: string, rest: string, text: string, ws: seq<string>)
    requires Items(re) == [it] + Items(rest) && AtEnd(re) == AtEnd(rest) && Fits(it, w) && w <= text
    requires Shows(rest, text[|w|..], ws)
    ensures Shows(re, text, [w] + ws)
  {
    var vs := [w] + ws;
    assert vs[1..] == ws;
    assert text == w + text[|w|..];
    assert Concat(vs) == w + Concat(ws);
    forall i | 0 <= i < |vs| ensures Fits(Items(re)[i], vs[i])
      { if i > 0 { assert Fits(Items(rest)[i - 1], ws[i - 1]); } }
  }

  /** Whatever is found is what the pattern means. */
  lemma {:induction false} Sound(re: string, text: string) returns (ws: seq<string>)
    requires MatchHere(re, text)
    ensures Shows(re, text, ws)
    decreases |re|, |text| + 1
  {
    if re == "" || re == "$" {
      ws := [];
    } else if |re| >= 2 && re[1] == '*' {
      var w, rest := SoundStar(re[0], re[2..], text);
      Consed(re, Star(re[0]), w, re[2..], text, rest);
      ws := [w] + rest;
    } else {
      var rest := Sound(re[1..], text[1..]);
      Consed(re, One(re[0]), [text[0]], re[1..], text, rest);
      ws := [[text[0]]] + rest;
    }
  }

  lemma {:induction false} SoundStar(c: char, re: string, text: string) returns (w: string, ws: seq<string>)
    requires MatchStar(c, re, text)
    ensures Fits(Star(c), w) && w <= text && Shows(re, text[|w|..], ws)
    decreases |re| + 1, |text|
  {
    if MatchHere(re, text) {
      w := "";
      ws := Sound(re, text);
    } else {
      var v;
      v, ws := SoundStar(c, re, text[1..]);
      w := [text[0]] + v;
      assert text[|w|..] == text[1..][|v|..];
    }
  }

  /** matchhere answers yes exactly when the text starts with a string of the pattern's language. */
  lemma MatchHereIs(re: string, text: string)
    ensures MatchHere(re, text) <==> MatchesHere(re, text)
  {
    if MatchHere(re, text) { var ws := Sound(re, text); }
    if MatchesHere(re, text) { var ws :| Shows(re, text, ws); Complete(re, text, ws); }
  }

  lemma {:induction false} MatchFromIs(re: string, text: string, i: nat)
    requires i <= |text|
    ensures MatchFrom(re, text, i) <==> exists j :: i <= j <= |text| && MatchHere(re, text[j..])
    decreases |text| - i
  {
    if i < |text| { MatchFromIs(re, text, i + 1); }
  }

  /** grep prints a line exactly when some part of it is a string of the pattern's language: the
      start if the pattern begins with '^', up to the end if it finishes with '$'. */
  lemma MatchIs(re: string, text: string)
    ensures Match(re, text) <==>
      if re != "" && re[0] == '^' then MatchesHere(re[1..], text)
      else exists j :: 0 <= j <= |text| && MatchesHere(re, text[j..])
  {
    if re != "" && re[0] == '^' {
      MatchHereIs(re[1..], text);
    } else {
      MatchFromIs(re, text, 0);
      forall j | 0 <= j <= |text| ensures MatchHere(re, text[j..]) <==> MatchesHere(re, text[j..]) {
        MatchHereIs(re, text[j..]);
      }
    }
  }

  // ---- the loops ----

  /** user/grep.c:73-82. */
  method Find(re: string, text: string) returns (yes: bool)
    ensures yes <==> Match(re, text)
  {
    if re != "" && re[0] == '^' {
      yes := Here(re[1..], text);
      return;
    }
    var i := 0;
    while true
      invariant 0 <= i <= |text| && MatchFrom(re, text, i) == MatchFrom(re, text, 0)
      decreases |text| - i
    {
      var here := Here(re, text[i..]);
      if here { return true; }
      if i == |text| { return false; }
      i := i + 1;
    }
  }

  /** user/grep.c:85-96. */
  method Here(re: string, text: string) returns (yes: bool)
    ensures yes <==> MatchHere(re, text)
    decreases |re|, |text| + 1
  {
    if re == "" { return true; }
    if |re| >= 2 && re[1] == '*' {
      yes := Stars(re[0], re[2..], text);
      return;
    }
    if re == "$" { return text == ""; }
    if text != "" && (re[0] == '.' || re[0] == text[0]) {
      yes := Here(re[1..], text[1..]);
      return;
    }
    yes := false;
  }

  /** user/grep.c:99-106. */
  method Stars(c: char, re: string, text: string) returns (yes: bool)
    ensures yes <==> MatchStar(c, re, text)
    decreases |re| + 1, |text|
  {
    var i := 0;
    while true
      invariant 0 <= i <= |text| && MatchStar(c, re, text[i..]) == MatchStar(c, re, text)
      decreases |text| - i
    {
      var here := Here(re, text[i..]);
      if here { return true; }
      if i == |text| || !(text[i] == c || c == '.') { return false; }
      assert text[i..][1..] == text[i + 1..];
      i := i + 1;
    }
  }
}
