/** The regular expression matcher of user/grep.c against the language of the pattern. */
module Grep {
  /** Literals, `.`, and either of them starred, one after the other. */
  datatype Regex = Eps | Atom(c: char) | Star(c: char) | Cat(left: Regex, right: Regex)

  predicate Fits(c: char, x: char) {
    c == '.' || c == x
  }

  /** The strings a regular expression denotes. */
  ghost predicate Lang(r: Regex, w: string) {
    match r
    case Eps => w == ""
    case Atom(c) => |w| == 1 && Fits(c, w[0])
    case Star(c) => forall i :: 0 <= i < |w| ==> Fits(c, w[i])
    case Cat(a, b) => exists k :: 0 <= k <= |w| && Lang(a, w[..k]) && Lang(b, w[k..])
  }

  /** A pattern after its leading ^: an expression, and whether $ ends it. */
  datatype Pattern = Pattern(r: Regex, eol: bool)

  /** `c*` binds first, `$` is special only at the very end, anything else stands for itself. */
  function Parse(re: string): Pattern {
    if re == "" then Pattern(Eps, false)
    else if |re| > 1 && re[1] == '*' then
      var p := Parse(re[2..]); Pattern(Cat(Star(re[0]), p.r), p.eol)
    else if re == "$" then Pattern(Eps, true)
    else
      var p := Parse(re[1..]); Pattern(Cat(Atom(re[0]), p.r), p.eol)
  }

  /** The text has a string of the pattern at its beginning, all of it if $ asks for that. */
  ghost predicate Here(p: Pattern, text: string) {
    exists j :: 0 <= j <= |text| && Lang(p.r, text[..j]) && (p.eol ==> j == |text|)
  }

  /** The text has a string of the pattern somewhere, at its beginning if ^ asks for that. */
  ghost predicate Contains(re: string, text: string) {
    if re != "" && re[0] == '^' then Here(Parse(re[1..]), text)
    else exists i :: 0 <= i <= |text| && Here(Parse(re), text[i..])
  }

  lemma HereEps(text: string, eol: bool)
    ensures Here(Pattern(Eps, eol), text) <==> (eol ==> text == "")
  {
    assert text[..0] == "";
    assert eol ==> text[..|text|] == text;
  }

  lemma TailOfPrefix(text: string, j: nat)
    requires 0 < j <= |text|
    ensures text[..j][1..] == text[1..][..j - 1] && text[..j][..1] == [text[0]]
  {
  }

  lemma HereAtom(c: char, p: Pattern, text: string)
    ensures Here(Pattern(Cat(Atom(c), p.r), p.eol), text) <==> text != "" && Fits(c, text[0]) && Here(p, text[1..])
  {
    var q := Pattern(Cat(Atom(c), p.r), p.eol);
    if Here(q, text) {
      var j :| 0 <= j <= |text| && Lang(q.r, text[..j]) && (q.eol ==> j == |text|);
      var k :| 0 <= k <= j && Lang(Atom(c), text[..j][..k]) && Lang(p.r, text[..j][k..]);
      assert k == 1;
      TailOfPrefix(text, j);
    }
    if text != "" && Fits(c, text[0]) && Here(p, text[1..]) {
      var j :| 0 <= j <= |text[1..]| && Lang(p.r, text[1..][..j]) && (p.eol ==> j == |text[1..]|);
      TailOfPrefix(text, j + 1);
      assert Lang(Atom(c), text[..j + 1][..1]) && Lang(p.r, text[..j + 1][1..]);
      assert Lang(q.r, text[..j + 1]);
    }
  }

  /** A starred character takes up any run of characters that fit it. */
  lemma HereStar(c: char, p: Pattern, text: string)
    ensures Here(Pattern(Cat(Star(c), p.r), p.eol), text)
            <==> exists n :: 0 <= n <= |text| && Lang(Star(c), text[..n]) && Here(p, text[n..])
  {
    var q := Pattern(Cat(Star(c), p.r), p.eol);
    if Here(q, text) {
      var j :| 0 <= j <= |text| && Lang(q.r, text[..j]) && (q.eol ==> j == |text|);
      var k :| 0 <= k <= j && Lang(Star(c), text[..j][..k]) && Lang(p.r, text[..j][k..]);
      assert text[..j][..k] == text[..k];
      assert text[..j][k..] == text[k..][..j - k];
      assert Here(p, text[k..]);
    }
    if n :| 0 <= n <= |text| && Lang(Star(c), text[..n]) && Here(p, text[n..]) {
      var j :| 0 <= j <= |text[n..]| && Lang(p.r, text[n..][..j]) && (p.eol ==> j == |text[n..]|);
      assert text[..n + j][n..] == text[n..][..j] && text[..n + j][..n] == text[..n];
      assert Lang(q.r, text[..n + j]);
    }
  }

  /** matchhere */
  method MatchHere(re: string, text: string) returns (r: bool)
    ensures r <==> Here(Parse(re), text)
    decreases |re|, 0
  {
    if re == "" {
      HereEps(text, false);
      return true;
    }
    if |re| > 1 && re[1] == '*' {
      HereStar(re[0], Parse(re[2..]), text);
      r := MatchStar(re[0], re[2..], text);
      return;
    }
    if re[0] == '$' && |re| == 1 {
      HereEps(text, true);
      return text == "";
    }
    HereAtom(re[0], Parse(re[1..]), text);
    if text != "" && (re[0] == '.' || re[0] == text[0]) {
      r := MatchHere(re[1..], text[1..]);
      return;
    }
    r := false;
  }

  /** matchstar: c*re at the beginning of text */
  method MatchStar(c: char, re: string, text: string) returns (r: bool)
    ensures r <==> exists n :: 0 <= n <= |text| && Lang(Star(c), text[..n]) && Here(Parse(re), text[n..])
    decreases |re|, 1
  {
    var t := 0;
    while true
      invariant 0 <= t <= |text| && Lang(Star(c), text[..t])
      invariant forall n :: 0 <= n < t ==> !Here(Parse(re), text[n..])
      decreases |text| - t
    {
      r := MatchHere(re, text[t..]);
      if r {
        return;
      }
      if t == |text| || !(text[t] == c || c == '.') {
        assert forall n :: t < n <= |text| ==> !Fits(c, text[..n][t]);
        return false;
      }
      t := t + 1;
    }
  }

  /** match returns 1 exactly when the text contains a string of the pattern's language. */
  method Match(re: string, text: string) returns (r: bool)
    ensures r <==> Contains(re, text)
  {
    if re != "" && re[0] == '^' {
      r := MatchHere(re[1..], text);
      return;
    }
    var t := 0;
    while true
      invariant 0 <= t <= |text|
      invariant forall i :: 0 <= i < t ==> !Here(Parse(re), text[i..])
      decreases |text| - t
    {
      r := MatchHere(re, text[t..]);
      if r {
        return;
      }
      if t == |text| {
        return false;
      }
      t := t + 1;
    }
  }

  // ---------------------------------------------------------------- patterns as they are written

  /** A character of the pattern, or a character and its star. */
  datatype Unit = Unit(c: char, star: bool)

  /** The pattern one writes for a list of units, with or without a $ behind it. */
  function Render(us: seq<Unit>, eol: bool): string {
    if us == [] then (if eol then "$" else "")
    else if us[0].star then [us[0].c, '*'] + Render(us[1..], eol)
    else [us[0].c] + Render(us[1..], eol)
  }

  function Tree(us: seq<Unit>): Regex {
    if us == [] then Eps
    else Cat(if us[0].star then Star(us[0].c) else Atom(us[0].c), Tree(us[1..]))
  }

  /** A star after an unstarred character would be taken for that character's own star, and a last `$` for the
      end of the line. */
  predicate WellFormed(us: seq<Unit>, eol: bool) {
    && (forall i :: 0 <= i < |us| - 1 && !us[i].star ==> us[i + 1].c != '*')
    && (us != [] && us[|us| - 1] == Unit('$', false) ==> eol)
  }

  lemma {:induction false} ParseRender(us: seq<Unit>, eol: bool)
    requires WellFormed(us, eol)
    ensures Parse(Render(us, eol)) == Pattern(Tree(us), eol)
  {
    if us != [] {
      var rest, tail := us[1..], Render(us[1..], eol);
      ParseRender(rest, eol);
      assert tail != "" && rest != [] ==> tail[0] == rest[0].c == us[1].c;
      if us[0].star {
        assert Render(us, eol)[2..] == tail;
      } else {
        assert Render(us, eol)[1..] == tail;
      }
    }
  }

  /** Every string is the written form of a list of units. */
  lemma {:induction false} EveryPatternIsWritten(re: string) returns (us: seq<Unit>, eol: bool)
    ensures WellFormed(us, eol) && Render(us, eol) == re
  {
    if re == "" || re == "$" {
      us, eol := [], re == "$";
    } else {
      var star := |re| > 1 && re[1] == '*';
      var rest: seq<Unit>;
      rest, eol := EveryPatternIsWritten(if star then re[2..] else re[1..]);
      us := [Unit(re[0], star)] + rest;
      assert us[1..] == rest && (rest == [] || us[|us| - 1] == rest[|rest| - 1]);
      assert forall i :: 0 < i < |us| ==> us[i] == rest[i - 1];
    }
  }

  // ---------------------------------------------------------------- what literals, `.`, `*`, ^ and $ stand for

  predicate Literal(w: string) {
    forall i :: 0 <= i < |w| ==> w[i] !in ".*$^"
  }

  /** A literal stands for itself. */
  lemma {:induction false} HereLiteral(w: string, text: string)
    requires Literal(w)
    ensures Here(Parse(w), text) <==> w <= text
    ensures Here(Parse(w + "$"), text) <==> w == text
  {
    if w == "" {
      HereEps(text, false);
      HereEps(text, true);
      assert w + "$" == "$";
    } else {
      assert (w + "$")[1..] == w[1..] + "$" && (w + "$")[1] == if |w| > 1 then w[1] else '$';
      HereAtom(w[0], Parse(w[1..]), text);
      HereAtom(w[0], Parse(w[1..] + "$"), text);
      if text != "" {
        HereLiteral(w[1..], text[1..]);
        assert text == [text[0]] + text[1..] && w == [w[0]] + w[1..];
      }
    }
  }

  /** ^ ties a literal to the beginning of the text, $ to its end, both to the whole of it; neither leaves it free. */
  lemma LiteralMatches(w: string, text: string)
    requires Literal(w)
    ensures Contains(w, text) <==> exists i :: 0 <= i <= |text| && w <= text[i..]
    ensures Contains("^" + w, text) <==> w <= text
    ensures Contains(w + "$", text) <==> |w| <= |text| && text[|text| - |w|..] == w
    ensures Contains("^" + w + "$", text) <==> text == w
  {
    forall i | 0 <= i <= |text|
      ensures Here(Parse(w), text[i..]) <==> w <= text[i..]
      ensures Here(Parse(w + "$"), text[i..]) <==> w == text[i..]
    {
      HereLiteral(w, text[i..]);
    }
    assert text[0..] == text;
    assert ("^" + w)[1..] == w && ("^" + w + "$")[1..] == w + "$";
    assert w != "" ==> (w + "$")[0] == w[0];
  }

  /** c* stands for any number of c, and .* for anything. */
  lemma StarMatches(c: char, w: string, text: string)
    requires Literal(w)
    ensures Contains("^" + [c, '*'] + w + "$", text)
            <==> exists n :: 0 <= n <= |text| && text[n..] == w && (c == '.' || forall k :: 0 <= k < n ==> text[k] == c)
  {
    var re := "^" + [c, '*'] + w + "$";
    assert re[0] == '^' && re[1..][..2] == [c, '*'] && re[1..][2..] == w + "$";
    HereStar(c, Parse(w + "$"), text);
    forall n | 0 <= n <= |text|
      ensures Here(Parse(w + "$"), text[n..]) <==> text[n..] == w
      ensures Lang(Star(c), text[..n]) <==> c == '.' || forall k :: 0 <= k < n ==> text[k] == c
    {
      HereLiteral(w, text[n..]);
    }
  }

  /** A dot stands for one character. */
  lemma DotMatches(w: string, text: string)
    requires Literal(w)
    ensures Contains("^." + w + "$", text) <==> text != "" && text[1..] == w
  {
    var re := "^." + w + "$";
    assert re[0] == '^' && re[1] == '.' && re[1..][1..] == w + "$" && re[2] != '*';
    HereAtom('.', Parse(w + "$"), text);
    if text != "" {
      HereLiteral(w, text[1..]);
    }
  }
}
