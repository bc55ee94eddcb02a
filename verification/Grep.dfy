/** The pattern matcher of grep, against the regular language of a pattern. */
module Grep {

  datatype Regex =
    | Empty
    | Any
    | Char(c: char)
    | Cat(first: Regex, second: Regex)
    | Star(body: Regex)

  // The words of a regular expression.
  ghost predicate In(r: Regex, w: string)
    decreases r, |w|
  {
    match r
    case Empty => w == ""
    case Any => |w| == 1
    case Char(c) => w == [c]
    case Cat(a, b) => exists k :: 0 <= k <= |w| && In(a, w[..k]) && In(b, w[k..])
    case Star(a) => w == "" || exists k :: 0 < k <= |w| && In(a, w[..k]) && In(r, w[k..])
  }

  // A pattern: an expression, and whether it must reach the end of the text.
  datatype Pattern = Pattern(expr: Regex, toEnd: bool)

  function One(c: char): Regex {
    if c == '.' then Any else Char(c)
  }

  // What a pattern without ^ means: c* repeats one character, a dot is any character, a
  // final $ is the end of the text, and everything else, a first * and an inner $ too,
  // stands for itself.
  function Parse(re: string): Pattern {
    if re == "" then Pattern(Empty, false)
    else if |re| >= 2 && re[1] == '*' then
      var p := Parse(re[2..]);
      p.(expr := Cat(Star(One(re[0])), p.expr))
    else if re == "$" then Pattern(Empty, true)
    else
      var p := Parse(re[1..]);
      p.(expr := Cat(One(re[0]), p.expr))
  }

  // Some prefix of the text is a word of the pattern.
  ghost predicate Prefix(p: Pattern, text: string) {
    exists k :: 0 <= k <= |text| && In(p.expr, text[..k]) && (p.toEnd ==> k == |text|)
  }

  // ^ anchors the match at the start of the text; without it a match may start anywhere.
  ghost predicate Found(re: string, text: string) {
    if re != "" && re[0] == '^' then Prefix(Parse(re[1..]), text)
    else exists i :: 0 <= i <= |text| && Prefix(Parse(re), text[i..])
  }

  // ---- one character and its repetition ---------------------------------

  predicate Fits(c: char, x: char) {
    c == '.' || c == x
  }

  lemma InOne(c: char, w: string)
    ensures In(One(c), w) <==> |w| == 1 && Fits(c, w[0])
  {
  }

  lemma {:induction false} InStar(c: char, w: string)
    ensures In(Star(One(c)), w) <==> forall j :: 0 <= j < |w| ==> Fits(c, w[j])
    decreases |w|
  {
    forall k | 0 < k <= |w|
      ensures In(One(c), w[..k]) && In(Star(One(c)), w[k..]) ==> forall j :: 0 <= j < |w| ==> Fits(c, w[j])
    {
      InOne(c, w[..k]);
      InStar(c, w[k..]);
      if k == 1 {
        assert forall j :: 0 < j < |w| ==> w[1..][j - 1] == w[j];
      }
    }
    if w != "" && forall j :: 0 <= j < |w| ==> Fits(c, w[j]) {
      InOne(c, w[..1]);
      InStar(c, w[1..]);
      assert In(One(c), w[..1]) && In(Star(One(c)), w[1..]);
    }
  }

  // ---- how a prefix starts ----------------------------------------------

  lemma InCatOne(c: char, r: Regex, w: string)
    ensures In(Cat(One(c), r), w) <==> w != "" && Fits(c, w[0]) && In(r, w[1..])
  {
    if In(Cat(One(c), r), w) {
      var m :| 0 <= m <= |w| && In(One(c), w[..m]) && In(r, w[m..]);
      InOne(c, w[..m]);
    }
    if w != "" && Fits(c, w[0]) && In(r, w[1..]) {
      InOne(c, w[..1]);
    }
  }

  lemma PrefixOne(c: char, p: Pattern, text: string)
    ensures Prefix(Pattern(Cat(One(c), p.expr), p.toEnd), text) <==>
            text != "" && Fits(c, text[0]) && Prefix(p, text[1..])
  {
    hide In, One;
    var q := Pattern(Cat(One(c), p.expr), p.toEnd);
    if Prefix(q, text) {
      var k :| 0 <= k <= |text| && In(q.expr, text[..k]) && (q.toEnd ==> k == |text|);
      InCatOne(c, p.expr, text[..k]);
      assert text[..k][1..] == text[1..][..k - 1];
    }
    if text != "" && Fits(c, text[0]) && Prefix(p, text[1..]) {
      var k :| 0 <= k <= |text| - 1 && In(p.expr, text[1..][..k]) && (p.toEnd ==> k == |text| - 1);
      InCatOne(c, p.expr, text[..k + 1]);
      assert text[..k + 1][1..] == text[1..][..k];
    }
  }

  lemma PrefixStar(c: char, p: Pattern, text: string)
    ensures Prefix(Pattern(Cat(Star(One(c)), p.expr), p.toEnd), text) <==>
            exists n :: 0 <= n <= |text| && (forall j :: 0 <= j < n ==> Fits(c, text[j])) && Prefix(p, text[n..])
  {
    var q := Pattern(Cat(Star(One(c)), p.expr), p.toEnd);
    if Prefix(q, text) {
      var k :| 0 <= k <= |text| && In(q.expr, text[..k]) && (q.toEnd ==> k == |text|);
      var w := text[..k];
      var n :| 0 <= n <= |w| && In(Star(One(c)), w[..n]) && In(p.expr, w[n..]);
      InStar(c, w[..n]);
      assert forall j :: 0 <= j < n ==> text[j] == w[..n][j];
      assert w[n..] == text[n..][..k - n];
      assert Prefix(p, text[n..]);
    }
    if n :| 0 <= n <= |text| && (forall j :: 0 <= j < n ==> Fits(c, text[j])) && Prefix(p, text[n..]) {
      var k :| 0 <= k <= |text| - n && In(p.expr, text[n..][..k]) && (p.toEnd ==> k == |text| - n);
      var w := text[..n + k];
      InStar(c, w[..n]);
      assert w[n..] == text[n..][..k];
      assert In(q.expr, w);
    }
  }

  // ---- what patterns mean, without the language -------------------------

  predicate Letter(c: char) {
    c != '.' && c != '*' && c != '^' && c != '$'
  }

  predicate Letters(re: string) {
    forall i :: 0 <= i < |re| ==> Letter(re[i])
  }

  // A text starts with the letters of a pattern, and goes on as the rest of it says.
  lemma {:induction false} PrefixLetters(re: string, rest: string, text: string)
    requires Letters(re) && (rest == "" || rest[0] != '*')
    ensures Prefix(Parse(re + rest), text) <==>
            |re| <= |text| && text[..|re|] == re && Prefix(Parse(rest), text[|re|..])
  {
    hide In, One, Prefix;
    if re == "" {
      assert re + rest == rest && text[..0] == re && text[0..] == text;
    } else {
      assert (re + rest)[1..] == re[1..] + rest;
      assert |re + rest| >= 2 ==> (re + rest)[1] != '*';
      PrefixOne(re[0], Parse(re[1..] + rest), text);
      if text != "" {
        PrefixLetters(re[1..], rest, text[1..]);
        assert |re| <= |text| ==> text[1..][|re| - 1..] == text[|re|..];
        assert |re| <= |text| ==> text[..|re|] == [text[0]] + text[1..][..|re| - 1];
        assert re == [re[0]] + re[1..];
      }
    }
  }

  lemma PrefixEmpty(text: string)
    ensures Prefix(Parse(""), text)
    ensures Prefix(Parse("$"), text) <==> text == ""
  {
    assert In(Empty, text[..0]);
  }

  predicate Occurs(re: string, text: string, i: nat) {
    i + |re| <= |text| && text[i..i + |re|] == re
  }

  // Letters alone are found where the text has them,
  lemma LettersFound(re: string, text: string)
    requires Letters(re)
    ensures Found(re, text) <==> exists i: nat :: Occurs(re, text, i)
  {
    hide In, Parse, Prefix;
    assert re + "" == re;
    forall i: nat | i <= |text|
      ensures Prefix(Parse(re), text[i..]) <==> Occurs(re, text, i)
    {
      PrefixLetters(re, "", text[i..]);
      PrefixEmpty(text[i..][if |re| <= |text| - i then |re| else 0..]);
      assert i + |re| <= |text| ==> text[i..][..|re|] == text[i..i + |re|];
    }
  }

  // after ^ at its start, and before $ at its end.
  lemma LettersAnchored(re: string, text: string)
    requires Letters(re)
    ensures Found("^" + re, text) <==> |re| <= |text| && text[..|re|] == re
    ensures Found(re + "$", text) <==> |re| <= |text| && text[|text| - |re|..] == re
    ensures Found("^" + re + "$", text) <==> text == re
  {
    hide In, Parse, Prefix;
    assert re + "" == re && ("^" + re)[1..] == re && ("^" + re + "$")[1..] == re + "$";
    PrefixLetters(re, "", text);
    PrefixEmpty(text[if |re| <= |text| then |re| else 0..]);
    forall i | 0 <= i <= |text|
      ensures Prefix(Parse(re + "$"), text[i..]) <==> i + |re| == |text| && text[i..] == re
    {
      PrefixLetters(re, "$", text[i..]);
      if |re| <= |text| - i {
        PrefixEmpty(text[i..][|re|..]);
        assert text[i..][|re|..] == "" <==> i + |re| == |text|;
      }
    }
    assert text[0..] == text;
  }

  // A dot stands for any one character, and c* for any number of c, or of any characters.
  lemma DotAndStar(re: string, text: string)
    requires re == "" || re[0] != '*'
    ensures Prefix(Parse("." + re), text) <==> text != "" && Prefix(Parse(re), text[1..])
    ensures Prefix(Parse(".*" + re), text) <==> exists n :: 0 <= n <= |text| && Prefix(Parse(re), text[n..])
    ensures forall c: char :: c != '.' ==>
      (Prefix(Parse([c, '*'] + re), text) <==>
       exists n :: 0 <= n <= |text| && (forall j :: 0 <= j < n ==> text[j] == c) && Prefix(Parse(re), text[n..]))
  {
    hide In, Prefix, One;
    assert ("." + re)[1..] == re && (".*" + re)[2..] == re;
    assert ("." + re)[0] == '.' && (re != "" ==> ("." + re)[1] == re[0]);
    assert Parse("." + re) == Pattern(Cat(One('.'), Parse(re).expr), Parse(re).toEnd);
    PrefixOne('.', Parse(re), text);
    PrefixStar('.', Parse(re), text);
    forall c: char | c != '.'
      ensures Prefix(Parse([c, '*'] + re), text) <==>
        exists n :: 0 <= n <= |text| && (forall j :: 0 <= j < n ==> text[j] == c) && Prefix(Parse(re), text[n..])
    {
      assert ([c, '*'] + re)[2..] == re;
      PrefixStar(c, Parse(re), text);
    }
  }

  // ---- the matcher ------------------------------------------------------

  method Matchhere(re: string, text: string) returns (r: bool)
    ensures r <==> Prefix(Parse(re), text)
    decreases |re|, 0
  {
    if re == "" {
      assert In(Empty, text[..0]);
      return true;
    }
    if |re| >= 2 && re[1] == '*' {
      r := Matchstar(re[0], re[2..], text);
      return;
    }
    if re[0] == '$' && |re| == 1 {
      assert In(Empty, text[..0]);
      return text == "";
    }
    PrefixOne(re[0], Parse(re[1..]), text);
    if text != "" && (re[0] == '.' || re[0] == text[0]) {
      r := Matchhere(re[1..], text[1..]);
      return;
    }
    return false;
  }

  method Matchstar(c: char, re: string, text: string) returns (r: bool)
    ensures r <==> Prefix(Pattern(Cat(Star(One(c)), Parse(re).expr), Parse(re).toEnd), text)
    decreases |re|, 1
  {
    PrefixStar(c, Parse(re), text);
    var n := 0;
    while true
      invariant n <= |text| && (forall j :: 0 <= j < n ==> Fits(c, text[j]))
      invariant forall m :: 0 <= m < n ==> !Prefix(Parse(re), text[m..])
      decreases |text| - n
    {
      var here := Matchhere(re, text[n..]);
      if here {
        return true;
      }
      if n == |text| || !(text[n] == c || c == '.') {
        return false;
      }
      n := n + 1;
    }
  }

  method Match(re: string, text: string) returns (r: bool)
    ensures r <==> Found(re, text)
  {
    if re != "" && re[0] == '^' {
      r := Matchhere(re[1..], text);
      return;
    }
    var i := 0;
    while true
      invariant i <= |text| && forall m :: 0 <= m < i ==> !Prefix(Parse(re), text[m..])
      decreases |text| - i
    {
      var here := Matchhere(re, text[i..]);
      if here {
        return true;
      }
      if i == |text| {
        return false;
      }
      i := i + 1;
    }
  }
}
