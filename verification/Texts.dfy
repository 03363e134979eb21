/** White space around texts, as ECMAScript's trim removes it. */
module Texts {

  /** White space and line ends as ECMAScript trims them. */
  predicate IsSpace(c: char) {
    c == ' ' || '\t' <= c <= '\r' || c == '\U{00A0}' || c == '\U{1680}' || '\U{2000}' <= c <= '\U{200A}'
      || c == '\U{2028}' || c == '\U{2029}' || c == '\U{202F}' || c == '\U{205F}' || c == '\U{3000}' || c == '\U{FEFF}'
  }

  function TrimStart(s: string): string {
    if s != "" && IsSpace(s[0]) then TrimStart(s[1..]) else s
  }

  function TrimEnd(s: string): string {
    if s != "" && IsSpace(s[|s| - 1]) then TrimEnd(s[..|s| - 1]) else s
  }

  function Trim(s: string): string {
    TrimEnd(TrimStart(s))
  }

  predicate Blanks(s: string) {
    forall c | c in s :: IsSpace(c)
  }

  lemma {:induction false} TrimStartMeans(s: string)
    ensures exists before: string :: Blanks(before) && s == before + TrimStart(s)
    ensures TrimStart(s) != "" ==> !IsSpace(TrimStart(s)[0])
    decreases |s|
  {
    if s != "" && IsSpace(s[0]) {
      TrimStartMeans(s[1..]);
      var before: string :| Blanks(before) && s[1..] == before + TrimStart(s[1..]);
      assert Blanks([s[0]] + before) && s == [s[0]] + before + TrimStart(s);
    } else {
      assert Blanks("") && s == "" + TrimStart(s);
    }
  }

  lemma {:induction false} TrimEndMeans(s: string)
    ensures exists after: string :: Blanks(after) && s == TrimEnd(s) + after
    ensures TrimEnd(s) != "" ==> !IsSpace(TrimEnd(s)[|TrimEnd(s)| - 1])
    ensures TrimEnd(s) <= s
    decreases |s|
  {
    if s != "" && IsSpace(s[|s| - 1]) {
      var n := |s| - 1;
      TrimEndMeans(s[..n]);
      var after: string :| Blanks(after) && s[..n] == TrimEnd(s[..n]) + after;
      assert Blanks(after + [s[n]]) && s == TrimEnd(s) + (after + [s[n]]);
    } else {
      assert Blanks("") && s == TrimEnd(s) + "";
    }
  }

  /** `text` is `s` without the blanks around it. */
  ghost predicate IsTrimmed(text: string, s: string) {
    && (exists before: string, after: string :: Blanks(before) && Blanks(after) && s == before + text + after)
    && (text != "" ==> !IsSpace(text[0]) && !IsSpace(text[|text| - 1]))
  }

  lemma TrimMeans(s: string)
    ensures IsTrimmed(Trim(s), s)
  {
    hide IsSpace;
    TrimStartMeans(s);
    TrimEndMeans(TrimStart(s));
    var before: string :| Blanks(before) && s == before + TrimStart(s);
    var after: string :| Blanks(after) && TrimStart(s) == TrimEnd(TrimStart(s)) + after;
    assert s == before + Trim(s) + after;
    if Trim(s) != "" {
      assert TrimStart(s)[0] == Trim(s)[0];
    }
  }

  /** There is only one way to trim. */
  lemma TrimmedIsUnique(text: string, s: string)
    requires IsTrimmed(text, s)
    ensures text == Trim(s)
  {
    hide IsSpace;
    TrimMeans(s);
    var b: string, a: string :| Blanks(b) && Blanks(a) && s == b + text + a;
    var d: string, c: string :| Blanks(d) && Blanks(c) && s == d + Trim(s) + c;
    if text == "" {
      BlankAll(s, b, a);
    } else if Trim(s) == "" {
      BlankAll(s, d, c);
      assert false;
    } else {
      SameStart(s, b, text, a, d, Trim(s), c);
      assert |b| == |d| && |a| == |c|;
      assert text == s[|b|..|s| - |a|] == Trim(s);
    }
  }

  lemma BlankAll(s: string, before: string, after: string)
    requires Blanks(before) && Blanks(after) && s == before + after
    ensures Blanks(s)
  {
    hide IsSpace;
  }

  lemma SameStart(s: string, b: string, x: string, a: string, d: string, y: string, c: string)
    requires s == b + x + a == d + y + c && Blanks(b) && Blanks(a) && Blanks(d) && Blanks(c)
    requires x != "" && !IsSpace(x[0]) && !IsSpace(x[|x| - 1]) && y != "" && !IsSpace(y[0]) && !IsSpace(y[|y| - 1])
    ensures |b| == |d| && |a| == |c|
  {
    hide IsSpace;
    StartsAgree(s, b, x + a, d, y + c);
    EndsAgree(s, b + x, a, d + y, c);
  }

  lemma StartsAgree(s: string, b: string, x: string, d: string, y: string)
    requires s == b + x && s == d + y && Blanks(b) && Blanks(d)
    requires x != "" && !IsSpace(x[0]) && y != "" && !IsSpace(y[0])
    ensures |b| == |d|
  {
    hide IsSpace;
    NotShorter(s, b, x, d);
    NotShorter(s, d, y, b);
  }

  lemma NotShorter(s: string, b: string, x: string, d: string)
    requires s == b + x && d <= s && Blanks(d) && x != "" && !IsSpace(x[0])
    ensures |d| <= |b|
  {
    hide IsSpace;
    assert s[|b|] == x[0];
  }

  lemma EndsAgree(s: string, x: string, a: string, y: string, c: string)
    requires s == x + a && s == y + c && Blanks(a) && Blanks(c)
    requires x != "" && !IsSpace(x[|x| - 1]) && y != "" && !IsSpace(y[|y| - 1])
    ensures |a| == |c|
  {
    hide IsSpace;
    NotLonger(s, x, a, y, c);
    NotLonger(s, y, c, x, a);
  }

  lemma NotLonger(s: string, x: string, a: string, y: string, c: string)
    requires s == x + a && s == y + c && Blanks(c) && x != "" && !IsSpace(x[|x| - 1])
    ensures |c| <= |a|
  {
    hide IsSpace;
    assert s[|x| - 1] == x[|x| - 1];
  }
}
