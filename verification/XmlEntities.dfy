/** Escaping text for SOAP envelopes and decoding it again, as chains of replace-all passes over the five
    predefined entities of XML 1.0 (section 4.6). */
module XmlEntities {

  function Lower(c: char): char {
    if 'A' <= c <= 'Z' then c - 'A' + 'a' else c
  }

  /** `text` starts with `pattern`, ignoring the case of ASCII letters; `pattern` is in lower case. */
  predicate StartsWith(text: string, pattern: string) {
    |pattern| <= |text| && forall i | 0 <= i < |pattern| :: Lower(text[i]) == pattern[i]
  }

  /** A global replace: leftmost matches first, and what was inserted is not looked at again. */
  function ReplaceAll(text: string, pattern: string, replacement: string): string
    requires pattern != ""
    decreases |text|
  {
    if text == "" then ""
    else if StartsWith(text, pattern) then replacement + ReplaceAll(text[|pattern|..], pattern, replacement)
    else [text[0]] + ReplaceAll(text[1..], pattern, replacement)
  }

  /** A pattern in lower case is found in any casing of its letters. */
  lemma PatternIsFound(text: string, pattern: string)
    requires forall i | 0 <= i < |pattern| :: !('A' <= pattern[i] <= 'Z')
    ensures StartsWith(text, pattern) <==>
              |pattern| <= |text| && forall i | 0 <= i < |pattern| ::
                text[i] == pattern[i] || ('a' <= pattern[i] <= 'z' && text[i] as int + 32 == pattern[i] as int)
  {
  }

  function EscapeXml(value: string): string {
    ReplaceAll(ReplaceAll(ReplaceAll(ReplaceAll(ReplaceAll(value,
      "&", "&amp;"), "<", "&lt;"), ">", "&gt;"), "\"", "&quot;"), "'", "&apos;")
  }

  function EscapeXmlForElementContent(value: string): string {
    ReplaceAll(ReplaceAll(ReplaceAll(value, "&", "&amp;"), "<", "&lt;"), ">", "&gt;")
  }

  function DecodeXmlEntities(value: string): string {
    ReplaceAll(ReplaceAll(ReplaceAll(ReplaceAll(ReplaceAll(value,
      "&lt;", "<"), "&gt;", ">"), "&quot;", "\""), "&apos;", "'"), "&amp;", "&")
  }

  // Reference: what a text looks like when some of the special characters are written as entities

  /** The entity of a special character, or the character itself. */
  function Entity(c: char): string {
    match c
    case '&' => "&amp;"
    case '<' => "&lt;"
    case '>' => "&gt;"
    case '"' => "&quot;"
    case '\'' => "&apos;"
    case _ => [c]
  }

  function Written(c: char, escaped: set<char>): string {
    if c in escaped then Entity(c) else [c]
  }

  /** `value` with exactly the characters of `escaped` written as entities. */
  function WithEntities(value: string, escaped: set<char>): string {
    if value == "" then "" else Written(value[0], escaped) + WithEntities(value[1..], escaped)
  }

  const SPECIAL: set<char> := {'&', '<', '>', '"', '\''}

  lemma {:induction false} NothingEscaped(value: string)
    ensures WithEntities(value, {}) == value
    decreases |value|
  {
    if value != "" {
      NothingEscaped(value[1..]);
    }
  }

  /** A text with no occurrence of the pattern at its first positions is copied up to there. */
  lemma {:induction false} CopiesPrefix(prefix: string, rest: string, pattern: string, replacement: string)
    requires pattern != ""
    requires forall i | 0 <= i < |prefix| :: !StartsWith((prefix + rest)[i..], pattern)
    ensures ReplaceAll(prefix + rest, pattern, replacement) == prefix + ReplaceAll(rest, pattern, replacement)
    decreases |prefix|
  {
    if prefix == "" {
      assert prefix + rest == rest;
    } else {
      var text := prefix + rest;
      assert text[0..] == text;
      assert text[1..] == prefix[1..] + rest;
      forall i | 0 <= i < |prefix[1..]| ensures !StartsWith((prefix[1..] + rest)[i..], pattern) {
        assert (prefix[1..] + rest)[i..] == text[i + 1..];
      }
      CopiesPrefix(prefix[1..], rest, pattern, replacement);
    }
  }

  /** No entity has a special character after its ampersand. */
  lemma EntityTail(c: char)
    requires c in SPECIAL
    ensures |Entity(c)| >= 4 && Entity(c)[0] == '&'
    ensures forall i | 1 <= i < |Entity(c)| :: Lower(Entity(c)[i]) !in SPECIAL
    ensures StartsWith(Entity(c), Entity(c))
  {
  }

  /** Two entities differ within their first three characters. */
  lemma EntitiesDiffer(c: char, d: char)
    requires c in SPECIAL && d in SPECIAL && c != d
    ensures Lower(Entity(d)[1]) != Entity(c)[1] || Lower(Entity(d)[2]) != Entity(c)[2]
  {
  }

  lemma NoSpecialStart(first: string, rest: string, c: char)
    requires forall i | 0 <= i < |first| :: Lower(first[i]) != c
    ensures forall i | 0 <= i < |first| :: !StartsWith((first + rest)[i..], [c])
  {
    forall i | 0 <= i < |first| ensures !StartsWith((first + rest)[i..], [c]) {
      assert (first + rest)[i..][0] == first[i];
    }
  }

  /** One escaping pass: a special character not yet written as an entity becomes one. */
  lemma {:induction false} EscapePass(value: string, escaped: set<char>, c: char)
    requires escaped <= SPECIAL && c in SPECIAL && c !in escaped && (c == '&' ==> escaped == {})
    ensures ReplaceAll(WithEntities(value, escaped), [c], Entity(c)) == WithEntities(value, escaped + {c})
    decreases |value|
  {
    if value != "" {
      var first, rest := Written(value[0], escaped), WithEntities(value[1..], escaped);
      EscapePass(value[1..], escaped, c);
      if value[0] == c {
        assert (first + rest)[1..] == rest;
      } else {
        if value[0] in escaped {
          EntityTail(value[0]);
        }
        NoSpecialStart(first, rest, c);
        CopiesPrefix(first, rest, [c], Entity(c));
      }
    }
  }

  lemma NoEntityStart(first: string, rest: string, c: char)
    requires c in SPECIAL
    requires (|first| == 1 && first[0] != '&') || exists d :: d in SPECIAL && d != c && first == Entity(d)
    ensures forall i | 0 <= i < |first| :: !StartsWith((first + rest)[i..], Entity(c))
  {
    EntityTail(c);
    var text := first + rest;
    forall i | 0 <= i < |first| ensures !StartsWith(text[i..], Entity(c)) {
      assert text[i..][0] == first[i];
      if |first| > 1 {
        var d :| d in SPECIAL && d != c && first == Entity(d);
        EntityTail(d);
        EntitiesDiffer(c, d);
        assert text[0..][1] == first[1] && text[0..][2] == first[2];
      }
    }
  }

  /** One decoding pass: the entities of `c` become `c` again and no other entity is disturbed. */
  lemma {:induction false} DecodePass(value: string, escaped: set<char>, c: char)
    requires '&' in escaped && escaped <= SPECIAL && c in SPECIAL && (c == '&' ==> escaped == {'&'})
    ensures ReplaceAll(WithEntities(value, escaped), Entity(c), [c]) == WithEntities(value, escaped - {c})
    decreases |value|
  {
    if value != "" {
      var first, rest := Written(value[0], escaped), WithEntities(value[1..], escaped);
      DecodePass(value[1..], escaped, c);
      if value[0] == c && c in escaped {
        EntityTail(c);
        ReplacesPrefix(c, rest);
      } else {
        NoEntityStart(first, rest, c);
        CopiesPrefix(first, rest, Entity(c), [c]);
      }
    }
  }

  lemma ReplacesPrefix(c: char, rest: string)
    requires c in SPECIAL
    ensures ReplaceAll(Entity(c) + rest, Entity(c), [c]) == [c] + ReplaceAll(rest, Entity(c), [c])
  {
    EntityTail(c);
    var text := Entity(c) + rest;
    assert text[|Entity(c)|..] == rest;
    assert StartsWith(text, Entity(c));
  }

  /** Escaping in five passes is writing every special character as its entity. */
  lemma EscapeIsWithEntities(value: string)
    ensures EscapeXml(value) == WithEntities(value, SPECIAL)
    ensures EscapeXmlForElementContent(value) == WithEntities(value, {'&', '<', '>'})
  {
    hide ReplaceAll, WithEntities;
    NothingEscaped(value);
    EscapeStep(value, {}, '&', {'&'});
    EscapeStep(value, {'&'}, '<', {'&', '<'});
    EscapeStep(value, {'&', '<'}, '>', {'&', '<', '>'});
    EscapeStep(value, {'&', '<', '>'}, '"', {'&', '<', '>', '"'});
    EscapeStep(value, {'&', '<', '>', '"'}, '\'', SPECIAL);
  }

  lemma EscapeStep(value: string, escaped: set<char>, c: char, next: set<char>)
    requires escaped <= SPECIAL && c in SPECIAL && c !in escaped && (c == '&' ==> escaped == {})
    requires next == escaped + {c}
    ensures ReplaceAll(WithEntities(value, escaped), [c], Entity(c)) == WithEntities(value, next)
  {
    EscapePass(value, escaped, c);
  }

  /** Decoding in five passes undoes any writing that covers at least the ampersand. */
  lemma DecodeUndoes(value: string, escaped: set<char>)
    requires '&' in escaped && escaped <= SPECIAL
    ensures DecodeXmlEntities(WithEntities(value, escaped)) == value
  {
    var e1 := escaped - {'<'};
    var e2 := e1 - {'>'};
    var e3 := e2 - {'"'};
    var e4 := e3 - {'\''};
    assert e4 == {'&'} && e4 - {'&'} == {};
    DecodePass(value, escaped, '<');
    DecodePass(value, e1, '>');
    DecodePass(value, e2, '"');
    DecodePass(value, e3, '\'');
    DecodePass(value, e4, '&');
    NothingEscaped(value);
  }

  /** Decoding the escaped text gives the text back, also when it already contains entity-like sequences. */
  lemma RoundTrip(value: string)
    ensures DecodeXmlEntities(EscapeXml(value)) == value
    ensures DecodeXmlEntities(EscapeXmlForElementContent(value)) == value
  {
    EscapeIsWithEntities(value);
    DecodeUndoes(value, SPECIAL);
    DecodeUndoes(value, {'&', '<', '>'});
  }

  /** Different texts are never escaped to the same text. */
  lemma EscapeIsInjective(left: string, right: string)
    requires EscapeXml(left) == EscapeXml(right)
             || EscapeXmlForElementContent(left) == EscapeXmlForElementContent(right)
    ensures left == right
  {
    RoundTrip(left);
    RoundTrip(right);
  }
}
