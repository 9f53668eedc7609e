/** `escape` of `src/oauth.rs`: the text put into the consent page. */
module Escape {

  /** `str::replace` of a single character. */
  function ReplaceChar(s: string, c: char, with: string): string {
    if s == "" then "" else (if s[0] == c then with else [s[0]]) + ReplaceChar(s[1..], c, with)
  }

  function Escaped(value: string): string {
    ReplaceChar(ReplaceChar(ReplaceChar(ReplaceChar(value, '&', "&amp;"), '<', "&lt;"), '>', "&gt;"), '"', "&quot;")
  }

  function Entity(c: char): string {
    match c
    case '&' => "&amp;"
    case '<' => "&lt;"
    case '>' => "&gt;"
    case '"' => "&quot;"
    case _ => [c]
  }

  /** One pass, a character at a time. */
  function Mapped(value: string): string {
    if value == "" then "" else Entity(value[0]) + Mapped(value[1..])
  }

  /** What a browser does with the four entities in an attribute value, once from
      left to right. */
  function Decoded(s: string): string {
    if s == "" then ""
    else if "&amp;" <= s then "&" + Decoded(s[5..])
    else if "&lt;" <= s then "<" + Decoded(s[4..])
    else if "&gt;" <= s then ">" + Decoded(s[4..])
    else if "&quot;" <= s then "\"" + Decoded(s[6..])
    else [s[0]] + Decoded(s[1..])
  }

  lemma {:induction false} ReplaceCharConcat(a: string, b: string, c: char, with: string)
    ensures ReplaceChar(a + b, c, with) == ReplaceChar(a, c, with) + ReplaceChar(b, c, with)
  {
    if a == "" {
      assert a + b == b;
    } else {
      assert (a + b)[1..] == a[1..] + b;
      ReplaceCharConcat(a[1..], b, c, with);
    }
  }

  lemma {:induction false} ReplaceAbsent(s: string, c: char, with: string)
    requires c !in s
    ensures ReplaceChar(s, c, with) == s
  {
    if s != "" {
      ReplaceAbsent(s[1..], c, with);
      assert [s[0]] + s[1..] == s;
    }
  }

  lemma EscapedConcat(a: string, b: string)
    ensures Escaped(a + b) == Escaped(a) + Escaped(b)
  {
    ReplaceCharConcat(a, b, '&', "&amp;");
    var a1, b1 := ReplaceChar(a, '&', "&amp;"), ReplaceChar(b, '&', "&amp;");
    ReplaceCharConcat(a1, b1, '<', "&lt;");
    var a2, b2 := ReplaceChar(a1, '<', "&lt;"), ReplaceChar(b1, '<', "&lt;");
    ReplaceCharConcat(a2, b2, '>', "&gt;");
    var a3, b3 := ReplaceChar(a2, '>', "&gt;"), ReplaceChar(b2, '>', "&gt;");
    ReplaceCharConcat(a3, b3, '"', "&quot;");
  }

  lemma EscapedOne(c: char)
    ensures Escaped([c]) == Entity(c)
  {
    ReplaceOne(c, '&', "&amp;");
    if c == '&' {
      ReplaceAbsent("&amp;", '<', "&lt;");
      ReplaceAbsent("&amp;", '>', "&gt;");
      ReplaceAbsent("&amp;", '"', "&quot;");
    } else {
      ReplaceOne(c, '<', "&lt;");
      if c == '<' {
        ReplaceAbsent("&lt;", '>', "&gt;");
        ReplaceAbsent("&lt;", '"', "&quot;");
      } else {
        ReplaceOne(c, '>', "&gt;");
        if c == '>' {
          ReplaceAbsent("&gt;", '"', "&quot;");
        } else {
          ReplaceOne(c, '"', "&quot;");
        }
      }
    }
  }

  lemma ReplaceOne(d: char, c: char, with: string)
    ensures ReplaceChar([d], c, with) == if d == c then with else [d]
  {
    assert [d][1..] == "";
    assert with + "" == with && [d] + "" == [d];
  }

  /** Four passes, the ampersand first, are one pass: no later replacement touches
      what an earlier one wrote. */
  lemma {:induction false} FourPassesAreOne(value: string)
    ensures Escaped(value) == Mapped(value)
  {
    if value != "" {
      assert value == [value[0]] + value[1..];
      EscapedConcat([value[0]], value[1..]);
      EscapedOne(value[0]);
      FourPassesAreOne(value[1..]);
    }
  }

  lemma {:induction false} MappedIsPlain(value: string)
    ensures '<' !in Mapped(value) && '>' !in Mapped(value) && '"' !in Mapped(value)
  {
    if value != "" {
      MappedIsPlain(value[1..]);
    }
  }

  /** An escaped value cannot end an attribute or open a tag, and decoding it once
      gives back the value that was put in. */
  lemma EscapeIsSafeAndReversible(value: string)
    ensures '<' !in Escaped(value) && '>' !in Escaped(value) && '"' !in Escaped(value)
    ensures Decoded(Escaped(value)) == value
  {
    FourPassesAreOne(value);
    MappedIsPlain(value);
    DecodedMapped(value);
  }

  lemma {:induction false} DecodedMapped(value: string)
    ensures Decoded(Mapped(value)) == value
  {
    if value != "" {
      var rest := Mapped(value[1..]);
      DecodedMapped(value[1..]);
      DecodedEntity(value[0], rest);
      assert [value[0]] + value[1..] == value;
    }
  }

  lemma DecodedEntity(c: char, rest: string)
    ensures Decoded(Entity(c) + rest) == [c] + Decoded(rest)
  {
    var s := Entity(c) + rest;
    match c
    case '&' => assert s[5..] == rest;
    case '<' => assert s[..4] == "&lt;" && s[1] == 'l' && s[4..] == rest;
    case '>' => assert s[..4] == "&gt;" && s[1] == 'g' && s[4..] == rest;
    case '"' => assert s[..6] == "&quot;" && s[1] == 'q' && s[6..] == rest;
    case _ => assert s[0] == c && s[1..] == rest;
  }
}
