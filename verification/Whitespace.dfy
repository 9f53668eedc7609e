/** What Rust's `str::trim` and `str::trim_end` strip. */
module Whitespace {
  /** Unicode `White_Space`, which `str::trim` strips. */
  predicate IsWhitespace(c: char) {
    var n := c as int;
    0x09 <= n <= 0x0D || n == 0x20 || n == 0x85 || n == 0xA0 || n == 0x1680 || 0x2000 <= n <= 0x200A
    || n == 0x2028 || n == 0x2029 || n == 0x202F || n == 0x205F || n == 0x3000
  }

  function Trim(s: string): string
    decreases |s|
  {
    if s != "" && IsWhitespace(s[0]) then Trim(s[1..])
    else if s != "" && IsWhitespace(s[|s| - 1]) then Trim(s[..|s| - 1])
    else s
  }

  function TrimEnd(s: string): string {
    if s != "" && IsWhitespace(s[|s| - 1]) then TrimEnd(s[..|s| - 1]) else s
  }

  predicate AllWhite(s: string) {
    forall i :: 0 <= i < |s| ==> IsWhitespace(s[i])
  }

  /** No white space at either end. */
  predicate Trimmed(s: string) {
    s != "" ==> !IsWhitespace(s[0]) && !IsWhitespace(s[|s| - 1])
  }

  /** The text with nothing but white space around it. */
  ghost predicate Padded(s: string, core: string) {
    exists a, b :: AllWhite(a) && AllWhite(b) && s == a + core + b
  }

  lemma PaddedBy(a: string, core: string, b: string)
    requires AllWhite(a) && AllWhite(b)
    ensures Padded(a + core + b, core)
  {
  }

  /** Trimming takes off white space on both sides, and all of it. */
  lemma {:induction false} TrimTakesOff(s: string)
    ensures Padded(s, Trim(s)) && Trimmed(Trim(s))
    decreases |s|
  {
    if s != "" && IsWhitespace(s[0]) {
      TrimTakesOff(s[1..]);
      PaddedLeft(s, Trim(s));
    } else if s != "" && IsWhitespace(s[|s| - 1]) {
      TrimTakesOff(s[..|s| - 1]);
      PaddedRight(s, Trim(s));
    } else {
      assert s == "" + s + "";
      PaddedBy("", s, "");
    }
  }

  lemma PaddedLeft(s: string, core: string)
    requires s != "" && IsWhitespace(s[0]) && Padded(s[1..], core)
    ensures Padded(s, core)
  {
    var a, b :| AllWhite(a) && AllWhite(b) && s[1..] == a + core + b;
    assert s == [s[0]] + s[1..] == ([s[0]] + a) + core + b;
    PaddedBy([s[0]] + a, core, b);
  }

  lemma PaddedRight(s: string, core: string)
    requires s != "" && IsWhitespace(s[|s| - 1]) && Padded(s[..|s| - 1], core)
    ensures Padded(s, core)
  {
    var last := [s[|s| - 1]];
    var a, b :| AllWhite(a) && AllWhite(b) && s[..|s| - 1] == a + core + b;
    assert s == s[..|s| - 1] + last == a + core + (b + last);
    PaddedBy(a, core, b + last);
  }

  lemma {:induction false} TrimOfPadded(a: string, core: string, b: string)
    requires AllWhite(a) && AllWhite(b) && Trimmed(core)
    ensures Trim(a + core + b) == core
    decreases |a| + |b|
  {
    var s := a + core + b;
    if a != "" {
      assert s[1..] == a[1..] + core + b;
      TrimOfPadded(a[1..], core, b);
    } else if b != "" {
      assert s[..|s| - 1] == a + core + b[..|b| - 1];
      TrimOfPadded(a, core, b[..|b| - 1]);
      if core == "" {
        assert s == b;
        TrimOfWhite(b);
      }
    } else {
      assert s == core;
    }
  }

  lemma {:induction false} TrimOfWhite(s: string)
    requires AllWhite(s)
    ensures Trim(s) == ""
    decreases |s|
  {
    if s != "" {
      TrimOfWhite(s[1..]);
    }
  }

  /** What `trim` makes of a text: the one text without white space at its ends that
      is inside nothing but white space. */
  lemma TrimIff(s: string, core: string)
    ensures Trim(s) == core <==> Trimmed(core) && Padded(s, core)
  {
    TrimTakesOff(s);
    if Trimmed(core) && Padded(s, core) {
      var a, b :| AllWhite(a) && AllWhite(b) && s == a + core + b;
      TrimOfPadded(a, core, b);
    }
  }

  /** `trim_end`: what is taken off is white space, and none is left. */
  lemma {:induction false} TrimEndExact(s: string)
    ensures TrimEnd(s) <= s && AllWhite(s[|TrimEnd(s)|..])
    ensures TrimEnd(s) != "" ==> !IsWhitespace(TrimEnd(s)[|TrimEnd(s)| - 1])
  {
    if s != "" && IsWhitespace(s[|s| - 1]) {
      var init := s[..|s| - 1];
      TrimEndExact(init);
      var n := |TrimEnd(init)|;
      assert s[n..] == init[n..] + [s[|s| - 1]];
    }
  }
}
