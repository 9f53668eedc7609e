/** What `read_file` does with a file's text: lines, a numbered window of them,
    and the cut to the output limit. */
module ReadText {
  import opened Wrappers
  import Utf8

  // ---- Lines ----------------------------------------------------------------

  /** Where `c` first stands in `s`, or the length of `s`. */
  function Find(s: string, c: char): (n: nat)
    ensures n <= |s| && c !in s[..n] && (n < |s| ==> s[n] == c)
  {
    if s == "" || s[0] == c then 0 else 1 + Find(s[1..], c)
  }

  function StripReturn(line: string): string {
    if line != "" && line[|line| - 1] == '\r' then line[..|line| - 1] else line
  }

  /** `str::lines`: a carriage return goes only along with the newline after it,
      and a final newline starts no further line. */
  function Lines(s: string): seq<string>
    decreases |s|
  {
    if s == "" then []
    else
      var n := Find(s, '\n');
      if n == |s| then [s] else [StripReturn(s[..n])] + Lines(s[n + 1..])
  }

  /** Lines, each ended by a newline. */
  function Unlines(lines: seq<string>): string {
    if lines == [] then "" else lines[0] + "\n" + Unlines(lines[1..])
  }

  predicate OneLine(line: string) {
    '\n' !in line
  }

  lemma {:induction false} LinesAreOneLine(s: string)
    ensures forall i :: 0 <= i < |Lines(s)| ==> OneLine(Lines(s)[i])
    decreases |s|
  {
    if s != "" {
      var n := Find(s, '\n');
      if n < |s| {
        LinesAreOneLine(s[n + 1..]);
      }
    }
  }

  lemma FindAfter(line: string, c: char, rest: string)
    requires c !in line
    ensures Find(line + [c] + rest, c) == |line|
  {
    var s := line + [c] + rest;
    assert s[|line|] == c;
    assert forall i :: 0 <= i < |line| ==> s[i] == line[i];
  }

  /** Splitting undoes joining: a file made of lines, the last of them perhaps without
      its newline, reads back as those lines, save that a carriage return at the end of
      a terminated line is taken for part of the line ending. */
  lemma {:induction false} LinesOfUnlines(lines: seq<string>, last: string)
    requires (forall i :: 0 <= i < |lines| ==> OneLine(lines[i])) && OneLine(last)
    ensures var read := Lines(Unlines(lines) + last);
            && |read| == |lines| + (if last == "" then 0 else 1)
            && (forall i :: 0 <= i < |lines| ==> read[i] == StripReturn(lines[i]))
            && (last != "" ==> read[|lines|] == last)
    decreases |lines|
  {
    if lines == [] {
      assert Unlines(lines) + last == last;
      if last != "" {
        LastLine(last);
      }
    } else {
      var rest := Unlines(lines[1..]) + last;
      assert Unlines(lines) + last == lines[0] + "\n" + rest;
      LinesOfUnlines(lines[1..], last);
      LinesCons(lines[0], rest);
      assert forall i :: 1 <= i < |lines| ==> lines[1..][i - 1] == lines[i];
    }
  }

  lemma LastLine(line: string)
    requires line != "" && OneLine(line)
    ensures Lines(line) == [line]
  {
    assert Find(line, '\n') == |line|;
  }

  /** Only one carriage return goes. */
  lemma StripReturnExact(line: string)
    ensures StripReturn(line + "\r") == line
    ensures (line == "" || line[|line| - 1] != '\r') ==> StripReturn(line) == line
  {
    assert (line + "\r")[..|line|] == line;
  }

  lemma LinesCons(line: string, rest: string)
    requires OneLine(line)
    ensures Lines(line + "\n" + rest) == [StripReturn(line)] + Lines(rest)
  {
    var s := line + "\n" + rest;
    FindAfter(line, '\n', rest);
    assert s[..|line|] == line && s[|line| + 1..] == rest;
  }

  // ---- Rendering ------------------------------------------------------------

  function Decimal(n: nat): (s: string)
    ensures s != "" && forall i :: 0 <= i < |s| ==> '0' <= s[i] <= '9'
  {
    var digit := '0' + (n % 10) as char;
    if n < 10 then [digit] else Decimal(n / 10) + [digit]
  }

  function PadLeft(s: string, width: nat): string
    decreases width
  {
    if |s| >= width then s else " " + PadLeft(s, width - 1)
  }

  /** One line of output: the number in six columns, a tab, the line. */
  function Row(number: nat, line: string): string {
    PadLeft(Decimal(number), 6) + "\t" + line + "\n"
  }

  /** Lines shown, the first of them being line `first` of its file. */
  function Rendered(lines: seq<string>, first: nat): string {
    Concat(Rows(lines, first))
  }

  function Rows(lines: seq<string>, first: nat): (rows: seq<string>)
    ensures |rows| == |lines|
  {
    seq(|lines|, i requires 0 <= i < |lines| => Row(first + i, lines[i]))
  }

  function Concat(parts: seq<string>): string {
    if parts == [] then "" else parts[0] + Concat(parts[1..])
  }

  lemma {:induction false} ConcatAppend(a: seq<string>, b: seq<string>)
    ensures Concat(a + b) == Concat(a) + Concat(b)
  {
    if a == [] {
      assert a + b == b;
    } else {
      assert (a + b)[1..] == a[1..] + b;
      ConcatAppend(a[1..], b);
    }
  }

  /** A reader of the output: spaces skipped, then digits. */
  function Number(s: string, acc: nat): nat {
    if s == "" then acc
    else if '0' <= s[0] <= '9' then Number(s[1..], 10 * acc + (s[0] - '0') as nat)
    else Number(s[1..], acc)
  }

  /** Splits at newlines, and each row at its first tab. */
  function Parsed(out: string): seq<(nat, string)>
    decreases |out|
  {
    if out == "" then []
    else
      var n := Find(out, '\n');
      var row := out[..n];
      var t := Find(row, '\t');
      [(Number(row[..t], 0), if t == |row| then "" else row[t + 1..])]
      + (if n == |out| then [] else Parsed(out[n + 1..]))
  }

  function Numbered(lines: seq<string>, first: nat): (rows: seq<(nat, string)>)
    ensures |rows| == |lines| && forall i :: 0 <= i < |lines| ==> rows[i] == (first + i, lines[i])
  {
    seq(|lines|, i requires 0 <= i < |lines| => (first + i, lines[i]))
  }

  /** The layout of a row: the number right-aligned in six columns, or as wide as it is,
      without leading zeros. */
  lemma {:induction false} PadLeftExact(s: string, width: nat)
    ensures var blanks := if |s| < width then width - |s| else 0;
            && |PadLeft(s, width)| == blanks + |s| && PadLeft(s, width)[blanks..] == s
            && (forall i :: 0 <= i < blanks ==> PadLeft(s, width)[i] == ' ')
    decreases width
  {
    if |s| < width {
      PadLeftExact(s, width - 1);
      assert PadLeft(s, width) == " " + PadLeft(s, width - 1);
    } else {
      assert s[0..] == s;
    }
  }

  lemma {:induction false} NoLeadingZero(n: nat)
    ensures Decimal(n)[0] == '0' ==> n == 0
  {
    if n >= 10 {
      NoLeadingZero(n / 10);
      assert Decimal(n)[0] == Decimal(n / 10)[0];
    }
  }

  lemma RowLayout(number: nat, line: string) returns (blanks: string, digits: string)
    ensures Row(number, line) == blanks + digits + "\t" + line + "\n"
    ensures forall i :: 0 <= i < |blanks| ==> blanks[i] == ' '
    ensures |blanks| + |digits| == if |digits| < 6 then 6 else |digits|
    ensures digits != "" && forall i :: 0 <= i < |digits| ==> '0' <= digits[i] <= '9'
    ensures (digits[0] == '0' ==> number == 0) && Number(digits, 0) == number
  {
    digits := Decimal(number);
    NoLeadingZero(number);
    NumberOfDecimal(number);
    blanks := Blanks(digits, 6);
  }

  lemma Blanks(digits: string, width: nat) returns (blanks: string)
    ensures PadLeft(digits, width) == blanks + digits
    ensures forall i :: 0 <= i < |blanks| ==> blanks[i] == ' '
    ensures |blanks| + |digits| == if |digits| < width then width else |digits|
  {
    PadLeftExact(digits, width);
    var head := PadLeft(digits, width);
    blanks := head[..|head| - |digits|];
    assert head == blanks + digits;
  }

  lemma {:induction false} NumberSnoc(s: string, digit: char, acc: nat)
    requires '0' <= digit <= '9'
    ensures Number(s + [digit], acc) == 10 * Number(s, acc) + (digit - '0') as nat
  {
    if s == "" {
      assert [digit][1..] == "";
      assert s + [digit] == [digit];
    } else {
      assert (s + [digit])[1..] == s[1..] + [digit];
      NumberSnoc(s[1..], digit, if '0' <= s[0] <= '9' then 10 * acc + (s[0] - '0') as nat else acc);
    }
  }

  lemma {:induction false} NumberOfDecimal(n: nat)
    ensures Number(Decimal(n), 0) == n
  {
    var digit := '0' + (n % 10) as char;
    if n < 10 {
      assert [digit][1..] == "";
    } else {
      NumberOfDecimal(n / 10);
      NumberSnoc(Decimal(n / 10), digit, 0);
    }
  }

  lemma {:induction false} NumberOfPadded(s: string, width: nat)
    ensures Number(PadLeft(s, width), 0) == Number(s, 0)
    ensures forall c :: c in PadLeft(s, width) ==> c in s || c == ' '
    decreases width
  {
    if |s| < width {
      NumberOfPadded(s, width - 1);
      assert (" " + PadLeft(s, width - 1))[1..] == PadLeft(s, width - 1);
    }
  }

  /** What the caller sees can be taken apart again: the line numbers and the
      lines, tabs in them included. */
  lemma {:induction false} ParsedOfRendered(lines: seq<string>, first: nat)
    requires forall i :: 0 <= i < |lines| ==> OneLine(lines[i])
    ensures Parsed(Rendered(lines, first)) == Numbered(lines, first)
    decreases |lines|
  {
    if lines != [] {
      var line := lines[0];
      assert OneLine(line);
      assert lines == [line] + lines[1..];
      RenderedCons(line, lines[1..], first);
      ParsedOfRendered(lines[1..], first + 1);
      NumberedCons(lines, first);
      RowParses(first, line, Rendered(lines[1..], first + 1));
    }
  }

  lemma NumberedCons(lines: seq<string>, first: nat)
    requires lines != []
    ensures Numbered(lines, first) == [(first, lines[0])] + Numbered(lines[1..], first + 1)
  {
  }

  lemma RowParses(number: nat, line: string, rest: string)
    requires OneLine(line)
    ensures Parsed(Row(number, line) + rest) == [(number, line)] + Parsed(rest)
  {
    var head := PadLeft(Decimal(number), 6);
    NumberOfPadded(Decimal(number), 6);
    NumberOfDecimal(number);
    HeadParses(head, line, rest);
  }

  lemma HeadParses(head: string, line: string, rest: string)
    requires '\t' !in head && OneLine(head) && OneLine(line)
    ensures Parsed(head + "\t" + line + "\n" + rest) == [(Number(head, 0), line)] + Parsed(rest)
  {
    var row := head + "\t" + line;
    assert OneLine(row);
    FindAfter(row, '\n', rest);
    FindAfter(head, '\t', line);
    var out := row + "\n" + rest;
    assert out[..|row|] == row && out[|row| + 1..] == rest;
    assert row[..|head|] == head && row[|head| + 1..] == line;
  }

  lemma RenderedConcat(a: seq<string>, b: seq<string>, first: nat)
    ensures Rendered(a + b, first) == Rendered(a, first) + Rendered(b, first + |a|)
  {
    assert Rows(a + b, first) == Rows(a, first) + Rows(b, first + |a|);
    ConcatAppend(Rows(a, first), Rows(b, first + |a|));
  }

  lemma RenderedCons(line: string, lines: seq<string>, first: nat)
    ensures Rendered([line] + lines, first) == Row(first, line) + Rendered(lines, first + 1)
  {
    RenderedConcat([line], lines, first);
    RenderedOne(line, first);
  }

  lemma RenderedOne(line: string, first: nat)
    ensures Rendered([line], first) == Row(first, line)
  {
    var rows, row := Rows([line], first), Row(first, line);
    assert rows[0] == row && rows[1..] == [];
    assert Concat(rows) == row + Concat(rows[1..]) == row + "" == row;
  }

  lemma RenderedNext(lines: seq<string>, n: nat, first: nat, row: string)
    requires n < |lines| && row == Row(first + n, lines[n])
    ensures Rendered(lines[..n + 1], first) == Rendered(lines[..n], first) + row
  {
    assert lines[..n + 1] == lines[..n] + [lines[n]];
    RenderedConcat(lines[..n], [lines[n]], first);
    RenderedOne(lines[n], first + n);
  }

  // ---- Windows --------------------------------------------------------------

  datatype PastEnd = PastEnd(offset: nat, lines: nat)

  /** The window as a caller thinks of it: skip `offset` lines, take up to `limit`. */
  function Window(lines: seq<string>, offset: nat, limit: Option<nat>): seq<string> {
    var rest := if offset <= |lines| then lines[offset..] else [];
    if limit.Some? && limit.value < |rest| then rest[..limit.value] else rest
  }

  function ReadOf(lines: seq<string>, offset: nat, limit: Option<nat>): Result<string, PastEnd> {
    if offset >= |lines| && lines != [] then Err(PastEnd(offset, |lines|))
    else Ok(Rendered(Window(lines, offset, limit), offset + 1))
  }

  /** The loop of `read_file` over the lines of a window. */
  method RenderRows(shown: seq<string>, start: nat) returns (out: string)
    ensures out == Rendered(shown, start + 1)
  {
    out := "";
    var index := 0;
    while index < |shown|
      invariant 0 <= index <= |shown|
      invariant out == Rendered(shown[..index], start + 1)
    {
      ghost var before := Rendered(shown[..index], start + 1);
      var row := Row(start + index + 1, shown[index]);
      RenderedNext(shown, index, start + 1, row);
      assert out + row == before + row;
      out := out + row;
      index := index + 1;
    }
    assert shown[..index] == shown;
  }

  /** The window as `read_file` computes it: both slice bounds are valid for every
      offset and limit. */
  method ReadWindow(lines: seq<string>, offset: Option<nat>, limit: Option<nat>) returns (r: Result<string, PastEnd>)
    ensures r == ReadOf(lines, if offset.Some? then offset.value else 0, limit)
  {
    var start := if offset.Some? then offset.value else 0;
    var end := |lines|;
    if limit.Some? && start + limit.value < |lines| {
      end := start + limit.value;
    }
    if start >= |lines| && lines != [] {
      return Err(PastEnd(start, |lines|));
    }
    var shown := lines[if start < |lines| then start else |lines|..end];
    assert shown == Window(lines, start, limit);
    var out := RenderRows(shown, start);
    return Ok(out);
  }

  /** A caller paging through a file: windows of `limit` lines, one after the
      other, until an offset is refused or nothing is left. */
  function Pages(lines: seq<string>, from: nat, limit: nat): string
    requires limit > 0
    decreases |lines| - from
  {
    if from >= |lines| then ""
    else
      match ReadOf(lines, from, Some(limit))
      case Err(_) => ""
      case Ok(page) => page + Pages(lines, from + limit, limit)
  }

  lemma TwoWindows(lines: seq<string>, from: nat, limit: nat)
    requires from < |lines|
    ensures Rendered(Window(lines, from, None), from + 1) ==
            Rendered(Window(lines, from, Some(limit)), from + 1)
            + Rendered(Window(lines, from + limit, None), from + limit + 1)
  {
    var a, b := Window(lines, from, Some(limit)), Window(lines, from + limit, None);
    assert Window(lines, from, None) == a + b;
    RenderedConcat(a, b, from + 1);
    if b == [] {
      assert Rendered(b, from + 1 + |a|) == "" == Rendered(b, from + limit + 1);
    } else {
      assert |a| == limit;
    }
  }

  /** Paging loses nothing and repeats nothing: the pages put together are the
      unlimited read, whatever the page size. */
  lemma {:induction false} PagesAreTheWhole(lines: seq<string>, from: nat, limit: nat)
    requires limit > 0
    ensures Pages(lines, from, limit) == Rendered(Window(lines, from, None), from + 1)
    decreases |lines| - from
  {
    if from < |lines| {
      PagesAreTheWhole(lines, from + limit, limit);
      TwoWindows(lines, from, limit);
    }
  }

  /** What a window shows, read back: line `i` of it is line `offset + i` of the
      file, numbered from one. */
  lemma WindowReadsBack(text: string, offset: nat, limit: Option<nat>)
    ensures var lines := Lines(text);
            && (ReadOf(lines, offset, limit).Err? <==> lines != [] && offset >= |lines|)
            && (ReadOf(lines, offset, limit).Err? ==> ReadOf(lines, offset, limit).error == PastEnd(offset, |lines|))
            && (var rest := if offset < |lines| then |lines| - offset else 0;
                |Window(lines, offset, limit)| == if limit.Some? && limit.value < rest then limit.value else rest)
            && (ReadOf(lines, offset, limit).Ok? ==>
                  Parsed(ReadOf(lines, offset, limit).value) == Numbered(Window(lines, offset, limit), offset + 1))
            && (forall i :: 0 <= i < |Window(lines, offset, limit)| ==>
                  Window(lines, offset, limit)[i] == lines[offset + i])
  {
    LinesAreOneLine(text);
    WindowParses(Lines(text), offset, limit);
  }

  lemma WindowParses(lines: seq<string>, offset: nat, limit: Option<nat>)
    requires forall i :: 0 <= i < |lines| ==> OneLine(lines[i])
    ensures var window := Window(lines, offset, limit);
            && Parsed(Rendered(window, offset + 1)) == Numbered(window, offset + 1)
            && (forall i :: 0 <= i < |window| ==> offset + i < |lines| && window[i] == lines[offset + i])
  {
    ParsedOfRendered(Window(lines, offset, limit), offset + 1);
  }

  // ---- Truncation -----------------------------------------------------------

  const MARKER := "\n... [truncated]"

  /** `String::truncate` refuses a place inside a character by panicking. */
  datatype Cut = Whole(text: string) | Panic

  function Truncated(text: string, max: nat): Cut {
    if Utf8.Length(text) <= max then Whole(text)
    else if Utf8.IsBoundary(Utf8.Encode(text), max) then Whole(text[..Utf8.CharsWithin(text, max)] + MARKER)
    else Panic
  }

  predicate IsAscii(s: string) {
    forall i :: 0 <= i < |s| ==> s[i] < '\U{80}'
  }

  lemma MarkerIsAscii(m: string)
    requires m == MARKER
    ensures IsAscii(m) && |m| == 16
  {
  }

  lemma MarkerLength()
    ensures Utf8.Length(MARKER) == 16
  {
    MarkerIsAscii(MARKER);
    AsciiLength(MARKER);
  }

  lemma {:induction false} AsciiLength(s: string)
    requires IsAscii(s)
    ensures Utf8.Length(s) == |s|
  {
    if s != "" {
      AsciiLength(s[1..]);
    }
  }

  /** The cut in bytes: it goes through exactly when the text fits or the limit
      falls between two characters, and then the answer is the text itself or its
      first `max` bytes and the marker, sixteen bytes over the limit. */
  lemma TruncatedExact(text: string, max: nat)
    ensures Truncated(text, max) == Panic <==>
            max < Utf8.Length(text) && !exists n :: 0 <= n <= |text| && Utf8.Length(text[..n]) == max
    ensures Truncated(text, max).Whole? && Utf8.Length(text) <= max ==> Truncated(text, max).text == text
    ensures Truncated(text, max).Whole? && max < Utf8.Length(text) ==>
            var bytes := Utf8.Encode(Truncated(text, max).text);
            && bytes == Utf8.Encode(text)[..max] + Utf8.Encode("\n... [truncated]") && |bytes| == max + 16
  {
    if max < Utf8.Length(text) {
      var m := MARKER;
      Utf8.BoundaryMeansPrefix(text, max);
      Utf8.BoundaryIff(text, max);
      MarkerLength();
      Utf8.EncodeConcat(text[..Utf8.CharsWithin(text, max)], m);
    }
  }

  lemma CutInside(before: string, c: char, after: string, k: nat)
    requires 0 < k < |Utf8.EncodeChar(c)|
    ensures Truncated(before + ([c] + after), Utf8.Length(before) + k) == Panic
  {
    Utf8.EncodeConcat(before, [c] + after);
    assert ([c] + after)[1..] == after;
    var bytes := Utf8.Encode(before + ([c] + after));
    assert bytes[|Utf8.Encode(before)| + k] == Utf8.EncodeChar(c)[k];
  }

  /** Text within ASCII is never cut inside a character. */
  lemma AsciiNeverPanics(text: string, max: nat)
    requires IsAscii(text)
    ensures Truncated(text, max).Whole?
  {
    AsciiLength(text);
    if max < |text| {
      AsciiLength(text[..max]);
      Utf8.BoundaryMeansPrefix(text, max);
    }
  }

  lemma BeyondAsciiCanPanic(text: string) returns (max: nat)
    requires !IsAscii(text)
    ensures Truncated(text, max) == Panic
  {
    var i :| 0 <= i < |text| && '\U{80}' <= text[i];
    CutInside(text[..i], text[i], text[i + 1..], 1);
    assert text[..i] + ([text[i]] + text[i + 1..]) == text;
    max := Utf8.Length(text[..i]) + 1;
  }

  /** There is a limit that makes the cut panic exactly for text beyond ASCII. */
  lemma CanPanicIff(text: string)
    ensures (exists max: nat :: Truncated(text, max).Panic?) <==> !IsAscii(text)
  {
    if IsAscii(text) {
      forall max: nat ensures Truncated(text, max).Whole? {
        AsciiNeverPanics(text, max);
      }
    } else {
      var max := BeyondAsciiCanPanic(text);
      assert Truncated(text, max).Panic?;
    }
  }

  predicate AllAscii(parts: seq<string>) {
    forall i :: 0 <= i < |parts| ==> IsAscii(parts[i])
  }

  lemma AllAsciiCons(part: string, parts: seq<string>)
    ensures AllAscii([part] + parts) <==> IsAscii(part) && AllAscii(parts)
  {
    var all := [part] + parts;
    assert all[0] == part;
    assert forall i :: 0 <= i < |parts| ==> parts[i] == all[i + 1];
  }

  lemma {:induction false} ConcatAsciiIff(parts: seq<string>)
    ensures IsAscii(Concat(parts)) <==> AllAscii(parts)
  {
    if parts != [] {
      AsciiAppend(parts[0], Concat(parts[1..]));
      ConcatAsciiIff(parts[1..]);
      AllAsciiCons(parts[0], parts[1..]);
      assert parts == [parts[0]] + parts[1..];
    }
  }

  lemma AsciiAppend(a: string, b: string)
    ensures IsAscii(a + b) <==> IsAscii(a) && IsAscii(b)
  {
    if IsAscii(a + b) {
      assert forall i :: 0 <= i < |a| ==> a[i] == (a + b)[i];
      assert forall i :: 0 <= i < |b| ==> b[i] == (a + b)[|a| + i];
    }
  }

  lemma RowAsciiIff(number: nat, line: string)
    ensures IsAscii(Row(number, line)) <==> IsAscii(line)
  {
    var head := PadLeft(Decimal(number), 6);
    NumberOfPadded(Decimal(number), 6);
    assert IsAscii(head) by {
      forall i | 0 <= i < |head| ensures head[i] < '\U{80}' {
        assert head[i] in head;
      }
    }
    AsciiAppend(head, "\t");
    AsciiAppend(head + "\t", line);
    AsciiAppend(head + "\t" + line, "\n");
  }

  /** Numbering and padding add nothing beyond ASCII. */
  lemma RenderedAsciiIff(lines: seq<string>, first: nat)
    ensures IsAscii(Rendered(lines, first)) <==> AllAscii(lines)
  {
    RowsAsciiIff(lines, first, Rows(lines, first));
    ConcatAsciiIff(Rows(lines, first));
  }

  lemma RowsAsciiIff(lines: seq<string>, first: nat, rows: seq<string>)
    requires |rows| == |lines| && forall i :: 0 <= i < |rows| ==> rows[i] == Row(first + i, lines[i])
    ensures AllAscii(rows) <==> AllAscii(lines)
  {
    forall i | 0 <= i < |rows| ensures IsAscii(rows[i]) <==> IsAscii(lines[i]) {
      RowAsciiIff(first + i, lines[i]);
    }
  }

  lemma {:induction false} LinesAsciiIff(s: string)
    ensures IsAscii(s) <==> AllAscii(Lines(s))
    decreases |s|
  {
    if s != "" {
      var n := Find(s, '\n');
      if n < |s| {
        var line, rest := s[..n], s[n + 1..];
        assert s == line + "\n" + rest;
        AsciiAppend(line, "\n");
        AsciiAppend(line + "\n", rest);
        StripAscii(line);
        LinesAsciiIff(rest);
        LinesCons(line, rest);
        AllAsciiCons(StripReturn(line), Lines(rest));
      } else {
        AllAsciiCons(s, []);
        assert Lines(s) == [s] + [];
      }
    }
  }

  lemma StripAscii(line: string)
    ensures IsAscii(StripReturn(line)) <==> IsAscii(line)
  {
    if StripReturn(line) != line {
      assert line == StripReturn(line) + "\r";
      AsciiAppend(StripReturn(line), "\r");
    }
  }
}
