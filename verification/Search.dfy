/** The hit loop of `search` in `src/fs_ops.rs`, over the files its walker yields
    and a pattern given as a predicate on lines. */
module Search {
  import opened Wrappers
  import opened Whitespace
  import ReadFile
  import ReadText
  import Utf8

  datatype Found = Found(shown: string, lines: seq<string>)

  /** A file as the loop reads it: a binary one has no lines to offer. */
  function Opened(shown: string, text: string): Found {
    Found(shown, if ReadFile.LooksBinary(Utf8.Encode(text)) then [] else ReadText.Lines(text))
  }

  /** The files as the walker yields them: the name shown, and the text. */
  function AllOpened(files: seq<(string, string)>): (found: seq<Found>)
    ensures |found| == |files| && forall i :: 0 <= i < |files| ==> found[i] == Opened(files[i].0, files[i].1)
  {
    seq(|files|, i requires 0 <= i < |files| => Opened(files[i].0, files[i].1))
  }

  /** A matching line: which file of the walk it is in, its number there, and what is
      shown of it. */
  datatype Hit = Hit(file: nat, shown: string, number: nat, line: string)

  function Row(hit: Hit): string {
    hit.shown + ":" + ReadText.Decimal(hit.number) + ":" + TrimEnd(hit.line) + "\n"
  }

  function Rows(hits: seq<Hit>): (rows: seq<string>)
    ensures |rows| == |hits| && forall i :: 0 <= i < |hits| ==> rows[i] == Row(hits[i])
  {
    seq(|hits|, i requires 0 <= i < |hits| => Row(hits[i]))
  }

  function Text(hits: seq<Hit>): string {
    ReadText.Concat(Rows(hits))
  }

  lemma TextSnoc(hits: seq<Hit>, hit: Hit)
    ensures Text(hits + [hit]) == Text(hits) + Row(hit) && Text(hits + [hit]) != ""
  {
    assert Rows(hits + [hit]) == Rows(hits) + [Row(hit)];
    ConcatSnoc(Rows(hits), Row(hit));
  }

  lemma ConcatSnoc(parts: seq<string>, part: string)
    ensures ReadText.Concat(parts + [part]) == ReadText.Concat(parts) + part
  {
    ReadText.ConcatAppend(parts, [part]);
    assert [part][1..] == [];
    assert part + "" == part;
  }

  /** The hits in file `i`, lines `from` and on. */
  function HitsFrom(files: seq<Found>, i: nat, matches: string -> bool, from: nat): seq<Hit>
    requires i < |files| && from <= |files[i].lines|
    decreases |files[i].lines| - from
  {
    var lines := files[i].lines;
    if from == |lines| then []
    else HitOn(files, i, matches, from) + HitsFrom(files, i, matches, from + 1)
  }

  function HitOn(files: seq<Found>, i: nat, matches: string -> bool, k: nat): seq<Hit>
    requires i < |files| && k < |files[i].lines|
  {
    if matches(files[i].lines[k]) then [Hit(i, files[i].shown, k + 1, files[i].lines[k])] else []
  }

  /** The hits in files `i` and on. */
  function HitsAfter(files: seq<Found>, i: nat, matches: string -> bool): seq<Hit>
    requires i <= |files|
    decreases |files| - i
  {
    if i == |files| then [] else HitsFrom(files, i, matches, 0) + HitsAfter(files, i + 1, matches)
  }

  function Hits(files: seq<Found>, matches: string -> bool): seq<Hit> {
    HitsAfter(files, 0, matches)
  }

  function StopRow(limit: nat): string {
    "... [stopped at " + ReadText.Decimal(limit) + " matches]\n"
  }

  function Most(limit: nat): nat {
    if limit == 0 then 1 else limit
  }

  /** The answer as a reader thinks of it: all hits in order, cut off with a note
      once there are `limit` of them (one, when the limit is zero). */
  function Answer(hits: seq<Hit>, limit: nat): string {
    if |hits| >= Most(limit) then Text(hits[..Most(limit)]) + StopRow(limit)
    else if hits == [] then "(no matches)"
    else Text(hits)
  }

  /** Scanning stopped with `seen`, and `later` was never looked at. */
  lemma AnswerWhenStopped(seen: seq<Hit>, later: seq<Hit>, limit: nat)
    requires |seen| == Most(limit)
    ensures Answer(seen + later, limit) == Text(seen) + StopRow(limit)
  {
    assert (seen + later)[..|seen|] == seen;
  }

  lemma AnswerWhenDone(seen: seq<Hit>, limit: nat)
    requires |seen| < Most(limit)
    ensures Answer(seen, limit) == if Text(seen) == "" then "(no matches)" else Text(seen)
  {
  }

  /** The lines of one file: the answer so far grows by its hits, up to the limit. */
  method ScanFile(files: seq<Found>, i: nat, matches: string -> bool, limit: nat,
                  out: string, hits: nat, ghost seen: seq<Hit>)
    returns (out': string, hits': nat, stopped: bool, ghost seen': seq<Hit>, ghost rest': seq<Hit>)
    requires i < |files| && hits == |seen| < Most(limit) && out == Text(seen)
    ensures hits' == |seen'| && out' == Text(seen')
    ensures !stopped ==> |seen'| < Most(limit) && rest' == []
    ensures stopped ==> |seen'| == Most(limit)
    ensures seen + HitsFrom(files, i, matches, 0) == seen' + rest'
  {
    out', hits', seen' := out, hits, seen;
    var lines, number := files[i].lines, 0;
    rest' := HitsFrom(files, i, matches, 0);
    while number < |lines|
      invariant 0 <= number <= |lines| && hits' == |seen'| < Most(limit) && out' == Text(seen')
      invariant rest' == HitsFrom(files, i, matches, number)
      invariant seen + HitsFrom(files, i, matches, 0) == seen' + rest'
    {
      ghost var before := rest';
      rest' := HitsFrom(files, i, matches, number + 1);
      if matches(lines[number]) {
        var hit := Hit(i, files[i].shown, number + 1, lines[number]);
        assert seen' + before == (seen' + [hit]) + rest';
        TextSnoc(seen', hit);
        out', hits', seen' := out' + Row(hit), hits' + 1, seen' + [hit];
        if hits' >= limit {
          return out', hits', true, seen', rest';
        }
      } else {
        assert before == rest';
      }
      number := number + 1;
    }
    stopped := false;
  }

  method Scan(files: seq<Found>, matches: string -> bool, limit: nat) returns (out: string)
    ensures out == Answer(Hits(files, matches), limit)
  {
    var hits, stopped, i := 0, false, 0;
    out := "";
    ghost var seen: seq<Hit>, rest: seq<Hit> := [], [];
    while i < |files|
      invariant 0 <= i <= |files| && hits == |seen| < Most(limit) && out == Text(seen)
      invariant Hits(files, matches) == seen + HitsAfter(files, i, matches)
    {
      ghost var before, later := seen, HitsAfter(files, i + 1, matches);
      out, hits, stopped, seen, rest := ScanFile(files, i, matches, limit, out, hits, seen);
      HitsStep(files, matches, i, before, seen, rest);
      if stopped {
        AnswerWhenStopped(seen, rest + later, limit);
        return out + StopRow(limit);
      }
      assert rest + later == later;
      i := i + 1;
    }
    assert Hits(files, matches) == seen;
    AnswerWhenDone(seen, limit);
    if out == "" {
      out := "(no matches)";
    }
  }

  /** A matching line of the files as they are: a file with a NUL among its first
      bytes has none. */
  ghost predicate LineMatches(files: seq<(string, string)>, matches: string -> bool, hit: Hit) {
    && hit.file < |files| && hit.shown == files[hit.file].0
    && !ReadFile.NulEarly(files[hit.file].1)
    && (var lines := ReadText.Lines(files[hit.file].1);
        1 <= hit.number <= |lines| && hit.line == lines[hit.number - 1] && matches(hit.line))
  }

  /** All matching lines, each once, in the order of the walk and of the lines. */
  ghost predicate Lists(files: seq<(string, string)>, matches: string -> bool, hits: seq<Hit>) {
    (forall hit :: hit in hits <==> LineMatches(files, matches, hit)) && Ascending(hits)
  }

  lemma HitsListed(files: seq<(string, string)>, matches: string -> bool)
    ensures Lists(files, matches, Hits(AllOpened(files), matches))
  {
    var found := AllOpened(files);
    HitsExact(found, matches);
    forall hit ensures HitAt(found, matches, hit) <==> LineMatches(files, matches, hit) {
      if hit.file < |files| {
        ReadFile.LooksBinaryIff(files[hit.file].1);
      }
    }
  }

  /** The row of a hit: its file, its number and its line without white space at the
      end. */
  ghost predicate RowFor(row: string, hit: Hit) {
    exists line ::
      && row == hit.shown + ":" + ReadText.Decimal(hit.number) + ":" + line + "\n"
      && line <= hit.line && AllWhite(hit.line[|line|..])
      && (line != "" ==> !IsWhitespace(line[|line| - 1]))
  }

  ghost predicate RowsFor(rows: seq<string>, hits: seq<Hit>) {
    |rows| == |hits| && forall i :: 0 <= i < |rows| ==> RowFor(rows[i], hits[i])
  }

  lemma TextIsRows(hits: seq<Hit>) returns (rows: seq<string>)
    ensures RowsFor(rows, hits) && Text(hits) == ReadText.Concat(rows)
  {
    rows := Rows(hits);
    forall i | 0 <= i < |hits| ensures RowFor(rows[i], hits[i]) {
      RowIsFor(hits[i]);
    }
  }

  lemma RowIsFor(hit: Hit)
    ensures RowFor(Row(hit), hit)
  {
    TrimEndExact(hit.line);
    var line := TrimEnd(hit.line);
    assert Row(hit) == hit.shown + ":" + ReadText.Decimal(hit.number) + ":" + line + "\n";
  }

  /** The answer for these hits: none; all their rows; or the rows of the first `limit`
      of them (of one, when the limit is zero) and a note. */
  ghost predicate Says(out: string, hits: seq<Hit>, limit: nat) {
    var most := if limit == 0 then 1 else limit;
    && (out == "(no matches)" <== hits == [])
    && (hits != [] && |hits| < most ==> exists rows :: RowsFor(rows, hits) && out == ReadText.Concat(rows))
    && (|hits| >= most ==> exists rows ::
          RowsFor(rows, hits[..most])
          && out == ReadText.Concat(rows) + ("... [stopped at " + ReadText.Decimal(limit) + " matches]\n"))
  }

  lemma AnswerSays(hits: seq<Hit>, limit: nat)
    ensures Says(Answer(hits, limit), hits, limit)
  {
    var most := if limit == 0 then 1 else limit;
    if |hits| >= most {
      var rows := TextIsRows(hits[..most]);
      assert StopRow(limit) == "... [stopped at " + ReadText.Decimal(limit) + " matches]\n";
    } else if hits != [] {
      var rows := TextIsRows(hits);
    }
  }

  /** `search`, after the pattern and the path have been accepted. */
  method Search(files: seq<(string, string)>, matches: string -> bool, maxResults: Option<nat>, max: nat)
    returns (r: ReadText.Cut)
    ensures var limit := if maxResults.Some? then maxResults.value else 200;
            exists hits, out ::
              Lists(files, matches, hits) && Says(out, hits, limit) && r == ReadText.Truncated(out, max)
  {
    var limit := if maxResults.Some? then maxResults.value else 200;
    HitsListed(files, matches);
    AnswerSays(Hits(AllOpened(files), matches), limit);
    var out := Scan(AllOpened(files), matches, limit);
    r := ReadText.Truncated(out, max);
  }

  lemma HitsStep(
      files: seq<Found>, matches: string -> bool, i: nat, before: seq<Hit>, seen: seq<Hit>, rest: seq<Hit>)
    requires i < |files| && before + HitsFrom(files, i, matches, 0) == seen + rest
    ensures before + HitsAfter(files, i, matches) == seen + (rest + HitsAfter(files, i + 1, matches))
  {
    var here, later := HitsFrom(files, i, matches, 0), HitsAfter(files, i + 1, matches);
    assert before + (here + later) == (before + here) + later;
    assert (seen + rest) + later == seen + (rest + later);
  }

  /** The hit is a matching line of the walk. */
  ghost predicate HitAt(files: seq<Found>, matches: string -> bool, hit: Hit) {
    && hit.file < |files| && hit.shown == files[hit.file].shown
    && 1 <= hit.number <= |files[hit.file].lines|
    && hit.line == files[hit.file].lines[hit.number - 1] && matches(hit.line)
  }

  lemma {:induction false} HitsFromIff(files: seq<Found>, i: nat, matches: string -> bool, from: nat, hit: Hit)
    requires i < |files| && from <= |files[i].lines|
    ensures hit in HitsFrom(files, i, matches, from) <==>
            HitAt(files, matches, hit) && hit.file == i && from < hit.number
    decreases |files[i].lines| - from
  {
    if from < |files[i].lines| {
      HitOnIff(files, i, matches, from, hit);
      HitsFromIff(files, i, matches, from + 1, hit);
    }
  }

  lemma HitOnIff(files: seq<Found>, i: nat, matches: string -> bool, k: nat, hit: Hit)
    requires i < |files| && k < |files[i].lines|
    ensures hit in HitOn(files, i, matches, k) <==> HitAt(files, matches, hit) && hit.file == i && hit.number == k + 1
  {
  }

  lemma {:induction false} HitsAfterIff(files: seq<Found>, i: nat, matches: string -> bool, hit: Hit)
    requires i <= |files|
    ensures hit in HitsAfter(files, i, matches) <==> HitAt(files, matches, hit) && i <= hit.file
    decreases |files| - i
  {
    if i < |files| {
      HitsFromIff(files, i, matches, 0, hit);
      HitsAfterIff(files, i + 1, matches, hit);
    }
  }

  /** The order of the walk, and of the lines in a file. */
  predicate Before(a: Hit, b: Hit) {
    a.file < b.file || (a.file == b.file && a.number < b.number)
  }

  ghost predicate Ascending(hits: seq<Hit>) {
    forall x, y :: 0 <= x < y < |hits| ==> Before(hits[x], hits[y])
  }

  lemma AscendingConcat(a: seq<Hit>, b: seq<Hit>)
    requires Ascending(a) && Ascending(b) && forall h, k :: h in a && k in b ==> Before(h, k)
    ensures Ascending(a + b)
  {
    var all := a + b;
    forall x, y | 0 <= x < y < |all| ensures Before(all[x], all[y]) {
      if x < |a| && |a| <= y {
        assert all[x] in a && all[y] in b;
      }
    }
  }

  lemma {:induction false} HitsFromAscend(files: seq<Found>, i: nat, matches: string -> bool, from: nat)
    requires i < |files| && from <= |files[i].lines|
    ensures Ascending(HitsFrom(files, i, matches, from))
    decreases |files[i].lines| - from
  {
    var lines := files[i].lines;
    if from < |lines| {
      HitsFromAscend(files, i, matches, from + 1);
      var rest := HitsFrom(files, i, matches, from + 1);
      var here := HitOn(files, i, matches, from);
      forall h, k | h in here && k in rest ensures Before(h, k) {
        HitsFromIff(files, i, matches, from + 1, k);
      }
      AscendingConcat(here, rest);
    }
  }

  lemma {:induction false} HitsAfterAscend(files: seq<Found>, i: nat, matches: string -> bool)
    requires i <= |files|
    ensures Ascending(HitsAfter(files, i, matches))
    decreases |files| - i
  {
    if i < |files| {
      var here, later := HitsFrom(files, i, matches, 0), HitsAfter(files, i + 1, matches);
      HitsFromAscend(files, i, matches, 0);
      HitsAfterAscend(files, i + 1, matches);
      forall h, k | h in here && k in later ensures Before(h, k) {
        HitsFromIff(files, i, matches, 0, h);
        HitsAfterIff(files, i + 1, matches, k);
      }
      AscendingConcat(here, later);
    }
  }

  /** The hits are exactly the matching lines of the text files, each once, in the
      order of the walk and of the lines. */
  lemma HitsExact(files: seq<Found>, matches: string -> bool)
    ensures forall hit :: hit in Hits(files, matches) <==> HitAt(files, matches, hit)
    ensures Ascending(Hits(files, matches))
    ensures forall x, y :: 0 <= x < y < |Hits(files, matches)| ==> Hits(files, matches)[x] != Hits(files, matches)[y]
  {
    forall hit ensures hit in Hits(files, matches) <==> HitAt(files, matches, hit) {
      HitsAfterIff(files, 0, matches, hit);
    }
    HitsAfterAscend(files, 0, matches);
  }
}
