/** `read_file` of `src/fs_ops.rs`, from the path it is given to the text it
    answers with. */
module ReadFile {
  import opened Paths
  import opened FileSystem
  import opened Wrappers
  import opened Root
  import opened Confinement
  import FsOps
  import ReadText
  import Utf8
  import WriteConfinement

  const BINARY_SNIFF := 8192

  datatype Failure =
    | NotResolved(why: RootError)
    | NotRead(shown: string, errno: Errno)
    | Binary(shown: string, bytes: nat)
    | PastEnd(shown: string, end: ReadText.PastEnd)
    | Panicked

  predicate LooksBinary(bytes: seq<Utf8.Byte>) {
    0 in if |bytes| <= BINARY_SNIFF then bytes else bytes[..BINARY_SNIFF]
  }

  /** The window a caller asks for; without an offset it starts at the top. */
  function StartOf(offset: Option<nat>): nat {
    if offset.Some? then offset.value else 0
  }

  function ReadFileOf(
      fs: Nodes, hops: nat, root: seq<Name>, path: string,
      offset: Option<nat>, limit: Option<nat>, max: nat): Result<string, Failure>
  {
    match ResolveOf(fs, hops, root, path)
    case Err(e) => Err(NotResolved(e))
    case Ok(resolved) =>
      var shown := FsOps.Shown(root, resolved);
      match FsOps.ReadOf(fs, hops, resolved)
      case Err(e) => Err(NotRead(shown, e))
      case Ok(text) =>
        AnswerFor(shown, text, StartOf(offset), limit, max)
  }

  /** What is answered for a file with this text. */
  function AnswerFor(shown: string, text: string, start: nat, limit: Option<nat>, max: nat): Result<string, Failure> {
    if LooksBinary(Utf8.Encode(text)) then Err(Binary(shown, Utf8.Length(text)))
    else
      match ReadText.ReadOf(ReadText.Lines(text), start, limit)
      case Err(e) => Err(PastEnd(shown, e))
      case Ok(out) =>
        match ReadText.Truncated(out, max)
        case Panic => Err(Panicked)
        case Whole(answer) => Ok(answer)
  }

  /** `read_file`. */
  method Read(
      fs: Nodes, hops: nat, root: seq<Name>, path: string,
      offset: Option<nat>, limit: Option<nat>, max: nat) returns (r: Result<string, Failure>)
    ensures r == ReadFileOf(fs, hops, root, path, offset, limit, max)
  {
    var checked := Resolve(fs, hops, root, path);
    if checked.Err? {
      return Err(NotResolved(checked.error));
    }
    var shown := FsOps.Shown(root, checked.value);
    var text := FsOps.ReadOf(fs, hops, checked.value);
    if text.Err? {
      return Err(NotRead(shown, text.error));
    }
    if LooksBinary(Utf8.Encode(text.value)) {
      return Err(Binary(shown, Utf8.Length(text.value)));
    }
    var out := ReadText.ReadWindow(ReadText.Lines(text.value), offset, limit);
    if out.Err? {
      return Err(PastEnd(shown, out.error));
    }
    var cut := ReadText.Truncated(out.value, max);
    return if cut.Panic? then Err(Panicked) else Ok(cut.text);
  }

  lemma {:induction false} NulByteIff(s: string)
    ensures 0 in Utf8.Encode(s) <==> '\0' in s
  {
    if s != "" {
      NulByteIff(s[1..]);
      var n := s[0] as int;
      assert 0 in Utf8.EncodeChar(s[0]) <==> n == 0;
    }
  }

  /** From one tool to the other: text without a NUL that `write_file` accepted is
      what `read_file` of the same path shows, line for line and numbered, as long
      as the answer fits. */
  lemma WrittenIsShown(fs: Nodes, hops: nat, root: seq<Name>, path: string, content: string, max: nat)
    requires WellFormed(fs) && ValidNames(root) && '\0' !in content
    ensures var (fs', written) := FsOps.WriteFileOf(fs, hops, root, path, content);
            var r := ReadFileOf(fs', hops, root, path, None, None, max);
            written.Ok? && Utf8.Length(ReadText.Rendered(ReadText.Lines(content), 1)) <= max ==>
              r.Ok? && ReadText.Parsed(r.value) == ReadText.Numbered(ReadText.Lines(content), 1)
  {
    if FsOps.WriteFileOf(fs, hops, root, path, content).1.Ok? {
      WriteConfinement.WriteThenRead(fs, hops, root, path, content);
      NulByteIff(content);
      var lines := ReadText.Lines(content);
      ReadText.WindowReadsBack(content, 0, None);
      assert ReadText.Window(lines, 0, None) == lines;
      ReadText.TruncatedExact(ReadText.Rendered(lines, 1), max);
    }
  }

  /** The file `read_file` is about: the one the path resolves to, under the root. */
  ghost predicate Readable(fs: Nodes, hops: nat, root: seq<Name>, path: string, p: seq<Name>, text: string) {
    ResolveOf(fs, hops, root, path) == Ok(p) && root <= p && p in fs && fs[p] == File(text)
  }

  /** Without such a file, and only then, the answer is a path or a read error. */
  lemma ReadableIff(
      fs: Nodes, hops: nat, root: seq<Name>, path: string, offset: Option<nat>, limit: Option<nat>, max: nat)
    requires WellFormed(fs) && ValidNames(root)
    ensures var r := ReadFileOf(fs, hops, root, path, offset, limit, max);
            (r.Err? && (r.error.NotResolved? || r.error.NotRead?)) <==>
            !exists p, text :: Readable(fs, hops, root, path, p, text)
  {
    var resolved := ResolveOf(fs, hops, root, path);
    if resolved.Ok? {
      var p := resolved.value;
      ResolvedRead(fs, hops, root, path, p);
      if p in fs && fs[p].File? {
        assert Readable(fs, hops, root, path, p, fs[p].content);
        OtherRefusals(FsOps.Shown(root, p), fs[p].content, StartOf(offset), limit, max);
      }
    }
  }

  lemma OtherRefusals(shown: string, text: string, start: nat, limit: Option<nat>, max: nat)
    ensures var r := AnswerFor(shown, text, start, limit, max); r.Err? ==> !r.error.NotResolved? && !r.error.NotRead?
  {
  }

  lemma ResolvedRead(fs: Nodes, hops: nat, root: seq<Name>, path: string, p: seq<Name>)
    requires WellFormed(fs) && ValidNames(root) && ResolveOf(fs, hops, root, path) == Ok(p)
    ensures root <= p
    ensures FsOps.ReadOf(fs, hops, p).Ok? <==> p in fs && fs[p].File?
    ensures FsOps.ReadOf(fs, hops, p).Ok? ==> FsOps.ReadOf(fs, hops, p).value == fs[p].content
  {
    var r, k := WriteConfinement.Resolved(fs, hops, root, path);
    ExistsUpToIsLinkFree(fs, p, k);
    LinkFreeWalkAbsent(fs, p, hops);
  }

  /** Where the cut would fall inside a character. */
  ghost predicate CutsCharacter(out: string, max: nat) {
    max < Utf8.Length(out) && !exists n :: 0 <= n <= |out| && Utf8.Length(out[..n]) == max
  }

  /** A NUL among the first 8192 bytes. */
  ghost predicate NulEarly(text: string) {
    exists i :: 0 <= i < 8192 && i < |Utf8.Encode(text)| && Utf8.Encode(text)[i] == 0
  }

  lemma LooksBinaryIff(text: string)
    ensures LooksBinary(Utf8.Encode(text)) <==> NulEarly(text)
  {
    var bytes := Utf8.Encode(text);
    var head := if |bytes| <= BINARY_SNIFF then bytes else bytes[..BINARY_SNIFF];
    assert forall i :: 0 <= i < |head| ==> head[i] == bytes[i];
    if NulEarly(text) {
      var i :| 0 <= i < 8192 && i < |bytes| && bytes[i] == 0;
      assert head[i] == 0;
    }
  }

  /** An answer for a file with this text: binary exactly by a NUL in the first bytes,
      past the end exactly for an offset beyond the lines of a text that has any, a
      panic exactly when the limit cuts a character, and in all other cases the window
      asked for, whole and readable back, or cut to the limit and marked. */
  ghost predicate Describes(
      r: Result<string, Failure>, shown: string, text: string, start: nat, limit: Option<nat>, max: nat)
  {
    var window := ReadText.Window(ReadText.Lines(text), start, limit);
    var out := ReadText.Rendered(window, start + 1);
    && (r == Err(Binary(shown, Utf8.Length(text))) <==> NulEarly(text))
    && (r == Err(PastEnd(shown, ReadText.PastEnd(start, |ReadText.Lines(text)|))) <==>
          !NulEarly(text) && Beyond(text, start))
    && (r == Err(Panicked) <==> Offers(text, start) && CutsCharacter(out, max))
    && (r.Ok? <==> Offers(text, start) && !CutsCharacter(out, max))
    && (r.Ok? && Utf8.Length(out) <= max ==>
          r.value == out && ReadText.Parsed(out) == ReadText.Numbered(window, start + 1))
    && (r.Ok? && max < Utf8.Length(out) ==>
          Utf8.Encode(r.value) == Utf8.Encode(out)[..max] + Utf8.Encode("\n... [truncated]"))
  }

  predicate Beyond(text: string, start: nat) {
    ReadText.Lines(text) != [] && start >= |ReadText.Lines(text)|
  }

  ghost predicate Offers(text: string, start: nat) {
    !NulEarly(text) && !Beyond(text, start)
  }

  /** `read_file` of a file, decided and described completely; without an offset it
      reads from the top. */
  lemma ReadFileExact(
      fs: Nodes, hops: nat, root: seq<Name>, path: string,
      offset: Option<nat>, limit: Option<nat>, max: nat, p: seq<Name>, text: string)
    requires WellFormed(fs) && ValidNames(root) && Readable(fs, hops, root, path, p, text)
    ensures var r := ReadFileOf(fs, hops, root, path, offset, limit, max);
            && (offset.None? ==> Describes(r, FsOps.Shown(root, p), text, 0, limit, max))
            && (offset.Some? ==> Describes(r, FsOps.Shown(root, p), text, offset.value, limit, max))
  {
    ResolvedRead(fs, hops, root, path, p);
    AnswerExact(FsOps.Shown(root, p), text, StartOf(offset), limit, max);
  }

  /** The read error when the path resolves to no file: that it is a directory, that a
      name is missing, or that a file is in the way; `k` names of the path exist. */
  lemma RefusedRead(
      fs: Nodes, hops: nat, root: seq<Name>, path: string,
      offset: Option<nat>, limit: Option<nat>, max: nat, p: seq<Name>, k: nat)
    requires WellFormed(fs) && ValidNames(root)
    requires ResolveOf(fs, hops, root, path) == Ok(p) && ExistsUpTo(fs, p, k)
    ensures var r := ReadFileOf(fs, hops, root, path, offset, limit, max);
            && (k == |p| && IsDir(fs, p) ==> r == Err(NotRead(FsOps.Shown(root, p), IsADirectory)))
            && (k < |p| ==>
                  r == Err(NotRead(FsOps.Shown(root, p), if IsDir(fs, p[..k]) then NotFound else NotADirectory)))
  {
    MissingRead(fs, hops, p, k);
  }

  lemma MissingRead(fs: Nodes, hops: nat, p: seq<Name>, k: nat)
    requires WellFormed(fs) && ExistsUpTo(fs, p, k)
    ensures k == |p| && IsDir(fs, p) ==> FsOps.ReadOf(fs, hops, p) == Err(IsADirectory)
    ensures k < |p| ==> FsOps.ReadOf(fs, hops, p) == Err(if IsDir(fs, p[..k]) then NotFound else NotADirectory)
  {
    ExistsUpToIsLinkFree(fs, p, k);
    LinkFreeWalkAbsent(fs, p, hops);
    assert p[..|p|] == p;
    if k < |p| {
      FsOps.ParentErrorOf(fs, p, k);
    }
  }

  lemma AnswerExact(shown: string, text: string, start: nat, limit: Option<nat>, max: nat)
    ensures Describes(AnswerFor(shown, text, start, limit, max), shown, text, start, limit, max)
  {
    var window := ReadText.Window(ReadText.Lines(text), start, limit);
    var out := ReadText.Rendered(window, start + 1);
    ReadText.LinesAreOneLine(text);
    ReadText.WindowParses(ReadText.Lines(text), start, limit);
    AnswerOutcome(shown, text, start, limit, max, out);
    CutExact(out, max);
  }

  lemma AnswerOutcome(shown: string, text: string, start: nat, limit: Option<nat>, max: nat, out: string)
    requires out == ReadText.Rendered(ReadText.Window(ReadText.Lines(text), start, limit), start + 1)
    ensures AnswerFor(shown, text, start, limit, max) ==
            if NulEarly(text) then Err(Binary(shown, Utf8.Length(text)))
            else if Beyond(text, start) then Err(PastEnd(shown, ReadText.PastEnd(start, |ReadText.Lines(text)|)))
            else if ReadText.Truncated(out, max).Panic? then Err(Panicked)
            else Ok(ReadText.Truncated(out, max).text)
  {
    LooksBinaryIff(text);
  }

  lemma CutExact(out: string, max: nat)
    ensures ReadText.Truncated(out, max).Panic? <==> CutsCharacter(out, max)
    ensures Utf8.Length(out) <= max ==> ReadText.Truncated(out, max) == ReadText.Whole(out)
    ensures ReadText.Truncated(out, max).Whole? && max < Utf8.Length(out) ==>
              Utf8.Encode(ReadText.Truncated(out, max).text) ==
              Utf8.Encode(out)[..max] + Utf8.Encode("\n... [truncated]")
  {
    ReadText.TruncatedExact(out, max);
  }

  /** A window can be read at some limits only and panics at others exactly when one
      of its lines holds a character beyond ASCII. */
  lemma WindowCanPanicIff(
      fs: Nodes, hops: nat, root: seq<Name>, path: string,
      offset: Option<nat>, limit: Option<nat>, p: seq<Name>, text: string)
    requires WellFormed(fs) && ValidNames(root) && Readable(fs, hops, root, path, p, text)
    ensures var lines := ReadText.Lines(text);
            var window := ReadText.Window(lines, StartOf(offset), limit);
            (exists max: nat :: ReadFileOf(fs, hops, root, path, offset, limit, max) == Err(Panicked)) <==>
            && Offers(text, StartOf(offset))
            && !ReadText.AllAscii(window)
  {
    ResolvedRead(fs, hops, root, path, p);
    var shown := FsOps.Shown(root, p);
    forall max: nat ensures
      ReadFileOf(fs, hops, root, path, offset, limit, max) == AnswerFor(shown, text, StartOf(offset), limit, max) {
    }
    AnswerCanPanicIff(shown, text, StartOf(offset), limit);
  }

  lemma AnswerCanPanicIff(shown: string, text: string, start: nat, limit: Option<nat>)
    ensures (exists max: nat :: AnswerFor(shown, text, start, limit, max) == Err(Panicked)) <==>
            Offers(text, start) && !ReadText.AllAscii(ReadText.Window(ReadText.Lines(text), start, limit))
  {
    var window := ReadText.Window(ReadText.Lines(text), start, limit);
    var out := ReadText.Rendered(window, start + 1);
    forall max: nat
      ensures AnswerFor(shown, text, start, limit, max) == Err(Panicked) <==>
              Offers(text, start) && ReadText.Truncated(out, max).Panic?
    {
      AnswerOutcome(shown, text, start, limit, max, out);
    }
    ReadText.RenderedAsciiIff(window, start + 1);
    ReadText.CanPanicIff(out);
    if Offers(text, start) && !ReadText.IsAscii(out) {
      var max: nat :| ReadText.Truncated(out, max).Panic?;
      assert AnswerFor(shown, text, start, limit, max) == Err(Panicked);
    }
  }

  /** For a file read from the top without a limit on lines: some limit on the output
      makes `read_file` panic exactly when the file is text beyond ASCII. */
  lemma ReadingCanPanicIff(fs: Nodes, hops: nat, root: seq<Name>, path: string, p: seq<Name>, text: string)
    requires WellFormed(fs) && ValidNames(root) && Readable(fs, hops, root, path, p, text)
    ensures (exists max: nat :: ReadFileOf(fs, hops, root, path, None, None, max) == Err(Panicked)) <==>
            !NulEarly(text) && !ReadText.IsAscii(text)
  {
    WindowCanPanicIff(fs, hops, root, path, None, None, p, text);
    var lines := ReadText.Lines(text);
    assert ReadText.Window(lines, 0, None) == lines;
    ReadText.LinesAsciiIff(text);
  }

  /** However long the file, an answer is at most the limit and the sixteen bytes
      of the marker. */
  lemma AnswerIsBounded(
      fs: Nodes, hops: nat, root: seq<Name>, path: string, offset: Option<nat>, limit: Option<nat>, max: nat)
    ensures var r := ReadFileOf(fs, hops, root, path, offset, limit, max);
            r.Ok? ==> Utf8.Length(r.value) <= max + 16
  {
    var r := ReadFileOf(fs, hops, root, path, offset, limit, max);
    if r.Ok? {
      var text := FsOps.ReadOf(fs, hops, ResolveOf(fs, hops, root, path).value).value;
      var out := ReadText.ReadOf(ReadText.Lines(text), StartOf(offset), limit).value;
      ReadText.TruncatedExact(out, max);
    }
  }
}
