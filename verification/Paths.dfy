/** Path text and path components, as Rust's `std::path` reads them on Unix.

    A `PathBuf` that is absolute and normalised is the list of names below "/";
    raw caller input stays a string until `Components` takes it apart. */
module Paths {

  type Name = string

  datatype Component = RootDir | CurDir | ParentDir | Normal(name: Name)

  predicate ValidName(n: Name) {
    n != "" && n != "." && n != ".." && '/' !in n
  }

  predicate ValidNames(p: seq<Name>) {
    forall i :: 0 <= i < |p| ==> ValidName(p[i])
  }

  function Normals(p: seq<Name>): (cs: seq<Component>)
    ensures |cs| == |p|
    ensures forall i :: 0 <= i < |p| ==> cs[i] == Normal(p[i])
  {
    seq(|p|, i requires 0 <= i < |p| => Normal(p[i]))
  }

  function Parent(p: seq<Name>): seq<Name>
    requires p != []
  {
    p[..|p| - 1]
  }

  function Last(p: seq<Name>): Name
    requires p != []
  {
    p[|p| - 1]
  }

  /** The pieces of text between slashes, empty ones included. */
  function Split(s: string): (pieces: seq<string>)
    ensures |pieces| > 0
    ensures forall i :: 0 <= i < |pieces| ==> '/' !in pieces[i]
  {
    if s == "" then [""]
    else if s[0] == '/' then [""] + Split(s[1..])
    else
      var rest := Split(s[1..]);
      [[s[0]] + rest[0]] + rest[1..]
  }

  /** Empty pieces and `.` vanish, `..` is the parent, anything else is a name. */
  function FromPieces(pieces: seq<string>): (cs: seq<Component>)
  {
    if pieces == [] then []
    else
      var rest := FromPieces(pieces[1..]);
      if pieces[0] == "" || pieces[0] == "." then rest
      else if pieces[0] == ".." then [ParentDir] + rest
      else [Normal(pieces[0])] + rest
  }

  predicate IsAbsolute(s: string) {
    s != "" && s[0] == '/'
  }

  /** `Path::components`: a leading `.` of a relative path is kept as `CurDir`. */
  function Components(s: string): seq<Component> {
    var pieces := Split(s);
    if IsAbsolute(s) then [RootDir] + FromPieces(pieces)
    else if pieces[0] == "." then [CurDir] + FromPieces(pieces)
    else FromPieces(pieces)
  }

  /** `PathBuf::push` and `Path::join`: absolute text replaces, relative text is
      appended with a separator when one is missing. */
  function Join(base: string, raw: string): string {
    if IsAbsolute(raw) then raw
    else if base == "" || base[|base| - 1] == '/' then base + raw
    else base + "/" + raw
  }

  /** Names joined by "/", with no leading slash. */
  function RenderRelative(p: seq<Name>): string {
    if p == [] then ""
    else if |p| == 1 then p[0]
    else p[0] + "/" + RenderRelative(p[1..])
  }

  /** The text of an absolute normalised path. */
  function Render(p: seq<Name>): string {
    "/" + RenderRelative(p)
  }

  lemma {:induction false} SplitConcat(a: string, b: string)
    ensures Split(a + "/" + b) == Split(a) + Split(b)
  {
    if a == "" {
      assert (a + "/" + b)[1..] == b;
    } else {
      assert (a + "/" + b)[1..] == a[1..] + "/" + b;
      SplitConcat(a[1..], b);
    }
  }

  lemma {:induction false} SplitName(n: string)
    requires '/' !in n
    ensures Split(n) == [n]
  {
    if n != "" {
      SplitName(n[1..]);
      assert [n[0]] + n[1..] == n;
    }
  }

  lemma {:induction false} FromPiecesConcat(a: seq<string>, b: seq<string>)
    ensures FromPieces(a + b) == FromPieces(a) + FromPieces(b)
  {
    if a == [] {
      assert a + b == b;
    } else {
      assert (a + b)[1..] == a[1..] + b;
      FromPiecesConcat(a[1..], b);
    }
  }

  /** Only names that may stand in a path come out of parsing one. */
  lemma {:induction false} PiecesGiveValidNames(pieces: seq<string>)
    requires forall i :: 0 <= i < |pieces| ==> '/' !in pieces[i]
    ensures forall c :: c in FromPieces(pieces) ==> c.ParentDir? || (c.Normal? && ValidName(c.name))
  {
    if pieces != [] {
      PiecesGiveValidNames(pieces[1..]);
    }
  }

  lemma {:induction false} PiecesOfRendered(p: seq<Name>)
    requires ValidNames(p)
    ensures FromPieces(Split(RenderRelative(p))) == Normals(p)
  {
    if p == [] {
    } else if |p| == 1 {
      SplitName(p[0]);
    } else {
      SplitName(p[0]);
      SplitConcat(p[0], RenderRelative(p[1..]));
      PiecesOfRendered(p[1..]);
      FromPiecesConcat([p[0]], Split(RenderRelative(p[1..])));
      assert FromPieces([p[0]]) == [Normal(p[0])];
      assert [Normal(p[0])] + Normals(p[1..]) == Normals(p);
    }
  }

  lemma {:induction false} RenderRelativeShape(p: seq<Name>)
    requires ValidNames(p) && p != []
    ensures RenderRelative(p) != ""
    ensures RenderRelative(p)[0] != '/' && RenderRelative(p)[|RenderRelative(p)| - 1] != '/'
    ensures RenderRelative(p) != "."
  {
    assert ValidName(p[0]);
    assert forall i :: 0 <= i < |p[0]| ==> p[0][i] in p[0];
    if |p| > 1 {
      assert ValidNames(p[1..]) by {
        assert forall i :: 0 <= i < |p| - 1 ==> p[1..][i] == p[i + 1];
      }
      RenderRelativeShape(p[1..]);
    }
  }

  /** Text rendered from a normalised path reads back as exactly that path. */
  lemma ComponentsOfRendered(p: seq<Name>)
    requires ValidNames(p)
    ensures Components(Render(p)) == [RootDir] + Normals(p)
  {
    var s := Render(p);
    assert s[1..] == RenderRelative(p);
    PiecesOfRendered(p);
    FromPiecesConcat([""], Split(s[1..]));
    assert FromPieces([""]) == [];
  }

  /** Joining on text is appending on components: a relative input is read below
      the base path, an absolute one on its own. */
  lemma ComponentsOfJoin(base: seq<Name>, raw: string)
    requires ValidNames(base)
    ensures Components(Join(Render(base), raw)) ==
            if IsAbsolute(raw) then Components(raw)
            else [RootDir] + Normals(base) + FromPieces(Split(raw))
  {
    if !IsAbsolute(raw) {
      var stem := JoinedText(base, raw);
      PiecesBelow(stem, raw, Normals(base));
    }
  }

  /** Joining adds the separator, except after "/" itself, which has it. */
  lemma JoinedText(base: seq<Name>, raw: string) returns (stem: string)
    requires ValidNames(base) && !IsAbsolute(raw)
    ensures Join(Render(base), raw) == stem + "/" + raw && (stem == "" || IsAbsolute(stem))
    ensures FromPieces(Split(stem)) == Normals(base)
  {
    if base == [] {
      stem := "";
      assert FromPieces([""]) == [];
    } else {
      stem := Render(base);
      RenderRelativeShape(base);
      RenderedPieces(base);
    }
  }

  lemma PiecesBelow(stem: string, raw: string, cs: seq<Component>)
    requires stem == "" || IsAbsolute(stem)
    requires FromPieces(Split(stem)) == cs
    ensures Components(stem + "/" + raw) == [RootDir] + cs + FromPieces(Split(raw))
  {
    var joined, below := stem + "/" + raw, FromPieces(Split(raw));
    assert FromPieces(Split(joined)) == cs + below by {
      SplitConcat(stem, raw);
      FromPiecesConcat(Split(stem), Split(raw));
    }
    assert IsAbsolute(joined);
    AbsoluteComponents(joined, cs, below);
  }

  lemma AbsoluteComponents(s: string, a: seq<Component>, b: seq<Component>)
    requires IsAbsolute(s) && FromPieces(Split(s)) == a + b
    ensures Components(s) == [RootDir] + a + b
  {
    assert [RootDir] + (a + b) == [RootDir] + a + b;
  }

  /** Text after a slash adds its own components to what came before it. */
  lemma ComponentsConcat(s: string, t: string)
    requires s != ""
    ensures Components(s + "/" + t) == Components(s) + FromPieces(Split(t))
  {
    SplitConcat(s, t);
    FromPiecesConcat(Split(s), Split(t));
    ComponentsByPieces(s + "/" + t, Split(s)[0], FromPieces(Split(s)) + FromPieces(Split(t)), IsAbsolute(s));
    ComponentsByPieces(s, Split(s)[0], FromPieces(Split(s)), IsAbsolute(s));
    var a, b := FromPieces(Split(s)), FromPieces(Split(t));
    assert [RootDir] + (a + b) == [RootDir] + a + b;
    assert [CurDir] + (a + b) == [CurDir] + a + b;
  }

  lemma ComponentsByPieces(s: string, first: string, cs: seq<Component>, absolute: bool)
    requires Split(s)[0] == first && FromPieces(Split(s)) == cs && IsAbsolute(s) == absolute
    ensures Components(s) == (if absolute then [RootDir] + cs else if first == "." then [CurDir] + cs else cs)
  {
  }

  lemma RenderedPieces(p: seq<Name>)
    requires ValidNames(p)
    ensures FromPieces(Split(Render(p))) == Normals(p)
  {
    ComponentsOfRendered(p);
    var pieces := FromPieces(Split(Render(p)));
    assert Components(Render(p)) == [RootDir] + pieces;
    assert pieces == ([RootDir] + pieces)[1..] == ([RootDir] + Normals(p))[1..] == Normals(p);
  }
}
