/** `edit_file` of `src/fs_ops.rs`: the text edit applied to a file on the disk. */
module EditFile {
  import opened Paths
  import opened FileSystem
  import opened Wrappers
  import opened Root
  import opened Confinement
  import opened FsOps
  import opened EditText
  import WriteConfinement

  datatype Refusal =
    | NoOldText
    | NotResolved(why: RootError)
    | NotRead(shown: string, errno: Errno)
    | NotUnique(shown: string, edit: EditError)
    | NotWritten(shown: string, errno: Errno)

  function EditFileOf(
      fs: Nodes, hops: nat, root: seq<Name>, path: string,
      oldText: string, newText: string): (Nodes, Result<string, Refusal>)
  {
    if oldText == "" then (fs, Err(NoOldText))
    else
      match ResolveOf(fs, hops, root, path)
      case Err(e) => (fs, Err(NotResolved(e)))
      case Ok(resolved) =>
        var shown := Shown(root, resolved);
        match ReadOf(fs, hops, resolved)
        case Err(e) => (fs, Err(NotRead(shown, e)))
        case Ok(current) =>
          match Edit(current, oldText, newText)
          case Err(e) => (fs, Err(NotUnique(shown, e)))
          case Ok(updated) =>
            var (after, failed) := WriteOf(fs, hops, resolved, updated);
            if failed.Some? then (after, Err(NotWritten(shown, failed.value))) else (after, Ok(shown))
  }

  /** `edit_file`. */
  method EditFileAt(disk: Disk, root: seq<Name>, path: string, oldText: string, newText: string)
    returns (r: Result<string, Refusal>)
    modifies disk
    ensures (disk.nodes, r) == EditFileOf(old(disk.nodes), disk.hops, root, path, oldText, newText)
  {
    if oldText == "" {
      return Err(NoOldText);
    }
    var checked := Resolve(disk.nodes, disk.hops, root, path);
    if checked.Err? {
      return Err(NotResolved(checked.error));
    }
    var resolved := checked.value;
    var shown := Shown(root, resolved);
    var current := ReadOf(disk.nodes, disk.hops, resolved);
    if current.Err? {
      return Err(NotRead(shown, current.error));
    }
    var updated := Edit(current.value, oldText, newText);
    if updated.Err? {
      return Err(NotUnique(shown, updated.error));
    }
    var failed := disk.Write(resolved, updated.value);
    if failed.Some? {
      return Err(NotWritten(shown, failed.value));
    }
    return Ok(shown);
  }

  /** The file an edit may change: it exists under the root, and every occurrence
      of the old text in it overlaps the first, at `i`. */
  ghost predicate Editable(fs: Nodes, hops: nat, root: seq<Name>, path: string, oldText: string, r: seq<Name>, i: nat) {
    ResolveOf(fs, hops, root, path) == Ok(r) && root <= r && r in fs && fs[r].File?
    && oldText != "" && SoleMatch(fs[r].content, oldText, i)
  }

  /** `s` with the `n` characters from `i` on replaced by `with`. */
  function Spliced(s: string, i: nat, n: nat, with: string): string
    requires i + n <= |s|
  {
    s[..i] + with + s[i + n..]
  }

  /** An accepted edit splices one file at one place under the root and leaves all
      else alone; a refused one leaves everything alone. */
  lemma EditFileExact(fs: Nodes, hops: nat, root: seq<Name>, path: string, oldText: string, newText: string)
    requires WellFormed(fs) && ValidNames(root)
    ensures var (fs', out) := EditFileOf(fs, hops, root, path, oldText, newText);
            && (out.Ok? <==> exists r, i: nat :: Editable(fs, hops, root, path, oldText, r, i))
            && (out.Err? ==> fs' == fs)
            && (forall r, i: nat :: Editable(fs, hops, root, path, oldText, r, i) ==>
                  fs' == fs[r := File(Spliced(fs[r].content, i, |oldText|, newText))])
  {
    if oldText != "" && ResolveOf(fs, hops, root, path).Ok? {
      var r, k := WriteConfinement.Resolved(fs, hops, root, path);
      assert r[..|r|] == r;
      ExistsUpToIsLinkFree(fs, r, k);
      LinkFreeWalkAbsent(fs, r, hops);
      if r in fs {
        WalkOfCanonical(fs, r, Follow, hops);
        WalkOfCanonical(fs, r, Create, hops);
        if fs[r].File? {
          EditAt(fs, hops, root, path, oldText, newText, r);
        }
      }
    }
  }

  lemma EditAt(fs: Nodes, hops: nat, root: seq<Name>, path: string, oldText: string, newText: string, r: seq<Name>)
    requires oldText != "" && ResolveOf(fs, hops, root, path) == Ok(r) && root <= r && r in fs && fs[r].File?
    requires Canonicalize(fs, r, hops).Found? && Canonicalize(fs, r, hops).at == r
    requires Walk(fs, [], Normals(r), Create, hops).Found? && Walk(fs, [], Normals(r), Create, hops).at == r
    ensures var (fs', out) := EditFileOf(fs, hops, root, path, oldText, newText);
            && (out.Ok? <==> exists i: nat :: Editable(fs, hops, root, path, oldText, r, i))
            && (out.Err? ==> fs' == fs)
            && (forall i: nat :: Editable(fs, hops, root, path, oldText, r, i) ==>
                  fs' == fs[r := File(Spliced(fs[r].content, i, |oldText|, newText))])
  {
    var s := fs[r].content;
    EditExact(s, oldText, newText, 0);
    if Edit(s, oldText, newText).Ok? {
      var k: nat :| SoleMatch(s, oldText, k);
      assert Editable(fs, hops, root, path, oldText, r, k);
    }
    forall i: nat | Editable(fs, hops, root, path, oldText, r, i)
      ensures Edit(s, oldText, newText) == Ok(Spliced(s, i, |oldText|, newText)) {
      EditExact(s, oldText, newText, i);
    }
  }

  /** `write_file` onto a file that exists changes that file's content and nothing
      else. */
  lemma Overwrite(fs: Nodes, hops: nat, root: seq<Name>, path: string, content: string, r: seq<Name>)
    requires WellFormed(fs) && ValidNames(root)
    requires ResolveOf(fs, hops, root, path) == Ok(r) && r in fs && fs[r].File?
    ensures WriteFileOf(fs, hops, root, path, content).0 == fs[r := File(content)]
    ensures WriteFileOf(fs, hops, root, path, content).1.Ok?
  {
    assert ExistsUpTo(fs, r, |r|) by {
      var _, k := WriteConfinement.Resolved(fs, hops, root, path);
      assert r[..|r|] == r;
      ExistsUpToIsLinkFree(fs, r, k);
    }
    WriteConfinement.WriteFileExact(fs, hops, root, path, content, r, |r|);
    OnlyContent(fs, WriteFileOf(fs, hops, root, path, content).0, r, content);
  }

  lemma OnlyContent(fs: Nodes, fs': Nodes, r: seq<Name>, content: string)
    requires WellFormed(fs) && r in fs
    requires forall q :: q in fs' <==> q in fs || q <= r
    requires forall q :: q in fs' ==>
               fs'[q] == if q == r then File(content) else if q in fs then fs[q] else Dir
    ensures fs' == fs[r := File(content)]
  {
    forall q ensures q in fs' <==> q in fs {
      if q <= r {
        AncestorsAreDirs(fs, r, |q|);
        assert r[..|q|] == q;
      }
    }
  }

  /** An accepted edit is a `write_file` of the spliced text to the same path. */
  lemma EditIsWrite(
      fs: Nodes, hops: nat, root: seq<Name>, path: string, oldText: string, newText: string, r: seq<Name>, i: nat)
    requires WellFormed(fs) && ValidNames(root) && Editable(fs, hops, root, path, oldText, r, i)
    ensures var updated := Spliced(fs[r].content, i, |oldText|, newText);
            && EditFileOf(fs, hops, root, path, oldText, newText).0 == WriteFileOf(fs, hops, root, path, updated).0
            && EditFileOf(fs, hops, root, path, oldText, newText).1 == Ok(Shown(root, r))
            && WriteFileOf(fs, hops, root, path, updated).0 == fs[r := File(updated)]
            && WriteFileOf(fs, hops, root, path, updated).1.Ok?
  {
    EditFileExact(fs, hops, root, path, oldText, newText);
    Overwrite(fs, hops, root, path, Spliced(fs[r].content, i, |oldText|, newText), r);
  }

  lemma EditGives(
      fs: Nodes, hops: nat, root: seq<Name>, path: string, oldText: string, newText: string,
      r: seq<Name>, i: nat, after: string)
    requires WellFormed(fs) && ValidNames(root) && Editable(fs, hops, root, path, oldText, r, i)
    requires after == Spliced(fs[r].content, i, |oldText|, newText)
    ensures EditFileOf(fs, hops, root, path, oldText, newText) == (fs[r := File(after)], Ok(Shown(root, r)))
  {
    EditIsWrite(fs, hops, root, path, oldText, newText, r, i);
  }

  lemma UndoAt(s: string, oldText: string, newText: string, i: nat, updated: string) returns (j: nat)
    requires oldText != "" && newText != "" && SoleMatch(s, oldText, i)
    requires updated == Spliced(s, i, |oldText|, newText) && OccursOnce(updated, newText)
    ensures SoleMatch(updated, newText, j) && Spliced(updated, j, |newText|, oldText) == s
  {
    EditExact(s, oldText, newText, i);
    EditRoundTrip(s, oldText, newText);
    EditExact(updated, newText, oldText, 0);
    j :| SoleMatch(updated, newText, j);
    EditExact(updated, newText, oldText, j);
  }

  /** Changing a file's content moves no path. */
  lemma StillResolves(fs: Nodes, hops: nat, root: seq<Name>, path: string, content: string, r: seq<Name>)
    requires WellFormed(fs) && ValidNames(root)
    requires ResolveOf(fs, hops, root, path) == Ok(r) && r in fs && fs[r].File?
    ensures ResolveOf(fs[r := File(content)], hops, root, path) == Ok(r) && WellFormed(fs[r := File(content)])
  {
    Overwrite(fs, hops, root, path, content, r);
    WriteConfinement.WriteThenRead(fs, hops, root, path, content);
    WriteConfinement.WriteFileConfined(fs, hops, root, path, content);
  }

  /** Undoing an edit through the tool: when the new text occurs at one place only
      in the edited file, the opposite call on the same path puts the whole tree
      back as it was. */
  lemma EditFileRoundTrip(
      fs: Nodes, hops: nat, root: seq<Name>, path: string, oldText: string, newText: string, r: seq<Name>, i: nat)
    requires WellFormed(fs) && ValidNames(root) && Editable(fs, hops, root, path, oldText, r, i)
    requires newText != "" && OccursOnce(Spliced(fs[r].content, i, |oldText|, newText), newText)
    ensures var fs' := EditFileOf(fs, hops, root, path, oldText, newText).0;
            EditFileOf(fs', hops, root, path, newText, oldText) == (fs, Ok(Shown(root, r)))
  {
    var s := fs[r].content;
    var updated := Spliced(s, i, |oldText|, newText);
    var fs' := fs[r := File(updated)];
    EditGives(fs, hops, root, path, oldText, newText, r, i, updated);
    StillResolves(fs, hops, root, path, updated, r);
    var j := UndoAt(s, oldText, newText, i, updated);
    assert Editable(fs', hops, root, path, newText, r, j);
    EditGives(fs', hops, root, path, newText, oldText, r, j, s);
    assert fs'[r := File(s)] == fs;
  }

  /** Each refusal has one cause, in this order, and a write is never what fails. */
  lemma EditFileRefusals(
      fs: Nodes, hops: nat, root: seq<Name>, path: string, oldText: string, newText: string)
    requires WellFormed(fs) && ValidNames(root)
    ensures var out := EditFileOf(fs, hops, root, path, oldText, newText).1;
            var resolved := ResolveOf(fs, hops, root, path);
            && (oldText == "" ==> out == Err(NoOldText))
            && (oldText != "" && resolved.Err? ==> out == Err(NotResolved(resolved.error)))
            && (oldText != "" && resolved.Ok? ==>
                  var p := resolved.value;
                  var shown := Shown(root, p);
                  if p in fs && fs[p].File? then
                    && (out == Ok(shown) <==> exists i: nat :: SoleMatch(fs[p].content, oldText, i))
                    && (out == Err(NotUnique(shown, Absent)) <==> forall j: nat :: !OccursAt(fs[p].content, oldText, j))
                    && (out.Err? && out.error != NotUnique(shown, Absent) ==>
                          out == Err(NotUnique(shown, Ambiguous(|Matches(fs[p].content, oldText, 0)|))))
                  else out.Err? && out.error.NotRead? && out.error.shown == shown)
  {
    if oldText != "" && ResolveOf(fs, hops, root, path).Ok? {
      var p, k := WriteConfinement.Resolved(fs, hops, root, path);
      assert p[..|p|] == p;
      ExistsUpToIsLinkFree(fs, p, k);
      LinkFreeWalkAbsent(fs, p, hops);
      if p in fs && fs[p].File? {
        EditAnswer(fs, hops, root, path, oldText, newText, p);
      }
    }
  }

  lemma EditAnswer(
      fs: Nodes, hops: nat, root: seq<Name>, path: string, oldText: string, newText: string, p: seq<Name>)
    requires WellFormed(fs) && ValidNames(root) && oldText != ""
    requires ResolveOf(fs, hops, root, path) == Ok(p) && p in fs && fs[p].File?
    ensures var edit := Edit(fs[p].content, oldText, newText);
            EditFileOf(fs, hops, root, path, oldText, newText).1 ==
            if edit.Ok? then Ok(Shown(root, p)) else Err(NotUnique(Shown(root, p), edit.error))
    ensures var edit := Edit(fs[p].content, oldText, newText);
            && (edit.Ok? <==> exists i: nat :: SoleMatch(fs[p].content, oldText, i))
            && (edit == Err(Absent) <==> forall j: nat :: !OccursAt(fs[p].content, oldText, j))
            && (edit.Err? && edit.error != Absent ==>
                  edit == Err(Ambiguous(|Matches(fs[p].content, oldText, 0)|)))
  {
    WalkOfCanonical(fs, p, Follow, hops);
    WalkOfCanonical(fs, p, Create, hops);
    EditExact(fs[p].content, oldText, newText, 0);
    forall i: nat | SoleMatch(fs[p].content, oldText, i) ensures Edit(fs[p].content, oldText, newText).Ok? {
      EditExact(fs[p].content, oldText, newText, i);
    }
  }
}
