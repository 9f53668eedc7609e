/** The tools of `src/fs_ops.rs` that change files, on a disk that changes in
    place. The disk calls follow the kernel's walk of the path text they are
    given: nothing here assumes that a path is free of links. */
module FsOps {
  import opened Paths
  import opened FileSystem
  import opened Wrappers
  import opened Root
  import opened Confinement
  import Utf8

  datatype ToolError =
    | Rejected(error: RootError)
    | NoParent(shown: string, why: Errno)
    | CannotWrite(shown: string, why: Errno)

  datatype Written = Written(bytes: nat, shown: string)

  /** `shown`: relative to the root, and `.` for the root itself. */
  function Shown(root: seq<Name>, path: seq<Name>): string {
    var relative := Relativize(root, path);
    var text := if root <= path then RenderRelative(relative) else Render(relative);
    if text == "" then "." else text
  }

  // ---- Disk calls -----------------------------------------------------------

  function StatIsDir(fs: Nodes, hops: nat, p: seq<Name>): bool {
    var w := Canonicalize(fs, p, hops);
    w.Found? && IsDir(fs, w.at)
  }

  /** `mkdir(2)`: links on the way are followed, one in last place is not. */
  function MkdirOf(fs: Nodes, hops: nat, p: seq<Name>): Result<Nodes, Errno> {
    if p == [] then Err(AlreadyExists)
    else
      match Canonicalize(fs, Parent(p), hops)
      case Failed(e) => Err(e)
      case Found(d, _) =>
        if !IsDir(fs, d) then Err(NotADirectory)
        else if d + [Last(p)] in fs then Err(AlreadyExists)
        else Ok(fs[d + [Last(p)] := Dir])
  }

  /** `std::fs::create_dir_all`: try the whole path, and when something above is
      missing make that first and try again. */
  function CreateDirAllOf(fs: Nodes, hops: nat, p: seq<Name>): (Nodes, Option<Errno>)
    decreases |p|
  {
    match MkdirOf(fs, hops, p)
    case Ok(fs') => (fs', None)
    case Err(e) =>
      if e.NotFound? && p != [] then
        var (above, failed) := CreateDirAllOf(fs, hops, Parent(p));
        if failed.Some? then (above, failed)
        else
          match MkdirOf(above, hops, p)
          case Ok(fs') => (fs', None)
          case Err(e') => (above, if StatIsDir(above, hops, p) then None else Some(e'))
      else (fs, if StatIsDir(fs, hops, p) then None else Some(e))
  }

  /** `std::fs::write`: open for creation, truncate, write. A link in last place
      is followed, and a dangling one creates its target. */
  function WriteOf(fs: Nodes, hops: nat, p: seq<Name>, content: string): (Nodes, Option<Errno>) {
    match Walk(fs, [], Normals(p), Create, hops)
    case Failed(e) => (fs, Some(e))
    case Found(q, _) =>
      if IsDir(fs, q) then (fs, Some(IsADirectory)) else (fs[q := File(content)], None)
  }

  function ReadOf(fs: Nodes, hops: nat, p: seq<Name>): Result<string, Errno> {
    match Canonicalize(fs, p, hops)
    case Failed(e) => Err(e)
    case Found(q, _) => if q in fs && fs[q].File? then Ok(fs[q].content) else Err(IsADirectory)
  }

  function WriteFileOf(
      fs: Nodes, hops: nat, root: seq<Name>, path: string, content: string): (Nodes, Result<Written, ToolError>)
  {
    match ResolveOf(fs, hops, root, path)
    case Err(e) => (fs, Err(Rejected(e)))
    case Ok(resolved) =>
      var shown := Shown(root, resolved);
      var (made, noParent) := if resolved == [] then (fs, None) else CreateDirAllOf(fs, hops, Parent(resolved));
      if noParent.Some? then (made, Err(NoParent(shown, noParent.value)))
      else
        var (after, failed) := WriteOf(made, hops, resolved, content);
        if failed.Some? then (after, Err(CannotWrite(shown, failed.value)))
        else (after, Ok(Written(Utf8.Length(content), shown)))
  }

  /** The file system as the tools change it. */
  class Disk {
    var nodes: Nodes
    const hops: nat

    constructor (nodes: Nodes, hops: nat)
      ensures this.nodes == nodes && this.hops == hops
    {
      this.nodes := nodes;
      this.hops := hops;
    }

    method Mkdir(p: seq<Name>) returns (error: Option<Errno>)
      modifies this
      ensures MkdirOf(old(nodes), hops, p) == if error.None? then Ok(nodes) else Err(error.value)
      ensures error.Some? ==> nodes == old(nodes)
    {
      if p == [] {
        return Some(AlreadyExists);
      }
      var parent := Canonicalize(nodes, Parent(p), hops);
      if parent.Failed? {
        return Some(parent.why);
      }
      if !IsDir(nodes, parent.at) {
        return Some(NotADirectory);
      }
      if parent.at + [Last(p)] in nodes {
        return Some(AlreadyExists);
      }
      nodes := nodes[parent.at + [Last(p)] := Dir];
      return None;
    }

    method CreateDirAll(p: seq<Name>) returns (error: Option<Errno>)
      modifies this
      ensures (nodes, error) == CreateDirAllOf(old(nodes), hops, p)
      decreases |p|
    {
      error := Mkdir(p);
      if error.None? {
        return;
      }
      if error.value.NotFound? && p != [] {
        error := CreateDirAll(Parent(p));
        if error.Some? {
          return;
        }
        error := Mkdir(p);
        if error.None? {
          return;
        }
      }
      if StatIsDir(nodes, hops, p) {
        error := None;
      }
    }

    method Write(p: seq<Name>, content: string) returns (error: Option<Errno>)
      modifies this
      ensures (nodes, error) == WriteOf(old(nodes), hops, p, content)
    {
      var opened_ := Walk(nodes, [], Normals(p), Create, hops);
      if opened_.Failed? {
        return Some(opened_.why);
      }
      if IsDir(nodes, opened_.at) {
        return Some(IsADirectory);
      }
      nodes := nodes[opened_.at := File(content)];
      return None;
    }
  }

  /** `write_file`. */
  method WriteFile(disk: Disk, root: seq<Name>, path: string, content: string) returns (r: Result<Written, ToolError>)
    modifies disk
    ensures (disk.nodes, r) == WriteFileOf(old(disk.nodes), disk.hops, root, path, content)
  {
    var checked := Resolve(disk.nodes, disk.hops, root, path);
    if checked.Err? {
      return Err(Rejected(checked.error));
    }
    var resolved := checked.value;
    var shown := Shown(root, resolved);
    if resolved != [] {
      var noParent := disk.CreateDirAll(Parent(resolved));
      if noParent.Some? {
        return Err(NoParent(shown, noParent.value));
      }
    }
    var failed := disk.Write(resolved, content);
    if failed.Some? {
      return Err(CannotWrite(shown, failed.value));
    }
    return Ok(Written(Utf8.Length(content), shown));
  }

  // ---- Making the missing directories ---------------------------------------

  /** The tree with directories at every prefix of `p` longer than `k`. */
  function AddDirs(fs: Nodes, p: seq<Name>, k: nat): Nodes
    decreases |p|
  {
    if |p| <= k then fs else AddDirs(fs, Parent(p), k)[p := Dir]
  }

  lemma {:induction false} AddDirsFacts(fs: Nodes, p: seq<Name>, k: nat)
    requires WellFormed(fs) && ValidNames(p) && ExistsUpTo(fs, p, k) && IsDir(fs, p[..k])
    ensures var r := AddDirs(fs, p, k);
            && WellFormed(r) && IsDir(r, p)
            && (forall q :: q in r <==> q in fs || (k < |q| && q <= p))
            && (forall q :: q in r ==> r[q] == if q in fs then fs[q] else Dir)
    decreases |p|
  {
    if |p| == k {
      assert p[..k] == p;
    } else {
      assert Parent(p)[..k] == p[..k];
      assert k < |p| - 1 ==> Parent(p)[..k + 1] == p[..k + 1];
      AddDirsFacts(fs, Parent(p), k);
      ExistsUpToIsLinkFree(fs, p, k);
      assert p[..|p|] == p;
      var r, before := AddDirs(fs, p, k), AddDirs(fs, Parent(p), k);
      forall q ensures q in r <==> q in fs || (k < |q| && q <= p) {
        PrefixOfParent(p, q);
        assert q in r <==> q in before || q == p;
      }
    }
  }

  lemma PrefixOfParent(p: seq<Name>, q: seq<Name>)
    requires p != []
    ensures q <= p <==> q == p || q <= Parent(p)
  {
    if q <= p && q != p {
      assert q == Parent(p)[..|q|];
    }
  }

  lemma {:induction false} ParentErrorOf(fs: Nodes, p: seq<Name>, k: nat)
    requires WellFormed(fs) && ExistsUpTo(fs, p, k) && k < |p|
    ensures ParentError(fs, p) == if IsDir(fs, p[..k]) then NotFound else NotADirectory
    decreases |p|
  {
    if k == |p| - 1 {
      assert p[..k] == Parent(p);
    } else {
      ExistsUpToIsLinkFree(fs, p, k);
      assert p[..|p| - 1] == Parent(p);
      assert Parent(p)[..k] == p[..k] && Parent(p)[..k + 1] == p[..k + 1];
      ParentErrorOf(fs, Parent(p), k);
    }
  }

  /** `create_dir_all` on a link-free path makes exactly the missing directories,
      or changes nothing when a file is in the way. */
  lemma {:induction false} CreateDirAllExact(fs: Nodes, hops: nat, p: seq<Name>, k: nat)
    requires WellFormed(fs) && ValidNames(p) && ExistsUpTo(fs, p, k)
    ensures IsDir(fs, p[..k]) ==> CreateDirAllOf(fs, hops, p) == (AddDirs(fs, p, k), None)
    ensures !IsDir(fs, p[..k]) ==>
            CreateDirAllOf(fs, hops, p).0 == fs && CreateDirAllOf(fs, hops, p).1.Some?
    decreases |p|
  {
    MkdirExact(fs, hops, p, k);
    StatIsDirExact(fs, hops, p, k);
    if k < |p| && IsDir(fs, p[..k]) {
      if k == |p| - 1 {
        assert p[..k] == Parent(p);
        CreateDirect(fs, hops, p, fs[p := Dir]);
      } else {
        assert Parent(p)[..k] == p[..k] && Parent(p)[..k + 1] == p[..k + 1];
        CreateDirAllExact(fs, hops, Parent(p), k);
        var above := AddDirs(fs, Parent(p), k);
        AddedAbove(fs, p, k, above);
        MkdirNext(above, hops, p);
        CreateAbove(fs, hops, p, above);
      }
    } else {
      CreateStops(fs, hops, p, MkdirOf(fs, hops, p).error);
    }
  }

  lemma AddedAbove(fs: Nodes, p: seq<Name>, k: nat, above: Nodes)
    requires WellFormed(fs) && ValidNames(p) && ExistsUpTo(fs, p, k) && IsDir(fs, p[..k]) && k < |p| - 1
    requires above == AddDirs(fs, Parent(p), k)
    ensures WellFormed(above) && IsDir(above, Parent(p)) && p !in above
  {
    assert Parent(p)[..k] == p[..k] && Parent(p)[..k + 1] == p[..k + 1];
    AddDirsFacts(fs, Parent(p), k);
    ExistsUpToIsLinkFree(fs, p, k);
    assert p[..|p|] == p;
  }

  lemma CreateDirect(fs: Nodes, hops: nat, p: seq<Name>, made: Nodes)
    requires MkdirOf(fs, hops, p) == Ok(made)
    ensures CreateDirAllOf(fs, hops, p) == (made, None)
  {
  }

  lemma CreateStops(fs: Nodes, hops: nat, p: seq<Name>, e: Errno)
    requires MkdirOf(fs, hops, p) == Err(e) && !e.NotFound?
    ensures CreateDirAllOf(fs, hops, p) == (fs, if StatIsDir(fs, hops, p) then None else Some(e))
  {
  }

  lemma CreateAbove(fs: Nodes, hops: nat, p: seq<Name>, above: Nodes)
    requires p != [] && MkdirOf(fs, hops, p) == Err(NotFound)
    requires CreateDirAllOf(fs, hops, Parent(p)) == (above, None)
    requires MkdirOf(above, hops, p) == Ok(above[p := Dir])
    ensures CreateDirAllOf(fs, hops, p) == (above[p := Dir], None)
  {
  }

  /** `mkdir` on a link-free path of which `k` names exist. */
  lemma MkdirExact(fs: Nodes, hops: nat, p: seq<Name>, k: nat)
    requires WellFormed(fs) && ValidNames(p) && ExistsUpTo(fs, p, k)
    ensures MkdirOf(fs, hops, p) ==
            if k == |p| then Err(AlreadyExists)
            else if !IsDir(fs, p[..k]) then Err(NotADirectory)
            else if k < |p| - 1 then Err(NotFound)
            else Ok(fs[p := Dir])
  {
    if p != [] {
      var above := Parent(p);
      assert above + [Last(p)] == p && p[..|p|] == p;
      assert forall j :: 0 <= j <= |p| - 1 ==> above[..j] == p[..j];
      assert above[..|p| - 1] == above;
      ExistsUpToIsLinkFree(fs, p, k);
      LinkFreeWalkAbsent(fs, above, hops);
      if k < |p| - 1 {
        ParentErrorOf(fs, above, k);
      } else if k == |p| {
        AncestorsAreDirs(fs, p, |p| - 1);
      }
    }
  }

  lemma StatIsDirExact(fs: Nodes, hops: nat, p: seq<Name>, k: nat)
    requires WellFormed(fs) && ExistsUpTo(fs, p, k)
    ensures StatIsDir(fs, hops, p) == IsDir(fs, p)
    ensures IsDir(fs, p) <==> k == |p| && IsDir(fs, p[..k])
  {
    assert p[..|p|] == p;
    ExistsUpToIsLinkFree(fs, p, k);
    LinkFreeWalkAbsent(fs, p, hops);
  }

  lemma MkdirNext(fs: Nodes, hops: nat, p: seq<Name>)
    requires WellFormed(fs) && p != [] && IsDir(fs, Parent(p)) && p !in fs
    ensures MkdirOf(fs, hops, p) == Ok(fs[p := Dir])
  {
    WalkOfCanonical(fs, Parent(p), Follow, hops);
    assert Parent(p) + [Last(p)] == p;
  }
}
