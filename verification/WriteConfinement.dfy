/** The file tools stay inside the root, and agree with each other about what a
    path means. */
module WriteConfinement {
  import opened Paths
  import opened FileSystem
  import opened Wrappers
  import opened Root
  import opened Confinement
  import opened FsOps
  import Utf8

  /** The resolved path, and how much of it exists. */
  lemma Resolved(fs: Nodes, hops: nat, root: seq<Name>, input: string) returns (r: seq<Name>, k: nat)
    requires WellFormed(fs) && ValidNames(root)
    requires ResolveOf(fs, hops, root, input).Ok?
    ensures r == ResolveOf(fs, hops, root, input).value
    ensures |root| <= k && root <= r && ExistsUpTo(fs, r, k) && LinkFree(fs, r) && ValidNames(r)
  {
    r := ResolveOf(fs, hops, root, input).value;
    ResolveConfined(fs, hops, root, input);
    k :| |root| <= k && ExistsUpTo(fs, r, k);
    var lexical := LexicalOf(root, input).value;
    LexicalOkIff(root, input);
    var m := DeepestVisible(fs, hops, lexical).value;
    FollowEndsCanonical(fs, [], Normals(lexical[..m]), hops);
    assert ValidNames(Canonicalize(fs, lexical[..m], hops).at);
  }

  /** Where a write may go ahead: onto an existing file, or to a new name whose
      deepest existing ancestor is a directory. */
  ghost predicate Writable(fs: Nodes, r: seq<Name>, k: nat) {
    k <= |r| && if k == |r| then r in fs && fs[r].File? else IsDir(fs, r[..k])
  }

  /** `write_file` decided and described completely: it succeeds exactly where a
      write may go ahead, and then adds the missing directories on the resolved
      path and the file, and nothing else; otherwise it changes nothing. */
  lemma WriteFileExact(fs: Nodes, hops: nat, root: seq<Name>, input: string, content: string, r: seq<Name>, k: nat)
    requires WellFormed(fs) && ValidNames(root)
    requires ResolveOf(fs, hops, root, input) == Ok(r) && ExistsUpTo(fs, r, k)
    ensures var (fs', out) := WriteFileOf(fs, hops, root, input, content);
            && (out.Ok? <==> Writable(fs, r, k))
            && (out.Err? ==> fs' == fs)
            && (out.Ok? ==>
              && (forall q :: q in fs' <==> q in fs || q <= r)
              && (forall q :: q in fs' ==>
                    fs'[q] == if q == r then File(content) else if q in fs then fs[q] else Dir))
  {
    var r', k' := Resolved(fs, hops, root, input);
    ExistsUpToIsLinkFree(fs, r, k);
    assert r[..|r|] == r;
    if r == [] {
      WalkOfCanonical(fs, r, Create, hops);
    } else {
      var parent := Parent(r);
      var kp := if k == |r| then k - 1 else k;
      assert parent[..kp] == r[..kp];
      if k == |r| {
        AncestorsAreDirs(fs, r, kp);
        assert parent[..kp] == parent;
        WalkOfCanonical(fs, r, Create, hops);
      } else {
        assert kp < |parent| ==> parent[..kp + 1] == r[..kp + 1];
      }
      assert ExistsUpTo(fs, parent, kp);
      CreateDirAllExact(fs, hops, parent, kp);
      assert k == |r| ==> IsDir(fs, parent[..kp]);
      if IsDir(fs, parent[..kp]) {
        WriteIntoMade(fs, hops, r, k, kp, content);
      }
    }
  }

  lemma WriteIntoMade(fs: Nodes, hops: nat, r: seq<Name>, k: nat, kp: nat, content: string)
    requires WellFormed(fs) && r != [] && ValidNames(r)
    requires ExistsUpTo(fs, r, k) && ExistsUpTo(fs, Parent(r), kp)
    requires kp == (if k == |r| then k - 1 else k) && IsDir(fs, Parent(r)[..kp])
    ensures var made := AddDirs(fs, Parent(r), kp);
            && WriteOf(made, hops, r, content) ==
               (if IsDir(fs, r) then (made, Some(IsADirectory)) else (made[r := File(content)], None))
            && (k == |r| ==> made == fs)
            && (forall q :: q in made || q == r <==> q in fs || q <= r)
            && (forall q :: q in made && q != r ==> made[q] == if q in fs then fs[q] else Dir)
  {
    var made := AddDirs(fs, Parent(r), kp);
    AddDirsFacts(fs, Parent(r), kp);
    WriteAtPlainPath(made, hops, r, content) by {
      ExistsUpToIsLinkFree(fs, r, k);
      assert r[..|r|] == r;
    }
    forall q ensures q in made || q == r <==> q in fs || q <= r {
      PrefixOfParent(r, q);
      if q <= r && q != r && |q| <= kp {
        AncestorsAreDirs(fs, Parent(r)[..kp], |q|);
        assert Parent(r)[..kp][..|q|] == q;
      }
    }
    ExistsUpToIsLinkFree(fs, r, k);
    assert r[..|r|] == r;
  }

  lemma WriteAtPlainPath(fs: Nodes, hops: nat, r: seq<Name>, content: string)
    requires WellFormed(fs) && r != [] && IsDir(fs, Parent(r)) && (r in fs ==> Canonical(fs, r))
    ensures WriteOf(fs, hops, r, content) ==
            if IsDir(fs, r) then (fs, Some(IsADirectory)) else (fs[r := File(content)], None)
  {
    OpensAtPlainPath(fs, hops, r);
  }

  lemma OpensAtPlainPath(fs: Nodes, hops: nat, r: seq<Name>)
    requires WellFormed(fs) && r != [] && IsDir(fs, Parent(r)) && (r in fs ==> Canonical(fs, r))
    ensures Walk(fs, [], Normals(r), Create, hops) == Found(r, hops)
  {
    if r in fs {
      WalkOfCanonical(fs, r, Create, hops);
    } else {
      assert Canonicalize(fs, Parent(r), hops) == Found(Parent(r), hops) by {
        WalkOfCanonical(fs, Parent(r), Follow, hops);
      }
      assert Walk(fs, [], Normals(r), Create, hops) == Walk(fs, Parent(r), [Normal(Last(r))], Create, hops) by {
        LastStep(fs, hops, r, Create);
      }
      assert Parent(r) + [Last(r)] == r;
      NewName(fs, Parent(r), Last(r), hops);
    }
  }

  lemma NewName(fs: Nodes, d: seq<Name>, n: Name, hops: nat)
    requires IsDir(fs, d) && d + [n] !in fs
    ensures Walk(fs, d, [Normal(n)], Create, hops) == Found(d + [n], hops)
  {
  }

  /** The answer of `write_file`: the length of the content in bytes, and the path as
      shown; or what stands in the way of the resolved path, of which `k` names exist. */
  lemma WriteFileAnswer(
      fs: Nodes, hops: nat, root: seq<Name>, input: string, content: string, r: seq<Name>, k: nat)
    requires WellFormed(fs) && ValidNames(root)
    requires ResolveOf(fs, hops, root, input) == Ok(r) && ExistsUpTo(fs, r, k)
    ensures var out := WriteFileOf(fs, hops, root, input, content).1;
            var shown := Shown(root, r);
            && (Writable(fs, r, k) ==> out == Ok(Written(|Utf8.Encode(content)|, shown)))
            && (k == |r| && IsDir(fs, r) ==> out == Err(CannotWrite(shown, IsADirectory)))
            && (k < |r| && !IsDir(fs, r[..k]) ==>
                  out == Err(NoParent(shown, if k == |r| - 1 then AlreadyExists else NotADirectory)))
  {
    var r', k' := Resolved(fs, hops, root, input);
    assert r[..|r|] == r;
    if k < |r| && !IsDir(fs, r[..k]) {
      BlockedParent(fs, hops, r, k);
      AnswerNoParent(fs, hops, root, input, content, r);
    } else if k == |r| && IsDir(fs, r) {
      WriteOntoDirectory(fs, hops, r, content);
      AnswerNoWrite(fs, hops, root, input, content, r);
    } else {
      WriteFileExact(fs, hops, root, input, content, r, k);
      AnswerWritten(fs, hops, root, input, content, r);
    }
  }

  lemma AnswerNoParent(fs: Nodes, hops: nat, root: seq<Name>, input: string, content: string, r: seq<Name>)
    requires ResolveOf(fs, hops, root, input) == Ok(r) && r != [] && CreateDirAllOf(fs, hops, Parent(r)).1.Some?
    ensures WriteFileOf(fs, hops, root, input, content).1 ==
            Err(NoParent(Shown(root, r), CreateDirAllOf(fs, hops, Parent(r)).1.value))
  {
  }

  lemma AnswerNoWrite(fs: Nodes, hops: nat, root: seq<Name>, input: string, content: string, r: seq<Name>)
    requires ResolveOf(fs, hops, root, input) == Ok(r)
    requires r != [] ==> CreateDirAllOf(fs, hops, Parent(r)) == (fs, None)
    requires WriteOf(fs, hops, r, content).1.Some?
    ensures WriteFileOf(fs, hops, root, input, content).1 ==
            Err(CannotWrite(Shown(root, r), WriteOf(fs, hops, r, content).1.value))
  {
  }

  lemma AnswerWritten(fs: Nodes, hops: nat, root: seq<Name>, input: string, content: string, r: seq<Name>)
    requires ResolveOf(fs, hops, root, input) == Ok(r) && WriteFileOf(fs, hops, root, input, content).1.Ok?
    ensures WriteFileOf(fs, hops, root, input, content).1 == Ok(Written(|Utf8.Encode(content)|, Shown(root, r)))
  {
  }

  lemma BlockedParent(fs: Nodes, hops: nat, r: seq<Name>, k: nat)
    requires WellFormed(fs) && ValidNames(r) && ExistsUpTo(fs, r, k) && k < |r| && !IsDir(fs, r[..k])
    ensures CreateDirAllOf(fs, hops, Parent(r)) ==
            (fs, Some(if k == |r| - 1 then AlreadyExists else NotADirectory))
  {
    var parent := Parent(r);
    assert parent[..k] == r[..k] && (k < |parent| ==> parent[..k + 1] == r[..k + 1]);
    MkdirExact(fs, hops, parent, k);
    StatIsDirExact(fs, hops, parent, k);
    CreateStops(fs, hops, parent, MkdirOf(fs, hops, parent).error);
  }

  lemma WriteOntoDirectory(fs: Nodes, hops: nat, r: seq<Name>, content: string)
    requires WellFormed(fs) && IsDir(fs, r) && ValidNames(r)
    ensures r != [] ==> CreateDirAllOf(fs, hops, Parent(r)) == (fs, None)
    ensures WriteOf(fs, hops, r, content) == (fs, Some(IsADirectory))
  {
    WalkOfCanonical(fs, r, Create, hops);
    if r != [] {
      var parent := Parent(r);
      AncestorsAreDirs(fs, r, |r| - 1);
      assert parent[..|parent|] == parent && ValidNames(parent);
      MkdirExact(fs, hops, parent, |parent|);
      StatIsDirExact(fs, hops, parent, |parent|);
      CreateStops(fs, hops, parent, MkdirOf(fs, hops, parent).error);
    }
  }

  /** Two trees have the same thing, or both nothing, at a place. */
  ghost predicate SameAt(a: Nodes, b: Nodes, p: seq<Name>) {
    (p in a <==> p in b) && (p in a ==> a[p] == b[p])
  }

  /** Every write lands under the root: whatever the caller passes and whatever
      links the tree holds, each place outside the root is as it was. The tree
      stays well formed, and links stay what they were even inside the root. */
  lemma WriteFileConfined(fs: Nodes, hops: nat, root: seq<Name>, input: string, content: string)
    requires WellFormed(fs) && ValidNames(root)
    ensures var fs' := WriteFileOf(fs, hops, root, input, content).0;
            && WellFormed(fs')
            && (forall p :: !(root <= p) ==> SameAt(fs, fs', p))
            && (forall p :: p in fs && fs[p].Link? ==> SameAt(fs, fs', p))
            && Extends(fs, fs')
  {
    if ResolveOf(fs, hops, root, input).Ok? {
      var r, k := Resolved(fs, hops, root, input);
      var (fs', out) := WriteFileOf(fs, hops, root, input, content);
      WriteFileExact(fs, hops, root, input, content, r, k);
      if out.Ok? {
        assert r[..|r|] == r;
        WrittenWellFormed(fs, fs', r, k, content);
        forall p | !(root <= p) ensures SameAt(fs, fs', p) {
          if p <= r {
            AncestorsAreDirs(fs, r[..k], |p|);
            assert p == r[..|p|] == r[..k][..|p|];
          }
        }
      }
    }
  }

  lemma WrittenWellFormed(fs: Nodes, fs': Nodes, r: seq<Name>, k: nat, content: string)
    requires WellFormed(fs) && ValidNames(r) && ExistsUpTo(fs, r, k) && Writable(fs, r, k)
    requires forall q :: q in fs' <==> q in fs || q <= r
    requires forall q :: q in fs' ==>
               fs'[q] == if q == r then File(content) else if q in fs then fs[q] else Dir
    ensures WellFormed(fs') && Extends(fs, fs')
  {
    ExistsUpToIsLinkFree(fs, r, k);
    assert r[..|r|] == r;
    assert r in fs ==> k == |r| && fs[r].File?;
    assert r != [] by {
      assert r[..k] in fs;
    }
    forall p | p in fs' ensures ValidNames(p) {
      if p !in fs {
        assert p == r[..|p|];
      }
    }
    forall j | 0 <= j < |r| && r[..j] in fs ensures fs[r[..j]].Dir? {
      NamedAboveIsDir(fs, r, k, j);
    }
    forall p | p in fs' && p != [] ensures Parent(p) in fs' && fs'[Parent(p)].Dir? {
      WrittenParent(fs, fs', r, content, p);
    }
  }

  lemma NamedAboveIsDir(fs: Nodes, r: seq<Name>, k: nat, j: nat)
    requires WellFormed(fs) && ExistsUpTo(fs, r, k) && Writable(fs, r, k) && j < |r| && r[..j] in fs
    ensures fs[r[..j]].Dir?
  {
    ExistsUpToIsLinkFree(fs, r, k);
    if j < k {
      AncestorsAreDirs(fs, r[..k], j);
      assert r[..k][..j] == r[..j];
    }
  }

  lemma WrittenParent(fs: Nodes, fs': Nodes, r: seq<Name>, content: string, p: seq<Name>)
    requires WellFormed(fs) && (r in fs ==> fs[r].File?) && r != [] && p in fs' && p != []
    requires forall k :: 0 <= k < |r| && r[..k] in fs ==> fs[r[..k]].Dir?
    requires forall q :: q in fs' <==> q in fs || q <= r
    requires forall q :: q in fs' ==>
               fs'[q] == if q == r then File(content) else if q in fs then fs[q] else Dir
    ensures Parent(p) in fs' && fs'[Parent(p)].Dir?
  {
    if p in fs {
      assert fs[Parent(p)].Dir? && Parent(p) != r;
    } else {
      PrefixOfParent(r, p);
      assert Parent(p) == r[..|p| - 1];
    }
  }

  /** A tool that writes and a tool that reads agree on the path: after a
      successful write the same input resolves to the same place and reads back
      what was written. */
  lemma WriteThenRead(fs: Nodes, hops: nat, root: seq<Name>, input: string, content: string)
    requires WellFormed(fs) && ValidNames(root)
    requires WriteFileOf(fs, hops, root, input, content).1.Ok?
    ensures var fs' := WriteFileOf(fs, hops, root, input, content).0;
            && ResolveOf(fs', hops, root, input) == ResolveOf(fs, hops, root, input)
            && ReadOf(fs', hops, ResolveOf(fs, hops, root, input).value) == Ok(content)
  {
    var fs' := WriteFileOf(fs, hops, root, input, content).0;
    var r, k := Resolved(fs, hops, root, input);
    WriteFileExact(fs, hops, root, input, content, r, k);
    WriteFileConfined(fs, hops, root, input, content);
    var lexical := LexicalOf(root, input).value;
    DeepestVisibleExact(fs, hops, lexical);
    var m := DeepestVisible(fs, hops, lexical).value;
    var base := Canonicalize(fs, lexical[..m], hops);
    assert Canonical(fs', r);
    WalkExtends(fs, fs', [], Normals(lexical[..m]), Follow, hops);
    WalkOnward(fs', hops, lexical, m, base.at, base.hops);
    ResolveAgreesWithKernel(fs', hops, root, input);
    WalkOfCanonical(fs', r, Follow, hops);
  }

  lemma WalkTwo(fs: Nodes, a: seq<Component>, b: seq<Component>, hops: nat, base: seq<Name>, left: nat)
    requires b != [] && Walk(fs, [], a, Follow, hops) == Found(base, left)
    ensures Walk(fs, [], a + b, Follow, hops) == Walk(fs, base, b, Follow, left)
  {
    WalkConcat(fs, [], a, b, Follow, hops);
  }

  lemma WalkOnward(fs: Nodes, hops: nat, p: seq<Name>, m: nat, base: seq<Name>, left: nat)
    requires WellFormed(fs) && m <= |p|
    requires Canonicalize(fs, p[..m], hops) == Found(base, left)
    requires Canonical(fs, base + p[m..])
    ensures Canonicalize(fs, p, hops) == Found(base + p[m..], left)
  {
    if m == |p| {
      assert p[..m] == p && base + p[m..] == base;
    } else {
      assert Normals(p) == Normals(p[..m]) + Normals(p[m..]);
      WalkOfCanonicalFrom(fs, base, p[m..], Follow, left);
      WalkTwo(fs, Normals(p[..m]), Normals(p[m..]), hops, base, left);
    }
  }

  /** A path in a tool's answer can be fed back to the tools: what `shown` prints
      resolves to the very path it was printed for. */
  lemma ShownRoundTrip(fs: Nodes, hops: nat, root: seq<Name>, input: string)
    requires WellFormed(fs) && ValidNames(root)
    requires ResolveOf(fs, hops, root, input).Ok?
    ensures var r := ResolveOf(fs, hops, root, input).value;
            ResolveOf(fs, hops, root, Shown(root, r)) == Ok(r)
  {
    var r, k := Resolved(fs, hops, root, input);
    LexicalOfShown(root, r);
    VisibleUpToPlain(fs, hops, r, k);
    ResolveExact(fs, hops, root, Shown(root, r), k);
    assert r[..k] + r[k..] == r;
    assert root <= r[..k];
  }

  /** What `shown` prints is relative to the root: the names below it, and `.` for the
      root itself. */
  lemma ShownIsRelative(root: seq<Name>, below: seq<Name>)
    requires ValidNames(below)
    ensures var text := Shown(root, root + below);
            && text != "" && text[0] != '/'
            && (below == [] ==> text == ".")
            && (below != [] ==> Components(text) == Normals(below))
  {
    assert (root + below)[|root|..] == below;
    if below != [] {
      RelativeComponents(below);
    }
  }

  lemma VisibleUpToPlain(fs: Nodes, hops: nat, r: seq<Name>, k: nat)
    requires WellFormed(fs) && ExistsUpTo(fs, r, k)
    ensures VisibleUpTo(fs, hops, r, k) && Canonicalize(fs, r[..k], hops) == Found(r[..k], hops)
  {
    WalkOfCanonical(fs, r[..k], NoFollow, hops);
    WalkOfCanonical(fs, r[..k], Follow, hops);
    if k < |r| {
      assert Parent(r[..k + 1]) == r[..k];
      assert r[..k] + [r[k]] == r[..k + 1];
      LastStep(fs, hops, r[..k + 1], NoFollow);
      OneName(fs, r[..k], r[k], hops);
    }
  }

  lemma LexicalOfShown(root: seq<Name>, r: seq<Name>)
    requires ValidNames(root) && ValidNames(r) && root <= r
    ensures LexicalOf(root, Shown(root, r)) == Ok(r)
  {
    var below := r[|root|..];
    assert root + below == r;
    if below == [] {
      DotIsRoot(root);
      assert root == root + below == r;
      assert Shown(root, r) == ".";
    } else {
      assert ValidNames(below) by {
        assert forall i :: 0 <= i < |below| ==> below[i] == r[|root| + i];
      }
      RenderRelativeShape(below);
      LexicalOfRelative(root, below);
      assert Shown(root, r) == RenderRelative(below);
    }
  }

  lemma DotIsRoot(root: seq<Name>)
    requires ValidNames(root)
    ensures LexicalOf(root, ".") == Ok(root)
  {
    ComponentsOfJoin(root, ".");
    assert Split(".") == ["."];
    assert FromPieces(["."]) == [];
    assert [RootDir] + Normals(root) + [] == [RootDir] + Normals(root);
    NormaliseAbsolute(root);
  }
}
