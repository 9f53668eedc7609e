/** What `Root::resolve` guarantees, against the kernel's walk. */
module Confinement {
  import opened Paths
  import opened FileSystem
  import opened Wrappers
  import opened Root

  /** No prefix of the path is a symbolic link. */
  ghost predicate LinkFree(fs: Nodes, p: seq<Name>) {
    forall k :: 0 <= k <= |p| && p[..k] in fs ==> !fs[p[..k]].Link?
  }

  /** The first `k` names exist under their own names and the next one, if there
      is one, is absent. */
  ghost predicate ExistsUpTo(fs: Nodes, p: seq<Name>, k: nat) {
    && k <= |p| && Canonical(fs, p[..k]) && (k < |p| ==> p[..k + 1] !in fs)
  }

  /** `k` is where `lstat` stops seeing prefixes of `p`. */
  ghost predicate VisibleUpTo(fs: Nodes, hops: nat, p: seq<Name>, k: nat) {
    && k <= |p| && Lstat(fs, p[..k], hops).Found?
    && (k < |p| ==> Lstat(fs, p[..k + 1], hops).Failed?)
  }

  predicate IsLink(fs: Nodes, p: seq<Name>) {
    p in fs && fs[p].Link?
  }

  // ---- One name at a time ---------------------------------------------------

  /** `lstat` and `realpath` of a path, told by its parent's canonical form. */
  lemma LastStep(fs: Nodes, hops: nat, p: seq<Name>, mode: Mode)
    requires p != []
    ensures Walk(fs, [], Normals(p), mode, hops) ==
            var above := Canonicalize(fs, Parent(p), hops);
            if above.Found? then Walk(fs, above.at, [Normal(Last(p))], mode, above.hops) else above
  {
    WalkConcat(fs, [], Normals(Parent(p)), [Normal(Last(p))], mode, hops);
    assert Normals(p) == Normals(Parent(p)) + [Normal(Last(p))];
  }

  /** A single name from a directory: both walks see it or neither does, except
      for a link that cannot be followed. */
  lemma OneName(fs: Nodes, d: seq<Name>, n: Name, hops: nat)
    requires d in fs
    ensures var seen := Walk(fs, d, [Normal(n)], NoFollow, hops);
            && (seen.Found? <==> fs[d].Dir? && d + [n] in fs)
            && (seen.Found? ==> seen == Found(d + [n], hops))
    ensures Walk(fs, d, [Normal(n)], Follow, hops).Found? ==> fs[d].Dir? && d + [n] in fs
    ensures fs[d].Dir? && d + [n] in fs && !fs[d + [n]].Link? ==>
            Walk(fs, d, [Normal(n)], Follow, hops) == Found(d + [n], hops)
  {
  }

  /** What `realpath` reaches `lstat` sees; they agree unless a link is there. */
  lemma FollowImpliesVisible(fs: Nodes, hops: nat, p: seq<Name>)
    requires WellFormed(fs)
    ensures var seen, followed := Lstat(fs, p, hops), Canonicalize(fs, p, hops);
            && (followed.Found? ==> seen.Found?)
            && (seen.Found? ==> seen.at in fs)
            && (seen.Found? && !fs[seen.at].Link? ==> followed == seen)
            && (seen.Found? && p != [] ==> Canonicalize(fs, Parent(p), hops).Found?)
  {
    if p != [] {
      LastStep(fs, hops, p, NoFollow);
      LastStep(fs, hops, p, Follow);
      var above := Canonicalize(fs, Parent(p), hops);
      FollowEndsCanonical(fs, [], Normals(Parent(p)), hops);
      if above.Found? {
        OneName(fs, above.at, Last(p), above.hops);
      }
    }
  }

  /** Visibility is downward closed, so there is one place where it stops. */
  lemma {:induction false} VisibleBelow(fs: Nodes, hops: nat, p: seq<Name>, k: nat)
    requires WellFormed(fs) && k <= |p| && Lstat(fs, p, hops).Found?
    ensures Lstat(fs, p[..k], hops).Found?
    decreases |p|
  {
    if k == |p| {
      assert p[..k] == p;
    } else {
      FollowImpliesVisible(fs, hops, p);
      FollowImpliesVisible(fs, hops, Parent(p));
      VisibleBelow(fs, hops, Parent(p), k);
      assert Parent(p)[..k] == p[..k];
    }
  }

  lemma RootVisible(fs: Nodes, hops: nat)
    requires WellFormed(fs)
    ensures Lstat(fs, [], hops).Found?
  {
  }

  lemma VisibleUpToParent(fs: Nodes, hops: nat, p: seq<Name>, k: nat)
    requires p != [] && VisibleUpTo(fs, hops, Parent(p), k) && Lstat(fs, p, hops).Failed?
    ensures VisibleUpTo(fs, hops, p, k)
  {
    assert Parent(p)[..k] == p[..k];
    if k < |p| - 1 {
      assert Parent(p)[..k + 1] == p[..k + 1];
    } else {
      assert p[..k + 1] == p;
    }
  }

  /** The upward walk ends, at "/" at the latest, exactly where visibility
      stops. */
  lemma {:induction false} DeepestVisibleExact(fs: Nodes, hops: nat, p: seq<Name>)
    requires WellFormed(fs)
    ensures DeepestVisible(fs, hops, p).Some?
    ensures VisibleUpTo(fs, hops, p, DeepestVisible(fs, hops, p).value)
    decreases |p|
  {
    assert p[..|p|] == p;
    if !Lstat(fs, p, hops).Found? {
      RootVisible(fs, hops);
      DeepestVisibleExact(fs, hops, Parent(p));
      VisibleUpToParent(fs, hops, p, DeepestVisible(fs, hops, Parent(p)).value);
    }
  }

  lemma VisibleUpToUnique(fs: Nodes, hops: nat, p: seq<Name>, k: nat, k': nat)
    requires WellFormed(fs)
    requires VisibleUpTo(fs, hops, p, k) && VisibleUpTo(fs, hops, p, k')
    ensures k == k'
  {
    if k < k' {
      assert p[..k'][..k + 1] == p[..k + 1];
      VisibleBelow(fs, hops, p[..k'], k + 1);
    } else if k' < k {
      assert p[..k][..k' + 1] == p[..k' + 1];
      VisibleBelow(fs, hops, p[..k], k' + 1);
    }
  }

  /** Where visibility stops below an ancestor that can be followed, the next
      name is simply not there. */
  lemma NextNameAbsent(fs: Nodes, hops: nat, p: seq<Name>, k: nat)
    requires WellFormed(fs) && VisibleUpTo(fs, hops, p, k)
    requires Canonicalize(fs, p[..k], hops).Found?
    ensures var c := Canonicalize(fs, p[..k], hops).at;
            Canonical(fs, c) && (k < |p| ==> c + [p[k]] !in fs)
  {
    FollowEndsCanonical(fs, [], Normals(p[..k]), hops);
    var c := Canonicalize(fs, p[..k], hops);
    if k < |p| {
      LastStep(fs, hops, p[..k + 1], NoFollow);
      assert Parent(p[..k + 1]) == p[..k];
      assert Parent(c.at + [p[k]]) == c.at;
      OneName(fs, c.at, p[k], c.hops);
    }
  }

  // ---- The theorems ---------------------------------------------------------

  /** `resolve` decided by the one place where `lstat` stops: the canonical form
      of that ancestor followed by exactly the missing names, if it lies under
      the root; an error if it does not, or if it is a link that leads nowhere. */
  lemma ResolveExact(fs: Nodes, hops: nat, root: seq<Name>, input: string, k: nat)
    requires WellFormed(fs)
    requires LexicalOf(root, input).Ok?
    requires VisibleUpTo(fs, hops, LexicalOf(root, input).value, k)
    ensures var lexical := LexicalOf(root, input).value;
            var base := Canonicalize(fs, lexical[..k], hops);
            var r := ResolveOf(fs, hops, root, input);
            && (r.Ok? <==> base.Found? && root <= base.at)
            && (r.Ok? ==> r.value == base.at + lexical[k..])
            && (r.Err? && r.error.Io? <==> base.Failed?)
            && (base.Failed? ==> IsLink(fs, Lstat(fs, lexical[..k], hops).at))
  {
    var lexical := LexicalOf(root, input).value;
    DeepestVisibleExact(fs, hops, lexical);
    VisibleUpToUnique(fs, hops, lexical, k, DeepestVisible(fs, hops, lexical).value);
    FollowImpliesVisible(fs, hops, lexical[..k]);
  }

  /** Confinement: the result lies under the root, its existing part is
      canonical, the first missing name is really missing, and so no prefix of
      it is a link the kernel could follow somewhere else. */
  lemma ResolveConfined(fs: Nodes, hops: nat, root: seq<Name>, input: string)
    requires WellFormed(fs)
    requires ResolveOf(fs, hops, root, input).Ok?
    ensures var r := ResolveOf(fs, hops, root, input).value;
            root <= r && LinkFree(fs, r) && (exists k :: |root| <= k && ExistsUpTo(fs, r, k))
  {
    var lexical := LexicalOf(root, input).value;
    DeepestVisibleExact(fs, hops, lexical);
    var k := DeepestVisible(fs, hops, lexical).value;
    NextNameAbsent(fs, hops, lexical, k);
    var base := Canonicalize(fs, lexical[..k], hops).at;
    var r := base + lexical[k..];
    assert r[..|base|] == base;
    if k < |lexical| {
      assert r[..|base| + 1] == base + [lexical[k]];
    }
    assert ExistsUpTo(fs, r, |base|);
    ExistsUpToIsLinkFree(fs, r, |base|);
  }

  lemma ExistsUpToIsLinkFree(fs: Nodes, p: seq<Name>, k: nat)
    requires WellFormed(fs) && ExistsUpTo(fs, p, k)
    ensures LinkFree(fs, p)
    ensures forall j :: k < j <= |p| ==> p[..j] !in fs
  {
    forall j | 0 <= j <= |p| && p[..j] in fs ensures j <= k && !fs[p[..j]].Link? {
      if j > k {
        assert p[..j][..k + 1] == p[..k + 1];
        AncestorsAreDirs(fs, p[..j], k + 1);
      } else if j < k {
        AncestorsAreDirs(fs, p[..k], j);
        assert p[..k][..j] == p[..j];
      }
    }
  }

  /** Whatever the kernel does with a link-free path, it does at that path: it
      spends no hops, ends at the named node when it is there, and can only
      create at the named place when it is not. */
  lemma LinkFreeWalk(fs: Nodes, p: seq<Name>, mode: Mode, hops: nat)
    requires WellFormed(fs) && LinkFree(fs, p)
    ensures p in fs ==> Walk(fs, [], Normals(p), mode, hops) == Found(p, hops)
    ensures p !in fs && !mode.Create? ==> Walk(fs, [], Normals(p), mode, hops).Failed?
    ensures p !in fs && mode.Create? ==>
            Walk(fs, [], Normals(p), mode, hops) ==
            if IsDir(fs, Parent(p)) then Found(p, hops)
            else Failed(if Parent(p) in fs then NotADirectory else ParentError(fs, Parent(p)))
  {
    if p in fs {
      assert p[..|p|] == p;
      WalkOfCanonical(fs, p, mode, hops);
    } else {
      LastStep(fs, hops, p, mode);
      LinkFreeWalkAbsent(fs, Parent(p), hops) by {
        assert forall k :: 0 <= k <= |p| - 1 ==> Parent(p)[..k] == p[..k];
      }
      assert Parent(p) + [Last(p)] == p;
    }
  }

  /** Why a link-free path cannot be entered: a file is in the way, or a name on
      it is missing. */
  function ParentError(fs: Nodes, p: seq<Name>): Errno {
    if p == [] then NotFound
    else if Parent(p) in fs then (if fs[Parent(p)].Dir? then NotFound else NotADirectory)
    else ParentError(fs, Parent(p))
  }

  lemma {:induction false} LinkFreeWalkAbsent(fs: Nodes, p: seq<Name>, hops: nat)
    requires WellFormed(fs) && LinkFree(fs, p)
    ensures Canonicalize(fs, p, hops) == if p in fs then Found(p, hops) else Failed(ParentError(fs, p))
    decreases |p|
  {
    if p in fs {
      assert p[..|p|] == p;
      WalkOfCanonical(fs, p, Follow, hops);
    } else {
      LastStep(fs, hops, p, Follow);
      LinkFreeWalkAbsent(fs, Parent(p), hops) by {
        assert forall k :: 0 <= k <= |p| - 1 ==> Parent(p)[..k] == p[..k];
      }
      assert Parent(p) + [Last(p)] == p;
    }
  }

  /** Agreement with the kernel: the lexical path and the resolved path name the
      same node, or both name none. */
  lemma ResolveAgreesWithKernel(fs: Nodes, hops: nat, root: seq<Name>, input: string)
    requires WellFormed(fs)
    requires LexicalOf(root, input).Ok?
    ensures var lexical := LexicalOf(root, input).value;
            var actual := Canonicalize(fs, lexical, hops);
            var r := ResolveOf(fs, hops, root, input);
            && (actual.Found? ==> r == if root <= actual.at then Ok(actual.at) else Err(Escape(input)))
            && (actual.Failed? && r.Ok? ==> r.value !in fs)
  {
    var lexical := LexicalOf(root, input).value;
    var actual := Canonicalize(fs, lexical, hops);
    assert lexical[..|lexical|] == lexical;
    if actual.Found? {
      FollowImpliesVisible(fs, hops, lexical);
      assert VisibleUpTo(fs, hops, lexical, |lexical|);
      ResolveExact(fs, hops, root, input, |lexical|);
      assert actual.at + lexical[|lexical|..] == actual.at;
    } else if ResolveOf(fs, hops, root, input).Ok? {
      DeepestVisibleExact(fs, hops, lexical);
      MissingStaysMissing(fs, hops, lexical, DeepestVisible(fs, hops, lexical).value);
    }
  }

  /** If the whole path cannot be followed, what is left after the visible part is
      not there under its canonical name either. */
  lemma MissingStaysMissing(fs: Nodes, hops: nat, p: seq<Name>, k: nat)
    requires WellFormed(fs) && VisibleUpTo(fs, hops, p, k)
    requires Canonicalize(fs, p[..k], hops).Found? && Canonicalize(fs, p, hops).Failed?
    ensures Canonicalize(fs, p[..k], hops).at + p[k..] !in fs
  {
    NextNameAbsent(fs, hops, p, k);
    assert k < |p| by {
      assert p[..|p|] == p;
    }
    var base := Canonicalize(fs, p[..k], hops).at;
    var r := base + p[k..];
    assert r[..|base|] == base;
    assert r[..|base| + 1] == base + [p[k]];
    ExistsUpToIsLinkFree(fs, r, |base|);
    assert r[..|r|] == r;
  }

  // ---- The raw text -----------------------------------------------------------

  lemma OnlyLeadingRoot(s: string)
    requires IsAbsolute(s)
    ensures forall i :: 0 <= i < |Components(s)| && Components(s)[i].RootDir? ==> i == 0
  {
    PiecesGiveValidNames(Split(s));
    var rest := FromPieces(Split(s));
    assert Components(s) == [RootDir] + rest;
    forall i | 0 < i < |Components(s)| ensures !Components(s)[i].RootDir? {
      assert Components(s)[i] == rest[i - 1] && rest[i - 1] in rest;
    }
  }

  /** As long as no `..` of the input follows a link, the textual treatment is the
      kernel's: `resolve` answers with the very node the kernel finds for the text
      as the caller wrote it. */
  lemma ResolveFollowsRawPath(fs: Nodes, hops: nat, root: seq<Name>, input: string)
    requires WellFormed(fs) && ValidNames(root)
    requires LexicalOf(root, input).Ok?
    requires PopsAreRealDirs(fs, hops, [], Components(Join(Render(root), input)))
    ensures var raw := Walk(fs, [], Components(Join(Render(root), input)), Follow, hops);
            && raw == Canonicalize(fs, LexicalOf(root, input).value, hops)
            && (raw.Found? ==>
                  ResolveOf(fs, hops, root, input) == if root <= raw.at then Ok(raw.at) else Err(Escape(input)))
  {
    var cs := Components(Join(Render(root), input));
    OnlyLeadingRoot(Join(Render(root), input));
    NormaliseDenotes(fs, hops, [], cs, Follow);
    assert Normals([]) + cs == cs;
    assert Denotes(fs, hops, [], cs, Follow);
    ResolveAgreesWithKernel(fs, hops, root, input);
  }

  /** A `..` after a link is where they part: here `a` leads out of the root, the
      kernel takes `a/..` to "/", and `resolve` to the root. */
  lemma PopOfLinkDiverges(hops: nat)
    requires hops > 0
    ensures exists fs: Nodes, root: seq<Name>, input: string ::
              && WellFormed(fs) && ValidNames(root) && Canonical(fs, root)
              && Walk(fs, [], Components(Join(Render(root), input)), Follow, hops) == Found([], hops - 1)
              && ResolveOf(fs, hops, root, input) == Ok(root) && root != []
  {
    var root, input := ["r"], "a/..";
    var fs := ExampleTree();
    ExampleComponents(root, input);
    ExampleWalk(hops);
    ExampleLexical(root, input);
    ExampleResolves(fs, hops, root, input);
    assert Walk(fs, [], Components(Join(Render(root), input)), Follow, hops) == Found([], hops - 1);
  }

  function ExampleTree(): Nodes {
    map[[] := Dir, ["r"] := Dir, ["x"] := Dir, ["r", "a"] := Link(Target(true, [Normal("x")]))]
  }

  lemma ExampleResolves(fs: Nodes, hops: nat, root: seq<Name>, input: string)
    requires fs == ExampleTree() && root == ["r"] && LexicalOf(root, input) == Ok(root)
    ensures ResolveOf(fs, hops, root, input) == Ok(root) && WellFormed(fs) && Canonical(fs, root)
  {
    ValidExample();
    WalkOfCanonical(fs, root, Follow, hops);
    ResolveAgreesWithKernel(fs, hops, root, input);
  }

  lemma ExampleLexical(root: seq<Name>, input: string)
    requires root == ["r"]
    requires Components(Join(Render(root), input)) == [RootDir, Normal("r"), Normal("a"), ParentDir]
    ensures LexicalOf(root, input) == Ok(root)
  {
    var cs := [RootDir, Normal("r"), Normal("a"), ParentDir];
    var deep := ["r", "a"];
    NormaliseAbsolute(deep);
    assert [RootDir] + Normals(deep) == cs[..3];
    NormaliseConcat([], cs[..3], [ParentDir]);
    assert cs == cs[..3] + [ParentDir];
    assert Parent(deep) == root;
    assert [ParentDir][1..] == [];
  }

  lemma ExampleComponents(root: seq<Name>, input: string)
    requires root == ["r"] && input == "a/.."
    ensures Components(Join(Render(root), input)) == [RootDir, Normal("r"), Normal("a"), ParentDir]
    ensures ValidNames(root)
  {
    ComponentsOfJoin(root, input);
    ExamplePieces();
    assert [RootDir] + Normals(root) + [Normal("a"), ParentDir] == [RootDir, Normal("r"), Normal("a"), ParentDir];
  }

  lemma ExamplePieces()
    ensures FromPieces(Split("a/..")) == [Normal("a"), ParentDir]
  {
    SplitName("a");
    SplitName("..");
    SplitConcat("a", "..");
    assert "a/.." == "a" + "/" + "..";
    assert FromPieces([".."]) == [ParentDir];
    assert ["a", ".."][1..] == [".."];
    assert Split("a/..") == ["a", ".."];
  }

  lemma ValidExample()
    ensures WellFormed(ExampleTree()) && Canonical(ExampleTree(), ["r"])
  {
    assert Parent(["r"]) == [] && Parent(["x"]) == [] && Parent(["r", "a"]) == ["r"];
  }

  lemma ExampleWalk(hops: nat)
    requires hops > 0
    ensures Walk(ExampleTree(), [], [RootDir, Normal("r"), Normal("a"), ParentDir], Follow, hops) == Found([], hops - 1)
  {
    var fs := ExampleTree();
    var cs, onward := [Normal("r"), Normal("a"), ParentDir], [Normal("x"), ParentDir];
    assert [] + ["r"] == ["r"] && ["r"] + ["a"] == ["r", "a"] && [] + ["x"] == ["x"];
    assert Walk(fs, ["x"], [ParentDir], Follow, hops - 1) == Found([], hops - 1) by {
      assert Parent(["x"]) == [] && [ParentDir][1..] == [];
    }
    assert Walk(fs, [], onward, Follow, hops - 1) == Found([], hops - 1) by {
      assert onward[1..] == [ParentDir];
    }
    assert Walk(fs, ["r"], cs[1..], Follow, hops) == Found([], hops - 1) by {
      assert cs[1..][1..] == [ParentDir];
      assert [Normal("x")] + [ParentDir] == onward;
    }
    assert Walk(fs, [], cs, Follow, hops) == Found([], hops - 1);
    assert [RootDir, Normal("r"), Normal("a"), ParentDir][1..] == cs;
  }
}
