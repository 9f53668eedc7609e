/** A file system with symbolic links, and the kernel's walk over it.

    The tree is a map from canonical locations (names below "/") to nodes, so a
    frame condition is plain equality of map entries. Links may be relative,
    absolute, dangling or cyclic: a target is any list of components. */
module FileSystem {
  import opened Paths
  import opened Wrappers

  datatype Target = Target(absolute: bool, components: seq<Component>)

  datatype Node = Dir | File(content: string) | Link(target: Target)

  type Nodes = map<seq<Name>, Node>

  datatype Errno = NotFound | NotADirectory | TooManyLinks | AlreadyExists | IsADirectory

  /** What the walk does with the last component: `lstat` does not follow a link
      there, opening follows it, and opening for creation also accepts an absent
      name in an existing directory. */
  datatype Mode = NoFollow | Follow | Create

  datatype Walked = Found(at: seq<Name>, hops: nat) | Failed(why: Errno)

  ghost predicate WellFormed(fs: Nodes) {
    && [] in fs && fs[[]].Dir?
    && (forall p :: p in fs ==> ValidNames(p))
    && (forall p {:trigger Parent(p)} :: p in fs && p != [] ==> Parent(p) in fs && fs[Parent(p)].Dir?)
  }

  /** Reached by its own name: the node is there and is not itself a link. In a
      well-formed tree everything above it is then a real directory. */
  predicate Canonical(fs: Nodes, p: seq<Name>) {
    p in fs && !fs[p].Link?
  }

  predicate IsDir(fs: Nodes, p: seq<Name>) {
    p in fs && fs[p].Dir?
  }

  /** Pathname resolution after XBD section 4.13 of POSIX.1-2017, from directory
      `cur`, with a budget of `hops` symbolic links. */
  function Walk(fs: Nodes, cur: seq<Name>, rest: seq<Component>, mode: Mode, hops: nat): (w: Walked)
    decreases hops, |rest|
  {
    if cur !in fs then Failed(NotFound)
    else if rest == [] then Found(cur, hops)
    else if !fs[cur].Dir? then Failed(NotADirectory)
    else
      match rest[0]
      case RootDir => Walk(fs, cur, rest[1..], mode, hops)
      case CurDir => Walk(fs, cur, rest[1..], mode, hops)
      case ParentDir => Walk(fs, if cur == [] then cur else Parent(cur), rest[1..], mode, hops)
      case Normal(n) =>
        var p := cur + [n];
        if p !in fs then
          if mode.Create? && |rest| == 1 then Found(p, hops) else Failed(NotFound)
        else if fs[p].Link? then
          if mode.NoFollow? && |rest| == 1 then Found(p, hops)
          else if hops == 0 then Failed(TooManyLinks)
          else
            var t := fs[p].target;
            Walk(fs, if t.absolute then [] else cur, t.components + rest[1..], mode, hops - 1)
        else Walk(fs, p, rest[1..], mode, hops)
  }

  /** `lstat` of an absolute path. */
  function Lstat(fs: Nodes, p: seq<Name>, hops: nat): Walked {
    Walk(fs, [], Normals(p), NoFollow, hops)
  }

  /** `realpath` of an absolute path; `stat` and opening for reading reach the
      same node. */
  function Canonicalize(fs: Nodes, p: seq<Name>, hops: nat): Walked {
    Walk(fs, [], Normals(p), Follow, hops)
  }

  /** A walk over two stretches is a walk over the first, following links, then
      a walk over the second with the hops that are left. */
  lemma {:induction false} WalkConcat(
      fs: Nodes, cur: seq<Name>, a: seq<Component>, b: seq<Component>, mode: Mode, hops: nat)
    requires b != []
    ensures Walk(fs, cur, a + b, mode, hops) ==
            match Walk(fs, cur, a, Follow, hops)
            case Found(d, left) => Walk(fs, d, b, mode, left)
            case Failed(e) => Failed(e)
    decreases hops, |a|
  {
    if cur !in fs {
    } else if a == [] {
      assert a + b == b;
    } else if fs[cur].Dir? {
      assert (a + b)[0] == a[0] && (a + b)[1..] == a[1..] + b;
      match a[0]
      case RootDir => WalkConcat(fs, cur, a[1..], b, mode, hops);
      case CurDir => WalkConcat(fs, cur, a[1..], b, mode, hops);
      case ParentDir => WalkConcat(fs, if cur == [] then cur else Parent(cur), a[1..], b, mode, hops);
      case Normal(n) =>
        var p := cur + [n];
        if p in fs {
          if fs[p].Link? {
            if hops > 0 {
              var t := fs[p].target;
              var start := if t.absolute then [] else cur;
              assert t.components + (a[1..] + b) == (t.components + a[1..]) + b;
              WalkConcat(fs, start, t.components + a[1..], b, mode, hops - 1);
            }
          } else {
            WalkConcat(fs, p, a[1..], b, mode, hops);
          }
        }
    }
  }

  /** Following every link ends at a node that is not a link. */
  lemma {:induction false} FollowEndsCanonical(fs: Nodes, cur: seq<Name>, rest: seq<Component>, hops: nat)
    requires WellFormed(fs)
    requires cur in fs ==> Canonical(fs, cur)
    ensures var w := Walk(fs, cur, rest, Follow, hops);
            w.Found? ==> Canonical(fs, w.at) && w.hops <= hops
    decreases hops, |rest|
  {
    if cur in fs && rest != [] && fs[cur].Dir? {
      match rest[0]
      case RootDir => FollowEndsCanonical(fs, cur, rest[1..], hops);
      case CurDir => FollowEndsCanonical(fs, cur, rest[1..], hops);
      case ParentDir => FollowEndsCanonical(fs, if cur == [] then cur else Parent(cur), rest[1..], hops);
      case Normal(n) =>
        var p := cur + [n];
        if p in fs {
          if fs[p].Link? {
            if hops > 0 {
              var t := fs[p].target;
              FollowEndsCanonical(fs, if t.absolute then [] else cur, t.components + rest[1..], hops - 1);
            }
          } else {
            FollowEndsCanonical(fs, p, rest[1..], hops);
          }
        }
    }
  }

  /** Below a canonical node the walk over plain names that are all there spends
      no hops and stays where the names say. */
  lemma {:induction false} WalkOfCanonicalFrom(fs: Nodes, cur: seq<Name>, p: seq<Name>, mode: Mode, hops: nat)
    requires WellFormed(fs)
    requires Canonical(fs, cur + p)
    ensures Walk(fs, cur, Normals(p), mode, hops) == Found(cur + p, hops)
    decreases |p|
  {
    AncestorsAreDirs(fs, cur + p, |cur|);
    assert (cur + p)[..|cur|] == cur;
    if p == [] {
      assert cur + p == cur;
    } else {
      AncestorsAreDirs(fs, cur + p, |cur| + 1);
      assert (cur + p)[..|cur| + 1] == cur + [p[0]];
      assert (cur + [p[0]]) + p[1..] == cur + p;
      assert Normals(p)[1..] == Normals(p[1..]);
      WalkOfCanonicalFrom(fs, cur + [p[0]], p[1..], mode, hops);
    }
  }

  /** In a well-formed tree every proper ancestor of a node is a directory. */
  lemma {:induction false} AncestorsAreDirs(fs: Nodes, p: seq<Name>, k: nat)
    requires WellFormed(fs) && p in fs && k <= |p|
    ensures p[..k] in fs && (k < |p| ==> fs[p[..k]].Dir?)
    decreases |p|
  {
    if k == |p| {
      assert p[..k] == p;
    } else {
      AncestorsAreDirs(fs, Parent(p), k);
      assert Parent(p)[..k] == p[..k];
      if k == |p| - 1 {
        assert p[..k] == Parent(p);
      }
    }
  }

  /** `realpath` is idempotent and link-free: a canonical path is its own
      canonical form, at no cost in hops, and `lstat` sees the same node. */
  lemma WalkOfCanonical(fs: Nodes, p: seq<Name>, mode: Mode, hops: nat)
    requires WellFormed(fs) && Canonical(fs, p)
    ensures Walk(fs, [], Normals(p), mode, hops) == Found(p, hops)
  {
    assert [] + p == p;
    WalkOfCanonicalFrom(fs, [], p, mode, hops);
  }

  /** One tree extends another when every node kept its kind and every link its
      target; file contents may differ and nodes may have been added. */
  ghost predicate Extends(old_: Nodes, new_: Nodes) {
    forall p :: p in old_ ==>
      p in new_ && (old_[p].Dir? ==> new_[p].Dir?) && (old_[p].File? ==> new_[p].File?)
      && (old_[p].Link? ==> new_[p] == old_[p])
  }

  /** What could be reached stays reachable in an extended tree, at the same
      place and for the same number of hops. */
  lemma {:induction false} WalkExtends(
      fs: Nodes, fs': Nodes, cur: seq<Name>, rest: seq<Component>, mode: Mode, hops: nat)
    requires Extends(fs, fs') && !mode.Create?
    requires Walk(fs, cur, rest, mode, hops).Found?
    ensures Walk(fs', cur, rest, mode, hops) == Walk(fs, cur, rest, mode, hops)
    decreases hops, |rest|
  {
    if rest != [] {
      match rest[0]
      case RootDir => WalkExtends(fs, fs', cur, rest[1..], mode, hops);
      case CurDir => WalkExtends(fs, fs', cur, rest[1..], mode, hops);
      case ParentDir => WalkExtends(fs, fs', if cur == [] then cur else Parent(cur), rest[1..], mode, hops);
      case Normal(n) =>
        var p := cur + [n];
        if fs[p].Link? {
          if !(mode.NoFollow? && |rest| == 1) {
            var t := fs[p].target;
            WalkExtends(fs, fs', if t.absolute then [] else cur, t.components + rest[1..], mode, hops - 1);
          }
        } else {
          WalkExtends(fs, fs', p, rest[1..], mode, hops);
        }
    }
  }

  // ---- Links ----------------------------------------------------------------

  /** A link stands for what its target names: from "/" if the target is absolute, from
      the link's own directory if not. It costs one hop, and is refused without one. */
  lemma LinkStandsFor(fs: Nodes, d: seq<Name>, n: Name, p: seq<Name>, absolute: bool, hops: nat)
    requires WellFormed(fs) && IsDir(fs, d) && d + [n] in fs
    requires fs[d + [n]] == Link(Target(absolute, Normals(p)))
    requires Canonical(fs, if absolute then p else d + p)
    ensures Walk(fs, [], Normals(d + [n]), Follow, hops) ==
            if hops == 0 then Failed(TooManyLinks) else Found(if absolute then p else d + p, hops - 1)
    ensures Walk(fs, [], Normals(d + [n]), NoFollow, hops) == Found(d + [n], hops)
  {
    assert Normals(d + [n]) == Normals(d) + [Normal(n)];
    WalkOfCanonical(fs, d, Follow, hops);
    WalkConcat(fs, [], Normals(d), [Normal(n)], Follow, hops);
    WalkConcat(fs, [], Normals(d), [Normal(n)], NoFollow, hops);
    assert Normals(p) + [Normal(n)][1..] == Normals(p);
    if hops > 0 {
      assert [] + p == p;
      WalkOfCanonicalFrom(fs, if absolute then [] else d, p, Follow, hops - 1);
    }
  }

  /** A link to itself is refused however many hops there are. */
  lemma {:induction false} SelfLinkRefused(fs: Nodes, d: seq<Name>, n: Name, hops: nat)
    requires IsDir(fs, d) && d + [n] in fs && fs[d + [n]] == Link(Target(false, [Normal(n)]))
    ensures Walk(fs, d, [Normal(n)], Follow, hops) == Failed(TooManyLinks)
    decreases hops
  {
    assert [Normal(n)] + [Normal(n)][1..] == [Normal(n)];
    if hops > 0 {
      SelfLinkRefused(fs, d, n, hops - 1);
    }
  }

  /** A link whose target is absent is refused as absent. */
  lemma DanglingRefused(fs: Nodes, d: seq<Name>, n: Name, m: Name, hops: nat)
    requires IsDir(fs, d) && d + [n] in fs && fs[d + [n]] == Link(Target(false, [Normal(m)]))
    requires d + [m] !in fs && hops > 0
    ensures Walk(fs, d, [Normal(n)], Follow, hops) == Failed(NotFound)
  {
    assert [Normal(m)] + [Normal(n)][1..] == [Normal(m)];
  }
}
