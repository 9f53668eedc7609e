/** `src/root.rs`: every path that reaches the file system goes through here. */
module Root {
  import opened Paths
  import opened FileSystem
  import opened Wrappers

  datatype RootError = Escape(input: string) | Io(path: seq<Name>, source: Errno)

  /** `Root::new`: the root is stored in canonical form. A relative argument is
      read from the working directory `cwd`; an empty one names nothing. */
  function NewRoot(fs: Nodes, hops: nat, cwd: seq<Name>, argument: string): (r: Result<seq<Name>, Errno>)
    ensures r.Ok? && WellFormed(fs) && Canonical(fs, cwd) ==> Canonical(fs, r.value) && ValidNames(r.value)
  {
    if argument == "" then Err(NotFound)
    else
      var from := if IsAbsolute(argument) then [] else cwd;
      FollowFromCanonical(fs, cwd, from, Components(argument), hops);
      match Walk(fs, from, Components(argument), Follow, hops)
      case Found(at, _) => Ok(at)
      case Failed(e) => Err(e)
  }

  lemma FollowFromCanonical(fs: Nodes, cwd: seq<Name>, from: seq<Name>, components: seq<Component>, hops: nat)
    requires from == [] || from == cwd
    ensures WellFormed(fs) && Canonical(fs, cwd) && Walk(fs, from, components, Follow, hops).Found? ==>
            Canonical(fs, Walk(fs, from, components, Follow, hops).at)
  {
    if WellFormed(fs) && Canonical(fs, cwd) {
      FollowEndsCanonical(fs, from, components, hops);
    }
  }

  /** The root is the directory the argument names: a canonical path given in full names
      itself wherever the server was started, and one given from the working directory
      names the place below it. */
  lemma NewRootNames(fs: Nodes, hops: nat, cwd: seq<Name>, p: seq<Name>)
    requires WellFormed(fs)
    ensures Canonical(fs, p) ==> NewRoot(fs, hops, cwd, Render(p)) == Ok(p)
    ensures p != [] && Canonical(fs, cwd + p) ==> NewRoot(fs, hops, cwd, RenderRelative(p)) == Ok(cwd + p)
  {
    if Canonical(fs, p) {
      ComponentsOfRendered(p);
      WalkOfCanonical(fs, p, Follow, hops);
      assert ([RootDir] + Normals(p))[1..] == Normals(p);
    }
    if p != [] && Canonical(fs, cwd + p) {
      assert forall i :: 0 <= i < |p| ==> p[i] == (cwd + p)[|cwd| + i];
      RelativeComponents(p);
      WalkOfCanonicalFrom(fs, cwd, p, Follow, hops);
    }
  }

  lemma RelativeComponents(p: seq<Name>)
    requires ValidNames(p) && p != []
    ensures Components(RenderRelative(p)) == Normals(p) && RenderRelative(p) != "" && !IsAbsolute(RenderRelative(p))
  {
    PiecesOfRendered(p);
    RenderRelativeShape(p);
    FirstPiece(p);
  }

  lemma FirstPiece(p: seq<Name>)
    requires ValidNames(p) && p != []
    ensures Split(RenderRelative(p))[0] == p[0]
  {
    SplitName(p[0]);
    if |p| > 1 {
      SplitConcat(p[0], RenderRelative(p[1..]));
    }
  }

  /** Whatever links the argument leads through: from a canonical working directory the
      root is where the kernel ends for the argument appended to it, or for the argument
      alone if it starts at "/"; and it is refused exactly when that cannot be followed. */
  lemma NewRootFollows(fs: Nodes, hops: nat, cwd: seq<Name>, argument: string)
    requires WellFormed(fs) && Canonical(fs, cwd) && argument != ""
    ensures var absolute := argument[0] == '/';
            var cs := if absolute then Components(argument) else Normals(cwd) + Components(argument);
            var w := Walk(fs, [], cs, Follow, hops);
            var r := NewRoot(fs, hops, cwd, argument);
            && (r.Ok? <==> w.Found?) && (w.Found? ==> r == Ok(w.at)) && (w.Failed? ==> r == Err(w.why))
  {
    var cs := Components(argument);
    if argument[0] != '/' {
      WalkOfCanonical(fs, cwd, Follow, hops);
      if cs == [] {
        assert Normals(cwd) + cs == Normals(cwd);
      } else {
        WalkConcat(fs, [], Normals(cwd), cs, Follow, hops);
      }
    }
  }

  // ---- Lexical normalisation ------------------------------------------------

  /** Run the component stack machine from `stack`; `None` when a `..` meets the
      bare "/". */
  function Normalise(stack: seq<Name>, components: seq<Component>): Option<seq<Name>>
    decreases |components|
  {
    if components == [] then Some(stack)
    else
      match components[0]
      case RootDir => Normalise(stack, components[1..])
      case CurDir => Normalise(stack, components[1..])
      case ParentDir => if stack == [] then None else Normalise(Parent(stack), components[1..])
      case Normal(n) => Normalise(stack + [n], components[1..])
  }

  function LexicalOf(root: seq<Name>, input: string): Result<seq<Name>, RootError> {
    match Normalise([], Components(Join(Render(root), input)))
    case None => Err(Escape(input))
    case Some(out) => if root <= out then Ok(out) else Err(Escape(input))
  }

  /** `Root::lexical`. */
  method Lexical(root: seq<Name>, input: string) returns (r: Result<seq<Name>, RootError>)
    ensures r == LexicalOf(root, input)
  {
    var joined := Join(Render(root), input);
    var components := Components(joined);
    var out: seq<Name> := [];
    for i := 0 to |components|
      invariant Normalise(out, components[i..]) == Normalise([], components)
    {
      assert components[i..][1..] == components[i + 1..];
      match components[i] {
        case RootDir =>
        case CurDir =>
        case ParentDir =>
          if out == [] {
            return Err(Escape(input));
          }
          out := Parent(out);
        case Normal(part) => out := out + [part];
      }
    }
    if root <= out {
      return Ok(out);
    } else {
      return Err(Escape(input));
    }
  }

  // ---- Resolution -----------------------------------------------------------

  /** How many leading names of `p` belong to the deepest prefix `lstat` sees. */
  function DeepestVisible(fs: Nodes, hops: nat, p: seq<Name>): (k: Option<nat>)
    ensures k.Some? ==> k.value <= |p|
    decreases |p|
  {
    if Lstat(fs, p, hops).Found? then Some(|p|)
    else if p == [] then None
    else DeepestVisible(fs, hops, Parent(p))
  }

  function ResolveOf(fs: Nodes, hops: nat, root: seq<Name>, input: string): Result<seq<Name>, RootError> {
    match LexicalOf(root, input)
    case Err(e) => Err(e)
    case Ok(lexical) =>
      match DeepestVisible(fs, hops, lexical)
      case None => Err(Escape(input))
      case Some(k) =>
        match Canonicalize(fs, lexical[..k], hops)
        case Failed(e) => Err(Io(lexical[..k], e))
        case Found(base, _) =>
          if root <= base then Ok(base + lexical[k..]) else Err(Escape(input))
  }

  /** Names collected walking up read backwards. */
  function Reversed(s: seq<Name>): (r: seq<Name>)
    ensures |r| == |s|
  {
    if s == [] then [] else [Last(s)] + Reversed(s[..|s| - 1])
  }

  /** `Root::resolve`. */
  method Resolve(fs: Nodes, hops: nat, root: seq<Name>, input: string) returns (r: Result<seq<Name>, RootError>)
    ensures r == ResolveOf(fs, hops, root, input)
  {
    var checked := Lexical(root, input);
    if checked.Err? {
      return checked;
    }
    var lexical := checked.value;
    var ancestor := lexical;
    var trailing: seq<Name> := [];
    while Lstat(fs, ancestor, hops).Failed?
      invariant |ancestor| <= |lexical| && lexical[..|ancestor|] == ancestor
      invariant lexical[|ancestor|..] == Reversed(trailing)
      invariant DeepestVisible(fs, hops, ancestor) == DeepestVisible(fs, hops, lexical)
      decreases |ancestor|
    {
      if ancestor == [] {
        return Err(Escape(input));
      }
      var name := Last(ancestor);
      StepUp(lexical, |ancestor|, trailing);
      trailing := trailing + [name];
      ancestor := Parent(ancestor);
    }

    var canonical := Canonicalize(fs, ancestor, hops);
    if canonical.Failed? {
      return Err(Io(ancestor, canonical.why));
    }
    var resolved := canonical.at;
    if !(root <= resolved) {
      return Err(Escape(input));
    }
    var i := |trailing|;
    assert trailing[..i] == trailing;
    while i > 0
      invariant 0 <= i <= |trailing|
      invariant resolved + Reversed(trailing[..i]) == canonical.at + Reversed(trailing)
    {
      i := i - 1;
      PushNext(resolved, trailing, i);
      resolved := resolved + [trailing[i]];
    }
    assert trailing[..i] == [] && resolved + [] == resolved;
    return Ok(resolved);
  }

  lemma StepUp(lexical: seq<Name>, k: nat, trailing: seq<Name>)
    requires 0 < k <= |lexical| && lexical[k..] == Reversed(trailing)
    ensures Parent(lexical[..k]) == lexical[..k - 1]
    ensures lexical[k - 1..] == Reversed(trailing + [Last(lexical[..k])])
  {
    var name := Last(lexical[..k]);
    assert (trailing + [name])[..|trailing|] == trailing;
    assert lexical[k - 1..] == [name] + lexical[k..];
  }

  lemma PushNext(resolved: seq<Name>, trailing: seq<Name>, i: nat)
    requires i < |trailing|
    ensures (resolved + [trailing[i]]) + Reversed(trailing[..i]) == resolved + Reversed(trailing[..i + 1])
  {
    assert trailing[..i + 1][..i] == trailing[..i];
    assert resolved + ([trailing[i]] + Reversed(trailing[..i])) == (resolved + [trailing[i]]) + Reversed(trailing[..i]);
  }

  /** `Root::relativize`. */
  function Relativize(root: seq<Name>, path: seq<Name>): seq<Name> {
    if root <= path then path[|root|..] else path
  }

  // ---- What the stack machine computes --------------------------------------

  /** Names entered less `..` taken: the height of the stack, if it never
      underflows. */
  function Height(components: seq<Component>): int {
    if components == [] then 0
    else
      Height(components[..|components| - 1])
      + match components[|components| - 1] case Normal(_) => 1 case ParentDir => -1 case _ => 0
  }

  lemma {:induction false} NormaliseConcat(stack: seq<Name>, a: seq<Component>, b: seq<Component>)
    ensures Normalise(stack, a + b) ==
            match Normalise(stack, a) case None => None case Some(mid) => Normalise(mid, b)
    decreases |a|
  {
    if a == [] {
      assert a + b == b;
    } else {
      assert (a + b)[1..] == a[1..] + b;
      match a[0]
      case RootDir => NormaliseConcat(stack, a[1..], b);
      case CurDir => NormaliseConcat(stack, a[1..], b);
      case ParentDir => if stack != [] { NormaliseConcat(Parent(stack), a[1..], b); }
      case Normal(n) => NormaliseConcat(stack + [n], a[1..], b);
    }
  }

  /** Normalisation succeeds exactly when no prefix of the input climbs above
      "/": passing outside the root and coming back is allowed. */
  lemma {:induction false} NormaliseOkIff(cs: seq<Component>)
    ensures Normalise([], cs).Some? <==> forall k :: 0 <= k <= |cs| ==> Height(cs[..k]) >= 0
    ensures Normalise([], cs).Some? ==> |Normalise([], cs).value| == Height(cs)
    decreases |cs|
  {
    if cs == [] {
    } else {
      var init, last := cs[..|cs| - 1], cs[|cs| - 1];
      NormaliseOkIff(init);
      NormaliseConcat([], init, [last]);
      assert cs == init + [last];
      assert forall k :: 0 <= k <= |init| ==> init[..k] == cs[..k];
      assert cs[..|cs|] == cs;
      if Normalise([], init).Some? {
        assert [last][1..] == [];
      }
    }
  }

  lemma {:induction false} NormaliseNames(stack: seq<Name>, p: seq<Name>)
    ensures Normalise(stack, Normals(p)) == Some(stack + p)
    decreases |p|
  {
    if p == [] {
      assert stack + p == stack;
    } else {
      assert Normals(p)[1..] == Normals(p[1..]);
      NormaliseNames(stack + [p[0]], p[1..]);
      assert stack + [p[0]] + p[1..] == stack + p;
    }
  }

  lemma {:induction false} NormaliseKeepsNamesValid(stack: seq<Name>, cs: seq<Component>)
    requires ValidNames(stack)
    requires forall c :: c in cs && c.Normal? ==> ValidName(c.name)
    ensures Normalise(stack, cs).Some? ==> ValidNames(Normalise(stack, cs).value)
    decreases |cs|
  {
    if cs != [] {
      match cs[0]
      case RootDir => NormaliseKeepsNamesValid(stack, cs[1..]);
      case CurDir => NormaliseKeepsNamesValid(stack, cs[1..]);
      case ParentDir => if stack != [] { NormaliseKeepsNamesValid(Parent(stack), cs[1..]); }
      case Normal(n) =>
        assert cs[0] in cs;
        NormaliseKeepsNamesValid(stack + [n], cs[1..]);
    }
  }

  /** A name of the input that is still there at the end: nothing after it ever
      brings the height back down to where it was entered. */
  ghost predicate Survives(cs: seq<Component>, i: nat) {
    && i < |cs| && cs[i].Normal?
    && (forall m :: i < m <= |cs| ==> Height(cs[..m]) > Height(cs[..i]))
  }

  ghost predicate SurvivorAt(cs: seq<Component>, j: nat, n: Name) {
    exists i: nat :: Survives(cs, i) && Height(cs[..i]) == j && cs[i] == Normal(n)
  }

  /** The output told without a stack: its j-th name is the input name entered at
      height j that no later `..` takes back. */
  lemma {:induction false} NormaliseSurvivors(cs: seq<Component>)
    requires Normalise([], cs).Some?
    ensures var out := Normalise([], cs).value;
            forall j :: 0 <= j < |out| ==> SurvivorAt(cs, j, out[j])
    decreases |cs|
  {
    if cs != [] {
      var init, last := cs[..|cs| - 1], cs[|cs| - 1];
      assert cs == init + [last];
      LastComponent(init, last);
      NormaliseSurvivors(init);
      NormaliseOkIff(init);
      NormaliseOkIff(cs);
      var before, out := Normalise([], init).value, Normalise([], cs).value;
      forall j | 0 <= j < |out| ensures SurvivorAt(cs, j, out[j]) {
        if j < |before| {
          SurvivorKept(init, last, j, before[j]);
        } else {
          SurvivorNew(init, out[j]);
        }
      }
    }
  }

  /** What the last component does to the stack. */
  lemma LastComponent(init: seq<Component>, last: Component)
    requires Normalise([], init + [last]).Some?
    ensures Normalise([], init).Some?
    ensures var before, out := Normalise([], init).value, Normalise([], init + [last]).value;
            if last.Normal? then out == before + [last.name]
            else if last.ParentDir? then before != [] && out == Parent(before)
            else out == before
  {
    NormaliseConcat([], init, [last]);
    assert [last][1..] == [];
  }

  lemma SurvivesLonger(init: seq<Component>, last: Component, i: nat)
    requires Survives(init, i) && Height(init + [last]) > Height(init[..i])
    ensures Survives(init + [last], i)
  {
    var cs := init + [last];
    forall m | i < m <= |cs| ensures Height(cs[..m]) > Height(cs[..i]) {
      assert cs[..i] == init[..i];
      if m < |cs| {
        assert cs[..m] == init[..m];
      } else {
        assert cs[..m] == cs;
      }
    }
  }

  lemma SurvivorNew(init: seq<Component>, n: Name)
    requires Height(init) >= 0
    ensures SurvivorAt(init + [Normal(n)], Height(init), n)
  {
    var cs := init + [Normal(n)];
    assert cs[..|init|] == init && cs[..|cs|] == cs;
    assert Survives(cs, |init|);
  }

  lemma SurvivorKept(init: seq<Component>, last: Component, j: nat, n: Name)
    requires SurvivorAt(init, j, n) && Height(init + [last]) > j
    ensures SurvivorAt(init + [last], j, n)
  {
    var i: nat :| Survives(init, i) && Height(init[..i]) == j && init[i] == Normal(n);
    SurvivesLonger(init, last, i);
    assert (init + [last])[..i] == init[..i];
  }

  /** The check as a caller may state it: the lexical stage accepts exactly the
      inputs that never climb past "/" and end at or below the root, and what it
      returns has no empty, `.` or `..` component left. */
  lemma LexicalOkIff(root: seq<Name>, input: string)
    requires ValidNames(root)
    ensures var cs := Components(Join(Render(root), input));
            LexicalOf(root, input).Ok? <==>
            && (forall k :: 0 <= k <= |cs| ==> Height(cs[..k]) >= 0)
            && (exists out :: Normalise([], cs) == Some(out) && root <= out)
    ensures LexicalOf(root, input).Ok? ==>
            root <= LexicalOf(root, input).value && ValidNames(LexicalOf(root, input).value)
    ensures LexicalOf(root, input).Ok? ==>
            Normalise([], Components(Join(Render(root), input))) == Some(LexicalOf(root, input).value)
    ensures LexicalOf(root, input).Err? ==> LexicalOf(root, input).error == Escape(input)
  {
    var joined := Join(Render(root), input);
    NormaliseOkIff(Components(joined));
    PiecesGiveValidNames(Split(joined));
    NormaliseKeepsNamesValid([], Components(joined));
  }

  /** Where the input leads by its text alone, before the containment check. */
  function End(root: seq<Name>, input: string): Option<seq<Name>> {
    Normalise([], Components(Join(Render(root), input)))
  }

  /** The text read piece by piece: `..` goes up one and fails at "/", `.` and an empty
      piece go nowhere, a name goes down to it. With `FirstPieces` this settles every
      text. */
  lemma NextPiece(root: seq<Name>, input: string, n: Name)
    requires input != "" && ValidName(n)
    ensures End(root, input + "/..") ==
            if End(root, input).Some? && End(root, input).value != []
            then Some(Parent(End(root, input).value)) else None
    ensures End(root, input + "/.") == End(root, input)
    ensures End(root, input + "/") == End(root, input)
    ensures End(root, input + "/" + n) ==
            if End(root, input).Some? then Some(End(root, input).value + [n]) else None
  {
    EndConcat(root, input, "..");
    EndConcat(root, input, ".");
    EndConcat(root, input, "");
    EndConcat(root, input, n);
    OnePiece(n);
    assert input + "/" + ".." == input + "/.." && input + "/" + "." == input + "/." && input + "/" + "" == input + "/";
    assert [Normal(n)][1..] == [] && [ParentDir][1..] == [];
  }

  lemma OnePiece(n: Name)
    requires ValidName(n)
    ensures FromPieces(Split(n)) == [Normal(n)] && FromPieces(Split("..")) == [ParentDir]
    ensures FromPieces(Split(".")) == [] && FromPieces(Split("")) == []
  {
    SplitName(n);
    SplitName("..");
    SplitName(".");
    assert [n][1..] == [] && [".."][1..] == [] && ["."][1..] == [] && [""][1..] == [];
  }

  lemma EndConcat(root: seq<Name>, input: string, t: string)
    requires input != ""
    ensures End(root, input + "/" + t) ==
            if End(root, input).Some? then Normalise(End(root, input).value, FromPieces(Split(t))) else None
  {
    var joined := Join(Render(root), input);
    assert Join(Render(root), input + "/" + t) == joined + "/" + t;
    ComponentsConcat(joined, t);
    NormaliseConcat([], Components(joined), FromPieces(Split(t)));
  }

  /** A first piece is read from the root, and "/" from the top. */
  lemma FirstPieces(root: seq<Name>, n: Name)
    requires ValidNames(root) && ValidName(n)
    ensures End(root, n) == Some(root + [n]) && End(root, ".") == Some(root) && End(root, "") == Some(root)
    ensures End(root, "..") == if root == [] then None else Some(Parent(root))
    ensures End(root, "/") == Some([])
  {
    OnePiece(n);
    EndBelow(root, n);
    EndBelow(root, ".");
    EndBelow(root, "");
    EndBelow(root, "..");
    assert [Normal(n)][1..] == [] && [ParentDir][1..] == [];
    assert Render([]) == "/";
    ComponentsOfRendered([]);
    NormaliseAbsolute([]);
    assert [RootDir] + Normals([]) == [RootDir];
  }

  lemma EndBelow(root: seq<Name>, input: string)
    requires ValidNames(root) && !IsAbsolute(input)
    ensures End(root, input) == Normalise(root, FromPieces(Split(input)))
  {
    ComponentsOfJoin(root, input);
    NormaliseConcat([], [RootDir] + Normals(root), FromPieces(Split(input)));
    NormaliseAbsolute(root);
  }

  /** Normalising again changes nothing: the result handed back as an absolute
      path is accepted as it is. */
  lemma LexicalIdempotent(root: seq<Name>, out: seq<Name>)
    requires ValidNames(out) && root <= out
    ensures LexicalOf(root, Render(out)) == Ok(out)
  {
    ComponentsOfRendered(out);
    NormaliseAbsolute(out);
  }

  lemma NormaliseAbsolute(out: seq<Name>)
    ensures Normalise([], [RootDir] + Normals(out)) == Some(out)
  {
    assert ([RootDir] + Normals(out))[1..] == Normals(out);
    NormaliseNames([], out);
    assert [] + out == out;
  }

  /** The same for the result handed back relative to the root. */
  lemma LexicalOfRelative(root: seq<Name>, below: seq<Name>)
    requires ValidNames(root) && ValidNames(below)
    ensures LexicalOf(root, RenderRelative(below)) == Ok(root + below)
  {
    var out := root + below;
    ComponentsOfRelative(root, below, RenderRelative(below));
    NormaliseAbsolute(out);
    assert root <= out;
  }

  lemma ComponentsOfRelative(root: seq<Name>, below: seq<Name>, text: string)
    requires ValidNames(root) && ValidNames(below) && text == RenderRelative(below)
    ensures Components(Join(Render(root), text)) == [RootDir] + Normals(root + below)
  {
    RelativeText(below, text);
    ComponentsOfJoin(root, text);
    NormalsConcat(root, below);
  }

  lemma RelativeText(below: seq<Name>, text: string)
    requires ValidNames(below) && text == RenderRelative(below)
    ensures !IsAbsolute(text) && FromPieces(Split(text)) == Normals(below)
  {
    PiecesOfRendered(below);
    if below != [] {
      RenderRelativeShape(below);
    }
  }

  lemma NormalsConcat(a: seq<Name>, b: seq<Name>)
    ensures [RootDir] + Normals(a) + Normals(b) == [RootDir] + Normals(a + b)
  {
  }

  /** Every name that a `..` in `cs` takes back is a real directory: what `lstat`
      sees there is neither a link nor a file, nor missing. */
  ghost predicate PopsAreRealDirs(fs: Nodes, hops: nat, stack: seq<Name>, cs: seq<Component>)
    decreases |cs|
  {
    cs == [] ||
    match cs[0]
    case RootDir => PopsAreRealDirs(fs, hops, stack, cs[1..])
    case CurDir => false
    case ParentDir =>
      && stack != []
      && (var seen := Lstat(fs, stack, hops); seen.Found? && IsDir(fs, seen.at))
      && PopsAreRealDirs(fs, hops, Parent(stack), cs[1..])
    case Normal(n) => PopsAreRealDirs(fs, hops, stack + [n], cs[1..])
  }

  /** Walking `cs` from the stack and walking what `cs` makes of the stack come to
      the same. The last component matters: `lstat` and creation treat it apart. */
  ghost predicate Denotes(fs: Nodes, hops: nat, stack: seq<Name>, cs: seq<Component>, mode: Mode) {
    && Normalise(stack, cs).Some?
    && (cs == [] || cs[|cs| - 1].Normal? || mode.Follow? ==>
          Walk(fs, [], Normals(stack) + cs, mode, hops) ==
          Walk(fs, [], Normals(Normalise(stack, cs).value), mode, hops))
  }

  /** The textual treatment of `..` means what the kernel means by it as long as
      no `..` follows a link: walking the input and walking its normal form end
      at the same node with the same hops left, or fail alike. */
  lemma {:induction false} NormaliseDenotes(fs: Nodes, hops: nat, stack: seq<Name>, cs: seq<Component>, mode: Mode)
    requires WellFormed(fs)
    requires PopsAreRealDirs(fs, hops, stack, cs)
    requires forall i :: 0 <= i < |cs| && cs[i].RootDir? ==> i == 0 && stack == []
    ensures Denotes(fs, hops, stack, cs, mode)
    decreases |cs|
  {
    if cs == [] {
      assert Normals(stack) + cs == Normals(stack);
    } else {
      var tail := cs[1..];
      assert cs == [cs[0]] + tail;
      match cs[0]
      case RootDir =>
        NormaliseDenotes(fs, hops, stack, tail, mode);
        RootDenotes(fs, hops, tail, mode);
      case Normal(n) =>
        NormaliseDenotes(fs, hops, stack + [n], tail, mode);
        NameDenotes(fs, hops, stack, n, tail, mode);
      case ParentDir =>
        NormaliseDenotes(fs, hops, Parent(stack), tail, mode);
        PopDenotes(fs, hops, stack, tail, mode);
    }
  }

  lemma RootDenotes(fs: Nodes, hops: nat, tail: seq<Component>, mode: Mode)
    requires WellFormed(fs) && Denotes(fs, hops, [], tail, mode)
    ensures Denotes(fs, hops, [], [RootDir] + tail, mode)
  {
    var cs := [RootDir] + tail;
    assert cs[1..] == tail;
    assert Normals([]) + cs == cs && Normals([]) + tail == tail;
  }

  lemma NameDenotes(fs: Nodes, hops: nat, stack: seq<Name>, n: Name, tail: seq<Component>, mode: Mode)
    requires Denotes(fs, hops, stack + [n], tail, mode)
    ensures Denotes(fs, hops, stack, [Normal(n)] + tail, mode)
  {
    var cs := [Normal(n)] + tail;
    assert cs[1..] == tail;
    assert Normals(stack) + cs == Normals(stack + [n]) + tail;
  }

  lemma PopDenotes(fs: Nodes, hops: nat, stack: seq<Name>, tail: seq<Component>, mode: Mode)
    requires WellFormed(fs) && stack != []
    requires Lstat(fs, stack, hops).Found? && IsDir(fs, Lstat(fs, stack, hops).at)
    requires Denotes(fs, hops, Parent(stack), tail, mode)
    ensures Denotes(fs, hops, stack, [ParentDir] + tail, mode)
  {
    var cs := [ParentDir] + tail;
    assert cs[1..] == tail;
    PopIsParent(fs, hops, stack, tail, mode);
    assert Normals(stack) + cs == Normals(stack) + [ParentDir] + tail;
  }

  /** Entering a real directory and leaving it again is no movement at all. */
  lemma PopIsParent(fs: Nodes, hops: nat, stack: seq<Name>, tail: seq<Component>, mode: Mode)
    requires WellFormed(fs) && stack != []
    requires Lstat(fs, stack, hops).Found? && IsDir(fs, Lstat(fs, stack, hops).at)
    ensures tail != [] || mode.Follow? ==>
            Walk(fs, [], Normals(stack) + [ParentDir] + tail, mode, hops) ==
            Walk(fs, [], Normals(Parent(stack)) + tail, mode, hops)
  {
    var up, n := Normals(Parent(stack)), Last(stack);
    NormalsSnoc(stack, tail);
    var d := Walk(fs, [], up, Follow, hops);
    EnteredFrom(fs, hops, stack, up, n);
    InAndOut(fs, d.at, n, tail, mode, d.hops);
    PopWalks(fs, up, d, n, tail, mode, hops);
  }

  lemma NormalsSnoc(stack: seq<Name>, tail: seq<Component>)
    requires stack != []
    ensures Normals(stack) == Normals(Parent(stack)) + [Normal(Last(stack))]
    ensures Normals(stack) + [ParentDir] + tail == Normals(Parent(stack)) + ([Normal(Last(stack)), ParentDir] + tail)
  {
  }

  lemma EnteredFrom(fs: Nodes, hops: nat, stack: seq<Name>, up: seq<Component>, n: Name)
    requires WellFormed(fs) && Normals(stack) == up + [Normal(n)] && Lstat(fs, stack, hops).Found?
    ensures var d := Walk(fs, [], up, Follow, hops);
            d.Found? && Canonical(fs, d.at) && Walk(fs, d.at, [Normal(n)], NoFollow, d.hops) == Lstat(fs, stack, hops)
  {
    WalkConcat(fs, [], up, [Normal(n)], NoFollow, hops);
    FollowEndsCanonical(fs, [], up, hops);
  }

  lemma PopWalks(fs: Nodes, up: seq<Component>, d: Walked, n: Name, tail: seq<Component>, mode: Mode, hops: nat)
    requires d.Found? && d == Walk(fs, [], up, Follow, hops)
    requires Walk(fs, d.at, [Normal(n), ParentDir] + tail, mode, d.hops) == Walk(fs, d.at, tail, mode, d.hops)
    requires d.at in fs
    ensures tail != [] || mode.Follow? ==>
            Walk(fs, [], up + ([Normal(n), ParentDir] + tail), mode, hops) == Walk(fs, [], up + tail, mode, hops)
  {
    WalkConcat(fs, [], up, [Normal(n), ParentDir] + tail, mode, hops);
    if tail != [] {
      WalkConcat(fs, [], up, tail, mode, hops);
    } else {
      assert up + tail == up;
    }
  }

  lemma InAndOut(fs: Nodes, d: seq<Name>, n: Name, tail: seq<Component>, mode: Mode, hops: nat)
    requires Canonical(fs, d)
    requires Walk(fs, d, [Normal(n)], NoFollow, hops).Found? && IsDir(fs, Walk(fs, d, [Normal(n)], NoFollow, hops).at)
    ensures Walk(fs, d, [Normal(n), ParentDir] + tail, mode, hops) == Walk(fs, d, tail, mode, hops)
  {
    var two := [Normal(n), ParentDir] + tail;
    assert two[1..] == [ParentDir] + tail;
    assert two[1..][1..] == tail;
    assert Parent(d + [n]) == d;
  }
}
