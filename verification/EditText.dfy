/** `edit_file`'s text: counting matches without overlap, and replacing them. */
module EditText {
  import opened Wrappers

  ghost predicate OccursAt(s: string, p: string, i: nat) {
    i + |p| <= |s| && s[i..i + |p|] == p
  }

  /** `str::matches(p)`: where each match begins, leftmost first, none
      overlapping the one before. */
  function Matches(s: string, p: string, from: nat): (at: seq<nat>)
    requires p != "" && from <= |s|
    decreases |s| - from
  {
    if from + |p| > |s| then []
    else if s[from..from + |p|] == p then [from] + Matches(s, p, from + |p|)
    else Matches(s, p, from + 1)
  }

  /** `str::replace(p, r)`, from a position on. */
  function Replaced(s: string, p: string, r: string, from: nat): string
    requires p != "" && from <= |s|
    decreases |s| - from
  {
    if from + |p| > |s| then s[from..]
    else if s[from..from + |p|] == p then r + Replaced(s, p, r, from + |p|)
    else [s[from]] + Replaced(s, p, r, from + 1)
  }

  datatype EditError = EmptyOldText | Absent | Ambiguous(count: nat)

  function Edit(current: string, oldText: string, newText: string): Result<string, EditError> {
    if oldText == "" then Err(EmptyOldText)
    else
      var count := |Matches(current, oldText, 0)|;
      if count == 0 then Err(Absent)
      else if count == 1 then Ok(Replaced(current, oldText, newText, 0))
      else Err(Ambiguous(count))
  }

  /** The leftmost occurrence, with every other one overlapping it. */
  ghost predicate SoleMatch(s: string, p: string, i: nat) {
    OccursAt(s, p, i) && forall j: nat :: OccursAt(s, p, j) ==> i <= j < i + |p|
  }

  ghost predicate FirstFrom(s: string, p: string, from: nat, i: nat) {
    from <= i && OccursAt(s, p, i) && forall j: nat :: from <= j && OccursAt(s, p, j) ==> i <= j
  }

  lemma {:induction false} NoMatchIff(s: string, p: string, from: nat)
    requires p != "" && from <= |s|
    ensures Matches(s, p, from) == [] <==> forall j: nat :: from <= j ==> !OccursAt(s, p, j)
    ensures Matches(s, p, from) == [] ==> forall r :: Replaced(s, p, r, from) == s[from..]
    decreases |s| - from
  {
    if from + |p| <= |s| {
      if s[from..from + |p|] == p {
        assert OccursAt(s, p, from);
      } else {
        NoMatchIff(s, p, from + 1);
        assert s[from..] == [s[from]] + s[from + 1..];
      }
    }
  }

  /** The first match is the first occurrence, and what is left to match begins
      where it ends. */
  lemma {:induction false} FirstMatch(s: string, p: string, from: nat) returns (i: nat)
    requires p != "" && from <= |s| && Matches(s, p, from) != []
    ensures FirstFrom(s, p, from, i)
    ensures Matches(s, p, from) == [i] + Matches(s, p, i + |p|)
    decreases |s| - from
  {
    if s[from..from + |p|] == p {
      i := from;
      assert OccursAt(s, p, i);
    } else {
      i := FirstMatch(s, p, from + 1);
      assert !OccursAt(s, p, from);
      assert Matches(s, p, from) == Matches(s, p, from + 1);
    }
  }

  /** Replacing changes nothing before the first occurrence. */
  lemma {:induction false} FirstReplaced(s: string, p: string, r: string, from: nat, i: nat)
    requires p != "" && from <= |s| && FirstFrom(s, p, from, i)
    ensures Replaced(s, p, r, from) == s[from..i] + (r + Replaced(s, p, r, i + |p|))
    decreases |s| - from
  {
    var tail := r + Replaced(s, p, r, i + |p|);
    if from == i {
      assert s[from..i] + tail == tail;
    } else {
      assert !OccursAt(s, p, from);
      FirstReplaced(s, p, r, from + 1, i);
      assert s[from..i] + tail == [s[from]] + (s[from + 1..i] + tail);
    }
  }

  lemma FirstIsSole(s: string, p: string, i: nat, k: nat)
    requires FirstFrom(s, p, 0, k) && SoleMatch(s, p, i)
    ensures i == k
  {
    assert OccursAt(s, p, i) && OccursAt(s, p, k);
  }

  /** The count is one exactly when every occurrence overlaps the leftmost. */
  lemma CountsOnceIff(s: string, p: string, k: nat)
    requires p != "" && FirstFrom(s, p, 0, k) && Matches(s, p, 0) == [k] + Matches(s, p, k + |p|)
    ensures |Matches(s, p, 0)| == 1 <==> SoleMatch(s, p, k)
  {
    NoMatchIff(s, p, k + |p|);
  }

  lemma RestUnchanged(s: string, p: string, r: string, k: nat)
    requires p != "" && SoleMatch(s, p, k)
    ensures Replaced(s, p, r, 0) == s[..k] + r + s[k + |p|..]
  {
    FirstReplaced(s, p, r, 0, k);
    NoMatchIff(s, p, k + |p|);
    var rest := Replaced(s, p, r, k + |p|);
    assert Matches(s, p, k + |p|) == [];
    assert rest == s[k + |p|..];
    assert s[0..k] == s[..k];
    assert s[..k] + (r + rest) == s[..k] + r + rest;
  }

  /** An edit is accepted exactly when all occurrences of the old text overlap the
      leftmost one, and it then replaces that one and nothing else. */
  lemma EditExact(s: string, p: string, r: string, i: nat)
    requires p != ""
    ensures SoleMatch(s, p, i) ==> Edit(s, p, r) == Ok(s[..i] + r + s[i + |p|..])
    ensures Edit(s, p, r).Ok? ==> exists k: nat :: SoleMatch(s, p, k)
    ensures Edit(s, p, r) == Err(Absent) <==> forall j: nat :: !OccursAt(s, p, j)
  {
    NoMatchIff(s, p, 0);
    if Matches(s, p, 0) != [] {
      var k := FirstMatch(s, p, 0);
      CountsOnceIff(s, p, k);
      if SoleMatch(s, p, i) {
        FirstIsSole(s, p, i, k);
        RestUnchanged(s, p, r, i);
      }
    }
  }

  /** No proper prefix of `p` is also a suffix of it. */
  ghost predicate Unbordered(p: string) {
    forall k :: 0 < k < |p| ==> p[..k] != p[|p| - k..]
  }

  ghost predicate OccursOnce(s: string, p: string) {
    exists i: nat :: OccursAt(s, p, i) && forall j: nat :: OccursAt(s, p, j) ==> j == i
  }

  lemma OverlapIsBorder(s: string, p: string, i: nat, j: nat)
    requires OccursAt(s, p, i) && OccursAt(s, p, j) && i < j < i + |p|
    ensures !Unbordered(p)
  {
    var k := i + |p| - j;
    assert s[i..i + |p|][|p| - k..] == s[j..j + k] == s[j..j + |p|][..k];
  }

  ghost predicate AcceptedIsUnique(s: string, p: string, r: string) {
    Edit(s, p, r).Ok? ==> OccursOnce(s, p)
  }

  lemma UnborderedIsUnique(s: string, p: string, r: string)
    requires p != "" && Unbordered(p)
    ensures AcceptedIsUnique(s, p, r)
  {
    if Edit(s, p, r).Ok? {
      EditExact(s, p, r, 0);
      var i: nat :| SoleMatch(s, p, i);
      forall j: nat | OccursAt(s, p, j) ensures j == i {
        if j != i {
          OverlapIsBorder(s, p, i, j);
        }
      }
    }
  }

  lemma BorderedIsAmbiguous(p: string) returns (s: string)
    requires p != "" && !Unbordered(p)
    ensures !AcceptedIsUnique(s, p, "")
  {
    var k :| 0 < k < |p| && p[..k] == p[|p| - k..];
    s := p + p[k..];
    BorderedTwice(p, k, s);
    EditExact(s, p, "", 0);
    assert OccursAt(s, p, 0);
  }

  /** Counting without overlap is not counting: the promise that an accepted edit
      was unambiguous holds for precisely those old texts that cannot overlap
      themselves, and for any other there is a file whose edit is accepted though
      the text occurs twice. */
  lemma AcceptedIsUniqueIff(p: string)
    requires p != ""
    ensures (forall s: string, r: string :: AcceptedIsUnique(s, p, r)) <==> Unbordered(p)
  {
    if Unbordered(p) {
      forall s: string, r: string ensures AcceptedIsUnique(s, p, r) {
        UnborderedIsUnique(s, p, r);
      }
    } else {
      var s := BorderedIsAmbiguous(p);
      assert !AcceptedIsUnique(s, p, "");
    }
  }

  lemma BorderedTwice(p: string, k: nat, s: string)
    requires 0 < k < |p| && p[..k] == p[|p| - k..] && s == p + p[k..]
    ensures SoleMatch(s, p, 0) && OccursAt(s, p, |p| - k)
  {
    assert s[0..|p|] == p;
    assert s == p[..|p| - k] + p[|p| - k..] + p[k..];
    assert p[|p| - k..] + p[k..] == p[..k] + p[k..] == p;
    assert s[|p| - k..|p| - k + |p|] == p;
  }

  /** The smallest such file: "aa" occurs twice in "aaa", counts once, and the edit
      goes ahead. */
  lemma AmbiguousEditAccepted()
    ensures Edit("aaa", "aa", "b") == Ok("ba")
    ensures OccursAt("aaa", "aa", 0) && OccursAt("aaa", "aa", 1)
  {
    assert "aaa"[0..2] == "aa" && "aaa"[1..3] == "aa";
    assert SoleMatch("aaa", "aa", 0);
    EditExact("aaa", "aa", "b", 0);
    assert "aaa"[..0] + "b" + "aaa"[2..] == "ba";
  }

  /** For a text that cannot overlap itself the count is the number of places
      where it occurs. */
  lemma {:induction false} CountIsExact(s: string, p: string, from: nat)
    requires p != "" && from <= |s| && Unbordered(p)
    ensures forall j: nat :: j in Matches(s, p, from) <==> from <= j && OccursAt(s, p, j)
    ensures forall a, b :: 0 <= a < b < |Matches(s, p, from)| ==> Matches(s, p, from)[a] < Matches(s, p, from)[b]
    decreases |s| - from
  {
    if from + |p| <= |s| {
      if s[from..from + |p|] == p {
        assert OccursAt(s, p, from);
        CountIsExact(s, p, from + |p|);
        forall j: nat | OccursAt(s, p, j) && from < j < from + |p| ensures false {
          OverlapIsBorder(s, p, from, j);
        }
        var rest := Matches(s, p, from + |p|);
        assert Matches(s, p, from) == [from] + rest;
        forall a | 0 <= a < |rest| ensures rest[a] >= from + |p| {
          assert rest[a] in rest;
        }
      } else {
        CountIsExact(s, p, from + 1);
      }
    }
  }

  lemma EditBack(s: string, p: string, r: string, i: nat, edited: string)
    requires p != "" && r != "" && OccursAt(s, p, i) && edited == s[..i] + r + s[i + |p|..]
    requires OccursOnce(edited, r)
    ensures Edit(edited, r, p) == Ok(s)
  {
    assert edited[i..i + |r|] == r;
    assert OccursAt(edited, r, i);
    assert SoleMatch(edited, r, i);
    EditExact(edited, r, p, i);
    Respliced(s, p, r, i, edited);
  }

  lemma Respliced(s: string, p: string, r: string, i: nat, edited: string)
    requires OccursAt(s, p, i) && edited == s[..i] + r + s[i + |p|..]
    ensures edited[..i] + p + edited[i + |r|..] == s
  {
    assert edited[..i] == s[..i] && edited[i + |r|..] == s[i + |p|..];
    assert s[..i] + s[i..i + |p|] + s[i + |p|..] == s;
  }

  /** Undoing an edit: if the new text occurs at one place only in the result, the
      opposite edit gives the file back. */
  lemma EditRoundTrip(s: string, p: string, r: string)
    requires Edit(s, p, r).Ok? && r != "" && OccursOnce(Edit(s, p, r).value, r)
    ensures Edit(Edit(s, p, r).value, r, p) == Ok(s)
  {
    EditExact(s, p, r, 0);
    var i: nat :| SoleMatch(s, p, i);
    EditExact(s, p, r, i);
    EditBack(s, p, r, i, Edit(s, p, r).value);
  }
}
