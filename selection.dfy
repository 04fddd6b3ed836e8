/**
  The participant check-boxes of the order form and of the tip dialog: both
  toggle one label and both switch between everyone and no one with the
  same rule, so the rule is stated once here.
 */
module Selection {
  import opened Domain

  /** `prev.filter((p) => p !== person)`: every copy of `person` removed. */
  function Without(sel: seq<string>, person: string): (r: seq<string>)
    ensures forall x :: x in r <==> x in sel && x != person
  {
    if |sel| == 0 then []
    else if sel[|sel| - 1] == person then Without(sel[..|sel| - 1], person)
    else Without(sel[..|sel| - 1], person) + [sel[|sel| - 1]]
  }

  /** `handleParticipantToggle`: a selected label is removed, any other is
      appended at the end. */
  function Toggle(sel: seq<string>, person: string): seq<string> {
    if person in sel then Without(sel, person) else sel + [person]
  }

  /** `handleSelectAll`: when the selection is as long as the list of
      people, clear it; otherwise select every person, in `people` order. */
  function SelectAll(sel: seq<string>, people: seq<string>): seq<string> {
    if |sel| == |people| then [] else people
  }

  /** A duplicate-free selection of people of the group. */
  predicate IsSelectionOf(sel: seq<string>, people: seq<string>) {
    NoDup(sel) && forall i :: 0 <= i < |sel| ==> sel[i] in people
  }

  /** Removing keeps every other label, in order. */
  lemma {:induction false} WithoutAbsent(sel: seq<string>, person: string)
    requires person !in sel
    ensures Without(sel, person) == sel
    decreases |sel|
  {
    if |sel| > 0 {
      WithoutAbsent(sel[..|sel| - 1], person);
      assert sel == sel[..|sel| - 1] + [sel[|sel| - 1]];
    }
  }

  /** Removing from a duplicate-free list leaves it duplicate-free. */
  lemma {:induction false} WithoutNoDup(sel: seq<string>, person: string)
    requires NoDup(sel)
    ensures NoDup(Without(sel, person))
    decreases |sel|
  {
    if |sel| > 0 {
      var init := sel[..|sel| - 1];
      var x := sel[|sel| - 1];
      assert NoDup(init);
      WithoutNoDup(init, person);
      if x != person {
        forall j | 0 <= j < |init|
          ensures init[j] != x
        {
          assert init[j] == sel[j];
        }
        assert x !in Without(init, person);
      }
    }
  }

  /** Toggling flips the membership of `person` and of no one else. */
  lemma ToggleFlips(sel: seq<string>, person: string, x: string)
    ensures x in Toggle(sel, person) <==> (if x == person then x !in sel else x in sel)
  {
  }

  /** Toggling never introduces a duplicate and never a label from outside
      the group, when the toggled label is a person of the group. */
  lemma ToggleKeepsSelection(sel: seq<string>, people: seq<string>, person: string)
    requires IsSelectionOf(sel, people)
    requires person in people
    ensures IsSelectionOf(Toggle(sel, person), people)
  {
    if person in sel {
      WithoutNoDup(sel, person);
      var r := Without(sel, person);
      forall i | 0 <= i < |r|
        ensures r[i] in people
      {
        assert r[i] in sel;
      }
    } else {
      var r := sel + [person];
      forall i, j | 0 <= i < j < |r|
        ensures r[i] != r[j]
      {
        if j == |sel| {
          assert r[i] == sel[i];
        }
      }
    }
  }

  /** Toggling a label twice restores the selection when it was not
      selected; when it was, the label ends up once, at the end, and the
      set of selected labels is the original one. */
  lemma ToggleTwice(sel: seq<string>, person: string)
    ensures person !in sel ==> Toggle(Toggle(sel, person), person) == sel
    ensures person in sel ==> Toggle(Toggle(sel, person), person) == Without(sel, person) + [person]
    ensures forall x :: x in Toggle(Toggle(sel, person), person) <==> x in sel
  {
    if person !in sel {
      var t := sel + [person];
      assert t[..|t| - 1] == sel;
      WithoutAbsent(sel, person);
    }
  }

  /** Elements of a duplicate-free list, counted as a set. */
  lemma {:induction false} NoDupCard(s: seq<string>)
    requires NoDup(s)
    ensures |set x | x in s| == |s|
    decreases |s|
  {
    if |s| > 0 {
      var init := s[..|s| - 1];
      var x := s[|s| - 1];
      assert NoDup(init);
      NoDupCard(init);
      forall j | 0 <= j < |init|
        ensures init[j] != x
      {
        assert init[j] == s[j];
      }
      assert (set y | y in s) == (set y | y in init) + {x};
    }
  }

  /** For a duplicate-free selection of people of a duplicate-free group,
      the length test of select-all is the same as "everyone is selected":
      it clears exactly when all people are checked and otherwise checks
      everyone. */
  lemma SelectAllClearsExactlyWhenAllSelected(sel: seq<string>, people: seq<string>)
    requires IsSelectionOf(sel, people)
    requires NoDup(people)
    ensures (|sel| == |people|) <==> (forall p :: p in people ==> p in sel)
    ensures SelectAll(sel, people) ==
      if forall p :: p in people ==> p in sel then [] else people
  {
    var S := set x | x in sel;
    var P := set x | x in people;
    NoDupCard(sel);
    NoDupCard(people);
    assert S <= P;
    if |sel| == |people| {
      SubsetEqualCard(S, P);
      forall p | p in people
        ensures p in sel
      {
        assert p in P;
      }
    }
    assert (forall p :: p in people ==> p in sel) ==> P <= S;
    assert (forall p :: p in people ==> p in sel) ==> S == P && |S| == |P|;
  }

  lemma SubsetEqualCard(a: set<string>, b: set<string>)
    requires a <= b && |a| == |b|
    ensures a == b
  {
    assert b == a + (b - a);
    assert |b - a| == 0;
  }
}
