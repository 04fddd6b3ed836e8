/**
  The history screen: the finished groups, newest first, each with its
  per-person totals and order total, and a set of expanded cards.
 */
module GroupsHistory {
  import opened Domain
  import opened GroupStore
  import opened Allocation
  import OpenGroupsList

  /** `groups.filter((group) => group.isFinished)`. */
  function FinishedGroups(gs: seq<Group>): seq<Group> {
    if |gs| == 0 then []
    else FinishedGroups(gs[..|gs| - 1]) + (if gs[|gs| - 1].isFinished then [gs[|gs| - 1]] else [])
  }

  /** Newest first: no group is older than one after it. */
  predicate NewestFirst(s: seq<Group>) {
    forall i, j :: 0 <= i < j < |s| ==> s[i].createdAt >= s[j].createdAt
  }

  /** Places `x` before the first group strictly older than it, so after
      every group at least as recent. */
  function Insert(s: seq<Group>, x: Group): seq<Group> {
    if |s| == 0 then [x]
    else if s[0].createdAt < x.createdAt then [x] + s
    else [s[0]] + Insert(s[1..], x)
  }

  /** `finished.sort((a, b) => b.createdAt - a.createdAt)`: a stable sort,
      newest first, groups of the same instant kept in stored order. */
  function SortNewestFirst(s: seq<Group>): seq<Group> {
    if |s| == 0 then [] else Insert(SortNewestFirst(s[..|s| - 1]), s[|s| - 1])
  }

  // ---------------------------------------------------------------------
  // Filter and sort properties

  /** The history holds exactly the stored groups that are finished. */
  lemma {:induction false} FinishedGroupsMembers(gs: seq<Group>, g: Group)
    ensures g in FinishedGroups(gs) <==> g in gs && g.isFinished
    decreases |gs|
  {
    if |gs| > 0 {
      FinishedGroupsMembers(gs[..|gs| - 1], g);
      assert gs == gs[..|gs| - 1] + [gs[|gs| - 1]];
    }
  }

  /** Every stored group is either open or finished, exactly once. */
  lemma {:induction false} OpenAndFinishedPartition(gs: seq<Group>)
    ensures multiset(OpenGroupsList.OpenGroups(gs)) + multiset(FinishedGroups(gs)) == multiset(gs)
    decreases |gs|
  {
    if |gs| > 0 {
      OpenAndFinishedPartition(gs[..|gs| - 1]);
      assert gs == gs[..|gs| - 1] + [gs[|gs| - 1]];
    }
  }

  lemma {:induction false} InsertMultiset(s: seq<Group>, x: Group)
    ensures multiset(Insert(s, x)) == multiset(s) + multiset{x}
    decreases |s|
  {
    if |s| > 0 && s[0].createdAt >= x.createdAt {
      InsertMultiset(s[1..], x);
      assert s == [s[0]] + s[1..];
    }
  }

  lemma {:induction false} InsertNewestFirst(s: seq<Group>, x: Group)
    requires NewestFirst(s)
    ensures NewestFirst(Insert(s, x))
    decreases |s|
  {
    if |s| > 0 && s[0].createdAt >= x.createdAt {
      var rest := Insert(s[1..], x);
      InsertNewestFirst(s[1..], x);
      InsertMultiset(s[1..], x);
      forall k | 0 <= k < |rest|
        ensures s[0].createdAt >= rest[k].createdAt
      {
        assert rest[k] in multiset(s[1..]) + multiset{x};
        if rest[k] in s[1..] {
          var m :| 0 <= m < |s[1..]| && s[1..][m] == rest[k];
          assert s[m + 1] == rest[k];
        }
      }
    }
  }

  /** The history order is newest first. */
  lemma {:induction false} SortIsNewestFirst(s: seq<Group>)
    ensures NewestFirst(SortNewestFirst(s))
    decreases |s|
  {
    if |s| > 0 {
      SortIsNewestFirst(s[..|s| - 1]);
      InsertNewestFirst(SortNewestFirst(s[..|s| - 1]), s[|s| - 1]);
    }
  }

  /** Sorting neither loses nor adds a group. */
  lemma {:induction false} SortIsPermutation(s: seq<Group>)
    ensures multiset(SortNewestFirst(s)) == multiset(s)
    decreases |s|
  {
    if |s| > 0 {
      SortIsPermutation(s[..|s| - 1]);
      InsertMultiset(SortNewestFirst(s[..|s| - 1]), s[|s| - 1]);
      assert s == s[..|s| - 1] + [s[|s| - 1]];
    }
  }

  /** A list already newest first is left as it is (the sort is stable). */
  lemma {:induction false} SortKeepsNewestFirst(s: seq<Group>)
    requires NewestFirst(s)
    ensures SortNewestFirst(s) == s
    decreases |s|
  {
    if |s| > 0 {
      var init := s[..|s| - 1];
      assert NewestFirst(init);
      SortKeepsNewestFirst(init);
      InsertAt(init, s[|s| - 1], |init|);
      assert init[..|init|] == init && init[|init|..] == [];
      assert s == init + [s[|s| - 1]];
    }
  }

  /** The groups created at instant `t`, in list order. */
  function AtInstant(s: seq<Group>, t: int): seq<Group> {
    if |s| == 0 then []
    else AtInstant(s[..|s| - 1], t) + (if s[|s| - 1].createdAt == t then [s[|s| - 1]] else [])
  }

  lemma {:induction false} AtInstantAppend(a: seq<Group>, b: seq<Group>, t: int)
    ensures AtInstant(a + b, t) == AtInstant(a, t) + AtInstant(b, t)
    decreases |b|
  {
    if |b| == 0 {
      assert a + b == a;
    } else {
      var b' := b[..|b| - 1];
      assert (a + b)[..|a + b| - 1] == a + b';
      AtInstantAppend(a, b', t);
    }
  }

  lemma {:induction false} AtInstantNone(s: seq<Group>, t: int)
    requires forall k :: 0 <= k < |s| ==> s[k].createdAt != t
    ensures AtInstant(s, t) == []
    decreases |s|
  {
    if |s| > 0 {
      AtInstantNone(s[..|s| - 1], t);
    }
  }

  lemma AtInstantSingle(x: Group, t: int)
    ensures AtInstant([x], t) == if x.createdAt == t then [x] else []
  {
    assert [x][..0] == [];
  }

  /** Inserting into a newest-first list puts the group after every group
      of the same instant. */
  lemma {:induction false} InsertAtInstant(s: seq<Group>, x: Group, t: int)
    requires NewestFirst(s)
    ensures AtInstant(Insert(s, x), t) == AtInstant(s, t) + (if x.createdAt == t then [x] else [])
    decreases |s|
  {
    AtInstantSingle(x, t);
    if |s| == 0 {
      assert Insert(s, x) == [x];
    } else if s[0].createdAt < x.createdAt {
      assert Insert(s, x) == [x] + s;
      AtInstantAppend([x], s, t);
      if x.createdAt == t {
        assert forall k :: 0 <= k < |s| ==> s[k].createdAt <= s[0].createdAt;
        AtInstantNone(s, t);
      }
    } else {
      var rest := s[1..];
      assert NewestFirst(rest);
      assert Insert(s, x) == [s[0]] + Insert(rest, x);
      InsertAtInstant(rest, x, t);
      AtInstantAppend([s[0]], Insert(rest, x), t);
      AtInstantAppend([s[0]], rest, t);
      assert s == [s[0]] + rest;
    }
  }

  /** The sort is stable: the groups of any one instant keep their stored
      order. */
  lemma {:induction false} SortIsStable(s: seq<Group>, t: int)
    ensures AtInstant(SortNewestFirst(s), t) == AtInstant(s, t)
    decreases |s|
  {
    if |s| > 0 {
      var init := s[..|s| - 1];
      SortIsStable(init, t);
      SortIsNewestFirst(init);
      InsertAtInstant(SortNewestFirst(init), s[|s| - 1], t);
    }
  }

  /** Where Insert puts a group into a list: after the ones at least as
      recent, before the older ones. */
  lemma {:induction false} InsertAt(s: seq<Group>, x: Group, j: int)
    requires 0 <= j <= |s|
    requires forall k :: 0 <= k < j ==> s[k].createdAt >= x.createdAt
    requires forall k :: j <= k < |s| ==> s[k].createdAt < x.createdAt
    ensures Insert(s, x) == s[..j] + [x] + s[j..]
    decreases j
  {
    if j == 0 {
      assert s[..0] + [x] + s[0..] == [x] + s;
    } else {
      InsertAt(s[1..], x, j - 1);
      assert s[1..][..j - 1] == s[1..j];
      assert s[1..][j - 1..] == s[j..];
      assert s[..j] == [s[0]] + s[1..j];
    }
  }

  /** The in-place sort of `loadFinishedGroups`, as insertion sort. */
  method SortInPlace(a: array<Group>)
    modifies a
    ensures a[..] == SortNewestFirst(old(a[..]))
  {
    ghost var orig := a[..];
    var i := 0;
    while i < a.Length
      invariant 0 <= i <= a.Length
      invariant a[..i] == SortNewestFirst(orig[..i])
      invariant a[i..] == orig[i..]
    {
      SortIsNewestFirst(orig[..i]);
      InsertInPlace(a, i);
      assert orig[..i + 1][..i] == orig[..i];
      assert orig[..i + 1][i] == orig[i];
      i := i + 1;
    }
    assert orig[..a.Length] == orig;
  }

  /** One pass of the insertion sort: the group at index `i` moves left past
      every older group of the sorted prefix before it. */
  method InsertInPlace(a: array<Group>, i: int)
    requires 0 <= i < a.Length
    requires NewestFirst(a[..i])
    modifies a
    ensures a[..i + 1] == Insert(old(a[..i]), old(a[i]))
    ensures a[i + 1..] == old(a[i + 1..])
  {
    var x := a[i];
    ghost var sorted := a[..i];
    var j := i;
    while j > 0 && a[j - 1].createdAt < x.createdAt
      invariant 0 <= j <= i
      invariant a[..j] == sorted[..j]
      invariant a[j + 1..i + 1] == sorted[j..i]
      invariant a[i + 1..] == old(a[i + 1..])
      invariant forall k :: j <= k < i ==> sorted[k].createdAt < x.createdAt
    {
      a[j] := a[j - 1];
      j := j - 1;
    }
    a[j] := x;
    assert j > 0 ==> sorted[j - 1] == a[j - 1];
    InsertAt(sorted, x, j);
    ghost var b := a[..];
    SplitAt(b, j, i + 1);
    assert b[..j] == a[..j] && b[j + 1..i + 1] == a[j + 1..i + 1] && b[..i + 1] == a[..i + 1];
  }

  lemma SplitAt(s: seq<Group>, j: int, n: int)
    requires 0 <= j < n <= |s|
    ensures s[..n] == s[..j] + [s[j]] + s[j + 1..n]
  {
  }

  /** `loadFinishedGroups`: nothing stored gives an empty history;
      otherwise the finished groups, sorted in place, newest first. */
  method LoadFinishedGroups(stored: Option<seq<Group>>) returns (r: seq<Group>)
    ensures stored.None? ==> r == []
    ensures stored.Some? ==> r == SortNewestFirst(FinishedGroups(stored.value))
    ensures NewestFirst(r)
    ensures stored.Some? ==> multiset(r) == multiset(FinishedGroups(stored.value))
    ensures forall g :: g in r <==> stored.Some? && g in stored.value && g.isFinished
  {
    if stored.None? {
      return [];
    }
    var finished := FinishedGroups(stored.value);
    var a := new Group[|finished|](k requires 0 <= k < |finished| => finished[k]);
    assert a[..] == finished;
    SortInPlace(a);
    r := a[..];
    SortIsNewestFirst(finished);
    SortIsPermutation(finished);
    forall g
      ensures g in r <==> g in stored.value && g.isFinished
    {
      FinishedGroupsMembers(stored.value, g);
      assert g in r <==> g in multiset(r);
      assert g in finished <==> g in multiset(finished);
    }
  }

  /** `calculatePersonTotals`: the same accumulation as the results screen,
      without the grand total. */
  method CalculatePersonTotals(group: Group) returns (totals: seq<PersonTotal>)
    ensures totals == Allocate(group.people, group.items)
  {
    var acc := NewTotals(group.people);
    var i := 0;
    while i < |group.items|
      invariant 0 <= i <= |group.items|
      invariant acc[..] == ApplyItems(InitialTotals(group.people), group.items[..i])
    {
      CreditItem(acc, group.items[i]);
      assert group.items[..i + 1][..i] == group.items[..i];
      i := i + 1;
    }
    assert group.items[..i] == group.items;
    totals := acc[..];
  }

  /** `toggleExpanded`: a copy of the set with `id` added or removed. */
  function ToggleExpanded(expanded: set<string>, id: string): (r: set<string>)
    ensures id in r <==> id !in expanded
    ensures forall x :: x != id ==> (x in r <==> x in expanded)
  {
    if id in expanded then expanded - {id} else expanded + {id}
  }

  /** Toggling the same card twice restores the set. */
  lemma ToggleExpandedTwice(expanded: set<string>, id: string)
    ensures ToggleExpanded(ToggleExpanded(expanded, id), id) == expanded
  {
  }

  class History {
    var finishedGroups: seq<Group>
    var expandedGroups: set<string>

    /** The screen's first render loads the history; no card is expanded. */
    constructor (store: Store)
      ensures finishedGroups == (if store.groups.None? then []
                                 else SortNewestFirst(FinishedGroups(store.groups.value)))
      ensures expandedGroups == {}
    {
      var loaded := LoadFinishedGroups(store.groups);
      expandedGroups := {};
      finishedGroups := loaded;
    }

    method Toggle(id: string)
      modifies this`expandedGroups
      ensures expandedGroups == ToggleExpanded(old(expandedGroups), id)
    {
      expandedGroups := ToggleExpanded(expandedGroups, id);
    }
  }

  /** `handleViewResults`: only the current id changes. */
  method HandleViewResults(store: Store, id: string)
    modifies store
    ensures store.currentGroupId == Some(id)
    ensures store.groups == old(store.groups)
  {
    store.currentGroupId := Some(id);
  }
}
