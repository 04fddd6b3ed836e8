/**
  The allocation engine: one accumulator per person, in `people` order; for
  every item in order, the item's value split evenly over its participant
  list and credited to the FIRST accumulator of each listed label (a label
  with no accumulator is dropped, an item without participants is skipped).

  `Allocate` is the specification of the loops in results-summary and in
  groups-history; `CreditItem` and `FindPerson` are the inner steps those
  loops share.
 */
module Allocation {
  import opened Domain

  /** One `{name, value}` line of a person's breakdown. */
  datatype Entry = Entry(name: string, value: real)

  /** A person's accumulator: running total and itemised breakdown. */
  datatype PersonTotal = PersonTotal(person: string, total: real, entries: seq<Entry>)

  /** `people.map(person => ({person, total: 0, items: []}))`. */
  function InitialTotals(people: seq<string>): (r: seq<PersonTotal>)
    ensures |r| == |people|
    ensures forall i :: 0 <= i < |r| ==> r[i] == PersonTotal(people[i], 0.0, [])
  {
    seq(|people|, i requires 0 <= i < |people| => PersonTotal(people[i], 0.0, []))
  }

  /** `totals.find(p => p.person === person)` as an index, -1 when none. */
  function IndexOf(acc: seq<PersonTotal>, person: string): (k: int)
    ensures -1 <= k < |acc|
    ensures k >= 0 ==> acc[k].person == person
    ensures forall j :: 0 <= j < |acc| && (k < 0 || j < k) ==> acc[j].person != person
  {
    if |acc| == 0 then -1
    else if acc[0].person == person then 0
    else
      var k := IndexOf(acc[1..], person);
      if k < 0 then -1 else k + 1
  }

  /** Credits a share to the first accumulator of `person`, if any. */
  function Credit(acc: seq<PersonTotal>, person: string, name: string, share: real): (r: seq<PersonTotal>)
    ensures |r| == |acc|
    ensures forall i :: 0 <= i < |r| ==> r[i].person == acc[i].person
  {
    var k := IndexOf(acc, person);
    if k < 0 then acc
    else acc[k := acc[k].(total := acc[k].total + share,
                          entries := acc[k].entries + [Entry(name, share)])]
  }

  /** Credits the share once per listed label, in list order. */
  function CreditAll(acc: seq<PersonTotal>, ps: seq<string>, name: string, share: real): (r: seq<PersonTotal>)
    ensures |r| == |acc|
    ensures forall i :: 0 <= i < |r| ==> r[i].person == acc[i].person
  {
    if |ps| == 0 then acc
    else Credit(CreditAll(acc, ps[..|ps| - 1], name, share), ps[|ps| - 1], name, share)
  }

  /** The even split of an item over its participant list. */
  function Share(item: Item): real
    requires |item.participants| > 0
  {
    item.totalValue / (|item.participants| as real)
  }

  /** One item's effect on the accumulators. */
  function ApplyItem(acc: seq<PersonTotal>, item: Item): (r: seq<PersonTotal>)
    ensures |r| == |acc|
    ensures forall i :: 0 <= i < |r| ==> r[i].person == acc[i].person
  {
    if |item.participants| == 0 then acc
    else CreditAll(acc, item.participants, item.name, Share(item))
  }

  /** The items' effect, applied in item order. */
  function ApplyItems(acc: seq<PersonTotal>, items: seq<Item>): (r: seq<PersonTotal>)
    ensures |r| == |acc|
    ensures forall i :: 0 <= i < |r| ==> r[i].person == acc[i].person
  {
    if |items| == 0 then acc
    else ApplyItem(ApplyItems(acc, items[..|items| - 1]), items[|items| - 1])
  }

  /** Per-person totals and breakdowns of a group. */
  function Allocate(people: seq<string>, items: seq<Item>): seq<PersonTotal> {
    ApplyItems(InitialTotals(people), items)
  }

  // ---------------------------------------------------------------------
  // Reference definitions used to state what Allocate computes

  /** How often `p` is listed in `ps`. */
  function Count(ps: seq<string>, p: string): nat {
    if |ps| == 0 then 0
    else Count(ps[..|ps| - 1], p) + (if ps[|ps| - 1] == p then 1 else 0)
  }

  /** `n` times `x`, as the repeated addition the loops perform. */
  function Times(n: nat, x: real): real {
    if n == 0 then 0.0 else Times(n - 1, x) + x
  }

  /** Repeated addition is multiplication. */
  lemma {:induction false} TimesIsProduct(n: nat, x: real)
    ensures Times(n, x) == (n as real) * x
    decreases n
  {
    if n > 0 {
      TimesIsProduct(n - 1, x);
      assert (n as real) * x == ((n - 1) as real) * x + x;
    }
  }

  /** `n` copies of `e`. */
  function Repeat(e: Entry, n: nat): (r: seq<Entry>)
    ensures |r| == n && forall i :: 0 <= i < n ==> r[i] == e
  {
    seq(n, _ => e)
  }

  /** The sum of an entry list's values, left to right. */
  function SumEntries(es: seq<Entry>): real {
    if |es| == 0 then 0.0 else SumEntries(es[..|es| - 1]) + es[|es| - 1].value
  }

  /** The sum of every accumulator's total. */
  function SumTotals(acc: seq<PersonTotal>): real {
    if |acc| == 0 then 0.0 else SumTotals(acc[..|acc| - 1]) + acc[|acc| - 1].total
  }

  /** The persons the accumulators belong to. */
  function Persons(acc: seq<PersonTotal>): (r: seq<string>)
    ensures |r| == |acc| && forall i :: 0 <= i < |acc| ==> r[i] == acc[i].person
  {
    seq(|acc|, i requires 0 <= i < |acc| => acc[i].person)
  }

  /** How many entries of `ps` name a person of `people`. */
  function KnownCount(ps: seq<string>, people: seq<string>): nat {
    if |ps| == 0 then 0
    else KnownCount(ps[..|ps| - 1], people) + (if ps[|ps| - 1] in people then 1 else 0)
  }

  /** The breakdown `p` receives from the items, built item by item. */
  function Ledger(p: string, items: seq<Item>): seq<Entry> {
    if |items| == 0 then []
    else
      var last := items[|items| - 1];
      Ledger(p, items[..|items| - 1]) +
        (if |last.participants| == 0 then []
         else Repeat(Entry(last.name, Share(last)), Count(last.participants, p)))
  }

  /** The part of the items' value that reaches some accumulator. */
  function AllocatedValue(people: seq<string>, items: seq<Item>): real {
    if |items| == 0 then 0.0
    else
      var last := items[|items| - 1];
      AllocatedValue(people, items[..|items| - 1]) +
        (if |last.participants| == 0 then 0.0
         else Times(KnownCount(last.participants, people), Share(last)))
  }

  /** Every total is the sum of its own breakdown. */
  predicate TotalsMatchEntries(acc: seq<PersonTotal>) {
    forall i :: 0 <= i < |acc| ==> acc[i].total == SumEntries(acc[i].entries)
  }

  // ---------------------------------------------------------------------
  // Shape and order of the result

  /** One accumulator per person of the group, in `people` order, whatever
      the items are. */
  lemma AllocateFollowsPeople(people: seq<string>, items: seq<Item>)
    ensures |Allocate(people, items)| == |people|
    ensures forall i :: 0 <= i < |people| ==> Allocate(people, items)[i].person == people[i]
  {
  }

  /** Without items every person owes nothing and has an empty breakdown. */
  lemma AllocateWithoutItems(people: seq<string>)
    ensures Allocate(people, []) == InitialTotals(people)
    ensures forall i :: 0 <= i < |people| ==> Allocate(people, [])[i] == PersonTotal(people[i], 0.0, [])
  {
  }

  /** Applying two runs of items one after the other is applying their
      concatenation. */
  lemma {:induction false} ApplyItemsAppend(acc: seq<PersonTotal>, a: seq<Item>, b: seq<Item>)
    ensures ApplyItems(acc, a + b) == ApplyItems(ApplyItems(acc, a), b)
    decreases |b|
  {
    if |b| == 0 {
      assert a + b == a;
    } else {
      var b' := b[..|b| - 1];
      assert (a + b)[..|a + b| - 1] == a + b';
      assert (a + b)[|a + b| - 1] == b[|b| - 1];
      ApplyItemsAppend(acc, a, b');
    }
  }

  /** An item without participants changes no total and no breakdown,
      wherever it stands in the item list. */
  lemma ItemWithoutParticipantsIsInert(people: seq<string>, xs: seq<Item>, e: Item, ys: seq<Item>)
    requires |e.participants| == 0
    ensures Allocate(people, xs + [e] + ys) == Allocate(people, xs + ys)
  {
    var init := InitialTotals(people);
    ApplyItemsAppend(init, xs + [e], ys);
    ApplyItemsAppend(init, xs, [e]);
    ApplyItemsAppend(init, xs, ys);
    assert [e][..0] == [];
    assert ApplyItems(ApplyItems(init, xs), [e]) == ApplyItems(init, xs);
  }

  // ---------------------------------------------------------------------
  // What one item credits

  /** With distinct persons, a label credits exactly its own accumulator. */
  lemma CreditAt(acc: seq<PersonTotal>, p: string, name: string, share: real, i: int)
    requires NoDup(Persons(acc))
    requires 0 <= i < |acc|
    ensures Credit(acc, p, name, share)[i] ==
      if acc[i].person == p
      then acc[i].(total := acc[i].total + share, entries := acc[i].entries + [Entry(name, share)])
      else acc[i]
  {
    var k := IndexOf(acc, p);
    assert acc[i].person == p ==> k >= 0;
    assert k >= 0 ==> Persons(acc)[k] == p && Persons(acc)[i] == acc[i].person;
  }

  /** A label that belongs to no accumulator changes nothing. */
  lemma UnknownLabelIsDropped(acc: seq<PersonTotal>, p: string, name: string, share: real)
    requires forall i :: 0 <= i < |acc| ==> acc[i].person != p
    ensures Credit(acc, p, name, share) == acc
  {
  }

  /** Crediting a list of labels: each accumulator gains the share and an
      entry once per occurrence of its person in the list. */
  lemma {:induction false} CreditAllAt(acc: seq<PersonTotal>, ps: seq<string>, name: string, share: real, i: int)
    requires NoDup(Persons(acc))
    requires 0 <= i < |acc|
    ensures var c := Count(ps, acc[i].person);
      CreditAll(acc, ps, name, share)[i] ==
        acc[i].(total := acc[i].total + Times(c, share),
                entries := acc[i].entries + Repeat(Entry(name, share), c))
    decreases |ps|
  {
    var e := Entry(name, share);
    var a := acc[i];
    if |ps| == 0 {
      assert a.entries + Repeat(e, 0) == a.entries;
    } else {
      var ps' := ps[..|ps| - 1];
      var x := ps[|ps| - 1];
      var mid := CreditAll(acc, ps', name, share);
      var n := Count(ps', a.person);
      CreditAllAt(acc, ps', name, share, i);
      assert mid[i] == a.(total := a.total + Times(n, share), entries := a.entries + Repeat(e, n));
      assert Persons(mid) == Persons(acc);
      assert CreditAll(acc, ps, name, share) == Credit(mid, x, name, share);
      CreditAt(mid, x, name, share, i);
      var fin := Credit(mid, x, name, share)[i];
      if x == a.person {
        assert Count(ps, a.person) == n + 1;
        assert fin == mid[i].(total := mid[i].total + share, entries := mid[i].entries + [e]);
        assert Repeat(e, n) + [e] == Repeat(e, n + 1);
        assert fin.entries == a.entries + Repeat(e, n + 1);
        assert fin.total == a.total + Times(n + 1, share);
        assert fin.person == a.person;
        assert fin == a.(total := a.total + Times(n + 1, share), entries := a.entries + Repeat(e, n + 1));
      } else {
        assert Count(ps, a.person) == n;
        assert fin == mid[i];
      }
    }
  }

  /** For an item with k > 0 participants and distinct persons: a person
      listed once gains exactly value/k and one entry `{item.name, value/k}`,
      a person listed more often gains that once per listing, and an
      unlisted person is untouched. */
  lemma ApplyItemCredits(acc: seq<PersonTotal>, item: Item, i: int)
    requires NoDup(Persons(acc))
    requires |item.participants| > 0
    requires 0 <= i < |acc|
    ensures var c := Count(item.participants, acc[i].person);
      ApplyItem(acc, item)[i] ==
        acc[i].(total := acc[i].total + Times(c, Share(item)),
                entries := acc[i].entries + Repeat(Entry(item.name, Share(item)), c))
  {
    CreditAllAt(acc, item.participants, item.name, Share(item), i);
  }

  /** A label occurs at most once in a duplicate-free list, and exactly once
      when it is there. */
  lemma {:induction false} CountNoDup(ps: seq<string>, p: string)
    requires NoDup(ps)
    ensures Count(ps, p) == if p in ps then 1 else 0
    decreases |ps|
  {
    if |ps| > 0 {
      var ps' := ps[..|ps| - 1];
      var x := ps[|ps| - 1];
      assert NoDup(ps');
      CountNoDup(ps', p);
      forall j | 0 <= j < |ps'|
        ensures ps'[j] != x
      {
        assert ps'[j] == ps[j];
      }
      assert ps == ps' + [x];
    }
  }

  /** The per-item share rule for a duplicate-free participant list. */
  lemma ApplyItemSharesEvenly(acc: seq<PersonTotal>, item: Item, i: int)
    requires NoDup(Persons(acc))
    requires |item.participants| > 0 && NoDup(item.participants)
    requires 0 <= i < |acc|
    ensures acc[i].person in item.participants ==>
      ApplyItem(acc, item)[i].total == acc[i].total + item.totalValue / (|item.participants| as real) &&
      ApplyItem(acc, item)[i].entries == acc[i].entries + [Entry(item.name, item.totalValue / (|item.participants| as real))]
    ensures acc[i].person !in item.participants ==> ApplyItem(acc, item)[i] == acc[i]
  {
    ApplyItemCredits(acc, item, i);
    CountNoDup(item.participants, acc[i].person);
    assert Repeat(Entry(item.name, Share(item)), 1) == [Entry(item.name, Share(item))];
    assert acc[i].entries + Repeat(Entry(item.name, Share(item)), 0) == acc[i].entries;
  }

  // ---------------------------------------------------------------------
  // Breakdowns and totals per person

  lemma SumEntriesAppendOne(es: seq<Entry>, e: Entry)
    ensures SumEntries(es + [e]) == SumEntries(es) + e.value
  {
    assert (es + [e])[..|es|] == es;
  }

  /** Crediting keeps every total equal to the sum of its breakdown. */
  lemma CreditKeepsTotals(acc: seq<PersonTotal>, p: string, name: string, share: real)
    requires TotalsMatchEntries(acc)
    ensures TotalsMatchEntries(Credit(acc, p, name, share))
  {
    var k := IndexOf(acc, p);
    if k >= 0 {
      SumEntriesAppendOne(acc[k].entries, Entry(name, share));
    }
  }

  lemma {:induction false} ApplyItemsKeepsTotals(acc: seq<PersonTotal>, items: seq<Item>)
    requires TotalsMatchEntries(acc)
    ensures TotalsMatchEntries(ApplyItems(acc, items))
    decreases |items|
  {
    if |items| > 0 {
      var mid := ApplyItems(acc, items[..|items| - 1]);
      ApplyItemsKeepsTotals(acc, items[..|items| - 1]);
      var item := items[|items| - 1];
      if |item.participants| > 0 {
        CreditAllKeepsTotals(mid, item.participants, item.name, Share(item));
      }
    }
  }

  lemma {:induction false} CreditAllKeepsTotals(acc: seq<PersonTotal>, ps: seq<string>, name: string, share: real)
    requires TotalsMatchEntries(acc)
    ensures TotalsMatchEntries(CreditAll(acc, ps, name, share))
    decreases |ps|
  {
    if |ps| > 0 {
      CreditAllKeepsTotals(acc, ps[..|ps| - 1], name, share);
      CreditKeepsTotals(CreditAll(acc, ps[..|ps| - 1], name, share), ps[|ps| - 1], name, share);
    }
  }

  /** Each person's total is the sum of the values in their breakdown. */
  lemma AllocateTotalsMatchEntries(people: seq<string>, items: seq<Item>)
    ensures TotalsMatchEntries(Allocate(people, items))
  {
    ApplyItemsKeepsTotals(InitialTotals(people), items);
  }

  lemma {:induction false} SumEntriesRepeat(es: seq<Entry>, e: Entry, n: nat)
    ensures SumEntries(es + Repeat(e, n)) == SumEntries(es) + Times(n, e.value)
    decreases n
  {
    if n == 0 {
      assert es + Repeat(e, 0) == es;
    } else {
      var r := Repeat(e, n - 1);
      assert Repeat(e, n) == r + [e];
      assert es + Repeat(e, n) == (es + r) + [e];
      SumEntriesRepeat(es, e, n - 1);
      SumEntriesAppendOne(es + r, e);
    }
  }

  /** With distinct people, person i's breakdown lists, item by item in
      item order, one `{item.name, share}` entry per time the item lists
      them; their total is the sum of that breakdown. */
  lemma {:induction false} AllocateIsLedger(people: seq<string>, items: seq<Item>, i: int)
    requires NoDup(people)
    requires 0 <= i < |people|
    ensures Allocate(people, items)[i].entries == Ledger(people[i], items)
    ensures Allocate(people, items)[i].total == SumEntries(Ledger(people[i], items))
    decreases |items|
  {
    if |items| == 0 {
    } else {
      var init := InitialTotals(people);
      var items' := items[..|items| - 1];
      var mid := ApplyItems(init, items');
      var last := items[|items| - 1];
      AllocateIsLedger(people, items', i);
      assert Persons(mid) == people;
      if |last.participants| > 0 {
        ApplyItemCredits(mid, last, i);
        SumEntriesRepeat(Ledger(people[i], items'), Entry(last.name, Share(last)),
                         Count(last.participants, people[i]));
      } else {
        assert Ledger(people[i], items) == Ledger(people[i], items') + [];
      }
    }
  }

  // ---------------------------------------------------------------------
  // Conservation

  lemma SumTotalsUpdate(acc: seq<PersonTotal>, k: int, t: PersonTotal)
    requires 0 <= k < |acc|
    ensures SumTotals(acc[k := t]) == SumTotals(acc) - acc[k].total + t.total
    decreases |acc|
  {
    if k < |acc| - 1 {
      assert acc[k := t][..|acc| - 1] == acc[..|acc| - 1][k := t];
      SumTotalsUpdate(acc[..|acc| - 1], k, t);
    } else {
      assert acc[k := t][..|acc| - 1] == acc[..|acc| - 1];
    }
  }

  /** Crediting a label moves exactly the share into the totals when the
      label has an accumulator, and nothing otherwise. */
  lemma CreditSum(acc: seq<PersonTotal>, p: string, name: string, share: real)
    ensures SumTotals(Credit(acc, p, name, share)) ==
      SumTotals(acc) + (if p in Persons(acc) then share else 0.0)
  {
    var k := IndexOf(acc, p);
    assert k >= 0 ==> Persons(acc)[k] == p;
    assert k < 0 ==> forall j :: 0 <= j < |acc| ==> Persons(acc)[j] != p;
    if k >= 0 {
      SumTotalsUpdate(acc, k, acc[k].(total := acc[k].total + share,
                                      entries := acc[k].entries + [Entry(name, share)]));
    }
  }

  lemma {:induction false} CreditAllSum(acc: seq<PersonTotal>, ps: seq<string>, name: string, share: real)
    ensures SumTotals(CreditAll(acc, ps, name, share)) ==
      SumTotals(acc) + Times(KnownCount(ps, Persons(acc)), share)
    decreases |ps|
  {
    if |ps| > 0 {
      var ps' := ps[..|ps| - 1];
      var mid := CreditAll(acc, ps', name, share);
      CreditAllSum(acc, ps', name, share);
      assert Persons(mid) == Persons(acc);
      CreditSum(mid, ps[|ps| - 1], name, share);
    }
  }

  /** The per-person totals add up to the value that reached a known
      person: for every item with k > 0 participants, (number of listed
      labels that are people) times value/k. */
  lemma {:induction false} AllocateSum(people: seq<string>, items: seq<Item>)
    ensures SumTotals(Allocate(people, items)) == AllocatedValue(people, items)
    decreases |items|
  {
    if |items| == 0 {
      assert SumTotals(InitialTotals(people)) == 0.0 by {
        InitialSumIsZero(InitialTotals(people));
      }
    } else {
      var init := InitialTotals(people);
      var items' := items[..|items| - 1];
      var mid := ApplyItems(init, items');
      var last := items[|items| - 1];
      AllocateSum(people, items');
      assert Persons(mid) == people;
      if |last.participants| > 0 {
        CreditAllSum(mid, last.participants, last.name, Share(last));
      }
    }
  }

  lemma {:induction false} InitialSumIsZero(acc: seq<PersonTotal>)
    requires forall i :: 0 <= i < |acc| ==> acc[i].total == 0.0
    ensures SumTotals(acc) == 0.0
    decreases |acc|
  {
    if |acc| > 0 {
      InitialSumIsZero(acc[..|acc| - 1]);
    }
  }

  lemma {:induction false} KnownCountAll(ps: seq<string>, people: seq<string>)
    requires forall j :: 0 <= j < |ps| ==> ps[j] in people
    ensures KnownCount(ps, people) == |ps|
    decreases |ps|
  {
    if |ps| > 0 {
      KnownCountAll(ps[..|ps| - 1], people);
    }
  }

  /** An item's participants are non-empty and all present in the group. */
  predicate WellAssigned(people: seq<string>, item: Item) {
    |item.participants| > 0 && forall j :: 0 <= j < |item.participants| ==> item.participants[j] in people
  }

  /** Conservation: when every item lists at least one participant and
      every listed label is a person of the group, the per-person totals add
      up to the grand total. */
  lemma {:induction false} Conservation(people: seq<string>, items: seq<Item>)
    requires forall i :: 0 <= i < |items| ==> WellAssigned(people, items[i])
    ensures SumTotals(Allocate(people, items)) == ItemsTotal(items)
    decreases |items|
  {
    AllocateSum(people, items);
    AllocatedValueOfWellAssigned(people, items);
  }

  lemma {:induction false} AllocatedValueOfWellAssigned(people: seq<string>, items: seq<Item>)
    requires forall i :: 0 <= i < |items| ==> WellAssigned(people, items[i])
    ensures AllocatedValue(people, items) == ItemsTotal(items)
    decreases |items|
  {
    if |items| > 0 {
      var last := items[|items| - 1];
      AllocatedValueOfWellAssigned(people, items[..|items| - 1]);
      KnownCountAll(last.participants, people);
      var k := |last.participants|;
      TimesIsProduct(k, Share(last));
      assert (k as real) * (last.totalValue / (k as real)) == last.totalValue;
    }
  }

  /** An item without participants still counts in the grand total but adds
      nothing to any person: the totals then fall short of the grand total
      by exactly the values of such items. */
  lemma UnassignedItemsShortfall(people: seq<string>, shared: seq<Item>, e: Item)
    requires forall i :: 0 <= i < |shared| ==> WellAssigned(people, shared[i])
    requires |e.participants| == 0
    ensures ItemsTotal(shared + [e]) - SumTotals(Allocate(people, shared + [e])) == e.totalValue
  {
    ItemWithoutParticipantsIsInert(people, shared, e, []);
    assert shared + [e] + [] == shared + [e];
    assert shared + [] == shared;
    Conservation(people, shared);
    ItemsTotalAppend(shared, [e]);
    ItemsTotalOfEmptyAndSingle(e);
  }

  // ---------------------------------------------------------------------
  // The shared imperative steps

  /** The `totals.find` step on the accumulator array. */
  method FindPerson(acc: array<PersonTotal>, person: string) returns (k: int)
    ensures -1 <= k < acc.Length
    ensures k >= 0 ==> acc[k].person == person
    ensures forall j :: 0 <= j < acc.Length && (k < 0 || j < k) ==> acc[j].person != person
    ensures k == IndexOf(acc[..], person)
  {
    k := 0;
    while k < acc.Length && acc[k].person != person
      invariant 0 <= k <= acc.Length
      invariant forall j :: 0 <= j < k ==> acc[j].person != person
    {
      k := k + 1;
    }
    if k == acc.Length {
      k := -1;
    }
    IndexOfIsFirst(acc[..], person, k);
  }

  /** Any index with the first-match properties is the one IndexOf gives. */
  lemma IndexOfIsFirst(acc: seq<PersonTotal>, person: string, k: int)
    requires -1 <= k < |acc|
    requires k >= 0 ==> acc[k].person == person
    requires forall j :: 0 <= j < |acc| && (k < 0 || j < k) ==> acc[j].person != person
    ensures k == IndexOf(acc, person)
  {
    var r := IndexOf(acc, person);
    assert r >= 0 ==> acc[r].person == person;
  }

  /** The body of `group.items.forEach` after the grand-total step: skip an
      item without participants, otherwise credit value/k to each listed
      participant that has an accumulator. */
  method CreditItem(acc: array<PersonTotal>, item: Item)
    modifies acc
    ensures acc[..] == ApplyItem(old(acc[..]), item)
  {
    var participantCount := |item.participants|;
    if participantCount == 0 {
      return;
    }
    var valuePerPerson := item.totalValue / (participantCount as real);
    var j := 0;
    while j < participantCount
      invariant 0 <= j <= participantCount
      invariant acc[..] == CreditAll(old(acc[..]), item.participants[..j], item.name, valuePerPerson)
    {
      ghost var before := acc[..];
      var k := FindPerson(acc, item.participants[j]);
      if k >= 0 {
        acc[k] := acc[k].(total := acc[k].total + valuePerPerson,
                          entries := acc[k].entries + [Entry(item.name, valuePerPerson)]);
      }
      assert acc[..] == Credit(before, item.participants[j], item.name, valuePerPerson);
      assert item.participants[..j + 1][..j] == item.participants[..j];
      j := j + 1;
    }
    assert item.participants[..participantCount] == item.participants;
  }

  /** `group.people.map(...)` into a fresh accumulator array. */
  method NewTotals(people: seq<string>) returns (acc: array<PersonTotal>)
    ensures fresh(acc)
    ensures acc[..] == InitialTotals(people)
  {
    acc := new PersonTotal[|people|](i requires 0 <= i < |people| => PersonTotal(people[i], 0.0, []));
  }
}
