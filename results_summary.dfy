/**
  The results screen: it loads the current group, computes every person's
  total and breakdown together with the grand total, and can leave the
  group to start a new one.
 */
module ResultsSummary {
  import opened Domain
  import opened GroupStore
  import opened Allocation

  /** What the screen holds once loaded. */
  datatype Results = Results(group: Group, personTotals: seq<PersonTotal>, totalAmount: real)

  /** `calculateTotals`: one accumulator per person, then for every item the
      grand total grows by the item's value and the item is credited. */
  method CalculateTotals(group: Group) returns (totals: seq<PersonTotal>, grandTotal: real)
    ensures totals == Allocate(group.people, group.items)
    ensures grandTotal == ItemsTotal(group.items)
  {
    var acc := NewTotals(group.people);
    grandTotal := 0.0;
    var i := 0;
    while i < |group.items|
      invariant 0 <= i <= |group.items|
      invariant acc[..] == ApplyItems(InitialTotals(group.people), group.items[..i])
      invariant grandTotal == ItemsTotal(group.items[..i])
    {
      var item := group.items[i];
      grandTotal := grandTotal + item.totalValue;
      CreditItem(acc, item);
      assert group.items[..i + 1][..i] == group.items[..i];
      i := i + 1;
    }
    assert group.items[..i] == group.items;
    totals := acc[..];
  }

  /** The loading effect: without a current id, without stored groups, or
      when no stored group has the current id, nothing is shown (the screen
      redirects home); otherwise the current group and its totals. */
  method LoadResults(store: Store) returns (r: Option<Results>)
    ensures r.None? <==> CurrentGroup(store.groups, store.currentGroupId).None?
    ensures r.Some? ==>
      var g := CurrentGroup(store.groups, store.currentGroupId).value;
      r.value.group == g &&
      r.value.personTotals == Allocate(g.people, g.items) &&
      r.value.totalAmount == ItemsTotal(g.items)
  {
    var current := CurrentGroup(store.groups, store.currentGroupId);
    if current.None? {
      return None;
    }
    var totals, grandTotal := CalculateTotals(current.value);
    r := Some(Results(current.value, totals, grandTotal));
  }

  /** `handleNewGroup`: forgets the current group; the stored groups stay. */
  method HandleNewGroup(store: Store)
    modifies store
    ensures store.currentGroupId == None
    ensures store.groups == old(store.groups)
  {
    store.currentGroupId := None;
  }
}
