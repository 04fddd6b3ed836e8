/**
  The order screen of the current group: a form for one item (name,
  quantity, unit price and who shared it), the list of items added so far,
  and the finish action. Every change to the list is written back to the
  stored group with the loaded id.
 */
module OrderForm {
  import opened Domain
  import opened GroupStore
  import Selection

  /** The item `handleAddItem` builds from the form. */
  function NewItem(id: string, name: string, quantity: int, unitPrice: real, participants: seq<string>): (it: Item)
    ensures it.totalValue == unitPrice * (quantity as real)
    ensures it.id == id && it.name == name && it.quantity == quantity && it.participants == participants
  {
    Item(id, name, quantity, unitPrice * (quantity as real), participants)
  }

  /** `items.filter((item) => item.id !== id)`. */
  function RemoveById(items: seq<Item>, id: string): seq<Item> {
    if |items| == 0 then []
    else RemoveById(items[..|items| - 1], id) +
           (if items[|items| - 1].id != id then [items[|items| - 1]] else [])
  }

  /** The write-back of an edited item list. */
  function ReplaceItems(gs: seq<Group>, id: string, items: seq<Item>): seq<Group> {
    UpdateWhere(gs, id, (g: Group) => g.(items := items))
  }

  /** The write-back of `handleFinish`. */
  function FinishWithItems(gs: seq<Group>, id: string, items: seq<Item>): seq<Group> {
    UpdateWhere(gs, id, (g: Group) => g.(items := items, isFinished := true))
  }

  // ---------------------------------------------------------------------
  // Properties of the item-list transformations

  /** Removing keeps exactly the items with a different id. */
  lemma {:induction false} RemoveByIdMembers(items: seq<Item>, id: string, x: Item)
    ensures x in RemoveById(items, id) <==> x in items && x.id != id
    decreases |items|
  {
    if |items| > 0 {
      RemoveByIdMembers(items[..|items| - 1], id, x);
      assert items == items[..|items| - 1] + [items[|items| - 1]];
    }
  }

  /** Removing keeps the order of the remaining items. */
  lemma {:induction false} RemoveByIdAppend(a: seq<Item>, b: seq<Item>, id: string)
    ensures RemoveById(a + b, id) == RemoveById(a, id) + RemoveById(b, id)
    decreases |b|
  {
    if |b| == 0 {
      assert a + b == a;
    } else {
      var b' := b[..|b| - 1];
      assert (a + b)[..|a + b| - 1] == a + b';
      RemoveByIdAppend(a, b', id);
    }
  }

  /** Removing an id that no item has leaves the list as it is. */
  lemma {:induction false} RemoveAbsentId(items: seq<Item>, id: string)
    requires forall i :: 0 <= i < |items| ==> items[i].id != id
    ensures RemoveById(items, id) == items
    decreases |items|
  {
    if |items| > 0 {
      RemoveAbsentId(items[..|items| - 1], id);
      assert items == items[..|items| - 1] + [items[|items| - 1]];
    }
  }

  /** Adding an item raises the order total by exactly its value. */
  lemma AddRaisesTotal(items: seq<Item>, it: Item)
    ensures ItemsTotal(items + [it]) == ItemsTotal(items) + it.totalValue
  {
    assert (items + [it])[..|items|] == items;
  }

  /** `find` returns the first group with the id. */
  lemma {:induction false} FindGroupAt(gs: seq<Group>, id: string, i: int)
    requires 0 <= i < |gs| && gs[i].id == id
    requires forall j :: 0 <= j < i ==> gs[j].id != id
    ensures FindGroup(gs, id) == Some(gs[i])
    decreases i
  {
    if i > 0 {
      FindGroupAt(gs[1..], id, i - 1);
    }
  }

  /** Reloading after a write-back: the group found under the id is the
      one found before, now with the new item list. */
  lemma ReplaceItemsThenFind(gs: seq<Group>, id: string, items: seq<Item>)
    ensures FindGroup(ReplaceItems(gs, id, items), id) ==
      if FindGroup(gs, id).Some? then Some(FindGroup(gs, id).value.(items := items)) else None
  {
    var r := ReplaceItems(gs, id, items);
    if FindGroup(gs, id).Some? {
      var i :| 0 <= i < |gs| && gs[i] == FindGroup(gs, id).value && gs[i].id == id
               && forall j :: 0 <= j < i ==> gs[j].id != id;
      FindGroupAt(gs, id, i);
      FindGroupAt(r, id, i);
    }
  }

  /** Finishing from the order form marks the group finished with exactly
      the form's items, keeps every other field of it, and leaves every
      other group unchanged. */
  lemma FinishWithItemsFrame(gs: seq<Group>, id: string, items: seq<Item>)
    ensures |FinishWithItems(gs, id, items)| == |gs|
    ensures forall i :: 0 <= i < |gs| && gs[i].id == id ==>
      FinishWithItems(gs, id, items)[i] == gs[i].(items := items, isFinished := true)
    ensures forall i :: 0 <= i < |gs| && gs[i].id != id ==> FinishWithItems(gs, id, items)[i] == gs[i]
  {
  }

  class Form {
    const store: Store
    var groupData: Option<Group>
    var itemName: string
    var quantity: int
    var unitPrice: Option<real>
    var participants: seq<string>
    var items: seq<Item>
    var isSubmitting: bool

    /** The loading effect: the current group, if the keys lead to one (the
        screen redirects home otherwise), and its items. */
    constructor (store: Store)
      ensures this.store == store
      ensures groupData == CurrentGroup(store.groups, store.currentGroupId)
      ensures items == if groupData.Some? then groupData.value.items else []
      ensures itemName == "" && quantity == 1 && unitPrice == None
      ensures participants == [] && !isSubmitting
    {
      this.store := store;
      var current := CurrentGroup(store.groups, store.currentGroupId);
      groupData := current;
      items := if current.Some? then current.value.items else [];
      itemName := "";
      quantity := 1;
      unitPrice := None;
      participants := [];
      isSubmitting := false;
    }

    /** The order total shown under the list. */
    function TotalAmount(): real
      reads this
    {
      ItemsTotal(items)
    }

    method SetItemName(name: string)
      modifies this`itemName
      ensures itemName == name
    {
      itemName := name;
    }

    /** The price field: None for the empty field, the number typed otherwise. */
    method SetUnitPrice(price: Option<real>)
      modifies this`unitPrice
      ensures unitPrice == price
    {
      unitPrice := price;
    }

    /** `setQuantity(Number.parseInt(value) || 1)`: an unreadable field or 0
        becomes 1, any other integer is kept. */
    method SetQuantity(parsed: Option<int>)
      modifies this`quantity
      ensures quantity == if parsed.None? || parsed.value == 0 then 1 else parsed.value
      ensures quantity != 0
    {
      if parsed.None? || parsed.value == 0 {
        quantity := 1;
      } else {
        quantity := parsed.value;
      }
    }

    /** `handleAddItem`: with a name, a price and at least one participant,
        append the new item, write the list back to the stored group and
        reset the form; otherwise nothing changes. */
    method HandleAddItem(newId: string) returns (added: bool)
      modifies this, store
      ensures added == (old(itemName) != "" && old(unitPrice).Some? && |old(participants)| > 0)
      ensures !added ==> unchanged(this) && unchanged(store)
      ensures added ==>
        items == old(items) + [NewItem(newId, old(itemName), old(quantity), old(unitPrice).value, old(participants))]
      ensures added ==> itemName == "" && quantity == 1 && unitPrice == None && participants == []
      ensures added && old(groupData).Some? && old(store.groups).Some? ==>
        store.groups == Some(ReplaceItems(old(store.groups).value, old(groupData).value.id, items))
      ensures added && (old(groupData).None? || old(store.groups).None?) ==> store.groups == old(store.groups)
      ensures groupData == old(groupData) && isSubmitting == old(isSubmitting)
      ensures store.currentGroupId == old(store.currentGroupId)
    {
      if itemName == "" || unitPrice.None? || |participants| == 0 {
        return false;
      }
      var newItem := NewItem(newId, itemName, quantity, unitPrice.value, participants);
      var updatedItems := items + [newItem];
      items := updatedItems;
      if groupData.Some? && store.groups.Some? {
        store.groups := Some(ReplaceItems(store.groups.value, groupData.value.id, updatedItems));
      }
      itemName := "";
      quantity := 1;
      unitPrice := None;
      participants := [];
      added := true;
    }

    /** `handleRemoveItem`: drop the items with that id and write back. */
    method HandleRemoveItem(id: string)
      modifies this, store
      ensures items == RemoveById(old(items), id)
      ensures old(groupData).Some? && old(store.groups).Some? ==>
        store.groups == Some(ReplaceItems(old(store.groups).value, old(groupData).value.id, items))
      ensures old(groupData).None? || old(store.groups).None? ==> store.groups == old(store.groups)
      ensures store.currentGroupId == old(store.currentGroupId)
      ensures groupData == old(groupData) && itemName == old(itemName) && quantity == old(quantity)
      ensures unitPrice == old(unitPrice) && participants == old(participants)
      ensures isSubmitting == old(isSubmitting)
    {
      var updatedItems := RemoveById(items, id);
      items := updatedItems;
      if groupData.Some? && store.groups.Some? {
        store.groups := Some(ReplaceItems(store.groups.value, groupData.value.id, updatedItems));
      }
    }

    /** `handleFinish`: the loaded group is stored with the form's items and
        marked finished. */
    method HandleFinish()
      modifies this, store
      ensures isSubmitting
      ensures old(groupData).Some? && old(store.groups).Some? ==>
        store.groups == Some(FinishWithItems(old(store.groups).value, old(groupData).value.id, items))
      ensures old(groupData).None? || old(store.groups).None? ==> store.groups == old(store.groups)
      ensures store.currentGroupId == old(store.currentGroupId)
      ensures groupData == old(groupData) && items == old(items) && participants == old(participants)
      ensures itemName == old(itemName) && quantity == old(quantity) && unitPrice == old(unitPrice)
    {
      isSubmitting := true;
      if groupData.Some? && store.groups.Some? {
        store.groups := Some(FinishWithItems(store.groups.value, groupData.value.id, items));
      }
    }

    method HandleParticipantToggle(person: string)
      modifies this`participants
      ensures participants == Selection.Toggle(old(participants), person)
    {
      participants := Selection.Toggle(participants, person);
    }

    /** `handleSelectAll`: nothing happens before a group is loaded. */
    method HandleSelectAll()
      modifies this`participants
      ensures groupData.None? ==> participants == old(participants)
      ensures groupData.Some? ==> participants == Selection.SelectAll(old(participants), groupData.value.people)
    {
      if groupData.None? {
        return;
      }
      if |participants| == |groupData.value.people| {
        participants := [];
      } else {
        participants := groupData.value.people;
      }
    }
  }
}
