/**
  The home screen's form: a place name and a head count chosen on a slider
  from 2 to 20. Submitting stores a new open group with people labelled
  P1 … Pn and makes it the current group.
 */
module CreateGroupForm {
  import opened Domain
  import opened GroupStore
  import opened Decimal

  const MinPeople: int := 2
  const MaxPeople: int := 20

  /** `P${i + 1}` for i from 0 to n - 1. */
  function Labels(n: nat): (r: seq<string>)
    ensures |r| == n
    ensures forall i :: 0 <= i < n ==> r[i] == "P" + Digits(i + 1)
  {
    seq(n, (i: int) requires 0 <= i => "P" + Digits(i + 1))
  }

  /** The group `handleSubmit` stores: open, without items. */
  function NewGroup(id: string, placeName: string, peopleCount: nat, createdAt: int): (g: Group)
    ensures g.people == Labels(peopleCount) && |g.people| == g.peopleCount
    ensures g.items == [] && !g.isFinished
    ensures g.id == id && g.placeName == placeName && g.createdAt == createdAt
  {
    Group(id, placeName, peopleCount, Labels(peopleCount), [], createdAt, false)
  }

  /** The labels are pairwise distinct, so every person of a new group can
      be told apart when items are split. */
  lemma LabelsDistinct(n: nat)
    ensures NoDup(Labels(n))
  {
    var r := Labels(n);
    forall i, j | 0 <= i < j < n
      ensures r[i] != r[j]
    {
      DigitsInjective(i + 1, j + 1);
      assert r[i][1..] == Digits(i + 1);
      assert r[j][1..] == Digits(j + 1);
    }
  }

  /** Submitting makes the new group current: the order screen loads it,
      provided no stored group already used its id. */
  lemma CreatedGroupIsCurrent(gs: seq<Group>, g: Group)
    requires forall i :: 0 <= i < |gs| ==> gs[i].id != g.id
    ensures CurrentGroup(Some(gs + [g]), Some(g.id)) == Some(g)
  {
    var s := gs + [g];
    var r := CurrentGroup(Some(s), Some(g.id));
    assert s[|gs|].id == g.id;
    assert r.Some?;
    var k :| 0 <= k < |s| && s[k] == r.value && r.value.id == g.id
             && forall j :: 0 <= j < k ==> s[j].id != g.id;
    assert k == |gs|;
  }

  class Form {
    const store: Store
    var placeName: string
    var peopleCount: nat
    var isSubmitting: bool

    /** The slider only offers 2 to 20. */
    ghost predicate Valid()
      reads this
    {
      MinPeople <= peopleCount <= MaxPeople
    }

    constructor (store: Store)
      ensures this.store == store
      ensures placeName == "" && peopleCount == 2 && !isSubmitting
      ensures Valid()
    {
      this.store := store;
      placeName := "";
      peopleCount := 2;
      isSubmitting := false;
    }

    /** The submit button is enabled with a place name and while no submit
        is under way. */
    predicate CanSubmit()
      reads this
    {
      placeName != "" && !isSubmitting
    }

    method SetPlaceName(name: string)
      modifies this`placeName
      ensures placeName == name
      ensures old(Valid()) ==> Valid()
    {
      placeName := name;
    }

    /** The slider's value. */
    method SetPeopleCount(value: nat)
      requires MinPeople <= value <= MaxPeople
      modifies this`peopleCount
      ensures peopleCount == value && Valid()
    {
      peopleCount := value;
    }

    /** `handleSubmit`: the new group is appended to the stored list (an
        absent list read as empty) and becomes the current group; from a
        slider value it has 2 to 20 people, all with distinct labels. */
    method HandleSubmit(groupId: string, createdAt: int)
      modifies this`isSubmitting, store
      ensures isSubmitting
      ensures store.groups == Some(old(store.Groups()) + [NewGroup(groupId, placeName, peopleCount, createdAt)])
      ensures store.currentGroupId == Some(groupId)
      ensures |store.Groups()| == |old(store.Groups())| + 1
      ensures old(Valid()) ==> Valid()
      ensures old(Valid()) ==>
        var people := store.Groups()[|old(store.Groups())|].people;
        MinPeople <= |people| <= MaxPeople && NoDup(people)
    {
      isSubmitting := true;
      var groups := store.Groups();
      var groupData := NewGroup(groupId, placeName, peopleCount, createdAt);
      LabelsDistinct(peopleCount);
      store.groups := Some(groups + [groupData]);
      store.currentGroupId := Some(groupId);
    }
  }
}
