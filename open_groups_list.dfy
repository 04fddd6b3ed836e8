/**
  The list of open groups on the home screen: which stored groups are still
  open, continuing to edit one, and finishing one from the list.
 */
module OpenGroupsList {
  import opened Domain
  import opened GroupStore

  /** `groups.filter((group) => !group.isFinished)`. */
  function OpenGroups(gs: seq<Group>): seq<Group> {
    if |gs| == 0 then []
    else OpenGroups(gs[..|gs| - 1]) + (if !gs[|gs| - 1].isFinished then [gs[|gs| - 1]] else [])
  }

  /** `loadOpenGroups`: nothing stored shows no open group; otherwise the
      open list holds exactly the stored groups that are not finished. */
  function LoadOpenGroups(stored: Option<seq<Group>>): (r: seq<Group>)
    ensures stored.None? ==> r == []
    ensures stored.Some? ==> forall g :: g in r <==> g in stored.value && !g.isFinished
  {
    if stored.None? then []
    else
      var open := OpenGroups(stored.value);
      assert forall g :: g in open <==> g in stored.value && !g.isFinished by {
        forall g
          ensures g in open <==> g in stored.value && !g.isFinished
        {
          OpenGroupsMembers(stored.value, g);
        }
      }
      open
  }

  /** The open list holds exactly the stored groups that are not finished. */
  lemma {:induction false} OpenGroupsMembers(gs: seq<Group>, g: Group)
    ensures g in OpenGroups(gs) <==> g in gs && !g.isFinished
    decreases |gs|
  {
    if |gs| > 0 {
      OpenGroupsMembers(gs[..|gs| - 1], g);
      assert gs == gs[..|gs| - 1] + [gs[|gs| - 1]];
    }
  }

  /** Filtering keeps stored order: the open groups of two consecutive runs
      are the open groups of the first run followed by those of the second. */
  lemma {:induction false} OpenGroupsAppend(a: seq<Group>, b: seq<Group>)
    ensures OpenGroups(a + b) == OpenGroups(a) + OpenGroups(b)
    decreases |b|
  {
    if |b| == 0 {
      assert a + b == a;
    } else {
      var b' := b[..|b| - 1];
      assert (a + b)[..|a + b| - 1] == a + b';
      OpenGroupsAppend(a, b');
    }
  }

  /** The update of `handleFinishGroup`. */
  function MarkFinished(gs: seq<Group>, id: string): seq<Group> {
    UpdateWhere(gs, id, (g: Group) => g.(isFinished := true))
  }

  /** The groups with that id become finished and nothing else about them
      or about any other group changes. */
  lemma MarkFinishedFrame(gs: seq<Group>, id: string)
    ensures |MarkFinished(gs, id)| == |gs|
    ensures forall i :: 0 <= i < |gs| && gs[i].id == id ==>
      MarkFinished(gs, id)[i] == gs[i].(isFinished := true)
    ensures forall i :: 0 <= i < |gs| && gs[i].id != id ==> MarkFinished(gs, id)[i] == gs[i]
  {
  }

  /** Finishing twice is finishing once. */
  lemma MarkFinishedIdempotent(gs: seq<Group>, id: string)
    ensures MarkFinished(MarkFinished(gs, id), id) == MarkFinished(gs, id)
  {
    var once := MarkFinished(gs, id);
    var twice := MarkFinished(once, id);
    assert forall i :: 0 <= i < |gs| ==> twice[i] == once[i];
  }

  /** Finishing a group that is already finished changes nothing. */
  lemma MarkFinishedWhenFinished(gs: seq<Group>, id: string)
    requires forall i :: 0 <= i < |gs| && gs[i].id == id ==> gs[i].isFinished
    ensures MarkFinished(gs, id) == gs
  {
    var r := MarkFinished(gs, id);
    assert forall i :: 0 <= i < |gs| ==> r[i] == gs[i];
  }

  /** After finishing, the open list is the previous open list without the
      groups that have that id. */
  lemma MarkFinishedLeavesOpenList(gs: seq<Group>, id: string, g: Group)
    ensures g in OpenGroups(MarkFinished(gs, id)) <==> g in OpenGroups(gs) && g.id != id
  {
    var r := MarkFinished(gs, id);
    OpenGroupsMembers(r, g);
    OpenGroupsMembers(gs, g);
    if g in r && !g.isFinished {
      var i :| 0 <= i < |r| && r[i] == g;
      assert gs[i] == g;
    }
    if g in gs && !g.isFinished && g.id != id {
      var i :| 0 <= i < |gs| && gs[i] == g;
      assert r[i] == g;
    }
  }

  /** `handleEditGroup`: only the current id changes. */
  method HandleEditGroup(store: Store, id: string)
    modifies store
    ensures store.currentGroupId == Some(id)
    ensures store.groups == old(store.groups)
  {
    store.currentGroupId := Some(id);
  }

  /** `handleFinishGroup`: with nothing stored nothing happens; otherwise the
      group is marked finished and becomes the current one. */
  method HandleFinishGroup(store: Store, id: string)
    modifies store
    ensures old(store.groups).None? ==>
      store.groups == old(store.groups) && store.currentGroupId == old(store.currentGroupId)
    ensures old(store.groups).Some? ==>
      store.groups == Some(MarkFinished(old(store.groups).value, id)) &&
      store.currentGroupId == Some(id)
  {
    if store.groups.None? {
      return;
    }
    store.groups := Some(MarkFinished(store.groups.value, id));
    store.currentGroupId := Some(id);
  }
}
