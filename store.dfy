/**
  The browser storage the screens share, held in memory: the "groups" key
  (absent, or the list of stored groups) and the "currentGroupId" key.
  Serialisation to text is not modelled; a stored list is read back as it
  was written.
 */
module GroupStore {
  import opened Domain

  class Store {
    /** The "groups" key: None while nothing was ever stored. */
    var groups: Option<seq<Group>>
    /** The "currentGroupId" key. */
    var currentGroupId: Option<string>

    constructor ()
      ensures groups == None && currentGroupId == None
    {
      groups := None;
      currentGroupId := None;
    }

    /** The stored list, an absent key read as the empty list. */
    function Groups(): seq<Group>
      reads this
    {
      if groups.Some? then groups.value else []
    }
  }

  /** `groups.find((g) => g.id === id)`: the first group with that id. */
  function FindGroup(gs: seq<Group>, id: string): (r: Option<Group>)
    ensures r.None? <==> forall i :: 0 <= i < |gs| ==> gs[i].id != id
    ensures r.Some? ==> exists i :: 0 <= i < |gs| && gs[i] == r.value
                                 && r.value.id == id
                                 && forall j :: 0 <= j < i ==> gs[j].id != id
  {
    if |gs| == 0 then None
    else if gs[0].id == id then Some(gs[0])
    else
      var r := FindGroup(gs[1..], id);
      assert forall i :: 0 < i < |gs| ==> gs[i] == gs[1..][i - 1];
      r
  }

  /** `groups.map((g) => g.id === id ? f(g) : g)`: every group with that id
      replaced by its update, every other group left exactly as it was, the
      order kept. */
  function UpdateWhere(gs: seq<Group>, id: string, f: Group -> Group): (r: seq<Group>)
    ensures |r| == |gs|
    ensures forall i :: 0 <= i < |gs| ==> r[i] == if gs[i].id == id then f(gs[i]) else gs[i]
  {
    if |gs| == 0 then []
    else
      var last := gs[|gs| - 1];
      UpdateWhere(gs[..|gs| - 1], id, f) + [if last.id == id then f(last) else last]
  }

  /** The group the current-id key points at, when both keys are present and
      a stored group has that id; otherwise the screens redirect home. */
  function CurrentGroup(groups: Option<seq<Group>>, current: Option<string>): (r: Option<Group>)
    ensures r.Some? ==> groups.Some? && current.Some? && r.value.id == current.value
    ensures r.Some? ==> exists i :: 0 <= i < |groups.value| && groups.value[i] == r.value
                                 && forall j :: 0 <= j < i ==> groups.value[j].id != current.value
    ensures groups.Some? && current.Some? && (exists i :: 0 <= i < |groups.value| && groups.value[i].id == current.value)
            ==> r.Some?
  {
    if current.None? || groups.None? then None
    else FindGroup(groups.value, current.value)
  }
}
