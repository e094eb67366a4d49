/** `components/group_table.rs`: the list of all groups, with a search box
    that filters the fetched list on the client by display name, and a
    delete button per row. */
module GroupTable {
  import opened Common
  import opened Seqs
  import opened Text

  /** A row of the `get_group_list` query (its creation date is display only). */
  datatype Group = Group(id: int, displayName: string)

  /** `groups` (None until the first list arrives) and `search_query`. */
  datatype State = State(groups: Option<seq<Group>>, searchQuery: string)

  datatype Msg =
    | ListGroupsResponse(response: Result<seq<Group>>)
    | OnGroupDeleted(groupId: int)
    | OnError(error: Error)
    | OnSearchChange(query: string)
    | SearchGroups

  /** The only request this component issues: the whole group list, with no
      variables. */
  datatype Request = GetGroupList

  /** One `handle_msg` call: the new state, the requests issued, and its
      `Result<bool>` (whether to re-render, or the error to report). */
  datatype Step = Step(state: State, requests: seq<Request>, result: Result<bool>)

  /** `create`: nothing loaded, empty search text, the list requested. */
  function Create(): (r: (State, seq<Request>))
    ensures r.0.groups.None? && r.0.searchQuery == ""
    ensures r.1 == [GetGroupList]
  {
    (State(None, ""), [GetGroupList])
  }

  /** `retain(|u| u.id != group_id)`. */
  function Retain(groups: seq<Group>, groupId: int): (r: seq<Group>)
    ensures IsSubseq(r, groups)
    ensures forall i :: 0 <= i < |r| ==> r[i].id != groupId
    ensures forall g: Group :: g.id != groupId ==> multiset(r)[g] == multiset(groups)[g]
  {
    Filter(groups, (g: Group) => g.id != groupId)
  }

  /** `handle_msg`. Deleting before the list has arrived is a panic in the
      source (`debug_assert!` then `unwrap`), so it is excluded here. */
  function HandleMsg(s: State, msg: Msg): (r: Step)
    requires msg.OnGroupDeleted? ==> s.groups.Some?
    ensures r.result.Err? ==> r.state == s && r.requests == []
    ensures msg.ListGroupsResponse? && msg.response.Ok? ==>
      r == Step(s.(groups := Some(msg.response.value)), [], Ok(true))
    ensures msg.ListGroupsResponse? && msg.response.Err? ==> r.result == Err(msg.response.error)
    ensures msg.OnError? ==> r.result == Err(msg.error)
    // deleting removes exactly the groups with that id, keeping the order and
    // multiplicity of the others
    ensures msg.OnGroupDeleted? ==>
      && r.state.searchQuery == s.searchQuery
      && r.state.groups.Some?
      && IsSubseq(r.state.groups.value, s.groups.value)
      && (forall g :: g in r.state.groups.value <==> g in s.groups.value && g.id != msg.groupId)
      && (forall g: Group :: g.id != msg.groupId ==>
            multiset(r.state.groups.value)[g] == multiset(s.groups.value)[g])
      && r.requests == [] && r.result == Ok(true)
    // typing stores the text and asks for no re-render
    ensures msg.OnSearchChange? ==> r == Step(s.(searchQuery := msg.query), [], Ok(false))
    // searching re-fetches the full list, whatever the text
    ensures msg.SearchGroups? ==> r == Step(s, [GetGroupList], Ok(true))
  {
    match msg
    case ListGroupsResponse(response) =>
      (match response
       case Err(e) => Step(s, [], Err(e))
       case Ok(groups) => Step(s.(groups := Some(groups)), [], Ok(true)))
    case OnError(e) => Step(s, [], Err(e))
    case OnGroupDeleted(groupId) =>
      Step(s.(groups := Some(Retain(s.groups.value, groupId))), [], Ok(true))
    case OnSearchChange(query) => Step(s.(searchQuery := query), [], Ok(false))
    case SearchGroups => Step(s, [GetGroupList], Ok(true))
  }

  /** `onkeypress` of the search box. */
  function KeyPress(key: string): (m: Msg)
    ensures m.SearchGroups? <==> key == "Enter"
    ensures key != "Enter" ==> m == OnSearchChange("")
  {
    if key == "Enter" then SearchGroups else OnSearchChange("")
  }

  /** The messages the Clear button sends, in order. */
  const ClearMsgs: seq<Msg> := [OnSearchChange(""), SearchGroups]

  // ---------------------------------------------------------------------
  // The view

  /** The group's lowercased name contains the lowercased search text. */
  predicate NameMatches(g: Group, query: string)
  {
    Contains(Lower(g.displayName), Lower(query))
  }

  /** The client-side filter of `view_groups`: everything for an empty
      search text, else the matching groups in fetched order. */
  function FilteredGroups(groups: seq<Group>, query: string): (r: seq<Group>)
    ensures IsSubseq(r, groups)
    ensures forall g :: g in r <==> g in groups && NameMatches(g, query)
    ensures forall g :: multiset(r)[g] == if NameMatches(g, query) then multiset(groups)[g] else 0
    ensures query == "" ==> r == groups
  {
    if query == "" then
      SubseqRefl(groups);
      assert forall g :: NameMatches(g, "") by {
        forall g: Group ensures NameMatches(g, "") { ContainsEmpty(Lower(g.displayName)); }
      }
      groups
    else Filter(groups, (g: Group) => NameMatches(g, query))
  }

  /** What `view_groups` shows. */
  datatype View = Loading | NoMatch | Table(rows: seq<Group>)

  function ViewGroups(s: State): (v: View)
    ensures v.Loading? <==> s.groups.None?
    // the "no groups found" notice: a search text that no name matches
    ensures s.groups.Some? ==>
      (v.NoMatch? <==>
         && s.searchQuery != ""
         && forall i :: 0 <= i < |s.groups.value| ==> !NameMatches(s.groups.value[i], s.searchQuery))
    ensures v.Table? ==>
      && IsSubseq(v.rows, s.groups.value)
      && (forall g :: g in v.rows <==> g in s.groups.value && NameMatches(g, s.searchQuery))
      && (forall g :: multiset(v.rows)[g] ==
            if NameMatches(g, s.searchQuery) then multiset(s.groups.value)[g] else 0)
  {
    match s.groups
    case None => Loading
    case Some(groups) =>
      var rows := FilteredGroups(groups, s.searchQuery);
      FilterEmpty(groups, (g: Group) => NameMatches(g, s.searchQuery));
      if rows == [] && s.searchQuery != "" then NoMatch else Table(rows)
  }

  // ---------------------------------------------------------------------
  // Properties

  /** The empty-text shortcut agrees with the general filter: an empty search
      text matches every name. */
  lemma ShortcutAgrees(groups: seq<Group>, query: string)
    ensures FilteredGroups(groups, query) == Filter(groups, (g: Group) => NameMatches(g, query))
  {
    if query == "" {
      forall i | 0 <= i < |groups| ensures NameMatches(groups[i], query) {
        ContainsEmpty(Lower(groups[i].displayName));
      }
      FilterKeepsAll(groups, (g: Group) => NameMatches(g, query));
    }
  }

  /** Filtering the shown rows again with the same text changes nothing. */
  lemma FilteredIdempotent(groups: seq<Group>, query: string)
    ensures FilteredGroups(FilteredGroups(groups, query), query) == FilteredGroups(groups, query)
  {
    if query != "" {
      FilterIdempotent(groups, (g: Group) => NameMatches(g, query));
    }
  }

  /** Deleting a group under an active search updates the shown rows as if
      the row were removed from them directly. */
  lemma DeleteCommutesWithSearch(groups: seq<Group>, groupId: int, query: string)
    ensures FilteredGroups(Retain(groups, groupId), query) == Retain(FilteredGroups(groups, query), groupId)
  {
    if query != "" {
      FilterCommute(groups, (g: Group) => g.id != groupId, (g: Group) => NameMatches(g, query));
    }
  }

  /** Once deleted, a group is never shown again, whatever the search text;
      a second deletion of the same id changes nothing. */
  lemma DeletedNeverShown(s: State, groupId: int, query: string)
    requires s.groups.Some?
    ensures var after := HandleMsg(s, OnGroupDeleted(groupId)).state;
      var v := ViewGroups(after.(searchQuery := query));
      v.Table? ==> forall i :: 0 <= i < |v.rows| ==> v.rows[i].id != groupId
    ensures var after := HandleMsg(s, OnGroupDeleted(groupId)).state;
      HandleMsg(after, OnGroupDeleted(groupId)).state == after
  {
    var after := HandleMsg(s, OnGroupDeleted(groupId)).state;
    var v := ViewGroups(after.(searchQuery := query));
    if v.Table? {
      forall i | 0 <= i < |v.rows| ensures v.rows[i].id != groupId {
        assert v.rows[i] in after.groups.value;
      }
    }
    FilterIdempotent(s.groups.value, (g: Group) => g.id != groupId);
  }

  /** Any key but Enter empties the search text without re-rendering; Enter
      re-fetches. */
  lemma KeyPressEffect(s: State, key: string)
    ensures var r := HandleMsg(s, KeyPress(key));
      if key == "Enter" then r.requests == [GetGroupList] && r.state == s
      else r.requests == [] && r.state == s.(searchQuery := "") && r.result == Ok(false)
  {
  }

  /** Clear empties the search text and re-fetches; the list already held is
      then shown in full. */
  lemma ClearShowsAll(s: State)
    ensures var s1 := HandleMsg(s, ClearMsgs[0]);
      var s2 := HandleMsg(s1.state, ClearMsgs[1]);
      && s2.state == s.(searchQuery := "")
      && s1.requests + s2.requests == [GetGroupList]
      && (s.groups.Some? ==> ViewGroups(s2.state) == Table(s.groups.value))
  {
  }
}
