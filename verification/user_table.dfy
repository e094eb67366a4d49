/** `components/user_table.rs`: the list of users, fetched with a server-side
    filter built from the search text, and a delete button per row. */
module UserTable {
  import opened Common
  import opened Seqs

  /** A row of the `list_users` query; the fields the search looks at (names
      and creation date are display only). */
  datatype User = User(id: string, email: string, displayName: string)

  /** `EqualityConstraint` of the query's filter input. */
  datatype EqualityConstraint = EqualityConstraint(field: string, value: string)

  /** `Box<Option<Vec<RequestFilter>>>`: an optional list of sub-filters. */
  datatype FilterList = Unset | Filters(items: seq<RequestFilter>)

  /** `RequestFilter` of the query's filter input. */
  datatype RequestFilter = RequestFilter(
    eq: Option<EqualityConstraint>,
    all: FilterList,
    any: FilterList,
    not: Option<RequestFilter>,
    memberOf: Option<string>,
    memberOfId: Option<int>)

  /** `list_users_query::Variables { filters }`. */
  datatype Request = ListUsers(filters: Option<RequestFilter>)

  /** `users` (None until the first list arrives) and `search_query`. */
  datatype State = State(users: Option<seq<User>>, searchQuery: string)

  datatype Msg =
    | ListUsersResponse(response: Result<seq<User>>)
    | OnUserDeleted(userId: string)
    | OnError(error: Error)
    | OnSearchChange(query: string)
    | SearchUsers

  /** One `handle_msg` call: the new state, the requests issued, and its
      `Result<bool>`. */
  datatype Step = Step(state: State, requests: seq<Request>, result: Result<bool>)

  // ---------------------------------------------------------------------
  // The search filter

  /** A filter that only constrains `field` to equal `value`. */
  function FieldIs(field: string, value: string): (f: RequestFilter)
    ensures f.eq == Some(EqualityConstraint(field, value))
    ensures f.all.Unset? && f.any.Unset? && f.not.None? && f.memberOf.None? && f.memberOfId.None?
  {
    RequestFilter(Some(EqualityConstraint(field, value)), Unset, Unset, None, None, None)
  }

  /** The fields the search box looks in, in the order the filter lists them. */
  const SearchFields: seq<string> := ["id", "email", "displayName"]

  /** The filter `SearchUsers` sends: none for an empty search text, else an
      `any` of one equality per searched field, each against the whole text. */
  function SearchFilter(query: string): (r: Option<RequestFilter>)
    ensures r.None? <==> query == ""
    ensures r.Some? ==>
      && r.value.eq.None? && r.value.all.Unset? && r.value.not.None?
      && r.value.memberOf.None? && r.value.memberOfId.None?
      && r.value.any.Filters? && |r.value.any.items| == |SearchFields|
      && forall i :: 0 <= i < |SearchFields| ==> r.value.any.items[i] == FieldIs(SearchFields[i], query)
  {
    if query == "" then None
    else Some(RequestFilter(None, Unset, Filters(Map(SearchFields, (f: string) => FieldIs(f, query))), None, None, None))
  }

  /** The value of a user's field, as the filter's field names spell them. */
  function FieldValue(u: User, field: string): Option<string>
  {
    if field == "id" then Some(u.id)
    else if field == "email" then Some(u.email)
    else if field == "displayName" then Some(u.displayName)
    else None
  }

  /** The meaning of a filter: every field that is set must hold; `any` asks
      for one of its filters, `all` for each, `not` for the opposite; group
      membership is given by the two membership tests. */
  predicate Matches(f: RequestFilter, u: User, inGroup: string -> bool, inGroupId: int -> bool)
    decreases f
  {
    && (f.eq.Some? ==> FieldValue(u, f.eq.value.field) == Some(f.eq.value.value))
    && (f.all.Filters? ==> forall i :: 0 <= i < |f.all.items| ==> Matches(f.all.items[i], u, inGroup, inGroupId))
    && (f.any.Filters? ==> exists i :: 0 <= i < |f.any.items| && Matches(f.any.items[i], u, inGroup, inGroupId))
    && (f.not.Some? ==> !Matches(f.not.value, u, inGroup, inGroupId))
    && (f.memberOf.Some? ==> inGroup(f.memberOf.value))
    && (f.memberOfId.Some? ==> inGroupId(f.memberOfId.value))
  }

  // ---------------------------------------------------------------------
  // The component

  /** `create`: nothing loaded, empty search text, every user requested. */
  function Create(): (r: (State, seq<Request>))
    ensures r.0.users.None? && r.0.searchQuery == ""
    ensures r.1 == [ListUsers(None)]
  {
    (State(None, ""), [ListUsers(None)])
  }

  /** `retain(|u| u.id != user_id)`. */
  function Retain(users: seq<User>, userId: string): (r: seq<User>)
    ensures IsSubseq(r, users)
    ensures forall i :: 0 <= i < |r| ==> r[i].id != userId
    ensures forall u: User :: u.id != userId ==> multiset(r)[u] == multiset(users)[u]
  {
    Filter(users, (u: User) => u.id != userId)
  }

  /** `handle_msg`. Deleting before the list has arrived is a panic in the
      source (`debug_assert!` then `unwrap`), so it is excluded here. */
  function HandleMsg(s: State, msg: Msg): (r: Step)
    requires msg.OnUserDeleted? ==> s.users.Some?
    ensures r.result.Err? ==> r.state == s && r.requests == []
    ensures msg.ListUsersResponse? && msg.response.Ok? ==>
      r == Step(s.(users := Some(msg.response.value)), [], Ok(true))
    ensures msg.ListUsersResponse? && msg.response.Err? ==> r.result == Err(msg.response.error)
    ensures msg.OnError? ==> r.result == Err(msg.error)
    // deleting removes exactly the users with that id, keeping the order and
    // multiplicity of the others
    ensures msg.OnUserDeleted? ==>
      && r.state.searchQuery == s.searchQuery
      && r.state.users.Some?
      && IsSubseq(r.state.users.value, s.users.value)
      && (forall u :: u in r.state.users.value <==> u in s.users.value && u.id != msg.userId)
      && (forall u: User :: u.id != msg.userId ==>
            multiset(r.state.users.value)[u] == multiset(s.users.value)[u])
      && r.requests == [] && r.result == Ok(true)
    // typing stores the text and asks for no re-render
    ensures msg.OnSearchChange? ==> r == Step(s.(searchQuery := msg.query), [], Ok(false))
    // searching fetches with the filter built from the stored text
    ensures msg.SearchUsers? ==>
      && r.state == s && r.result == Ok(true)
      && |r.requests| == 1
      && (r.requests[0].filters.None? <==> s.searchQuery == "")
      && (forall u, inGroup, inGroupId :: r.requests[0].filters.Some? ==>
            (Matches(r.requests[0].filters.value, u, inGroup, inGroupId) <==>
               u.id == s.searchQuery || u.email == s.searchQuery || u.displayName == s.searchQuery))
  {
    match msg
    case ListUsersResponse(response) =>
      (match response
       case Err(e) => Step(s, [], Err(e))
       case Ok(users) => Step(s.(users := Some(users)), [], Ok(true)))
    case OnError(e) => Step(s, [], Err(e))
    case OnUserDeleted(userId) =>
      Step(s.(users := Some(Retain(s.users.value, userId))), [], Ok(true))
    case OnSearchChange(query) => Step(s.(searchQuery := query), [], Ok(false))
    case SearchUsers =>
      var request := ListUsers(SearchFilter(s.searchQuery));
      if s.searchQuery == "" then Step(s, [request], Ok(true))
      else SearchFilterMeaning(s.searchQuery); Step(s, [request], Ok(true))
  }

  /** `onkeypress` of the search box. */
  function KeyPress(key: string): (m: Msg)
    ensures m.SearchUsers? <==> key == "Enter"
    ensures key != "Enter" ==> m == OnSearchChange("")
  {
    if key == "Enter" then SearchUsers else OnSearchChange("")
  }

  /** The messages the Clear button sends, in order. */
  const ClearMsgs: seq<Msg> := [OnSearchChange(""), SearchUsers]

  /** What `view_users` shows: the fetched list as is (the server did the
      filtering). */
  datatype View = Loading | NoMatch | Table(rows: seq<User>)

  function ViewUsers(s: State): (v: View)
    ensures v.Loading? <==> s.users.None?
    ensures v.NoMatch? <==> s.users == Some([]) && s.searchQuery != ""
    ensures v.Table? ==> v.rows == s.users.value
  {
    match s.users
    case None => Loading
    case Some(users) => if users == [] && s.searchQuery != "" then NoMatch else Table(users)
  }

  // ---------------------------------------------------------------------
  // Properties

  /** The search filter selects exactly the users whose id, email or display
      name equals the search text, whatever their group memberships. */
  lemma SearchFilterMeaning(query: string)
    requires query != ""
    ensures forall u, inGroup, inGroupId ::
      Matches(SearchFilter(query).value, u, inGroup, inGroupId) <==>
        u.id == query || u.email == query || u.displayName == query
  {
    var f := SearchFilter(query).value;
    forall u, inGroup, inGroupId
      ensures Matches(f, u, inGroup, inGroupId) <==>
        u.id == query || u.email == query || u.displayName == query
    {
      assert Matches(f.any.items[0], u, inGroup, inGroupId) <==> u.id == query;
      assert Matches(f.any.items[1], u, inGroup, inGroupId) <==> u.email == query;
      assert Matches(f.any.items[2], u, inGroup, inGroupId) <==> u.displayName == query;
    }
  }

  /** Once deleted, a user is never shown again; a second deletion of the
      same id changes nothing. */
  lemma DeletedNeverShown(s: State, userId: string)
    requires s.users.Some?
    ensures var after := HandleMsg(s, OnUserDeleted(userId)).state;
      var v := ViewUsers(after);
      v.Table? ==> forall i :: 0 <= i < |v.rows| ==> v.rows[i].id != userId
    ensures var after := HandleMsg(s, OnUserDeleted(userId)).state;
      HandleMsg(after, OnUserDeleted(userId)).state == after
  {
    FilterIdempotent(s.users.value, (u: User) => u.id != userId);
  }

  /** Any key but Enter empties the search text without re-rendering; Enter
      fetches with the filter of the stored text. */
  lemma KeyPressEffect(s: State, key: string)
    ensures var r := HandleMsg(s, KeyPress(key));
      if key == "Enter" then r.requests == [ListUsers(SearchFilter(s.searchQuery))] && r.state == s
      else r.requests == [] && r.state == s.(searchQuery := "") && r.result == Ok(false)
  {
  }

  /** Clear empties the search text and fetches with no filter: the same
      request as on creation, and the "no users found" notice cannot show. */
  lemma ClearListsEveryone(s: State)
    ensures var s1 := HandleMsg(s, ClearMsgs[0]);
      var s2 := HandleMsg(s1.state, ClearMsgs[1]);
      && s2.state == s.(searchQuery := "")
      && s1.requests + s2.requests == Create().1
      && !ViewUsers(s2.state).NoMatch?
  {
  }

  /** Typing a text and then searching sends exactly the filter that text
      builds, whatever was typed before. */
  lemma SearchUsesLastText(s: State, query: string)
    ensures var s1 := HandleMsg(s, OnSearchChange(query));
      HandleMsg(s1.state, SearchUsers).requests == [ListUsers(SearchFilter(query))]
  {
  }
}
