/** Resolution of a handle to a user id and of a list name to a list id. */
module Resolve {
  import opened Basics
  import opened Php
  import opened Entities

  /**
   * `getUserId`: the `users/show` lookup. The directory holds the id the API returns for each
   * handle it knows; for any other handle the response has no `id` and the result is null.
   */
  function GetUserId(directory: map<Value, UserId>, handle: Value): (r: Option<UserId>)
    ensures r.Some? <==> handle in directory
    ensures r.Some? ==> r.value == directory[handle]
    ensures !IsTruthy(r) <==> handle !in directory || directory[handle] == 0
  {
    if handle in directory then Some(directory[handle]) else None
  }

  /**
   * `array_filter` over the `lists/list` response: the lists whose name is strictly equal to
   * the configured name, keyed by their position in the response (keys are preserved).
   */
  function MatchingLists(lists: seq<ListInfo>, listName: Value): (m: map<nat, ListInfo>)
    ensures forall k: int :: k in m <==> 0 <= k < |lists| && Str(lists[k].name) == listName
    ensures forall k :: k in m ==> m[k] == lists[k]
    ensures m == map[] <==> FirstMatch(lists, listName).None?
    ensures 0 in m <==> FirstMatch(lists, listName) == Some(0)
  {
    map k: nat | k < |lists| && Str(lists[k].name) == listName :: lists[k]
  }

  /**
   * `getListId`: null when no list matches, otherwise `$lists[0]->id`. Because the filter keeps
   * keys, key 0 is present only when the first list of the response matches; when the matches
   * start later, reading `$lists[0]` yields null.
   */
  function GetListId(lists: seq<ListInfo>, listName: Value): (r: Option<int>)
    ensures r.Some? <==> |lists| > 0 && Str(lists[0].name) == listName
    ensures r.Some? ==> r.value == lists[0].id
  {
    var matching := MatchingLists(lists, listName);
    if matching == map[] then None
    else if 0 in matching then Some(matching[0].id)
    else None
  }

  /** The first list carrying the configured name, wherever it stands in the response. */
  function FirstMatch(lists: seq<ListInfo>, listName: Value): (r: Option<nat>)
    ensures r.Some? ==> r.value < |lists| && Str(lists[r.value].name) == listName
    ensures r.Some? ==> forall k :: 0 <= k < r.value ==> Str(lists[k].name) != listName
    ensures r.None? ==> forall k :: 0 <= k < |lists| ==> Str(lists[k].name) != listName
  {
    if lists == [] then None
    else if Str(lists[0].name) == listName then Some(0)
    else match FirstMatch(lists[1..], listName)
      case None => None
      case Some(k) => Some(k + 1)
  }

  /**
   * `getListId` finds a list exactly when the first match is the first list of the response:
   * a matching list behind a differently named one is not found.
   */
  lemma ListFoundOnlyAtFront(lists: seq<ListInfo>, listName: Value)
    ensures GetListId(lists, listName).Some? <==> FirstMatch(lists, listName) == Some(0)
    ensures GetListId(lists, listName).Some? ==> GetListId(lists, listName).value == lists[0].id
  {
  }

  /** A response whose only matching list is the second one: the list exists, yet none is found. */
  lemma LaterMatchNotFound(a: ListInfo, b: ListInfo)
    requires a.name != b.name
    ensures FirstMatch([a, b], Str(b.name)) == Some(1)
    ensures GetListId([a, b], Str(b.name)) == None
  {
  }
}
