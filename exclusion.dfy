/** Resolution of the excluded handles and their removal from the interacted users. */
module Exclusion {
  import opened Basics
  import opened Php
  import opened Entities
  import opened Resolve

  /** The ids of the handles that resolve, in order; a handle that does not resolve is skipped. */
  function Resolved(directory: map<Value, UserId>, handles: seq<Value>): seq<UserId>
  {
    if handles == [] then []
    else
      var h := handles[|handles| - 1];
      Resolved(directory, handles[..|handles| - 1]) + (if h in directory then [directory[h]] else [])
  }

  /** The exclusion loop: looks every handle up and keeps the ids found. */
  method ResolveExcluded(directory: map<Value, UserId>, handles: seq<Value>) returns (ids: seq<UserId>)
    ensures ids == Resolved(directory, handles)
  {
    ids := [];
    var i := 0;
    while i < |handles|
      invariant 0 <= i <= |handles|
      invariant ids == Resolved(directory, handles[..i])
    {
      assert handles[..i + 1][..i] == handles[..i];
      var userId := GetUserId(directory, handles[i]);
      if userId.Some? {
        ids := ids + [userId.value];
      }
      i := i + 1;
    }
    assert handles[..i] == handles;
  }

  /** The resolved ids are exactly the directory entries of the listed handles. */
  lemma {:induction false} ResolvedMembership(directory: map<Value, UserId>, handles: seq<Value>, x: UserId)
    ensures x in Resolved(directory, handles) <==>
      exists h :: h in handles && h in directory && directory[h] == x
  {
    if handles != [] {
      var init := handles[..|handles| - 1];
      var h := handles[|handles| - 1];
      ResolvedMembership(directory, init, x);
      assert handles == init + [h];
    }
  }

  /**
   * The exclusion step: when some excluded id is among the users (`array_intersect` not
   * empty), the excluded ids are removed (`array_diff`); otherwise the users stay as they are.
   */
  function Exclude(users: seq<UserId>, excluded: seq<UserId>): (r: seq<UserId>)
    ensures forall x :: x in r <==> x in users && x !in excluded
    ensures NoDup(users) ==> NoDup(r)
  {
    if Intersect(excluded, users) != [] then Diff(users, excluded) else users
  }

  /** The intersection test only skips work: the result is always the difference. */
  lemma ExcludeIsDiff(users: seq<UserId>, excluded: seq<UserId>)
    ensures Exclude(users, excluded) == Diff(users, excluded)
  {
    if Intersect(excluded, users) == [] {
      DiffDisjoint(users, excluded);
    }
  }
}
