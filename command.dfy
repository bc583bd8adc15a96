/**
 * `updateList` and `execute`: the whole run, with the API replaced by its responses.
 */
module Command {
  import opened Basics
  import opened Php
  import opened Entities
  import opened Config
  import opened Resolve
  import opened Pagination
  import opened Interactions
  import opened Exclusion
  import opened Batching

  /**
   * The responses of the API for one run: the `users/show` directory, the `lists/list`
   * response, the successive `statuses/user_timeline` and `favorites/list` pages, the `users`
   * of the `lists/members` response (absent when the response has none), and the status codes
   * of the successive bulk posts.
   */
  datatype Api = Api(
    directory: map<Value, UserId>,
    lists: seq<ListInfo>,
    timeline: seq<Page>,
    favorites: seq<Page>,
    members: Option<seq<Member>>,
    codes: seq<int>)

  /** A bulk request: `lists/members/destroy_all` or `lists/members/create_all` with its ids. */
  datatype Post = Destroy(ids: seq<UserId>) | Create(ids: seq<UserId>)

  /** `$members->users ?? []`, mapped to ids. */
  function CurrentUsers(api: Api): (r: seq<UserId>)
    ensures api.members.None? ==> r == []
    ensures api.members.Some? ==> |r| == |api.members.value|
    ensures api.members.Some? ==> forall i :: 0 <= i < |r| ==> r[i] == api.members.value[i].id
  {
    var users := if api.members.Some? then api.members.value else [];
    seq(|users|, i requires 0 <= i < |users| => users[i].id)
  }

  /** The interacted users, deduplicated, before exclusion. */
  function Interacted(api: Api, cutoff: int): seq<UserId>
  {
    Unique(StatusesIds(InteractingStatuses(Run(api.timeline, cutoff, Start).collected))
      + Authors(Run(api.favorites, cutoff, Start).collected))
  }

  /** The users the list should hold: the interacted users less the resolved excluded ones. */
  function Desired(api: Api, handles: seq<Value>, cutoff: int): seq<UserId>
  {
    if handles != [] then Exclude(Interacted(api, cutoff), Resolved(api.directory, handles))
    else Interacted(api, cutoff)
  }

  /**
   * Every post a complete reconciliation makes: the batches of `current - desired`
   * (`array_diff($currentUsers, $newUsers)`) to remove, then the batches of
   * `desired - current` to add.
   */
  function PlanFor(current: seq<UserId>, desired: seq<UserId>): seq<Post>
  {
    AsDestroys(Batches(Diff(current, desired))) + AsCreates(Batches(Diff(desired, current)))
  }

  function AsDestroys(batches: seq<seq<UserId>>): (r: seq<Post>)
    ensures |r| == |batches|
    ensures forall k :: 0 <= k < |r| ==> r[k] == Destroy(batches[k])
  {
    seq(|batches|, k requires 0 <= k < |batches| => Destroy(batches[k]))
  }

  function AsCreates(batches: seq<seq<UserId>>): (r: seq<Post>)
    ensures |r| == |batches|
    ensures forall k :: 0 <= k < |r| ==> r[k] == Create(batches[k])
  {
    seq(|batches|, k requires 0 <= k < |batches| => Create(batches[k]))
  }

  /** The posts of a complete run. */
  function Plan(api: Api, handles: seq<Value>, cutoff: int): seq<Post>
  {
    PlanFor(CurrentUsers(api), Desired(api, handles, cutoff))
  }

  /** Everything `updateList` does before it reads the list members. */
  method CollectDesired(entries: map<string, Value>, api: Api, cutoff: int) returns (newUsers: seq<UserId>)
    ensures newUsers == Desired(api, ExcludeHandles(entries), cutoff)
  {
    var handles := ExcludeHandles(entries);
    var rawStatuses, _ := Paginate(api.timeline, cutoff);
    newUsers := ExtractTimelineIds(rawStatuses);
    var favorites, _ := Paginate(api.favorites, cutoff);
    var favoriteIds := FavoriteAuthors(favorites);
    newUsers := Unique(newUsers + favoriteIds);
    if handles != [] {
      var excludeUserIds := ResolveExcluded(api.directory, handles);
      newUsers := Exclude(newUsers, excludeUserIds);
    }
  }

  /**
   * The two batch loops: the removals first, from post 0 on, then, if all of them were
   * answered 200, the additions. It posts the plan in order until a post fails, and succeeds
   * exactly when the whole plan was posted and every post answered 200.
   */
  method Reconcile(current: seq<UserId>, desired: seq<UserId>, codes: seq<int>) returns (ok: bool, posts: seq<Post>)
    ensures posts <= PlanFor(current, desired)
    ensures AllSucceeded(codes, 0, |posts| - 1)
    ensures ok <==> posts == PlanFor(current, desired) && AllSucceeded(codes, 0, |posts|)
    ensures !ok ==> posts != [] && Code(codes, |posts| - 1) != 200
  {
    var usersToRemove := Diff(current, desired);
    var removed: seq<seq<UserId>>;
    ok, removed := ApplyBatches(usersToRemove, codes, 0);
    posts := AsDestroys(removed);
    PlanSplit(current, desired);
    AsDestroysPrefix(Batches(usersToRemove), |removed|);
    if !ok {
      return;
    }

    var usersToAdd := Diff(desired, current);
    var added: seq<seq<UserId>>;
    ok, added := ApplyBatches(usersToAdd, codes, |posts|);
    AsCreatesPrefix(Batches(usersToAdd), |added|);
    PlanPrefix(AsDestroys(Batches(usersToRemove)), AsCreates(Batches(usersToAdd)), |added|);
    posts := posts + AsCreates(added);
  }

  /** The plan is its removal posts followed by its addition posts. */
  lemma PlanSplit(current: seq<UserId>, desired: seq<UserId>)
    ensures PlanFor(current, desired)[..|AsDestroys(Batches(Diff(current, desired)))|]
      == AsDestroys(Batches(Diff(current, desired)))
    ensures PlanFor(current, desired)[|AsDestroys(Batches(Diff(current, desired)))|..]
      == AsCreates(Batches(Diff(desired, current)))
  {
  }

  /** The removal posts of a prefix of the batches are a prefix of the removal posts. */
  lemma AsDestroysPrefix(batches: seq<seq<UserId>>, n: nat)
    requires n <= |batches|
    ensures AsDestroys(batches[..n]) == AsDestroys(batches)[..n]
  {
  }

  /** The addition posts of a prefix of the batches are a prefix of the addition posts. */
  lemma AsCreatesPrefix(batches: seq<seq<UserId>>, n: nat)
    requires n <= |batches|
    ensures AsCreates(batches[..n]) == AsCreates(batches)[..n]
  {
  }

  /** All of `a` followed by a prefix of `b` is a prefix of `a + b`. */
  lemma PlanPrefix(a: seq<Post>, b: seq<Post>, n: nat)
    requires n <= |b|
    ensures a + b[..n] == (a + b)[..|a| + n]
  {
  }

  /**
   * `updateList`: collects timeline statuses and favorites back to `cutoff`, extracts the
   * interacted users, removes the excluded ones, then reconciles the list with them.
   */
  method UpdateList(entries: map<string, Value>, api: Api, cutoff: int) returns (ok: bool, posts: seq<Post>)
    ensures posts <= Plan(api, ExcludeHandles(entries), cutoff)
    ensures AllSucceeded(api.codes, 0, |posts| - 1)
    ensures ok <==> posts == Plan(api, ExcludeHandles(entries), cutoff) && AllSucceeded(api.codes, 0, |posts|)
    ensures !ok ==> posts != [] && Code(api.codes, |posts| - 1) != 200
  {
    var newUsers := CollectDesired(entries, api, cutoff);
    ok, posts := Reconcile(CurrentUsers(api), newUsers, api.codes);
  }

  /** The run stops before its first post: the configuration, user or list check fails. */
  predicate Aborts(config: ConfigFile, api: Api)
  {
    !ConfigValid(config)
    || !IsTruthy(GetUserId(api.directory, Get(config.entries, "screen_name")))
    || !IsTruthy(GetListId(api.lists, Get(config.entries, "list_name")))
  }

  /**
   * `execute`: exit code 1 on an invalid configuration, an unknown user, an unknown list or a
   * failed update, in that order of checks, with no post made before `updateList`; 0 otherwise.
   */
  method Execute(config: ConfigFile, api: Api, cutoff: int) returns (exitCode: int, posts: seq<Post>)
    ensures exitCode == 0 || exitCode == 1
    ensures Aborts(config, api) ==> exitCode == 1 && posts == []
    ensures !Aborts(config, api) ==> posts <= Plan(api, ExcludeHandles(config.entries), cutoff)
    ensures AllSucceeded(api.codes, 0, |posts| - 1)
    ensures exitCode == 1 && !Aborts(config, api) ==> posts != [] && Code(api.codes, |posts| - 1) != 200
    ensures exitCode == 0 <==>
      (!Aborts(config, api)
       && posts == Plan(api, ExcludeHandles(config.entries), cutoff)
       && AllSucceeded(api.codes, 0, |posts|))
  {
    var valid, _ := ValidateConfig(config);
    if !valid {
      return 1, [];
    }
    var userId := GetUserId(api.directory, Get(config.entries, "screen_name"));
    if !IsTruthy(userId) {
      return 1, [];
    }
    var listId := GetListId(api.lists, Get(config.entries, "list_name"));
    if !IsTruthy(listId) {
      return 1, [];
    }
    var ok;
    ok, posts := UpdateList(config.entries, api, cutoff);
    if !ok {
      return 1, posts;
    }
    return 0, posts;
  }

  /** The two diffs are disjoint; no removed user is desired and no added user is current. */
  lemma DiffsDisjoint(current: seq<UserId>, desired: seq<UserId>, x: UserId)
    ensures !(x in Diff(current, desired) && x in Diff(desired, current))
    ensures x in Diff(current, desired) ==> x !in desired
    ensures x in Diff(desired, current) ==> x !in current
  {
  }

  /**
   * Every post of the plan carries between 1 and 100 ids, and every removal comes before
   * every addition.
   */
  lemma {:induction false} PlanShape(current: seq<UserId>, desired: seq<UserId>)
    ensures forall k :: 0 <= k < |PlanFor(current, desired)| ==>
      0 < |PlanFor(current, desired)[k].ids| <= Limit
    ensures forall i, j :: 0 <= i < j < |PlanFor(current, desired)| && PlanFor(current, desired)[j].Destroy? ==>
      PlanFor(current, desired)[i].Destroy?
  {
    var removals := Batches(Diff(current, desired));
    var additions := Batches(Diff(desired, current));
    var plan := PlanFor(current, desired);
    forall k | 0 <= k < |plan| ensures 0 < |plan[k].ids| <= Limit {
      if k < |removals| {
        BatchSizes(Diff(current, desired), k);
      } else {
        BatchSizes(Diff(desired, current), k - |removals|);
      }
    }
  }

  /** The ids of `s` as a set. */
  function Elems(s: seq<UserId>): set<UserId>
  {
    set x | x in s
  }

  /** The members of the list after `posts` were applied, one at a time, to `members`. */
  function MembersAfter(members: set<UserId>, posts: seq<Post>): set<UserId>
  {
    if posts == [] then members
    else
      var m := MembersAfter(members, posts[..|posts| - 1]);
      match posts[|posts| - 1]
      case Destroy(ids) => m - Elems(ids)
      case Create(ids) => m + Elems(ids)
  }

  lemma {:induction false} MembersAfterAppend(members: set<UserId>, a: seq<Post>, b: seq<Post>)
    ensures MembersAfter(members, a + b) == MembersAfter(MembersAfter(members, a), b)
  {
    if b != [] {
      var n := |b|;
      assert (a + b)[..|a + b| - 1] == a + b[..n - 1];
      MembersAfterAppend(members, a, b[..n - 1]);
    } else {
      assert a + b == a;
    }
  }

  lemma {:induction false} MembersAfterDestroys(members: set<UserId>, batches: seq<seq<UserId>>)
    ensures MembersAfter(members, AsDestroys(batches)) == members - Elems(Concat(batches))
  {
    if batches != [] {
      var n := |batches|;
      assert AsDestroys(batches)[..n - 1] == AsDestroys(batches[..n - 1]);
      MembersAfterDestroys(members, batches[..n - 1]);
      assert Elems(Concat(batches)) ==
        Elems(Concat(batches[..n - 1])) + Elems(batches[n - 1]);
    }
  }

  lemma {:induction false} MembersAfterCreates(members: set<UserId>, batches: seq<seq<UserId>>)
    ensures MembersAfter(members, AsCreates(batches)) == members + Elems(Concat(batches))
  {
    if batches != [] {
      var n := |batches|;
      assert AsCreates(batches)[..n - 1] == AsCreates(batches[..n - 1]);
      MembersAfterCreates(members, batches[..n - 1]);
      assert Elems(Concat(batches)) ==
        Elems(Concat(batches[..n - 1])) + Elems(batches[n - 1]);
    }
  }

  /** Once the whole plan is applied, the list holds exactly the desired users. */
  lemma ReconciledMembership(current: seq<UserId>, desired: seq<UserId>)
    ensures MembersAfter(Elems(current), PlanFor(current, desired)) == Elems(desired)
  {
    var removals := Batches(Diff(current, desired));
    var additions := Batches(Diff(desired, current));
    MembersAfterAppend(Elems(current), AsDestroys(removals), AsCreates(additions));
    MembersAfterDestroys(Elems(current), removals);
    MembersAfterCreates(Elems(current) - Elems(Concat(removals)), additions);
    BatchesCover(Diff(current, desired));
    BatchesCover(Diff(desired, current));
  }

  /** `x` was yielded by a collected interacting status or authored a collected favorite. */
  predicate InteractedWith(api: Api, cutoff: int, x: UserId)
  {
    (exists s :: s in Run(api.timeline, cutoff, Start).collected && IsInteraction(s) && x in StatusIds(s))
    || (exists f :: f in Run(api.favorites, cutoff, Start).collected && f.author == x)
  }

  /** `x` is the id of one of the excluded handles. */
  predicate IsExcluded(api: Api, handles: seq<Value>, x: UserId)
  {
    exists h :: h in handles && h in api.directory && api.directory[h] == x
  }

  /**
   * The desired users hold no id twice, contain no resolved excluded id, and contain every
   * other id the user interacted with.
   */
  lemma DesiredMembership(api: Api, handles: seq<Value>, cutoff: int, x: UserId)
    ensures NoDup(Desired(api, handles, cutoff))
    ensures x in Desired(api, handles, cutoff) <==> InteractedWith(api, cutoff, x) && !IsExcluded(api, handles, x)
  {
    InteractedMembership(api, cutoff, x);
    ResolvedMembership(api.directory, handles, x);
  }

  /** The interacted users hold no id twice and are exactly the ids the user interacted with. */
  lemma InteractedMembership(api: Api, cutoff: int, x: UserId)
    ensures NoDup(Interacted(api, cutoff))
    ensures x in Interacted(api, cutoff) <==> InteractedWith(api, cutoff, x)
  {
    TimelineIdsMembership(Run(api.timeline, cutoff, Start).collected, x);
    AuthorsMembership(Run(api.favorites, cutoff, Start).collected, x);
  }

  /** Three distinct interacted users of which the middle one is excluded leave the other two, in order. */
  lemma ExclusionExample(a: UserId, b: UserId, c: UserId)
    requires a != b && b != c && a != c
    ensures Exclude([a, b, c], [b]) == [a, c]
  {
    DiffOfThree(a, b, c);
    ExcludeIsDiff([a, b, c], [b]);
  }

  /** `array_diff` of three distinct users and the middle one. */
  lemma DiffOfThree(a: UserId, b: UserId, c: UserId)
    requires a != b && b != c && a != c
    ensures Diff([a, b, c], [b]) == [a, c]
  {
    assert Diff([a], [b]) == [a] by { assert [a][1..] == []; }
    assert Diff([b], [b]) == [] by { assert [b][1..] == []; }
    assert Diff([c], [b]) == [c] by { assert [c][1..] == []; }
    DiffConcat([a], [b], [b]);
    assert [a] + [b] == [a, b];
    DiffConcat([a, b], [c], [b]);
    assert [a, b] + [c] == [a, b, c];
  }

  /** The users A, B, C, D of the example below: four distinct ids. */
  predicate Distinct4(a: UserId, b: UserId, c: UserId, d: UserId)
  {
    a != b && a != c && a != d && b != c && b != d && c != d
  }

  lemma RemovalsExample(a: UserId, b: UserId, c: UserId, d: UserId)
    requires Distinct4(a, b, c, d)
    ensures Diff([a, b, c], [b, c, d]) == [a]
  {
    assert [a, b, c][1..] == [b, c] && [b, c][1..] == [c] && [c][1..] == [];
    assert Diff([c], [b, c, d]) == [];
    assert Diff([b, c], [b, c, d]) == [];
  }

  lemma AdditionsExample(a: UserId, b: UserId, c: UserId, d: UserId)
    requires Distinct4(a, b, c, d)
    ensures Diff([b, c, d], [a, b, c]) == [d]
  {
    assert [b, c, d][1..] == [c, d] && [c, d][1..] == [d] && [d][1..] == [];
    assert Diff([d], [a, b, c]) == [d];
    assert Diff([c, d], [a, b, c]) == [d];
  }

  /**
   * Members {A, B, C} and desired users {B, C, D}: one removal post for A, then one addition
   * post for D.
   */
  lemma ReconcileExample(a: UserId, b: UserId, c: UserId, d: UserId)
    requires Distinct4(a, b, c, d)
    ensures PlanFor([a, b, c], [b, c, d]) == [Destroy([a]), Create([d])]
  {
    RemovalsExample(a, b, c, d);
    AdditionsExample(a, b, c, d);
    assert PlanFor([a, b, c], [b, c, d]) == AsDestroys(Batches([a])) + AsCreates(Batches([d]));
    assert Batches([a]) == [[a]] && Batches([d]) == [[d]];
    assert AsDestroys([[a]]) == [Destroy([a])] && AsCreates([[d]]) == [Create([d])];
  }

  /** After those two posts the list holds {B, C, D}. */
  lemma ReconcileExampleMembers(a: UserId, b: UserId, c: UserId, d: UserId)
    requires Distinct4(a, b, c, d)
    ensures MembersAfter({a, b, c}, [Destroy([a]), Create([d])]) == {b, c, d}
  {
    var posts := [Destroy([a]), Create([d])];
    assert posts[..1] == [Destroy([a])] && posts[..1][..0] == [];
    assert Elems([a]) == {a} && Elems([d]) == {d};
    assert MembersAfter({a, b, c}, posts[..1]) == {b, c};
    assert MembersAfter({a, b, c}, posts) == {b, c} + {d};
  }
}
