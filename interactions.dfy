/**
 * Extraction of the ids of the accounts the user interacted with, from the collected
 * timeline statuses and favorites.
 */
module Interactions {
  import opened Basics
  import opened Php
  import opened Entities

  /** The filter: a truthy `in_reply_to_user_id`, a `retweeted_status` or a `quoted_status`. */
  predicate IsInteraction(s: Status)
  {
    IsTruthy(s.inReplyToUserId) || s.retweetedAuthor.Some? || s.quotedAuthor.Some?
  }

  /** `array_filter` of the collected statuses by `IsInteraction`, in order. */
  function InteractingStatuses(statuses: seq<Status>): (r: seq<Status>)
    ensures forall s :: s in r <==> s in statuses && IsInteraction(s)
  {
    if statuses == [] then []
    else (if IsInteraction(statuses[0]) then [statuses[0]] else []) + InteractingStatuses(statuses[1..])
  }

  /** The ids of the mentions that carry one, in order. */
  function MentionIds(mentions: seq<Option<UserId>>): (r: seq<UserId>)
    ensures |r| <= |mentions|
    ensures forall i :: 0 <= i < |r| ==> Some(r[i]) in mentions
  {
    if mentions == [] then []
    else
      var m := mentions[|mentions| - 1];
      MentionIds(mentions[..|mentions| - 1]) + (if m.Some? then [m.value] else [])
  }

  /**
   * The if/elseif chain for one status. Its first branch tests `isset` of a variable that is
   * never assigned, so it is never taken and does not appear here: a reply falls through to the
   * retweet, quote and mention branches.
   */
  function StatusIds(s: Status): (r: seq<UserId>)
    ensures s.retweetedAuthor.Some? || s.quotedAuthor.Some? ==> |r| == 1
    ensures forall i :: 0 <= i < |r| ==>
      Some(r[i]) == s.retweetedAuthor || Some(r[i]) == s.quotedAuthor
      || (s.mentions.Some? && Some(r[i]) in s.mentions.value)
    ensures s.mentions.None? ==> |r| <= 1
  {
    if s.retweetedAuthor.Some? then [s.retweetedAuthor.value]
    else if s.quotedAuthor.Some? then [s.quotedAuthor.value]
    else if s.mentions.Some? then MentionIds(s.mentions.value)
    else []
  }

  /** The ids the chain appends for each status of `statuses`, in order. */
  function StatusesIds(statuses: seq<Status>): seq<UserId>
  {
    FlatMap(StatusIds, statuses)
  }

  /** The authors of the favorites, one per favorite, in order. */
  function Authors(favorites: seq<Status>): seq<UserId>
  {
    seq(|favorites|, i requires 0 <= i < |favorites| => favorites[i].author)
  }

  /** Filters the collected statuses and runs the extraction chain over them. */
  method ExtractTimelineIds(rawStatuses: seq<Status>) returns (ids: seq<UserId>)
    ensures ids == StatusesIds(InteractingStatuses(rawStatuses))
  {
    var statuses := InteractingStatuses(rawStatuses);
    ids := [];
    var i := 0;
    while i < |statuses|
      invariant 0 <= i <= |statuses|
      invariant ids == StatusesIds(statuses[..i])
    {
      var s := statuses[i];
      StatusesIdsSnoc(statuses, i);
      if s.retweetedAuthor.Some? {
        ids := ids + [s.retweetedAuthor.value];
      } else if s.quotedAuthor.Some? {
        ids := ids + [s.quotedAuthor.value];
      } else if s.mentions.Some? {
        ids := AppendMentionIds(ids, s.mentions.value);
      }
      i := i + 1;
    }
    assert statuses[..i] == statuses;
  }

  /** The inner `foreach` over the mentions: appends the id of every mention that has one. */
  method AppendMentionIds(ids: seq<UserId>, mentions: seq<Option<UserId>>) returns (r: seq<UserId>)
    ensures r == ids + MentionIds(mentions)
  {
    r := ids;
    var j := 0;
    while j < |mentions|
      invariant 0 <= j <= |mentions|
      invariant r == ids + MentionIds(mentions[..j])
    {
      MentionIdsSnoc(mentions, j);
      if mentions[j].Some? {
        r := r + [mentions[j].value];
      }
      j := j + 1;
    }
    assert mentions[..j] == mentions;
  }

  /** The ids of the first `j + 1` mentions extend those of the first `j`. */
  lemma MentionIdsSnoc(mentions: seq<Option<UserId>>, j: nat)
    requires j < |mentions|
    ensures MentionIds(mentions[..j + 1])
      == MentionIds(mentions[..j]) + (if mentions[j].Some? then [mentions[j].value] else [])
  {
    assert mentions[..j + 1][..j] == mentions[..j];
  }

  /** The ids of the first `i + 1` statuses extend those of the first `i`. */
  lemma StatusesIdsSnoc(statuses: seq<Status>, i: nat)
    requires i < |statuses|
    ensures StatusesIds(statuses[..i + 1]) == StatusesIds(statuses[..i]) + StatusIds(statuses[i])
  {
    assert statuses[..i + 1][..i] == statuses[..i];
  }

  /** Appends the author of every favorite. */
  method FavoriteAuthors(favorites: seq<Status>) returns (ids: seq<UserId>)
    ensures ids == Authors(favorites)
    ensures |ids| == |favorites|
    ensures forall i :: 0 <= i < |favorites| ==> ids[i] == favorites[i].author
  {
    ids := [];
    for i := 0 to |favorites|
      invariant |ids| == i
      invariant forall k :: 0 <= k < i ==> ids[k] == favorites[k].author
    {
      ids := ids + [favorites[i].author];
    }
  }

  /** A mention contributes exactly when it carries an id. */
  lemma {:induction false} MentionIdsMembership(mentions: seq<Option<UserId>>, x: UserId)
    ensures x in MentionIds(mentions) <==> Some(x) in mentions
  {
    if mentions != [] {
      var init := mentions[..|mentions| - 1];
      MentionIdsMembership(init, x);
      assert mentions == init + [mentions[|mentions| - 1]];
    }
  }

  /** An id is extracted from a list of statuses exactly when one of them yields it. */
  lemma StatusesIdsMembership(statuses: seq<Status>, x: UserId)
    ensures x in StatusesIds(statuses) <==> exists s :: s in statuses && x in StatusIds(s)
  {
    FlatMapMembership(StatusIds, statuses, x);
  }

  /**
   * The timeline ids are exactly those yielded by an interacting status: a retweet's retweeted
   * author, else a quote's quoted author, else the ids of its mentions.
   */
  lemma TimelineIdsMembership(rawStatuses: seq<Status>, x: UserId)
    ensures x in StatusesIds(InteractingStatuses(rawStatuses)) <==>
      exists s :: s in rawStatuses && IsInteraction(s) && x in StatusIds(s)
  {
    StatusesIdsMembership(InteractingStatuses(rawStatuses), x);
  }

  /** An id is among the favorite authors exactly when some favorite has that author. */
  lemma AuthorsMembership(favorites: seq<Status>, x: UserId)
    ensures x in Authors(favorites) <==> exists f :: f in favorites && f.author == x
  {
    if x in Authors(favorites) {
      var i :| 0 <= i < |favorites| && Authors(favorites)[i] == x;
      assert favorites[i] in favorites;
    }
    if exists f :: f in favorites && f.author == x {
      var f :| f in favorites && f.author == x;
      var i :| 0 <= i < |favorites| && favorites[i] == f;
      assert Authors(favorites)[i] == x;
    }
  }

  /** What one status yields, by the order of the chain. */
  lemma {:induction false} StatusIdsPrecedence(s: Status, x: UserId)
    ensures s.retweetedAuthor.Some? ==> StatusIds(s) == [s.retweetedAuthor.value]
    ensures s.retweetedAuthor.None? && s.quotedAuthor.Some? ==> StatusIds(s) == [s.quotedAuthor.value]
    ensures s.retweetedAuthor.None? && s.quotedAuthor.None? ==>
      (x in StatusIds(s) <==> s.mentions.Some? && Some(x) in s.mentions.value)
  {
    if s.retweetedAuthor.None? && s.quotedAuthor.None? && s.mentions.Some? {
      MentionIdsMembership(s.mentions.value, x);
    }
  }

  /**
   * Because the reply branch is never taken, a reply that is also a quote yields the quoted
   * author and not the reply target.
   */
  lemma ReplyAndQuoteYieldsQuotedAuthor(s: Status)
    requires IsTruthy(s.inReplyToUserId) && s.retweetedAuthor.None? && s.quotedAuthor.Some?
    ensures IsInteraction(s)
    ensures StatusIds(s) == [s.quotedAuthor.value]
  {
  }

  /** A plain reply yields the ids of its mentions; the reply target only if it is mentioned. */
  lemma {:induction false} ReplyTargetOnlyIfMentioned(s: Status)
    requires IsTruthy(s.inReplyToUserId) && s.retweetedAuthor.None? && s.quotedAuthor.None?
    ensures IsInteraction(s)
    ensures s.inReplyToUserId.value in StatusIds(s) <==>
      s.mentions.Some? && Some(s.inReplyToUserId.value) in s.mentions.value
  {
    StatusIdsPrecedence(s, s.inReplyToUserId.value);
  }

  /** The status filter decides each status on its own: it distributes over concatenation. */
  lemma {:induction false} InteractingStatusesConcat(a: seq<Status>, b: seq<Status>)
    ensures InteractingStatuses(a + b) == InteractingStatuses(a) + InteractingStatuses(b)
  {
    if a != [] {
      assert (a + b)[1..] == a[1..] + b;
      InteractingStatusesConcat(a[1..], b);
    } else {
      assert a + b == b;
    }
  }

  /**
   * A plain status (no truthy reply id, no retweet, no quote) is dropped by the filter, so the
   * accounts it mentions are never collected, although the chain would yield them.
   */
  lemma PlainStatusIgnored(before: seq<Status>, s: Status, after: seq<Status>)
    requires !IsInteraction(s)
    ensures s.mentions.Some? ==> StatusIds(s) == MentionIds(s.mentions.value)
    ensures StatusesIds(InteractingStatuses(before + [s] + after))
         == StatusesIds(InteractingStatuses(before + after))
  {
    InteractingStatusesConcat(before + [s], after);
    InteractingStatusesConcat(before, [s]);
    InteractingStatusesConcat(before, after);
    assert InteractingStatuses([s]) == [] by { assert [s][1..] == []; }
    assert InteractingStatuses(before + [s]) == InteractingStatuses(before);
  }
}
