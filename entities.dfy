/**
 * The records the command reads from the social-media API, reduced to the fields it uses.
 * Timestamps are the integers `strtotime` would produce from `created_at`.
 */
module Entities {
  import opened Basics

  /** A stable numeric account identifier. */
  type UserId = int

  /**
   * A status (tweet), as returned by the timeline and favorites endpoints.
   * `inReplyToUserId` is the (possibly null) `in_reply_to_user_id`; `retweetedAuthor` and
   * `quotedAuthor` are the author ids of `retweeted_status` and `quoted_status` when those are
   * set; `mentions` is `entities->user_mentions` when `entities` is set, one entry per mention,
   * holding its `id` when it has one.
   */
  datatype Status = Status(
    id: int,
    createdAt: int,
    author: UserId,
    inReplyToUserId: Option<int>,
    retweetedAuthor: Option<UserId>,
    quotedAuthor: Option<UserId>,
    mentions: Option<seq<Option<UserId>>>)

  /** One response of a paginated endpoint, newest first. */
  type Page = seq<Status>

  /** An entry of the `users` of the `lists/members` response. */
  datatype Member = Member(id: UserId)

  /** An entry of the `lists/list` response. */
  datatype ListInfo = ListInfo(name: string, id: int)
}
