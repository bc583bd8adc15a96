# cycle-twitter: a verified model of the list update command

The command updates a Twitter list so that its members are the accounts the user interacted
with recently. The steps run in a fixed order:

1. It checks the configuration.
2. It resolves the user and the list.
3. It pages back through the user's timeline and favorites to a time cutoff.
4. It extracts the ids of the accounts that were retweeted or quoted, and of the accounts
   mentioned in replies, and the authors of the favorites.
5. It deduplicates those ids and removes the excluded accounts.
6. It posts the removals and then the additions, in batches of 100. The first failed post
   aborts the run.

The model replaces the Twitter client by its responses, in the `Command.Api` datatype:

- the `users/show` directory, a map from handle to id;
- the `lists/list` response;
- the successive timeline pages and favorites pages;
- the `users` of the `lists/members` response;
- the status codes of the successive bulk posts.

A page request past the last given page answers an empty page. A post past the last given
code reads as code 0, which is a failure. Timestamps and the cutoff are integers. The model
returns the log of bulk posts it makes.

Modules follow the stages of the pipeline:

- `Basics`: helpers.
- `Php`: configuration values, `empty()`, `array_unique`, `array_diff` and `array_intersect`.
- `Entities`: statuses and lists.
- `Config`: `validateConfig`.
- `Resolve`: `getUserId` and `getListId`.
- `Pagination`: the two paging loops, which share one model.
- `Interactions`: the status filter, the extraction chain and the favorites extraction.
- `Exclusion`: the excluded handles.
- `Batching`: the 100-sized batch loops.
- `Command`: `updateList` and `execute`, plus the end-to-end properties.

## Behaviour as written

The model follows the code as written in four places where it behaves differently from what
its authors evidently meant. The first two are linked: had the reply branch worked, every
status that passes the filter would be caught by the reply, retweet or quote branch, and the
mention branch could never run.

- The reply branch of the extraction chain (`src/DefaultCommand.php:169`) tests
  `isset($status->in_reply_to_user_id, $new_users)`. The variable `$new_users` is never
  assigned, so the branch is never taken. A reply therefore yields its retweeted author, its
  quoted author or its mentions. A plain reply, neither retweet nor quote, yields its reply
  target only when it mentions it (`Interactions.ReplyTargetOnlyIfMentioned`). A reply that is also a quote yields the quoted
  author (`Interactions.ReplyAndQuoteYieldsQuotedAuthor`). The reply branch was evidently
  meant to add the reply target.
- The status filter (`src/DefaultCommand.php:162-166`) keeps only replies, retweets and quotes,
  so a plain tweet is dropped before the extraction chain runs and the accounts it mentions are
  never collected (`Interactions.PlainStatusIgnored`). The mention branch of the chain is reached
  only by a reply that is neither a retweet nor a quote. With the reply branch working as
  intended it would never be reached, so the filter and the mention branch cannot both be
  what the authors meant.
- `getListId` filters with `array_filter`, which keeps the original keys, and then reads
  `$lists[0]`. A list is found only when the first list of the response has the configured
  name (`Resolve.ListFoundOnlyAtFront`, `Resolve.LaterMatchNotFound`). The lookup was
  evidently meant to use the first list with that name, wherever it is in the response.
- `execute` tests `!$userId` and `!$listId`, so an id of 0 aborts the run. The exclusion loop
  tests `!== null` instead, so an excluded handle whose id is 0 is still excluded. The two
  tests were evidently meant to treat a missing id alike.

## Model

| member | source | states |
|---|---|---|
| `Config.ValidateConfig` | src/DefaultCommand.php:53-77 | true exactly when the configuration is an array and none of the six required settings is empty; otherwise it reports the first empty setting in the order checked |
| `Resolve.GetUserId` | src/DefaultCommand.php:89-99 | a handle resolves exactly when the `users/show` directory knows it; the result is falsy, so that `execute` aborts at `!$userId`, exactly when the handle is unknown or its id is 0 |
| `Resolve.MatchingLists` | src/DefaultCommand.php:107-109 | `array_filter` keeps each matching list under its original key; the filtered array is empty exactly when no list carries the name (the reference `FirstMatch` finds none), and key 0 is present exactly when the first match is at position 0 |
| `Resolve.GetListId` | src/DefaultCommand.php:101-114 | a list id is found exactly when the first list of the response has the configured name (strict equality), and it is that list's id |
| `Config.ExcludeHandles` | src/DefaultCommand.php:126-127 | the `!empty($excludeUsers)` guard of line 224 is false exactly when `exclude_users` is absent, null or an empty array; an array gives its values, and any other value becomes a single handle through the `(array)` cast |
| `Resolve.FirstMatch` | src/DefaultCommand.php:107-109 | reference definition: the position of the first list whose name equals the configured name, or none when no list matches |
| `Resolve.ListFoundOnlyAtFront` | src/DefaultCommand.php:107-113 | `getListId` succeeds exactly when the first match is at position 0 |
| `Resolve.LaterMatchNotFound` | src/DefaultCommand.php:110-113 | a response whose only match is its second list yields no list id |
| `Php.Unique` | src/DefaultCommand.php:221 | `array_unique`: no value twice, the same values as the input, never longer |
| `Php.Diff` | src/DefaultCommand.php:239 | `array_diff`: holds exactly the values of the first list that are not in the second, and no value twice when the first list has none twice |
| `Php.Intersect` | src/DefaultCommand.php:237 | `array_intersect`: holds exactly the values of the first list that are in the second |
| `Php.DiffDisjoint` | src/DefaultCommand.php:237-239 | removing values that do not occur leaves a list unchanged |
| `Php.DiffConcat` | src/DefaultCommand.php:239 | `array_diff` keeps or drops each value of the first list on its own, in order: the diff of a concatenation is the concatenation of the diffs |
| `Pagination.FreshCount` | src/DefaultCommand.php:144-152 | the length of the longest prefix of a page whose items are not older than the cutoff; the item after it, if any, is older |
| `Pagination.ScanPage` | src/DefaultCommand.php:144-152 | accepts exactly the longest fresh prefix of the page; reports an older item exactly when the prefix is not the whole page; the cursor ends at the last accepted id, or keeps its value when nothing is accepted |
| `Pagination.Run` | src/DefaultCommand.php:138-159 | the loop always finishes, after at most two requests past the last given page, and keeps the cursor consistent: `$conditions['max_id']` is unset before the first request and equals `$maxId` after every iteration |
| `Pagination.Paginate` | src/DefaultCommand.php:138-159 | returns the items the loop collects and the number of requests it makes, at most the number of pages plus two; the favorites loop at lines 193-214 is the same loop |
| `Pagination.IterationIsStep` | src/DefaultCommand.php:139-158 | proof step of `Pagination.Paginate`: one pass of the loop body, from the scan of the requested page to the `max_id` update, is one `Step` of the loop model |
| `Pagination.RunCollectsAcceptedPrefixes` | src/DefaultCommand.php:138-158 | the collected items are the accepted prefix of every requested page, in request order |
| `Pagination.RunCollectsOnlyFresh` | src/DefaultCommand.php:145-146 | every collected item is at least as new as the cutoff |
| `Pagination.RunCursorIsLastCollected` | src/DefaultCommand.php:147-158 | the final `$maxId` is the id of the last collected item (0 when none), and the final `$conditions['max_id']` equals `$maxId` |
| `Pagination.Step` | src/DefaultCommand.php:139-158 | one iteration: appends the accepted prefix of the requested page, moves the cursor to its last id (or keeps it when nothing is accepted), sets `$conditions['max_id']` to the cursor, and finishes exactly when an older item was met or the cursor equals the `max_id` sent |
| `Pagination.After` | src/DefaultCommand.php:138-158 | the loop state after k iterations (or the final state when the loop ended earlier) is consistent, has made at most k requests, exactly k when unfinished, and leads to the same end as the whole loop |
| `Pagination.StallGuard` | src/DefaultCommand.php:144-156 | the iteration after k unfinished ones ends the loop exactly when its page holds an older item, or when it is not the first iteration and leaves the cursor where it was |
| `Pagination.StallEndsRun` | src/DefaultCommand.php:154-158 | the stall guard: when iteration k + 1 (k >= 1) leaves the cursor unchanged, the loop makes exactly k + 1 requests |
| `Pagination.StalledPageEndsRun` | src/DefaultCommand.php:154-156 | a special case of the stall guard: when a request after the first accepts nothing, the run ends with that request at the latest |
| `Pagination.RunEndReason` | src/DefaultCommand.php:138-158 | the loop makes at least one request and ends for one of the two reasons the code has: the last page held an older item, or the last iteration (not the first) left the cursor unchanged |
| `Pagination.CutoffEndsCollection` | src/DefaultCommand.php:138-158 | with full, cursor-advancing pages before page N and an older item on page N, exactly the items of pages before N and those ahead of the older item on page N are collected, in N + 1 requests |
| `Interactions.InteractingStatuses` | src/DefaultCommand.php:162-166 | keeps exactly the statuses with a truthy reply-to user id, a retweeted status or a quoted status |
| `Interactions.InteractingStatusesConcat` | src/DefaultCommand.php:162-166 | the filter decides each status on its own, in order: filtering a concatenation is the concatenation of the filtered parts |
| `Interactions.ExtractTimelineIds` | src/DefaultCommand.php:162-182 | the ids the extraction chain appends for the filtered statuses, in order |
| `Interactions.FavoriteAuthors` | src/DefaultCommand.php:216-218 | one id per favorite, in order, each the favorite's author id: exactly `Authors` of the favorites |
| `Interactions.MentionIds` | src/DefaultCommand.php:175-180 | every id taken from the mentions is the id of one of them, and there are no more ids than mentions |
| `Interactions.AppendMentionIds` | src/DefaultCommand.php:175-180 | the inner `foreach` over the mentions appends exactly the ids of the mentions that carry one, in order |
| `Interactions.StatusIds` | src/DefaultCommand.php:168-182 | a retweet or a quote yields exactly one id; every id a status yields is its retweeted author, its quoted author or one of its mentioned ids; a status without mentions yields at most one id |
| `Interactions.MentionIdsMembership` | src/DefaultCommand.php:175-180 | a mention contributes exactly when it carries an id |
| `Interactions.TimelineIdsMembership` | src/DefaultCommand.php:162-182 | an id is extracted from the timeline exactly when some interacting collected status yields it |
| `Interactions.AuthorsMembership` | src/DefaultCommand.php:216-218 | an id is among the favorite authors exactly when some favorite has that author |
| `Interactions.StatusIdsPrecedence` | src/DefaultCommand.php:169-181 | a retweet yields only the retweeted author; otherwise a quote yields only the quoted author; otherwise the status yields exactly the ids of its mentions |
| `Interactions.ReplyAndQuoteYieldsQuotedAuthor` | src/DefaultCommand.php:169-174 | a reply that is also a quote passes the filter and yields the quoted author, not the reply target |
| `Interactions.ReplyTargetOnlyIfMentioned` | src/DefaultCommand.php:169-181 | a plain reply passes the filter, and its reply target is extracted exactly when the reply mentions it |
| `Interactions.PlainStatusIgnored` | src/DefaultCommand.php:162-181 | a status that is not a reply, retweet or quote would yield its mentions under the chain, yet adding it anywhere among the collected statuses leaves the extracted ids unchanged |
| `Exclusion.ResolveExcluded` | src/DefaultCommand.php:227-235 | the ids of the excluded handles that resolve, in order; handles that do not resolve are skipped |
| `Exclusion.ResolvedMembership` | src/DefaultCommand.php:228-235 | an id is resolved exactly when some listed handle maps to it |
| `Exclusion.Exclude` | src/DefaultCommand.php:237-241 | after exclusion an id remains exactly when it was a candidate and is not excluded; no id twice when the candidates have none twice |
| `Exclusion.ExcludeIsDiff` | src/DefaultCommand.php:237-241 | the `array_intersect` guard changes nothing: the result is always the difference |
| `Batching.BatchesCount` | src/DefaultCommand.php:264-289 | a list of n ids is posted in ceil(n / 100) batches |
| `Batching.BatchAt` | src/DefaultCommand.php:269 | batch k is the slice of at most 100 ids at offset 100 * k |
| `Batching.BatchSizes` | src/DefaultCommand.php:266-269 | every batch holds between 1 and 100 ids |
| `Batching.BatchesCover` | src/DefaultCommand.php:264-289 | the batches, joined in order, are the list: every id is posted once |
| `Batching.TwoHundredFiftyIds` | src/DefaultCommand.php:264-289 | 250 ids are posted as three batches of 100, 100 and 50 |
| `Batching.ApplyBatches` | src/DefaultCommand.php:264-289 | posts a prefix of the batches in order; succeeds exactly when all batches were posted and answered 200; on failure the last post is the first one not answered 200 |
| `Command.CurrentUsers` | src/DefaultCommand.php:252-257 | `array_map` over the `users` of the `lists/members` response: one id per member, in order, each that member's id; no `users` gives none |
| `Command.CollectDesired` | src/DefaultCommand.php:123-242 | the deduplicated interacted users less the resolved excluded users |
| `Command.Reconcile` | src/DefaultCommand.php:260-326 | posts a prefix of the removal batches followed by the addition batches; succeeds exactly when the whole plan was posted and every post was answered 200; on failure the last post is the first one not answered 200 |
| `Command.UpdateList` | src/DefaultCommand.php:116-327 | the same outcome for the whole update: the plan built from the collected interactions, the exclusions and the current members |
| `Command.Execute` | src/DefaultCommand.php:22-51 | exit code 0 or 1; an invalid configuration, an unknown user or an unknown list gives 1 with no post; otherwise 0 exactly when the whole plan was posted and answered 200; on a failed update the posts made are those up to and including the first one not answered 200 |
| `Command.DiffsDisjoint` | src/DefaultCommand.php:260-293 | the removals and additions are disjoint; no removed user is desired and no added user is current |
| `Command.PlanShape` | src/DefaultCommand.php:264-322 | every post carries 1 to 100 ids, and every removal comes before every addition |
| `Command.ReconciledMembership` | src/DefaultCommand.php:260-322 | once the whole plan is applied, the list holds exactly the desired users |
| `Command.InteractedMembership` | src/DefaultCommand.php:162-221 | after `array_unique` the interacted users hold no id twice and are exactly the ids yielded by a collected interacting status or authoring a collected favorite |
| `Command.DesiredMembership` | src/DefaultCommand.php:162-241 | the desired users hold no id twice and are exactly the interacted users that are not excluded |
| `Command.ExclusionExample` | src/DefaultCommand.php:237-241 | three distinct candidates with the middle one excluded leave the other two, in their order |
| `Command.ReconcileExample` | src/DefaultCommand.php:260-322 | members {A, B, C} and desired {B, C, D} give one removal of A, then one addition of D |
| `Command.ReconcileExampleMembers` | src/DefaultCommand.php:260-322 | after those two posts the list holds {B, C, D} |

## Left out

- The TwitterOAuth client (`getClient`, `get`, `post`, `getLastHttpCode`) is replaced by the
  responses in `Command.Api`. The request parameters (`user_id`, `include_rts`,
  `exclude_replies`, `count`, `list_id`, the comma-joined `user_id` of the posts) are not
  modelled. The pages given are the ones the API returns for those requests.
- Only the bulk posts are logged. The read requests are not logged, so "no request before the
  configuration check" is stated only for posts.
- Evaluating the configuration file with `require` is not modelled; the result is given as a
  `Config.ConfigFile`. Floats and objects among its values are not modelled.
- `strtotime` and the `days` setting (default 30) are left out because they depend on the
  clock and on date parsing. The cutoff and every `created_at` are given integers.
- All console output (`writeln`) is left out, including the printed counts and the error code
  and message of a failed post. `Config.ValidateConfig` returns the missing setting instead of
  printing it.
- Paging against an API that keeps advancing forever has no bound in the code. The model
  bounds it by a finite sequence of pages followed by empty pages.
- Only one `lists/members` response of up to 5000 users is read, as in the code. There is no
  further paging.
- A response that is an error object where a list of statuses or lists is expected is not
  modelled.
- Batches applied before a failed post stay applied. The post log records them; the list
  state after a partial run is not stated beyond that log.
