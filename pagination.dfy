/**
 * The cursor-driven pagination shared by the timeline loop and the favorites loop of
 * `updateList`: request a page, accept its items newest-first while they are not older than
 * the cutoff, move the cursor to the id of each accepted item, and stop at the first older
 * item or when the cursor did not move since the previous request.
 *
 * The API is a fixed sequence of responses; a request past its end answers an empty page.
 */
module Pagination {
  import opened Basics
  import opened Entities

  /** The number of leading items of `page` not older than `cutoff`. */
  function FreshCount(page: Page, cutoff: int): (n: nat)
    ensures n <= |page|
    ensures forall i :: 0 <= i < n ==> page[i].createdAt >= cutoff
    ensures n < |page| ==> page[n].createdAt < cutoff
  {
    if page == [] || page[0].createdAt < cutoff then 0
    else 1 + FreshCount(page[1..], cutoff)
  }

  /**
   * The `foreach` over one page: accepts the longest prefix of items not older than the cutoff,
   * moves the cursor to the id of each accepted item, and reports whether an older item ended
   * the scan.
   */
  method ScanPage(page: Page, cutoff: int, maxId: int) returns (accepted: seq<Status>, newMaxId: int, hitOld: bool)
    ensures accepted == page[..FreshCount(page, cutoff)]
    ensures hitOld <==> |accepted| < |page|
    ensures newMaxId == if accepted == [] then maxId else accepted[|accepted| - 1].id
  {
    accepted, newMaxId, hitOld := [], maxId, false;
    var i := 0;
    while i < |page|
      invariant i <= FreshCount(page, cutoff)
      invariant accepted == page[..i]
      invariant newMaxId == if i == 0 then maxId else page[i - 1].id
    {
      if page[i].createdAt >= cutoff {
        accepted := accepted + [page[i]];
        newMaxId := page[i].id;
        i := i + 1;
      } else {
        hitOld := true;
        break;
      }
    }
  }

  /**
   * The loop state: the items collected so far, `$maxId`, `$conditions['max_id']` as the end of
   * an iteration leaves it (unset until the first page has been scanned; afterwards the `max_id` the next
   * request sends), `$finished`, and the number of requests made.
   */
  datatype Scan = Scan(collected: seq<Status>, maxId: int, maxIdParam: Option<int>, finished: bool, calls: nat)

  const Start := Scan([], 0, None, false, 0)

  /** The response to request number `k` (from 0). */
  function PageAt(pages: seq<Page>, k: nat): Page
  {
    if k < |pages| then pages[k] else []
  }

  /**
   * One iteration of `while (!$finished)`: the items accepted from the next page are collected
   * and the cursor moves to the last of them; the loop finishes when the page held an older
   * item, or when `$conditions['max_id']` was set and equals the moved cursor.
   */
  function Step(pages: seq<Page>, cutoff: int, s: Scan): (t: Scan)
    ensures t.collected == s.collected + Accepted(pages, cutoff, s.calls)
    ensures t.maxId == LastIdOr(Accepted(pages, cutoff, s.calls), s.maxId)
    ensures t.maxIdParam == Some(t.maxId) && t.calls == s.calls + 1
    ensures t.finished <==>
      |Accepted(pages, cutoff, s.calls)| < |PageAt(pages, s.calls)| || s.maxIdParam == Some(t.maxId)
  {
    var page := PageAt(pages, s.calls);
    var n := FreshCount(page, cutoff);
    var maxId := if n == 0 then s.maxId else page[n - 1].id;
    Scan(s.collected + page[..n], maxId, Some(maxId), n < |page| || s.maxIdParam == Some(maxId), s.calls + 1)
  }

  /**
   * The states the loop passes through: `$conditions['max_id']` is set once a page has been
   * scanned and then equals `$maxId`, and an unfinished loop has made at most one request past
   * the end of the responses.
   */
  predicate Consistent(pages: seq<Page>, s: Scan)
  {
    (s.maxIdParam.Some? <==> s.calls > 0)
    && (s.maxIdParam.Some? ==> s.maxIdParam.value == s.maxId)
    && s.calls <= |pages| + 2
    && (!s.finished ==> s.calls <= |pages| + 1)
  }

  /** The loop run to completion: it always ends, after at most two requests past the responses. */
  function Run(pages: seq<Page>, cutoff: int, s: Scan): (t: Scan)
    requires Consistent(pages, s)
    ensures t.finished && Consistent(pages, t)
    ensures t.calls >= s.calls
    ensures !s.finished ==> t.calls > s.calls
    decreases |pages| + 2 - s.calls
  {
    if s.finished then s else Run(pages, cutoff, Step(pages, cutoff, s))
  }

  /** Runs one pagination loop; returns the accepted items in order and the number of requests. */
  method Paginate(pages: seq<Page>, cutoff: int) returns (items: seq<Status>, calls: nat)
    ensures items == Run(pages, cutoff, Start).collected
    ensures calls == Run(pages, cutoff, Start).calls
    ensures calls <= |pages| + 2
  {
    items, calls := [], 0;
    var maxId := 0;
    var maxIdParam: Option<int> := None;
    var finished := false;
    while !finished
      invariant Consistent(pages, Scan(items, maxId, maxIdParam, finished, calls))
      invariant Run(pages, cutoff, Start) == Run(pages, cutoff, Scan(items, maxId, maxIdParam, finished, calls))
      decreases |pages| + 2 - calls
    {
      ghost var s := Scan(items, maxId, maxIdParam, finished, calls);
      var page := if calls < |pages| then pages[calls] else [];
      var accepted, newMaxId, hitOld := ScanPage(page, cutoff, maxId);
      IterationIsStep(pages, cutoff, s, accepted, newMaxId, hitOld);
      items, maxId, calls := items + accepted, newMaxId, calls + 1;
      finished := hitOld;
      if maxIdParam == Some(maxId) {
        finished := true;
      }
      maxIdParam := Some(maxId);
    }
  }

  /**
   * One pass of the loop body, from the scan of the requested page to the `max_id` update, is
   * one `Step`.
   */
  lemma IterationIsStep(pages: seq<Page>, cutoff: int, s: Scan, accepted: seq<Status>, newMaxId: int, hitOld: bool)
    requires accepted == PageAt(pages, s.calls)[..FreshCount(PageAt(pages, s.calls), cutoff)]
    requires hitOld <==> |accepted| < |PageAt(pages, s.calls)|
    requires newMaxId == if accepted == [] then s.maxId else accepted[|accepted| - 1].id
    ensures Step(pages, cutoff, s)
      == Scan(s.collected + accepted, newMaxId, Some(newMaxId), hitOld || s.maxIdParam == Some(newMaxId), s.calls + 1)
  {
  }

  /** The items accepted from the response to request `k`. */
  function Accepted(pages: seq<Page>, cutoff: int, k: nat): seq<Status>
  {
    PageAt(pages, k)[..FreshCount(PageAt(pages, k), cutoff)]
  }

  /** The items accepted from the first `n` responses, in order. */
  function AcceptedUpTo(pages: seq<Page>, cutoff: int, n: nat): seq<Status>
  {
    if n == 0 then [] else AcceptedUpTo(pages, cutoff, n - 1) + Accepted(pages, cutoff, n - 1)
  }

  /** What a run collects is the accepted prefix of every page it requested, in request order. */
  lemma {:induction false} RunCollectsAcceptedPrefixes(pages: seq<Page>, cutoff: int)
    ensures Run(pages, cutoff, Start).collected == AcceptedUpTo(pages, cutoff, Run(pages, cutoff, Start).calls)
  {
    RunCollectsAcceptedPrefixesFrom(pages, cutoff, Start);
  }

  lemma {:induction false} RunCollectsAcceptedPrefixesFrom(pages: seq<Page>, cutoff: int, s: Scan)
    requires Consistent(pages, s)
    requires s.collected == AcceptedUpTo(pages, cutoff, s.calls)
    ensures Run(pages, cutoff, s).collected == AcceptedUpTo(pages, cutoff, Run(pages, cutoff, s).calls)
    decreases |pages| + 2 - s.calls
  {
    if !s.finished {
      RunCollectsAcceptedPrefixesFrom(pages, cutoff, Step(pages, cutoff, s));
    }
  }

  /** Every collected item is at least as new as the cutoff. */
  lemma {:induction false} RunCollectsOnlyFresh(pages: seq<Page>, cutoff: int)
    ensures forall x :: x in Run(pages, cutoff, Start).collected ==> x.createdAt >= cutoff
  {
    RunCollectsOnlyFreshFrom(pages, cutoff, Start);
  }

  lemma {:induction false} RunCollectsOnlyFreshFrom(pages: seq<Page>, cutoff: int, s: Scan)
    requires Consistent(pages, s)
    requires forall x :: x in s.collected ==> x.createdAt >= cutoff
    ensures forall x :: x in Run(pages, cutoff, s).collected ==> x.createdAt >= cutoff
    decreases |pages| + 2 - s.calls
  {
    if !s.finished {
      var page := PageAt(pages, s.calls);
      var n := FreshCount(page, cutoff);
      assert forall x :: x in page[..n] ==> x.createdAt >= cutoff by {
        forall x | x in page[..n] ensures x.createdAt >= cutoff {
          var i :| 0 <= i < n && page[..n][i] == x;
          assert page[i] == x;
        }
      }
      RunCollectsOnlyFreshFrom(pages, cutoff, Step(pages, cutoff, s));
    }
  }

  /** The id of the last item of `items`, or `default` when there is none. */
  function LastIdOr(items: seq<Status>, default: int): int
  {
    if items == [] then default else items[|items| - 1].id
  }

  /**
   * The cursor ends at the id of the last collected item (0 when nothing was collected), and
   * the final `$conditions['max_id']` equals it.
   */
  lemma {:induction false} RunCursorIsLastCollected(pages: seq<Page>, cutoff: int)
    ensures Run(pages, cutoff, Start).maxId == LastIdOr(Run(pages, cutoff, Start).collected, 0)
    ensures Run(pages, cutoff, Start).maxIdParam == Some(Run(pages, cutoff, Start).maxId)
  {
    RunCursorIsLastCollectedFrom(pages, cutoff, Start);
  }

  lemma {:induction false} RunCursorIsLastCollectedFrom(pages: seq<Page>, cutoff: int, s: Scan)
    requires Consistent(pages, s)
    requires s.maxId == LastIdOr(s.collected, 0)
    requires !s.finished
    ensures Run(pages, cutoff, s).maxId == LastIdOr(Run(pages, cutoff, s).collected, 0)
    ensures Run(pages, cutoff, s).maxIdParam == Some(Run(pages, cutoff, s).maxId)
    decreases |pages| + 2 - s.calls
  {
    var t := Step(pages, cutoff, s);
    if !t.finished {
      RunCursorIsLastCollectedFrom(pages, cutoff, t);
    }
  }

  /**
   * The stall guard: once a request after the first accepts nothing, the cursor cannot have
   * moved, so the run ends with that request.
   */
  lemma {:induction false} StalledPageEndsRun(pages: seq<Page>, cutoff: int, k: nat)
    requires k >= 1
    requires FreshCount(PageAt(pages, k), cutoff) == 0
    ensures Run(pages, cutoff, Start).calls <= k + 1
  {
    StalledPageEndsRunFrom(pages, cutoff, k, Start);
  }

  lemma {:induction false} StalledPageEndsRunFrom(pages: seq<Page>, cutoff: int, k: nat, s: Scan)
    requires k >= 1
    requires FreshCount(PageAt(pages, k), cutoff) == 0
    requires Consistent(pages, s) && s.calls <= k
    ensures Run(pages, cutoff, s).calls <= k + 1
    decreases |pages| + 2 - s.calls
  {
    if !s.finished {
      var t := Step(pages, cutoff, s);
      if s.calls < k {
        StalledPageEndsRunFrom(pages, cutoff, k, t);
      } else {
        assert t.finished;
      }
    }
  }

  /**
   * Pages before `n` that are non-empty, wholly within the window and each move the cursor,
   * followed by a page `n` that holds an older item.
   */
  predicate FullPagesThenCutoff(pages: seq<Page>, cutoff: int, n: nat)
  {
    n < |pages|
    && (forall i :: 0 <= i < n ==> pages[i] != [] && FreshCount(pages[i], cutoff) == |pages[i]|)
    && (forall i :: 0 < i < n ==> pages[i][|pages[i]| - 1].id != pages[i - 1][|pages[i - 1]| - 1].id)
    && FreshCount(pages[n], cutoff) < |pages[n]|
  }

  /**
   * With such pages, exactly the items of pages before `n` and those of page `n` ahead of its
   * first older item are collected, in `n + 1` requests.
   */
  lemma CutoffEndsCollection(pages: seq<Page>, cutoff: int, n: nat)
    requires FullPagesThenCutoff(pages, cutoff, n)
    ensures Run(pages, cutoff, Start).collected == Concat(pages[..n]) + pages[n][..FreshCount(pages[n], cutoff)]
    ensures Run(pages, cutoff, Start).calls == n + 1
  {
    assert pages[..0] == [];
    CutoffEndsCollectionFrom(pages, cutoff, n, 0);
  }

  /** The state after `j` full pages of a `FullPagesThenCutoff` sequence. */
  function AfterFullPages(pages: seq<Page>, j: nat): Scan
    requires j <= |pages|
    requires forall i :: 0 <= i < j ==> pages[i] != []
  {
    if j == 0 then Start
    else
      var last := pages[j - 1][|pages[j - 1]| - 1].id;
      Scan(Concat(pages[..j]), last, Some(last), false, j)
  }

  lemma {:induction false} CutoffEndsCollectionFrom(pages: seq<Page>, cutoff: int, n: nat, j: nat)
    requires FullPagesThenCutoff(pages, cutoff, n)
    requires j <= n
    ensures Consistent(pages, AfterFullPages(pages, j))
    ensures Run(pages, cutoff, AfterFullPages(pages, j)).collected
      == Concat(pages[..n]) + pages[n][..FreshCount(pages[n], cutoff)]
    ensures Run(pages, cutoff, AfterFullPages(pages, j)).calls == n + 1
    decreases n - j
  {
    var s := AfterFullPages(pages, j);
    var t := Step(pages, cutoff, s);
    assert pages[..j + 1][..j] == pages[..j];
    if j < n {
      assert pages[j][..|pages[j]|] == pages[j];
      assert Accepted(pages, cutoff, j) == pages[j];
      var last := pages[j][|pages[j]| - 1].id;
      assert t.collected == Concat(pages[..j + 1]);
      assert t.maxId == last;
      assert !t.finished;
      assert t == AfterFullPages(pages, j + 1);
      CutoffEndsCollectionFrom(pages, cutoff, n, j + 1);
    } else {
      assert t.finished;
    }
  }

  /** The loop state after `k` iterations, or the final state when the loop ended earlier. */
  function After(pages: seq<Page>, cutoff: int, k: nat): (s: Scan)
    ensures Consistent(pages, s)
    ensures Run(pages, cutoff, s) == Run(pages, cutoff, Start)
    ensures s.calls <= k
    ensures !s.finished ==> s.calls == k
  {
    if k == 0 then Start
    else
      var p := After(pages, cutoff, k - 1);
      if p.finished then p else Step(pages, cutoff, p)
  }

  /**
   * The stall guard: a live iteration `k` ends the loop exactly when page `k` holds an older
   * item, or when it is not the first and leaves `$maxId` where the previous iteration put it,
   * whether it accepted nothing or its last accepted item is the previous cursor item.
   */
  lemma StallGuard(pages: seq<Page>, cutoff: int, k: nat)
    requires !After(pages, cutoff, k).finished
    ensures After(pages, cutoff, k + 1).finished <==>
      FreshCount(PageAt(pages, k), cutoff) < |PageAt(pages, k)|
      || (k >= 1 && After(pages, cutoff, k + 1).maxId == After(pages, cutoff, k).maxId)
  {
  }

  /** A later iteration that leaves `$maxId` unchanged is the last: the run makes `k + 1` requests. */
  lemma {:induction false} StallEndsRun(pages: seq<Page>, cutoff: int, k: nat)
    requires k >= 1 && !After(pages, cutoff, k).finished
    requires Step(pages, cutoff, After(pages, cutoff, k)).maxId == After(pages, cutoff, k).maxId
    ensures Run(pages, cutoff, Start).calls == k + 1
  {
    var s := After(pages, cutoff, k);
    var t := Step(pages, cutoff, s);
    assert t.finished;
    assert Run(pages, cutoff, s) == Run(pages, cutoff, t) == t;
  }

  /**
   * Why a run ends: its last request is iteration `k`, which was live, and page `k` held an
   * older item or (not being the first) left `$maxId` unchanged.
   */
  lemma {:induction false} RunEndReason(pages: seq<Page>, cutoff: int)
    ensures Run(pages, cutoff, Start).calls >= 1
    ensures !After(pages, cutoff, Run(pages, cutoff, Start).calls - 1).finished
    ensures After(pages, cutoff, Run(pages, cutoff, Start).calls) == Run(pages, cutoff, Start)
    ensures
      var k := Run(pages, cutoff, Start).calls - 1;
      FreshCount(PageAt(pages, k), cutoff) < |PageAt(pages, k)|
      || (k >= 1 && Run(pages, cutoff, Start).maxId == After(pages, cutoff, k).maxId)
  {
    var t := Run(pages, cutoff, Start);
    RunMakesARequest(pages, cutoff);
    var k: nat := t.calls - 1;
    FinishedAfterIsEnd(pages, cutoff, k + 1);
    LiveBeforeEnd(pages, cutoff, k);
    StallGuard(pages, cutoff, k);
    assert After(pages, cutoff, k + 1) == t;
  }

  /** A finished state reached after `k` iterations is the end of the run. */
  lemma FinishedAfterIsEnd(pages: seq<Page>, cutoff: int, k: nat)
    requires k == Run(pages, cutoff, Start).calls
    ensures After(pages, cutoff, k) == Run(pages, cutoff, Start)
  {
    var a := After(pages, cutoff, k);
    if !a.finished {
      assert false;
    }
    assert Run(pages, cutoff, a) == a;
  }

  /** The loop makes at least one request. */
  lemma RunMakesARequest(pages: seq<Page>, cutoff: int)
    ensures Run(pages, cutoff, Start).calls >= 1
  {
    assert !Start.finished;
  }

  /** One iteration before its end, the run is still live. */
  lemma LiveBeforeEnd(pages: seq<Page>, cutoff: int, k: nat)
    requires k + 1 == Run(pages, cutoff, Start).calls
    ensures !After(pages, cutoff, k).finished
  {
    var b := After(pages, cutoff, k);
    if b.finished {
      assert false;
    }
  }
}
