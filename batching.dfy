/**
 * The batch loops of the reconciliation: a list of ids is posted in slices of at most
 * `Limit` ids at ascending offsets, and the first response whose status code is not 200
 * ends the loop.
 */
module Batching {
  import opened Basics
  import opened Entities

  /** The most ids one bulk add or remove request may carry. */
  const Limit: nat := 100

  /** The status code of post number `k` (from 0): a post with no recorded response reads 0. */
  function Code(codes: seq<int>, k: nat): int
  {
    if k < |codes| then codes[k] else 0
  }

  /** Posts `first` to `first + n - 1` all answered 200. */
  predicate AllSucceeded(codes: seq<int>, first: nat, n: int)
  {
    forall k :: first <= k < first + n ==> Code(codes, k) == 200
  }

  /** The slices posted for `ids`: the first `Limit` ids, then the slices of the rest. */
  function Batches(ids: seq<UserId>): seq<seq<UserId>>
    decreases |ids|
  {
    if ids == [] then []
    else if |ids| <= Limit then [ids]
    else [ids[..Limit]] + Batches(ids[Limit..])
  }

  /** There are ceil(n / 100) slices. */
  lemma {:induction false} BatchesCount(ids: seq<UserId>)
    ensures |Batches(ids)| == (|ids| + Limit - 1) / Limit
    decreases |ids|
  {
    if |ids| > Limit {
      BatchesCount(ids[Limit..]);
    }
  }

  /** Slice `k` is `array_slice($ids, 100 * k, 100)`: it starts at offset 100 * k. */
  lemma {:induction false} BatchAt(ids: seq<UserId>, k: nat)
    requires k < |Batches(ids)|
    ensures k * Limit < |ids|
    ensures Batches(ids)[k] == ids[k * Limit .. Min(k * Limit + Limit, |ids|)]
    decreases k
  {
    if k > 0 {
      var rest := ids[Limit..];
      assert |ids| > Limit && Batches(ids)[k] == Batches(rest)[k - 1];
      BatchAt(rest, k - 1);
      assert (k - 1) * Limit + Limit == k * Limit;
      assert rest[(k - 1) * Limit .. Min(k * Limit, |rest|)] == ids[k * Limit .. Min(k * Limit + Limit, |ids|)];
    }
  }

  /** No slice is empty or longer than 100. */
  lemma BatchSizes(ids: seq<UserId>, k: nat)
    requires k < |Batches(ids)|
    ensures 0 < |Batches(ids)[k]| <= Limit
  {
    BatchAt(ids, k);
  }

  /** Together the slices are `ids`, each id once, in order. */
  lemma {:induction false} BatchesCover(ids: seq<UserId>)
    ensures Concat(Batches(ids)) == ids
    decreases |ids|
  {
    if |ids| > Limit {
      var rest := ids[Limit..];
      BatchesCover(rest);
      ConcatCons(ids[..Limit], Batches(rest));
      assert ids[..Limit] + rest == ids;
    } else if ids != [] {
      assert Concat([ids]) == Concat([ids][..0]) + ids;
    }
  }

  /** 250 ids go out as three posts of 100, 100 and 50 ids. */
  lemma TwoHundredFiftyIds(ids: seq<UserId>)
    requires |ids| == 250
    ensures |Batches(ids)| == 3
    ensures |Batches(ids)[0]| == 100 && |Batches(ids)[1]| == 100 && |Batches(ids)[2]| == 50
  {
    BatchesCount(ids);
    BatchAt(ids, 0);
    BatchAt(ids, 1);
    BatchAt(ids, 2);
  }

  /**
   * One batch loop, skipped when `ids` is empty. Post number `first + j` carries slice `j`;
   * the loop stops after the first post not answered with 200 and then reports failure.
   * `sent` is the slices posted, in order.
   */
  method ApplyBatches(ids: seq<UserId>, codes: seq<int>, first: nat) returns (ok: bool, sent: seq<seq<UserId>>)
    ensures |sent| <= |Batches(ids)| && sent == Batches(ids)[..|sent|]
    ensures AllSucceeded(codes, first, |sent| - 1)
    ensures ok <==> sent == Batches(ids) && AllSucceeded(codes, first, |sent|)
    ensures !ok ==> sent != [] && Code(codes, first + |sent| - 1) != 200
  {
    ok, sent := true, [];
    if ids == [] {
      return;
    }
    BatchesCount(ids);
    var offset := 0;
    var finished := false;
    while !finished
      invariant |sent| <= |Batches(ids)| && sent == Batches(ids)[..|sent|]
      invariant AllSucceeded(codes, first, |sent|)
      invariant !finished ==> offset == |sent| * Limit && offset < |ids|
      invariant finished ==> sent == Batches(ids)
      decreases |ids| - offset, !finished
    {
      var slice := ids[offset .. Min(offset + Limit, |ids|)];
      var code := Code(codes, first + |sent|);
      BatchAt(ids, |sent|);
      assert slice == Batches(ids)[|sent|];
      assert Batches(ids)[..|sent| + 1] == sent + [slice];
      sent := sent + [slice];
      if code != 200 {
        return false, sent;
      }
      if |ids| > offset + Limit {
        offset := offset + Limit;
      } else {
        finished := true;
        assert |sent| == |Batches(ids)|;
      }
    }
  }
}
