/**
 * Cursor pagination as the three handlers do it: request a page, append its
 * items, stop when the page says there is nothing more, otherwise request
 * again with a cursor taken from the page. The remote side is a given
 * sequence of replies, one per request in order; `None` is a request that
 * raised (or one made after the given replies ran out).
 */
module Paging {
  import opened Values

  /** How one endpoint pages: the items of a page, whether to ask again, the
      cursor the next request carries, and the cursor of the first request. */
  datatype Pager<!P, !T, !C> = Pager(items: P -> seq<T>, more: P -> bool, cursor: P -> C, first: C)

  /** All items, in page order, up to and including the first page that does
      not ask for more; `None` if a request on the way failed. */
  function Collect<P, T, C>(pager: Pager<P, T, C>, replies: seq<Option<P>>): Option<seq<T>>
    decreases |replies|
  {
    if |replies| == 0 || replies[0].None? then None
    else
      var page := replies[0].value;
      if !pager.more(page) then Some(pager.items(page))
      else
        match Collect(pager, replies[1..])
        case None => None
        case Some(rest) => Some(pager.items(page) + rest)
  }

  /** The items of the first `n` replies, concatenated. */
  function Flatten<P, T, C>(pager: Pager<P, T, C>, replies: seq<Option<P>>, n: nat): seq<T>
    requires n <= |replies|
    requires forall i :: 0 <= i < n ==> replies[i].Some?
  {
    if n == 0 then [] else Flatten(pager, replies, n - 1) + pager.items(replies[n - 1].value)
  }

  /** The first `n` requests succeed, every page but the `n`-th asks for more,
      and the `n`-th does not. */
  ghost predicate StopsAfter<P, T, C>(pager: Pager<P, T, C>, replies: seq<Option<P>>, n: nat)
  {
    && 0 < n <= |replies|
    && (forall i :: 0 <= i < n ==> replies[i].Some?)
    && (forall i :: 0 <= i < n - 1 ==> pager.more(replies[i].value))
    && !pager.more(replies[n - 1].value)
  }

  lemma {:induction false} FlattenShift<P, T, C>(pager: Pager<P, T, C>, replies: seq<Option<P>>, n: nat)
    requires 0 < n <= |replies|
    requires forall i :: 0 <= i < n ==> replies[i].Some?
    ensures Flatten(pager, replies, n) == pager.items(replies[0].value) + Flatten(pager, replies[1..], n - 1)
  {
    if n > 1 {
      FlattenShift(pager, replies, n - 1);
    }
  }

  /** A successful collection is exactly the pages up to the first one that
      does not ask for more, concatenated in order. */
  lemma {:induction false} CollectIsFlatten<P, T, C>(pager: Pager<P, T, C>, replies: seq<Option<P>>, n: nat)
    requires StopsAfter(pager, replies, n)
    ensures Collect(pager, replies) == Some(Flatten(pager, replies, n))
  {
    FlattenShift(pager, replies, n);
    if n == 1 {
      assert Flatten(pager, replies, 0) == [];
      assert Flatten(pager, replies, 1) == pager.items(replies[0].value);
    } else {
      assert pager.more(replies[0].value);
      assert StopsAfter(pager, replies[1..], n - 1) by {
        forall i | 0 <= i < n - 1 ensures replies[1..][i].Some? {
          assert replies[1..][i] == replies[i + 1];
        }
        forall i | 0 <= i < n - 2 ensures pager.more(replies[1..][i].value) {
          assert replies[1..][i] == replies[i + 1];
        }
      }
      CollectIsFlatten(pager, replies[1..], n - 1);
      assert Flatten(pager, replies[1..], n - 1) + [] == Flatten(pager, replies[1..], n - 1);
    }
  }

  /** A failed request anywhere before the stopping page fails the whole collection. */
  lemma {:induction false} CollectFailsOnFailedRequest<P, T, C>(pager: Pager<P, T, C>, replies: seq<Option<P>>, k: nat)
    requires k < |replies| && replies[k].None?
    requires forall i :: 0 <= i < k ==> replies[i].Some? && pager.more(replies[i].value)
    ensures Collect(pager, replies).None?
  {
    if k > 0 {
      CollectFailsOnFailedRequest(pager, replies[1..], k - 1);
    }
  }

  function Then<T>(prefix: seq<T>, o: Option<seq<T>>): Option<seq<T>>
  {
    match o
    case None => None
    case Some(rest) => Some(prefix + rest)
  }

  /** The `while True` loop of the handlers. `sent` lists the cursor each
      request carried, in order: the first carries `pager.first`, every later
      one the cursor of the page before it, which asked for more. */
  method CollectLoop<P, T, C>(pager: Pager<P, T, C>, replies: seq<Option<P>>)
    returns (result: Option<seq<T>>, sent: seq<C>)
    ensures result == Collect(pager, replies)
    ensures 0 < |sent| <= |replies| + 1
    ensures sent[0] == pager.first
    ensures forall k :: 0 <= k < |sent| - 1 ==>
              && replies[k].Some?
              && pager.more(replies[k].value)
              && sent[k + 1] == pager.cursor(replies[k].value)
  {
    var acc: seq<T> := [];
    var cursor := pager.first;
    var i := 0;
    sent := [];
    assert replies[0..] == replies;
    assert Then(acc, Collect(pager, replies)) == Collect(pager, replies) by {
      match Collect(pager, replies)
      case None =>
      case Some(all) => assert [] + all == all;
    }
    while true
      invariant 0 <= i <= |replies|
      invariant |sent| == i
      invariant Collect(pager, replies) == Then(acc, Collect(pager, replies[i..]))
      invariant i == 0 ==> cursor == pager.first
      invariant i > 0 ==> sent[0] == pager.first
      invariant i > 0 ==> && replies[i - 1].Some?
                          && pager.more(replies[i - 1].value)
                          && cursor == pager.cursor(replies[i - 1].value)
      invariant forall k :: 0 <= k < i - 1 ==>
                  && replies[k].Some?
                  && pager.more(replies[k].value)
                  && sent[k + 1] == pager.cursor(replies[k].value)
      decreases |replies| - i
    {
      sent := sent + [cursor];
      if i == |replies| || replies[i].None? {
        result := None;
        return;
      }
      var page := replies[i].value;
      assert replies[i..][1..] == replies[i + 1..];
      if !pager.more(page) {
        result := Some(acc + pager.items(page));
        return;
      }
      assert Then(acc, Collect(pager, replies[i..]))
          == Then(acc + pager.items(page), Collect(pager, replies[i + 1..])) by {
        match Collect(pager, replies[i + 1..])
        case None =>
        case Some(rest) => assert acc + (pager.items(page) + rest) == acc + pager.items(page) + rest;
      }
      acc := acc + pager.items(page);
      cursor := pager.cursor(page);
      i := i + 1;
    }
  }
}
