/**
  What `validatorsAll` guarantees, stated over the replies it received: how
  the accumulator is laid out, how the block height is pinned, and that the
  node's answers decide the whole run.
*/
module PaginationProperties {
  import opened Results
  import opened ValidatorPagination

  // ---------------------------------------------------------------------------
  // The accumulator: concatenation in arrival order
  // ---------------------------------------------------------------------------

  /** Accumulating two runs of pages one after the other concatenates their validators. */
  lemma {:induction false} FlattenAppend<V>(ps: seq<Page<V>>, qs: seq<Page<V>>)
    ensures Flatten(ps + qs) == Flatten(ps) + Flatten(qs)
    decreases |qs|
  {
    if qs == [] {
      assert ps + qs == ps;
    } else {
      var init := qs[..|qs| - 1];
      FlattenAppend(ps, init);
      assert (ps + qs)[..|ps + qs| - 1] == ps + init;
    }
  }

  /**
    The validators of page `i` sit, unchanged and contiguous, in the
    accumulator right after those of the pages before it: nothing is
    filtered, deduplicated or reordered.
  */
  lemma PageValidatorsInPlace<V>(pages: seq<Page<V>>, i: nat)
    requires i < |pages|
    ensures |Flatten(pages[..i])| + |pages[i].validators| <= |Flatten(pages)|
    ensures Flatten(pages)[|Flatten(pages[..i])| .. |Flatten(pages[..i])| + |pages[i].validators|] == pages[i].validators
  {
    FlattenAppend(pages[..i + 1], pages[i + 1..]);
    assert pages[..i + 1] + pages[i + 1..] == pages;
    assert pages[..i + 1][..i] == pages[..i];
  }

  // ---------------------------------------------------------------------------
  // The block height: set once, then held
  // ---------------------------------------------------------------------------

  /** A truthy height from the caller is used by every request and returned. */
  lemma {:induction false} PinnedByCaller<V>(h: Height, pages: seq<Page<V>>)
    requires Truthy(h)
    ensures Pinned(h, pages) == h
    decreases |pages|
  {
    if pages != [] {
      PinnedByCaller(h, pages[..|pages| - 1]);
    }
  }

  /** Once the height is truthy after the first `j` replies, no later reply changes it. */
  lemma {:induction false} PinnedSetOnce<V>(h: Height, pages: seq<Page<V>>, j: nat)
    requires j <= |pages|
    requires Truthy(Pinned(h, pages[..j]))
    ensures Pinned(h, pages) == Pinned(h, pages[..j])
    decreases |pages|
  {
    if j == |pages| {
      assert pages[..j] == pages;
    } else {
      var init := pages[..|pages| - 1];
      assert init[..j] == pages[..j];
      PinnedSetOnce(h, init, j);
    }
  }

  /** While neither the caller nor any reply supplied a truthy height, the height stays falsy. */
  lemma {:induction false} PinnedUnresolved<V>(h: Height, pages: seq<Page<V>>)
    requires !Truthy(h)
    requires forall j :: 0 <= j < |pages| ==> !Truthy(pages[j].blockHeight)
    ensures !Truthy(Pinned(h, pages))
    decreases |pages|
  {
    if pages != [] {
      PinnedUnresolved(h, pages[..|pages| - 1]);
    }
  }

  /**
    With a falsy caller height, the height is the one reported by the first
    reply whose height is truthy, for the request after that reply and every
    later one.
  */
  lemma PinnedFromFirstReport<V>(h: Height, pages: seq<Page<V>>, i: nat)
    requires !Truthy(h)
    requires i < |pages| && Truthy(pages[i].blockHeight)
    requires forall j :: 0 <= j < i ==> !Truthy(pages[j].blockHeight)
    ensures Pinned(h, pages) == pages[i].blockHeight
  {
    var upTo := pages[..i + 1];
    assert upTo[..i] == pages[..i];
    PinnedUnresolved(h, pages[..i]);
    PinnedSetOnce(h, pages, i + 1);
  }

  /** The returned `blockHeight` is 0 when no height was ever resolved. */
  lemma ResultHeightFallback<V>(pages: seq<Page<V>>)
    requires forall j :: 0 <= j < |pages| ==> !Truthy(pages[j].blockHeight)
    ensures OrZero(Pinned(Some(0), pages)) == 0
  {
    PinnedUnresolved(Some(0), pages);
  }

  // ---------------------------------------------------------------------------
  // The node's answers decide the run
  // ---------------------------------------------------------------------------

  /**
    Two reply sequences answered by the same answer function `fetch` agree on
    their common length, because each request depends only on earlier replies.
  */
  lemma {:induction false} RepliesAgree<V>(fetch: PageRequest -> Result<Page<V>, string>, height: int,
                                           p: seq<Page<V>>, q: seq<Page<V>>, k: nat)
    requires Answered(fetch, height, p) && Answered(fetch, height, q)
    requires k <= |p| && k <= |q|
    ensures p[..k] == q[..k]
    decreases k
  {
    if k > 0 {
      RepliesAgree(fetch, height, p, q, k - 1);
      assert fetch(RequestAfter(height, p[..k - 1])) == Success(p[k - 1]);
      assert fetch(RequestAfter(height, q[..k - 1])) == Success(q[k - 1]);
      assert p[..k] == p[..k - 1] + [p[k - 1]];
      assert q[..k] == q[..k - 1] + [q[k - 1]];
    }
  }

  /** Before the last page of a finished run, the accumulator was short of each page's total. */
  lemma ShortBeforeLast<V>(pages: seq<Page<V>>, k: nat)
    requires Finished(pages)
    requires 1 <= k < |pages|
    ensures |Flatten(pages[..k])| < pages[k - 1].total
  {
    assert pages[..|pages| - 1][..k] == pages[..k];
  }

  /**
    For a given answer function `fetch` there is at most one finished run:
    the answers alone decide the pages fetched and the result.
  */
  lemma RunIsUnique<V>(fetch: PageRequest -> Result<Page<V>, string>, height: int, p: seq<Page<V>>, q: seq<Page<V>>)
    requires Answered(fetch, height, p) && Finished(p)
    requires Answered(fetch, height, q) && Finished(q)
    ensures p == q
  {
    if |p| < |q| {
      ShortBeforeLast(q, |p|);
      assert p[..|p|] == p;
      RepliesAgree(fetch, height, p, q, |p|);
      assert false;
    } else if |q| < |p| {
      ShortBeforeLast(p, |q|);
      assert q[..|q|] == q;
      RepliesAgree(fetch, height, p, q, |q|);
      assert false;
    } else {
      RepliesAgree(fetch, height, p, q, |p|);
      assert p == p[..|p|] && q == q[..|q|];
    }
  }

  /**
    A run that has not finished is a strict prefix of every finished run
    against the same answers.
  */
  lemma UnfinishedIsPrefix<V>(fetch: PageRequest -> Result<Page<V>, string>, height: int, pages: seq<Page<V>>, q: seq<Page<V>>)
    requires Answered(fetch, height, pages) && KeepsGoing(pages)
    requires Answered(fetch, height, q) && Finished(q)
    ensures |pages| < |q| && pages == q[..|pages|]
  {
    if |pages| >= |q| {
      assert |Flatten(pages[..|q|])| < pages[|q| - 1].total;
      assert q[..|q|] == q;
      RepliesAgree(fetch, height, pages, q, |q|);
      assert false;
    }
    assert pages[..|pages|] == pages;
    RepliesAgree(fetch, height, pages, q, |pages|);
  }

  /**
    The bound on the number of pages costs nothing when the answers lead to a
    finished run within it: every outcome that `ValidatorsAll`'s contract
    allows is then `Returned`, after exactly the pages of that run.
  */
  lemma ReturnsWhenRunFinishes<V>(fetch: PageRequest -> Result<Page<V>, string>, height: int, maxPages: nat,
                                  outcome: Outcome<V>, pages: seq<Page<V>>, q: seq<Page<V>>)
    requires Answered(fetch, height, pages) && |pages| <= maxPages
    requires outcome.Returned? ==> Finished(pages)
    requires outcome.Threw? ==> KeepsGoing(pages) && fetch(RequestAfter(height, pages)) == Failure(outcome.message)
    requires outcome.OutOfPages? ==> KeepsGoing(pages) && |pages| == maxPages
    requires Answered(fetch, height, q) && Finished(q) && |q| <= maxPages
    ensures outcome.Returned? && pages == q
  {
    if outcome.Returned? {
      RunIsUnique(fetch, height, pages, q);
    } else {
      UnfinishedIsPrefix(fetch, height, pages, q);
    }
  }

  /**
    The first page is always fetched, and when it already meets its own total
    (say a total of 0) it is the only one.
  */
  lemma FirstPageMayBeLast<V>(fetch: PageRequest -> Result<Page<V>, string>, height: int, pages: seq<Page<V>>, first: Page<V>)
    requires fetch(RequestAfter<V>(height, [])) == Success(first)
    requires |first.validators| >= first.total
    requires Answered(fetch, height, pages) && Finished(pages)
    ensures pages == [first]
  {
    var one := [first];
    assert one[..0] == [];
    assert Flatten(one) == first.validators;
    assert Answered(fetch, height, one);
    assert Finished(one);
    RunIsUnique(fetch, height, pages, one);
  }
}
