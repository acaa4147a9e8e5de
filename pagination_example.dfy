/**
  A worked run of `validatorsAll`: a node with 120 validators served 50 per
  page, whose chain advances while it is paged through, so that every page
  reports a higher block height than the one before.
*/
module PaginationExample {
  import opened Results
  import opened ValidatorPagination
  import opened PaginationProperties

  /** How many validators the node has served once it has answered pages 1 to `n`. */
  function Served(n: nat): nat {
    if n == 0 then 0 else if n == 1 then 50 else if n == 2 then 100 else 120
  }

  /** Page `n` of the node: validators `Served(n - 1)` up to `Served(n)`, at block height 100 + `n`. */
  function NodePage(n: nat): Page<int> {
    var from := if n == 0 then 0 else Served(n - 1);
    var to := Served(n);
    Page(seq(if from <= to then to - from else 0, k => from + k), 120, Some(100 + n))
  }

  /** The node answers every request with the page it names, whatever height is asked for. */
  function GrowingNode(request: PageRequest): Result<Page<int>, string> {
    Success(NodePage(request.page))
  }

  /** The `i`-th reply of a run against the node is page `i + 1`. */
  lemma GrowingNodeReply(pages: seq<Page<int>>, i: nat)
    requires Answered(GrowingNode, 0, pages)
    requires i < |pages|
    ensures pages[i] == NodePage(i + 1)
  {
    assert GrowingNode(RequestAfter(0, pages[..i])) == Success(pages[i]);
  }

  /** The first `n` replies of a run against the node hold the first `Served(n)` validators, numbered from 0, in order. */
  lemma GrowingNodeReplies(pages: seq<Page<int>>, n: nat)
    requires Answered(GrowingNode, 0, pages)
    requires n <= |pages| && n <= 3
    ensures Flatten(pages[..n]) == seq(Served(n), k => k)
  {
    if n > 0 {
      GrowingNodeReplies(pages, n - 1);
      GrowingNodeReply(pages, n - 1);
      assert pages[..n][..n - 1] == pages[..n - 1];
      assert Flatten(pages[..n]) == Flatten(pages[..n - 1]) + pages[n - 1].validators;
    }
  }

  /** Against the node, a finished run with caller height 0 takes exactly the pages 1, 2 and 3. */
  lemma ThreePages(pages: seq<Page<int>>)
    requires Answered(GrowingNode, 0, pages) && Finished(pages)
    ensures |pages| == 3
  {
    if |pages| < 3 {
      assert pages[..|pages|] == pages;
      GrowingNodeReply(pages, |pages| - 1);
      GrowingNodeReplies(pages, |pages|);
      assert false;
    } else if |pages| > 3 {
      ShortBeforeLast(pages, 3);
      GrowingNodeReply(pages, 2);
      GrowingNodeReplies(pages, 3);
      assert false;
    }
  }

  /** Against the node, a finished run returns validators 0 to 119, in order. */
  lemma HundredTwentyInOrder(pages: seq<Page<int>>)
    requires Answered(GrowingNode, 0, pages) && Finished(pages)
    ensures Flatten(pages) == seq(120, k => k)
  {
    ThreePages(pages);
    GrowingNodeReplies(pages, 3);
    assert pages[..3] == pages;
  }

  /**
    Against the node, with a caller height of 0, the requests for pages 2
    and 3 and the result carry the height 101 of the first reply, not the
    later heights 102 and 103.
  */
  lemma HeightOfFirstReply(pages: seq<Page<int>>)
    requires Answered(GrowingNode, 0, pages) && Finished(pages)
    ensures |pages| == 3 && RequestAfter(0, pages[..1]).height == RequestAfter(0, pages[..2]).height == Some(101)
    ensures OrZero(Pinned(Some(0), pages)) == 101
  {
    ThreePages(pages);
    GrowingNodeReply(pages, 0);
    PinnedFromFirstReport(Some(0), pages[..1], 0);
    PinnedFromFirstReport(Some(0), pages[..2], 0);
    PinnedFromFirstReport(Some(0), pages, 0);
  }

  /**
    `validatorsAll(0)` against the node, allowed three pages: it returns 120
    validators with `count` and `total` 120 and block height 101.
  */
  method FetchFromGrowingNode() returns (outcome: Outcome<int>)
    ensures outcome.Returned?
    ensures outcome.value.count == outcome.value.total == 120
    ensures outcome.value.validators == seq(120, k => k)
    ensures outcome.value.blockHeight == 101
  {
    ghost var pages;
    outcome, pages := ValidatorsAll(GrowingNode, 0, 3);
    GrowingNodeReplies(pages, |pages|);
    assert pages[..|pages|] == pages;
    if outcome.Returned? {
      HundredTwentyInOrder(pages);
      HeightOfFirstReply(pages);
    }
  }
}
