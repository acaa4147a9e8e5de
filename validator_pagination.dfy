/**
  The validator-set aggregation of the RPC client: `validatorsAll` fetches the
  pages of the node's `validators` endpoint one after the other, appends each
  page's validators to an accumulator, pins the block height to the first
  truthy height it sees, and stops once the accumulator holds at least the
  total that the latest page declared.

  The single-page `validators` call is an oracle `fetch` from the request to
  the node's decoded reply (or the transport error it raised).  The loop of
  the source has no bound; here it is given `maxPages` fetches and reports
  `OutOfPages` when it would need more.
*/
module ValidatorPagination {
  import opened Results

  /** A JavaScript `number` that may be `undefined` (`None`). */
  type Height = Option<int>

  /** JavaScript truthiness of a height: `undefined` and `0` are falsy. */
  predicate Truthy(h: Height) {
    h.Some? && h.value != 0
  }

  /**
    JavaScript `a || b`: `a` when it is truthy, otherwise `b`.  The result is
    truthy exactly when at least one of the operands is, and a truthy `a` is
    never replaced, which is what makes the loop's height set-once.
  */
  function OrElse(a: Height, b: Height): (r: Height)
    ensures Truthy(r) <==> Truthy(a) || Truthy(b)
    ensures Truthy(a) ==> r == a
    ensures !Truthy(a) ==> r == b
  {
    if Truthy(a) then a else b
  }

  /**
    JavaScript `h ?? 0`: only `undefined` is replaced.  The result is 0
    exactly when the height is falsy, and a truthy height comes out unchanged.
  */
  function OrZero(h: Height): (r: int)
    ensures r == 0 <==> !Truthy(h)
    ensures Truthy(h) ==> Some(r) == h
    ensures h.Some? ==> r == h.value
    ensures h.None? ==> r == 0
  {
    match h
    case Some(n) => n
    case None => 0
  }

  /** The page size every request of the aggregation asks for. */
  const PerPage: nat := 50

  /** The parameters of one `validators` call. */
  datatype PageRequest = PageRequest(height: Height, page: nat, perPage: nat)

  /** One decoded page: its validators, the declared total and the height it was computed at. */
  datatype Page<V> = Page(validators: seq<V>, total: int, blockHeight: Height)

  /** The record `validatorsAll` returns. */
  datatype AllValidators<V> = AllValidators(blockHeight: int, count: nat, total: nat, validators: seq<V>)

  /** How a call of `validatorsAll` ends. */
  datatype Outcome<V> =
    | Returned(value: AllValidators<V>)
    | Threw(message: string)  // a page fetch failed; nothing accumulated is returned
    | OutOfPages              // `maxPages` pages were fetched and the loop still wanted more

  /** The validators of `pages`, concatenated in the order the pages arrived. */
  function Flatten<V>(pages: seq<Page<V>>): seq<V>
    decreases |pages|
  {
    if pages == [] then [] else Flatten(pages[..|pages| - 1]) + pages[|pages| - 1].validators
  }

  /**
    The height variable of the loop after the replies `pages`, starting from
    `h`: each reply updates it with `blockHeight = blockHeight || reply.blockHeight`.
  */
  function Pinned<V>(h: Height, pages: seq<Page<V>>): Height
    decreases |pages|
  {
    if pages == [] then h else OrElse(Pinned(h, pages[..|pages| - 1]), pages[|pages| - 1].blockHeight)
  }

  /** The request the loop issues once it has received the replies `earlier`. */
  function RequestAfter<V>(height: int, earlier: seq<Page<V>>): PageRequest {
    PageRequest(Pinned(Some(height), earlier), |earlier| + 1, PerPage)
  }

  /** Every reply in `pages` is the node's answer to the request the loop sent for it. */
  ghost predicate Answered<V>(fetch: PageRequest -> Result<Page<V>, string>, height: int, pages: seq<Page<V>>) {
    forall i :: 0 <= i < |pages| ==> fetch(RequestAfter(height, pages[..i])) == Success(pages[i])
  }

  /** After each of `pages` the accumulator was still short of that page's declared total. */
  predicate KeepsGoing<V>(pages: seq<Page<V>>) {
    forall i :: 0 <= i < |pages| ==> |Flatten(pages[..i + 1])| < pages[i].total
  }

  /** The loop stops after the last of `pages` and after no earlier one. */
  predicate Finished<V>(pages: seq<Page<V>>) {
    && |pages| >= 1
    && KeepsGoing(pages[..|pages| - 1])
    && |Flatten(pages)| >= pages[|pages| - 1].total
  }

  /** A prefix of a sequence of pages, extended by one page. */
  lemma PrefixOfAppend<V>(pages: seq<Page<V>>, r: Page<V>, i: nat)
    requires i <= |pages|
    ensures (pages + [r])[..i] == pages[..i]
  {
  }

  /** What one more reply `r` to the next request does to the loop's state. */
  lemma Received<V>(fetch: PageRequest -> Result<Page<V>, string>, height: int, pages: seq<Page<V>>, r: Page<V>)
    requires Answered(fetch, height, pages)
    requires fetch(RequestAfter(height, pages)) == Success(r)
    ensures Answered(fetch, height, pages + [r])
    ensures Flatten(pages + [r]) == Flatten(pages) + r.validators
    ensures Pinned(Some(height), pages + [r]) == OrElse(Pinned(Some(height), pages), r.blockHeight)
  {
    var next := pages + [r];
    PrefixOfAppend(pages, r, |pages|);
    forall i | 0 <= i < |next|
      ensures fetch(RequestAfter(height, next[..i])) == Success(next[i])
    {
      PrefixOfAppend(pages, r, i);
    }
  }

  /** The loop goes on after one more reply `r` when the accumulator is still short of its total. */
  lemma GoesOn<V>(pages: seq<Page<V>>, r: Page<V>)
    requires KeepsGoing(pages)
    requires |Flatten(pages + [r])| < r.total
    ensures KeepsGoing(pages + [r])
  {
    var next := pages + [r];
    forall i | 0 <= i < |next|
      ensures |Flatten(next[..i + 1])| < next[i].total
    {
      if i < |pages| {
        PrefixOfAppend(pages, r, i + 1);
      } else {
        assert next[..i + 1] == next;
      }
    }
  }

  /** The loop stops after one more reply `r` once the accumulator reaches its total. */
  lemma Stops<V>(pages: seq<Page<V>>, r: Page<V>)
    requires KeepsGoing(pages)
    requires |Flatten(pages + [r])| >= r.total
    ensures Finished(pages + [r])
  {
    PrefixOfAppend(pages, r, |pages|);
  }

  /**
    `RPCClient.validatorsAll(height)`.  The ghost `pages` are the replies the
    loop received, in order.  Every request it sent is `RequestAfter` the
    replies before it: page numbers 1, 2, 3, ..., page size 50 and the height
    pinned so far.  It returns exactly when the latest page's total is reached,
    with all validators in arrival order, `count` and `total` both their number
    and the pinned height (or 0).
  */
  method ValidatorsAll<V>(fetch: PageRequest -> Result<Page<V>, string>, height: int, maxPages: nat)
    returns (outcome: Outcome<V>, ghost pages: seq<Page<V>>)
    ensures Answered(fetch, height, pages) && |pages| <= maxPages
    ensures outcome.Returned? ==> outcome.value.count == outcome.value.total == |outcome.value.validators|
    ensures outcome.Returned? && height != 0 ==> outcome.value.blockHeight == height
    ensures outcome.Returned? ==>
      && Finished(pages)
      && outcome.value.validators == Flatten(pages)
      && outcome.value.blockHeight == OrZero(Pinned(Some(height), pages))
    ensures outcome.Threw? ==>
      && KeepsGoing(pages) && |pages| < maxPages
      && fetch(RequestAfter(height, pages)) == Failure(outcome.message)
    ensures outcome.OutOfPages? ==> KeepsGoing(pages) && |pages| == maxPages
  {
    var validators: seq<V> := [];
    var page: nat := 1;
    var done := false;
    var blockHeight: Height := Some(height);
    pages := [];
    while !done
      invariant |pages| <= maxPages
      invariant page == if done then |pages| else |pages| + 1
      invariant validators == Flatten(pages)
      invariant blockHeight == Pinned(Some(height), pages)
      invariant height != 0 ==> blockHeight == Some(height)
      invariant Answered(fetch, height, pages)
      invariant done ==> Finished(pages)
      invariant !done ==> KeepsGoing(pages)
      decreases maxPages - |pages|
    {
      if page > maxPages {
        return OutOfPages, pages;
      }
      var reply := fetch(PageRequest(blockHeight, page, PerPage));
      if reply.Failure? {
        return Threw(reply.error), pages;
      }
      var response := reply.value;
      validators := validators + response.validators;
      blockHeight := OrElse(blockHeight, response.blockHeight);
      Received(fetch, height, pages, response);
      if |validators| < response.total {
        GoesOn(pages, response);
        page := page + 1;
      } else {
        Stops(pages, response);
        done := true;
      }
      pages := pages + [response];
    }
    outcome := Returned(AllValidators(OrZero(blockHeight), |validators|, |validators|, validators));
  }
}
