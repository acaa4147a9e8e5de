# RPC client adapter: validator-set pagination and the ABCI query branch

This project models the logic of `RPCClient` in `src/lib/rpcClient.ts`, a
client of a CometBFT node's RPC endpoint. Most of that class hands one request
to an external codec and returns what the codec decodes. Two parts decide
anything themselves, and those are modelled:

- `validatorsAll(height)` pages through the node's `validators` endpoint. It
  asks for pages 1, 2, 3, … of 50 validators each. It appends every page's
  validators to one accumulator. It fixes the block height of the requests with
  `blockHeight = blockHeight || response.blockHeight`. It stops as soon as the
  accumulator holds at least the `total` that the latest page declared. It
  returns the pinned height (`?? 0`), the validators, and `count` and `total`,
  both equal to the number of validators. This is the method
  `ValidatorPagination.ValidatorsAll`, a `while` loop over the same local
  variables as the source. The single-page `validators` call is a function
  parameter `fetch`, from the request to the decoded page or the transport
  error raised. A function of the request is fully general here, because the
  loop never sends the same request twice: the page number strictly increases.
  So a node whose chain grows between pages is covered as well.
- `abciQuery` checks the parsed JSON-RPC 2.0 response. An error response
  (section 5.1 of the JSON-RPC 2.0 specification) makes the call throw the
  serialized error object. Any other response goes to the ABCI decoder. This is
  the function `AbciQuery.Query`.

The specification functions in `ValidatorPagination` describe a run by the
ghost sequence `pages` of replies received:

- `Flatten(pages)` is the accumulator.
- `Pinned(h, pages)` is the height variable after those replies.
- `RequestAfter(height, earlier)` is the request sent once `earlier` has
  arrived: height `Pinned(Some(height), earlier)`, page `|earlier| + 1`,
  `per_page` 50.
- `Answered` says that each reply is the node's answer to that request.
- `KeepsGoing` and `Finished` are the loop's exit test.

JavaScript values are modelled explicitly. A height is `Option<int>`, with
`None` for `undefined`. `Truthy`, `OrElse` and `OrZero` are `!!h`, `a || b` and
`h ?? 0`.

The height is not always the first reply's. `blockHeight || response.blockHeight`
keeps replacing it until it is truthy, so if page 1 reports a falsy height,
page 2's is used, and so on. `Pinned` and `PinnedFromFirstReport` state this.

Files:

- `results.dfy`: `Option` and `Result`.
- `validator_pagination.dfy`: the data model, the specification functions,
  `ValidatorsAll` and the lemmas its loop uses for one step.
- `pagination_properties.dfy`: the lemmas about the accumulator, the pinned
  height and the uniqueness of a run.
- `pagination_example.dfy`: a node with 120 validators whose height advances
  with every page, taken through the whole method.
- `abci_query.dfy`: the `abciQuery` branch.

## Model

| member | source | states |
|---|---|---|
| `ValidatorPagination.ValidatorsAll` | src/lib/rpcClient.ts:57-85 | Every request sent is `RequestAfter` the replies before it: pages 1, 2, 3, … with `per_page` 50 and the height pinned so far. It returns exactly when the accumulator first reaches the latest page's total, after at least one page. The returned validators are all pages' validators in arrival order. `count` and `total` both equal their number. `blockHeight` is the pinned height, or 0 if it is `undefined`. A nonzero caller height is returned unchanged. A failed page aborts the call with the error and no partial result. |
| `ValidatorPagination.Received` | src/lib/rpcClient.ts:64-70 | Step helper of the loop's proof: one more reply, to the request that is due, keeps every reply answered. Its other two clauses only unfold `Flatten` and `Pinned` by one page. |
| `ValidatorPagination.OrElse` | src/lib/rpcClient.ts:70 | JavaScript `a || b` on heights: the result is truthy exactly when at least one operand is. A truthy left operand is kept, otherwise the right one is taken. |
| `ValidatorPagination.OrZero` | src/lib/rpcClient.ts:80 | JavaScript `h ?? 0`: the returned height is 0 exactly when the height is falsy (never resolved), and a truthy height is returned unchanged. |
| `ValidatorPagination.GoesOn` | src/lib/rpcClient.ts:71-72 | When the accumulator is still below the new page's total, the loop continues and every page so far said "continue". |
| `ValidatorPagination.Stops` | src/lib/rpcClient.ts:73-74 | When the accumulator reaches the new page's total, the run is finished at that page and at no earlier one. |
| `PaginationProperties.FlattenAppend` | src/lib/rpcClient.ts:69 | Accumulating pages in two stretches gives the concatenation of the two accumulators. `push(...)` only appends. |
| `PaginationProperties.PageValidatorsInPlace` | src/lib/rpcClient.ts:69-83 | Page `i`'s validators appear unchanged and contiguous in the result, right after those of pages `0..i-1`. Nothing is filtered, deduplicated or reordered. |
| `PaginationProperties.PinnedByCaller` | src/lib/rpcClient.ts:61-70 | A truthy caller height is the height of every request and of the result, whatever the pages report. |
| `PaginationProperties.PinnedSetOnce` | src/lib/rpcClient.ts:70 | Once the height is truthy, no later reply changes it. |
| `PaginationProperties.PinnedUnresolved` | src/lib/rpcClient.ts:70 | While neither the caller nor any reply gave a truthy height, the height stays falsy. |
| `PaginationProperties.PinnedFromFirstReport` | src/lib/rpcClient.ts:61-70 | With a falsy caller height, the height is the one from the first reply whose height is truthy. It holds for every request after that reply and for the result. |
| `PaginationProperties.ResultHeightFallback` | src/lib/rpcClient.ts:79-80 | With caller height 0 and no reply reporting a truthy height, the returned `blockHeight` is 0. |
| `PaginationProperties.RepliesAgree` | src/lib/rpcClient.ts:63-70 | Two reply sequences answered by the same answer function `fetch` agree on their common length, because each request depends only on earlier replies. |
| `PaginationProperties.ShortBeforeLast` | src/lib/rpcClient.ts:71-75 | Step helper: unfolds `Finished` at one earlier page (the accumulator was below that page's total there). |
| `PaginationProperties.RunIsUnique` | src/lib/rpcClient.ts:63-76 | For a given answer function `fetch` there is at most one finished run. The answers alone decide the pages fetched and the result. |
| `PaginationProperties.UnfinishedIsPrefix` | src/lib/rpcClient.ts:63-76 | A run that has not yet met a page's total is a strict prefix of every finished run against the same answers. |
| `PaginationProperties.ReturnsWhenRunFinishes` | src/lib/rpcClient.ts:57-85 | When the answers lead to a finished run of at most `maxPages` pages, every outcome `ValidatorsAll`'s contract allows is `Returned`, after exactly that run's pages: the bound on pages loses nothing then. |
| `PaginationProperties.FirstPageMayBeLast` | src/lib/rpcClient.ts:60-75 | The first page is always fetched. When it already meets its own total (for example a total of 0), the run consists of that page alone. |
| `PaginationExample.ThreePages` | src/lib/rpcClient.ts:63-76 | Against a node with 120 validators served 50 per page, a finished run fetches exactly pages 1, 2 and 3. |
| `PaginationExample.HundredTwentyInOrder` | src/lib/rpcClient.ts:69-83 | That run returns validators 0 to 119 in page-arrival order. |
| `PaginationExample.HeightOfFirstReply` | src/lib/rpcClient.ts:61-70 | With caller height 0, the requests for pages 2 and 3 and the result use height 101 from page 1. The later heights 102 and 103 reported by the advancing chain are ignored. |
| `PaginationExample.FetchFromGrowingNode` | src/lib/rpcClient.ts:57-85 | `validatorsAll(0)` against that node returns 120 validators, `count` and `total` 120, and block height 101. |
| `PaginationExample.GrowingNodeReplies` | src/lib/rpcClient.ts:69 | The first `n` replies of that node accumulate the first 0, 50, 100 or 120 validators, numbered from 0, in order. |
| `AbciQuery.Query` | src/lib/rpcClient.ts:34-39 | The call fails exactly when the parsed response is a JSON-RPC error response. |
| `AbciQuery.ErrorResponseFails` | src/lib/rpcClient.ts:35-37 | An error response fails with the serialized error object. The outcome is the same for every decoder, so the decoder plays no part. |
| `AbciQuery.SuccessResponseDecodes` | src/lib/rpcClient.ts:39 | A success response yields the decoder's result for the whole envelope (its `id` and `result`). The error serializer plays no part. |

## Left out

- ValidatorPagination.ValidatorsAll: the source loop has no bound. A node that keeps answering with a total larger than what it has served makes it run forever. The model takes a bound `maxPages` and reports `OutOfPages` after that many pages. In that case its contract says only that every page fetched asked to continue.
- The constructor and its keep-alive HTTP/HTTPS agents (`src/lib/rpcClient.ts:13-17`): transport setup that has no behaviour this model could state.
- `blockResults`, `validators` and `commit` (`src/lib/rpcClient.ts:20-25, 42-55, 87-93`): each sends one request and returns what an external decoder makes of the reply. `validators` appears only as the `fetch` parameter of `ValidatorsAll`.
- The wire formats: JSON-RPC framing, `Params.encodeAbciQuery`, `parseJsonRpcResponse`, `Responses.decode*` and the CometBFT schemas belong to external libraries. `JSON.stringify` and the ABCI decoder are the parameters `stringify` and `decode` of `AbciQuery.Query`.
- AbciQuery.Query: a transport failure of the POST, a malformed envelope rejected by the parser and an exception in the decoder are not modelled. Each of them propagates unchanged in the source.
- `async`/`await` and calls interleaved on the shared connection: each call is one sequential step.
- JavaScript numbers are modelled as unbounded integers. `NaN`, fractional heights and totals, and the 53-bit precision limit are not modelled. In JavaScript `NaN` is falsy and compares false.
