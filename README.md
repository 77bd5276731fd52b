# Token swap through UniswapV2Router02 — a Dafny model

This project models the logic of a wallet-side front end that swaps ERC-20 tokens and ether through a Uniswap V2 pool. It covers five pieces:

- **Reserve quoter and router gateway** (`swap_api.dfy`). The quote is the constant-product formula with Uniswap's 0.3 % fee, `997·in·outRes div (997·in + 1000·inRes)`, computed once the pair's direction is resolved from the input token's address. The router minimum is `100·quote div 101`. The router entry point is picked by whether the input or the output token is WETH. The ERC-20 `approve` and `allowance` calls always name the UniswapV2Router02 address, and `approve` always grants `MaxUint256`; the effect on a token's allowances follows the approve and allowance methods of the "Methods" section of EIP-20.
- **Pending-transaction store** (`swap_slice.dfy`). A class holding the list of awaited transactions. The `pending` action of `awaitTransaction` adds a transaction unless its hash is stored; `fulfilled` and `rejected` filter the hash out. No two entries ever share a hash.
- **Subgraph loading state** (`subgraph_slice.dfy`). A class with `loading`, `error`, `pairs` and `tokens`, updated by `startLoading`, `stopLoading`, `receiveError` and the fulfilled case of `getTopPairs`.
- **Pair and token derivations** (`subgraph_api.dfy`). `getPairableTokens`, and the token list `fetchTopPairs` builds: collect both tokens of every pair, de-duplicate whole records, drop ALCHEMIST, sort WETH first and the rest by symbol.
- **Swap-form decision rules** (`swap_form.dfy`). The default pair, the quote-pair lookup, the output-token fallback, approve versus swap, the submit step, and the button's disabled state and caption.

`types.dfy` holds the records and the fixed addresses; `wrappers.dfy` the `Option`/`Result` types. `seqs.dfy` holds the `Array` operations the code relies on (`findIndex`, `filter`, de-duplication through a `Set`, `sort`).

Amounts are naturals in base units. Token, pair and transaction ids are opaque strings. Chain reads, the wallet's transaction hash, the signer's address and the clock are parameters. The decimal-string conversion `fromRawAmount` is the parameter `fromRaw`, and `localeCompare` is a parameter `symbolLe`, required to be a total preorder.

Behaviour of the code worth noting:
- The slippage minimum is `100·q div 101` of the quote `q`, with no tolerance parameter.
- A zero denominator makes BigNumber `div` throw; the model returns the `DivisionByZero` error there.
- A duplicate transaction hash makes `addTransaction` a no-op; the await of that duplicate is not rejected.
- The router address is a constant.
- No deadline check precedes the swap.

## Model

| member | source | states |
|---|---|---|
| SwapApi.Orient | src/features/tokenSwap/api.ts:45-59 | fails with InvalidPairing exactly when the input address is neither pair token; otherwise input and output token and reserves come from the side whose id matches, token0's side first |
| SwapApi.Quote | src/features/tokenSwap/api.ts:61-66 | fails exactly when input amount and input reserve are both 0; otherwise the result is the floor of `997·in·outRes / (997·in + 1000·inRes)`, characterised by `r·d <= n < (r+1)·d` |
| SwapApi.GetOutputAmount | src/features/tokenSwap/api.ts:40-69 | InvalidPairing when the input token is not in the pair; otherwise the quote on the reserves in input/output order, with the raw amount converted using the input token's decimals (the input-is-token1 case of tests/tokenSwapApi.ts:123-134) |
| SwapApi.QuoteOfZero | src/features/tokenSwap/api.ts:62-66 | a zero input quotes 0 whenever the input reserve is positive |
| SwapApi.QuoteBelowReserve | src/features/tokenSwap/api.ts:62-66 | with a positive input reserve the quote is defined and never exceeds the output reserve, and is strictly below it when that reserve is positive |
| SwapApi.QuoteMonotoneInInput | src/features/tokenSwap/api.ts:62-66 | a larger input never quotes less, and stays defined |
| SwapApi.QuoteAntitoneInInputReserve | src/features/tokenSwap/api.ts:62-66 | a larger input reserve never quotes more |
| SwapApi.QuoteMonotoneInOutputReserve | src/features/tokenSwap/api.ts:62-66 | a larger output reserve never quotes less |
| SwapApi.QuoteIgnoresPairOrder | src/features/tokenSwap/api.ts:51-59 | listing the pair's tokens and its reported reserves the other way round gives the same quote |
| SwapApi.SlippageAdjusted | src/features/tokenSwap/api.ts:112-114 | the router minimum is the floor of `100·q/101`, never above q, and below q by at most `(q+100)/101` |
| SwapApi.SlippageIsNotNinetyNinePercent | src/features/tokenSwap/api.ts:16-18 | on a quote of 1000000 the minimum is 990099, not the 990000 a 99/100 share would give |
| SwapApi.SwapExactForVolatile | src/features/tokenSwap/api.ts:108-155 | always a router call to UNISWAP_V2_ROUTER02 with path [input, output], gas limit 200000, the caller's deadline, the signer as recipient and the slippage-adjusted minimum; swapExactETHForTokens (input sent as value) iff the input is WETH, else swapExactTokensForETH iff the output is WETH, else swapExactTokensForTokens |
| SwapApi.ApproveCall | src/features/tokenSwap/api.ts:77-83 | an approve on the token's own contract granting UNISWAP_V2_ROUTER02 exactly MaxUint256 |
| SwapApi.AllowanceCall | src/features/tokenSwap/api.ts:71-75 | an allowance query on the token for owner → UNISWAP_V2_ROUTER02 |
| SwapApi.ApplyApprove | src/features/tokenSwap/api.ts:79-83 | an approve sets the sender's allowance for that spender to the amount, and every other (token, owner, spender) allowance reads as before |
| SwapApi.AllowanceAfterApprove | src/features/tokenSwap/api.ts:72-83 | after `approve(token)` by the signer, `allowance(token, signer)` reads MaxUint256 (the round trip of tests/tokenSwapApi.ts:143-148) |
| Seqs.FindIndex | src/features/tokenSwap/slice.ts:65 | -1 exactly when no element matches, else the first matching index |
| Seqs.Filter | src/features/tokenSwap/slice.ts:75 | keeps exactly the elements satisfying the predicate, each as often as in the input, as an order-preserving subsequence and sub-multiset of the input |
| Seqs.Dedupe | src/features/uniswapSubgraph/api.ts:63-73 | the same elements as the input, each exactly once, ordered by their first occurrence in the input, as a subsequence of it |
| Seqs.Sort | src/features/uniswapSubgraph/api.ts:75-79 | a permutation of the input, sorted by the comparator |
| SwapSlice.FindIndexByHash | src/features/tokenSwap/slice.ts:65 | -1 exactly when no stored entry has the hash, else the first entry that has it |
| SwapSlice.Added | src/features/tokenSwap/slice.ts:60-68 | appends the transaction at the end iff its hash is absent, otherwise no change; the hash is present afterwards and unique hashes stay unique |
| SwapSlice.Removed | src/features/tokenSwap/slice.ts:70-76 | no entry with the hash remains, every entry with another hash does, as often as before and in its original relative order |
| SwapSlice.RemovedKeepsUnique | src/features/tokenSwap/slice.ts:75 | removal keeps hashes pairwise distinct |
| SwapSlice.RemoveAbsent | src/features/tokenSwap/slice.ts:75 | removing an absent hash leaves the list unchanged |
| SwapSlice.RemoveIdempotent | src/features/tokenSwap/slice.ts:75 | removing a hash twice is the same as once |
| SwapSlice.RemovePresentShrinksByOne | src/features/tokenSwap/slice.ts:65-75 | with unique hashes, removing a stored hash drops exactly one entry |
| SwapSlice.RemoveJustAdded | src/features/tokenSwap/slice.ts:64-75 | appending a new hash and removing it restores the list exactly |
| SwapSlice.AwaitTransactionOutcome | src/features/tokenSwap/slice.ts:35-58 | as written the thunk always fulfils, whatever the duplicate check found and however the await ended; the payload is the receipt status when one was returned, else undefined |
| SwapSlice.IntendedAwaitTransactionOutcome | src/features/tokenSwap/slice.ts:32-34 | rejects exactly for a duplicate, a thrown await, an undefined status or status 0; fulfils with the nonzero status otherwise |
| SwapSlice.AwaitTransactionNeverRejects | src/features/tokenSwap/slice.ts:43-57 | a reverted receipt and a duplicate await fulfil as written but reject in the intended version |
| SwapSlice.Reduce | src/features/tokenSwap/slice.ts:84-88 | `pending` adds the transaction; both `fulfilled` and `rejected` remove its hash |
| SwapSlice.ReducePreservesUnique | src/features/tokenSwap/slice.ts:60-88 | every action keeps stored hashes pairwise distinct |
| SwapSlice.SettleThenReAdd | src/features/tokenSwap/slice.ts:85-87 | after either settlement the hash is absent, and a later `pending` with that hash appends it again |
| SwapSlice.DuplicateAwaitClearsOnFirstSettlement | src/features/tokenSwap/slice.ts:64-87 | for add(h), add(h), remove(h) the list gains one entry and then returns to its original value; the second settlement is a no-op |
| SwapSlice.TokenSwapStore.constructor | src/features/tokenSwap/slice.ts:14-16 | the store starts with no transactions |
| SwapSlice.TokenSwapStore.AddTransaction | src/features/tokenSwap/slice.ts:60-68 | the new list is `Added` of the old one, invariant kept |
| SwapSlice.TokenSwapStore.RemoveTransaction | src/features/tokenSwap/slice.ts:70-76 | the new list is `Removed` of the old one, invariant kept |
| SwapSlice.TokenSwapStore.Dispatch | src/features/tokenSwap/slice.ts:80-89 | the new list is `Reduce` of the old one, invariant kept |
| SwapSlice.TokenSwapStore.AwaitTransaction | src/features/tokenSwap/slice.ts:35-58 | one uninterrupted await: the duplicate check always sees the hash `pending` just added, the outcome is fulfilled, and the hash is absent afterwards |
| SubgraphApi.FindJoiningPair | src/features/uniswapSubgraph/api.ts:91-95 | -1 exactly when no pair holds the two ids in either order, else the first index of one that does |
| SubgraphApi.GetPairableTokens | src/features/uniswapSubgraph/api.ts:84-97 | exactly the tokens some pair joins with the input token, in either order, each as often as in the token list, as an order-preserving subsequence of it |
| SubgraphApi.PairableIsSymmetric | src/features/uniswapSubgraph/api.ts:91-95 | b is pairable with a iff a is pairable with b |
| SubgraphApi.CollectTokens | src/features/uniswapSubgraph/api.ts:63-69 | two tokens per pair, token0 then token1, in pair order; a token is collected iff some pair holds it |
| SubgraphApi.TokenOrder | src/features/uniswapSubgraph/api.ts:75-79 | `le(a, b)` is the comparator's `cmp(a, b) <= 0`: true when a is WETH, false when only b is WETH, otherwise the symbol order |
| SubgraphApi.IsListed | src/features/uniswapSubgraph/api.ts:74 | a token stays in the list unless its id is ALCHEMIST |
| SubgraphApi.TokenOrderIsTotalPreorder | src/features/uniswapSubgraph/api.ts:75-79 | the WETH-first comparator is total and transitive when the symbol order is |
| SubgraphApi.SortedPutsWethFirst | src/features/uniswapSubgraph/api.ts:75-79 | in the sorted list every WETH entry precedes every other, so WETH, if present, is first |
| SubgraphApi.FilteredUniqueTokens | src/features/uniswapSubgraph/api.ts:63-74 | after de-duplication and the ALCHEMIST filter, a token is listed iff some pair holds it and it is not ALCHEMIST, exactly once |
| SubgraphApi.SortedTokens | src/features/uniswapSubgraph/api.ts:75-79 | sorting keeps the same tokens, each once, and orders non-WETH tokens by symbol |
| SubgraphApi.TopPairsTokens | src/features/uniswapSubgraph/api.ts:62-79 | the token list holds every pair token except ALCHEMIST, each record once; WETH first; the rest by symbol |
| SubgraphSlice.GetTopPairsSettlement | src/features/uniswapSubgraph/slice.ts:28-38 | a fetched result fulfils with its pairs and tokens; a thrown error rejects with its message, which may be undefined |
| SubgraphSlice.Reduce | src/features/uniswapSubgraph/slice.ts:40-76 | `pending` sets loading and clears the error; either settlement clears loading; `fulfilled` replaces pairs and tokens and keeps the error; `rejected` sets the error to its payload and keeps pairs and tokens |
| SubgraphSlice.FetchSucceeded | src/features/uniswapSubgraph/slice.ts:40-74 | pending then fulfilled leaves exactly the fetched pairs and tokens, not loading, no error |
| SubgraphSlice.FetchFailed | src/features/uniswapSubgraph/slice.ts:33-61 | pending then rejected keeps the previous pairs and tokens, not loading, with the thrown message |
| SubgraphSlice.FirstFetch | src/features/uniswapSubgraph/slice.ts:15-19 | from the initial state one fetch ends not loading, with its result or with empty lists and its error |
| SubgraphSlice.UniswapSubgraphStore.constructor | src/features/uniswapSubgraph/slice.ts:15-19 | not loading, no error, empty pairs and tokens |
| SubgraphSlice.UniswapSubgraphStore.StartLoading | src/features/uniswapSubgraph/slice.ts:40-43 | loading is set, the error cleared, pairs and tokens untouched |
| SubgraphSlice.UniswapSubgraphStore.StopLoading | src/features/uniswapSubgraph/slice.ts:45-47 | loading is cleared, nothing else changes |
| SubgraphSlice.UniswapSubgraphStore.ReceiveError | src/features/uniswapSubgraph/slice.ts:49-61 | loading cleared and the error set to the payload, pairs and tokens untouched |
| SubgraphSlice.UniswapSubgraphStore.ReceivePairs | src/features/uniswapSubgraph/slice.ts:69-74 | loading cleared, pairs and tokens replaced, error untouched |
| SubgraphSlice.UniswapSubgraphStore.Dispatch | src/features/uniswapSubgraph/slice.ts:66-76 | the new state is `Reduce` of the old one |
| SubgraphSlice.UniswapSubgraphStore.GetTopPairs | src/features/uniswapSubgraph/slice.ts:28-38 | after one run loading is off; success leaves the result and no error, failure the old lists and the message |
| SwapForm.FirstPair | src/features/tokenSwap/TokenSwapForm.tsx:41-44 | the first pair whose token0 is WETH, else the first pair, and none only for no pairs |
| SwapForm.QuotePair | src/features/tokenSwap/TokenSwapForm.tsx:58-62 | the first listed pair holding both selected tokens in either order, or none when no pair does |
| SwapForm.QuotePairIsUnordered | src/features/tokenSwap/TokenSwapForm.tsx:58-62 | swapping the two selected tokens finds the same pair |
| SwapForm.FetchOutputAmount | src/features/tokenSwap/TokenSwapForm.tsx:55-67 | a quote exactly when there is an account, an input amount, both tokens and a pair for them; that quote is the pair's and never fails the pairing check |
| SwapForm.OtherToken | src/features/tokenSwap/TokenSwapForm.tsx:111-113 | the first pairable token with token1's id if any, else the single pairable token, else none |
| SwapForm.NextToken1 | src/features/tokenSwap/TokenSwapForm.tsx:115-117 | token1 is replaced exactly when no pairable token has its id and exactly one token is pairable, and then by that token; otherwise it is kept |
| SwapForm.Token1Settles | src/features/tokenSwap/TokenSwapForm.tsx:111-117 | a pairable token1 is kept, and after one replacement the next render replaces nothing |
| SwapForm.FetchAllowance | src/features/tokenSwap/TokenSwapForm.tsx:72-78 | no allowance query without account, input amount or token, or for WETH; otherwise owner → router on token0 |
| SwapForm.IsApprovalNeeded | src/features/tokenSwap/TokenSwapForm.tsx:137 | approval is needed when no allowance is known or it is zero |
| SwapForm.NoSecondApproval | src/features/tokenSwap/TokenSwapForm.tsx:69-78 | for any non-empty input amount, once the signer has approved a non-WETH token, the allowance read back makes approval unnecessary (line 137) |
| SwapForm.SwapOrApprove | src/features/tokenSwap/TokenSwapForm.tsx:140-166 | nothing without account, input and nonzero quote; else approve (non-WETH, approval needed) or swap with deadline now + 600 s, then, when the send returns a hash, `pending` of a record with that hash, that kind and token0 as associated token; a send that throws leaves the store unchanged |
| SwapForm.InsufficientBalance | src/features/tokenSwap/TokenSwapForm.tsx:175-176 | an input amount and token0 are present and the converted input exceeds the balance |
| SwapForm.IsSwapButtonDisabled | src/features/tokenSwap/TokenSwapForm.tsx:173-183 | disabled iff the input is empty, the balance is short, or the quote is missing or zero |
| SwapForm.SwapButtonCaption | src/features/tokenSwap/TokenSwapForm.tsx:185-192 | "Insufficient balance" takes precedence; the caption is otherwise "Approve <symbol>" or "Swap"; which one is stated by CaptionMatchesAction |
| SwapForm.EnabledButtonSubmits | src/features/tokenSwap/TokenSwapForm.tsx:141-183 | with an account, an enabled button always passes the guard of `swapOrApprove` |
| SwapForm.CaptionMatchesAction | src/features/tokenSwap/TokenSwapForm.tsx:146-192 | with enough balance the caption is "Approve <symbol>" exactly when a token0 is selected and a click approves it, else "Swap" (also when no token0 is selected yet) |
| SwapForm.WethIsNeverApproved | src/features/tokenSwap/TokenSwapForm.tsx:73-137 | for WETH no allowance is fetched, so approval counts as needed, yet no approval is sent and the caption is "Swap" |

## Left out

- `fromRawAmount` and `formatMoney` go through IEEE doubles. The model takes the conversion as the parameter `fromRaw` and has no display formatting. The NaN handling of the input field is left out too.
- Chain I/O is left out: `getBalance`, `balanceOf`, `getReserves`, the signer's address, the router and token transactions, and the receipt wait. Reserves, allowances, balances, the settlement, the hash and the signer are parameters.
- The Apollo client and the GraphQL query are left out, including the server-side UETH exclusion and the parsing of `decimals`.
- De-duplication compares whole records. The `JSON.stringify` key order that the source's string comparison also depends on is not modelled.
- `localeCompare` is locale-dependent. It is the parameter `symbolLe`, assumed to be a total preorder.
- `Array.prototype.sort` sorts a fresh array in place with the engine's own algorithm. Seqs.Sort is a stable insertion sort on a sequence. It states the same sortedness and permutation, but not the in-place update.
- Seqs.Sort: stability is not stated, although the body is stable, as `Array.prototype.sort` is. SubgraphApi.TopPairsTokens therefore does not state the relative order of two non-WETH tokens whose symbols compare equal.
- Redux Toolkit, immer, store setup and the interleaving of concurrent thunks are left out. Runs are sequences of reducer actions. `TokenSwapStore.AwaitTransaction` models one run with nothing in between.
- SWR polling, its pause flag, and the data it keeps after a failed fetch are left out. The quote and allowance the form sees are parameters.
- The clock is the parameter `nowSeconds`.
- Rendering, wallet connection, modals, debounced input, configuration and the WETH → "ETH" label are left out.
- The form's `token0`/`token1` before any pair exists are left out: where the source dereferences them, the model takes defined tokens.
- Amounts are unbounded. The uint256 range of on-chain amounts is only used for `MaxUint256`.
- `console.log` in `receiveError` is left out.
- SwapForm.SwapOrApprove: the promise rejection of a throwing send is not modelled; `txHash` is `None` for it and the store is left unchanged.
- QuoteBelowReserve: the strict bound is stated only for a positive output reserve. With an empty output reserve the quote is 0, which equals the reserve.

## Findings

| source | as written | input that shows it | evidently intended | confidence | as-written member | corrected member |
|---|---|---|---|---|---|---|
| src/features/tokenSwap/slice.ts:43-57 | the results of `rejectWithValue` are not returned, and the receipt status is never compared with 0, so `awaitTransaction` always fulfils | a receipt with status 0 (or a duplicate hash, or a thrown await) yields `fulfilled` | reject on a missing confirmation or status 0, as the comment at lines 32-34 says, and on a duplicate (line 44) or an exception (line 56), as the `rejectWithValue` calls that are discarded there show | not executed | SwapSlice.AwaitTransactionOutcome | SwapSlice.IntendedAwaitTransactionOutcome |

With ethers v5, `wait()` itself throws on a receipt with status 0. Such a receipt therefore reaches the `catch` and fulfils with `undefined` rather than with 0. The thunk still always fulfils.

**SwapSlice.AwaitTransactionNeverRejects** proves the difference on concrete inputs. The store is unaffected: `Reduce` removes the hash on `fulfilled` and on `rejected` alike. **SwapSlice.SettleThenReAdd** and **SwapSlice.DuplicateAwaitClearsOnFirstSettlement** hold for any outcome, so they hold under either version.

Redux Toolkit dispatches `pending` before the payload creator runs. The duplicate check on line 43 therefore always finds the hash (see `TokenSwapStore.AwaitTransaction`). A working duplicate check would have to look at the state from before `pending`. The `alreadyAwaiting` flag of the intended version means exactly that.
