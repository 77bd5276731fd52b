/**
 * The decision rules of the swap form (src/features/tokenSwap/TokenSwapForm.tsx):
 * which pair and tokens it starts with, which pair it quotes, how it
 * replaces the output token, when it approves instead of swapping, and when
 * the button is disabled and what it says. Polled values (the quote, the
 * allowance, the balance), the connected account and the clock are inputs.
 */
module SwapForm {
  import opened Wrappers
  import opened Types
  import opened Seqs
  import opened SwapApi
  import SubgraphApi
  import SwapSlice

  /** Seconds a swap may take before the router rejects it. */
  const TX_TIMEOUT_SECONDS: nat := 600

  /** JavaScript truthiness of an optional string. */
  predicate Present(s: Option<string>) { s.Some? && s.value != "" }

  // ---------------------------------------------------------------------------
  // Defaults and lookups.

  /** `fstPair`: the first pair whose `token0` is WETH, else `pairs[0]`. */
  function FirstPair(pairs: seq<Pair>): (r: Option<Pair>)
    ensures r.None? <==> pairs == []
    ensures (forall k :: 0 <= k < |pairs| ==> pairs[k].token0.id != WETH) && pairs != [] ==> r == Some(pairs[0])
    ensures (exists k :: 0 <= k < |pairs| && pairs[k].token0.id == WETH) ==>
      exists k :: 0 <= k < |pairs| && r == Some(pairs[k]) && pairs[k].token0.id == WETH &&
        forall j :: 0 <= j < k ==> pairs[j].token0.id != WETH
  {
    var i := FindIndex(pairs, (p: Pair) => p.token0.id == WETH);
    if i != -1 then Some(pairs[i])
    else if pairs != [] then Some(pairs[0])
    else None
  }

  /** The pair `fetchOutputAmount` quotes: the first one holding both
      selected tokens, in either order. */
  function QuotePair(pairs: seq<Pair>, token0: Token, token1: Token): (r: Option<Pair>)
    ensures r.None? <==> forall k :: 0 <= k < |pairs| ==> !SubgraphApi.Joins(pairs[k], token0.id, token1.id)
    ensures r.Some? ==> exists i :: (0 <= i < |pairs| && r.value == pairs[i] &&
      SubgraphApi.Joins(pairs[i], token0.id, token1.id) &&
      forall j :: 0 <= j < i ==> !SubgraphApi.Joins(pairs[j], token0.id, token1.id))
  {
    var i := SubgraphApi.FindJoiningPair(pairs, token0.id, token1.id);
    if i == -1 then None else Some(pairs[i])
  }

  /** The lookup does not depend on which token is the input. */
  lemma QuotePairIsUnordered(pairs: seq<Pair>, a: Token, b: Token)
    ensures QuotePair(pairs, a, b) == QuotePair(pairs, b, a)
  {
    var i := SubgraphApi.FindJoiningPair(pairs, a.id, b.id);
    var j := SubgraphApi.FindJoiningPair(pairs, b.id, a.id);
    assert forall k :: 0 <= k < |pairs| ==>
      (SubgraphApi.Joins(pairs[k], a.id, b.id) <==> SubgraphApi.Joins(pairs[k], b.id, a.id));
  }

  /** `fetchOutputAmount`: nothing without an account, an input amount and
      both tokens, or without a pair for them; otherwise the quote on that
      pair. `reserves` gives each pair contract's `getReserves`. */
  function FetchOutputAmount(account: Option<string>, inputAmount: string, token0: Option<Token>, token1: Option<Token>,
                             pairs: seq<Pair>, fromRaw: (string, nat) -> nat,
                             reserves: string -> (nat, nat)): (r: Option<Result<nat, QuoteError>>)
    ensures r.Some? <==> (Present(account) && inputAmount != "" && token0.Some? && token1.Some? &&
                          QuotePair(pairs, token0.value, token1.value).Some?)
    ensures r.Some? ==> r.value != Failure(InvalidPairing)
    ensures r.Some? ==> var p := QuotePair(pairs, token0.value, token1.value).value;
      r.value == GetOutputAmount(p, token0.value.id, inputAmount, fromRaw, reserves(p.id).0, reserves(p.id).1)
  {
    if Present(account) && inputAmount != "" && token0.Some? && token1.Some? then
      match QuotePair(pairs, token0.value, token1.value)
      case Some(pair) =>
        var (reserve0, reserve1) := reserves(pair.id);
        Some(GetOutputAmount(pair, token0.value.id, inputAmount, fromRaw, reserve0, reserve1))
      case None => None
    else None
  }

  // ---------------------------------------------------------------------------
  // The output token.

  /** `otherToken`: the pairable token with `token1`'s id if there is one,
      else the only pairable token, else none. */
  function OtherToken(pairable: seq<Token>, token1: Token): (r: Option<Token>)
    ensures r.Some? ==> r.value in pairable
    ensures (exists k :: 0 <= k < |pairable| && pairable[k].id == token1.id) ==>
      exists i :: 0 <= i < |pairable| && r == Some(pairable[i]) && pairable[i].id == token1.id &&
        forall j :: 0 <= j < i ==> pairable[j].id != token1.id
    ensures (forall k :: 0 <= k < |pairable| ==> pairable[k].id != token1.id) ==>
      r == if |pairable| == 1 then Some(pairable[0]) else None
  {
    var i := FindIndex(pairable, (t: Token) => t.id == token1.id);
    if i != -1 then Some(pairable[i])
    else if |pairable| == 1 then Some(pairable[0])
    else None
  }

  /** `token1` after the render-time `setToken1`: replaced only by a defined
      `otherToken` with a different id. */
  function NextToken1(pairable: seq<Token>, token1: Token): (r: Token)
    ensures r == token1 || (r in pairable && r.id != token1.id)
    ensures r == if (forall k :: 0 <= k < |pairable| ==> pairable[k].id != token1.id) && |pairable| == 1
                 then pairable[0] else token1
  {
    var other := OtherToken(pairable, token1);
    if other.Some? && other.value.id != token1.id then other.value else token1
  }

  /** A pairable `token1` is kept, and the replacement is stable: the next
      render does not call `setToken1` again. */
  lemma Token1Settles(pairable: seq<Token>, token1: Token)
    ensures (exists k :: 0 <= k < |pairable| && pairable[k].id == token1.id) ==> NextToken1(pairable, token1) == token1
    ensures NextToken1(pairable, NextToken1(pairable, token1)) == NextToken1(pairable, token1)
  {
    var t := NextToken1(pairable, token1);
    if t != token1 {
      assert t in pairable;
      var k :| 0 <= k < |pairable| && pairable[k] == t;
      assert pairable[k].id == t.id;
    }
  }

  // ---------------------------------------------------------------------------
  // Approval.

  /** `fetchAllowance`: the `allowance` call it issues, if any; never for WETH. */
  function FetchAllowance(account: Option<string>, inputAmount: string, token0: Option<Token>): (r: Option<ChainCall>)
    ensures r.None? <==> !Present(account) || inputAmount == "" || token0.None? || IsWeth(token0.value)
    ensures r.Some? ==> (r.value.TokenCall? && r.value.token == token0.value.id &&
                         r.value.erc20 == Allowance(account.value, UNISWAP_V2_ROUTER02))
  {
    if Present(account) && inputAmount != "" && token0.Some? && token0.value.id != WETH then
      Some(AllowanceCall(token0.value.id, account.value))
    else None
  }

  /** `isApprovalNeeded`: no allowance known, or a zero one. */
  predicate IsApprovalNeeded(allowance: Option<nat>) {
    allowance.None? || allowance.value == 0
  }

  /** Whether the form approves rather than swaps: WETH is never approved. */
  predicate ApprovesFirst(token0: Token, isApprovalNeeded: bool) {
    token0.id != WETH && isApprovalNeeded
  }

  /** A token approved once by the signer is never approved again: the
      allowance then reads `MaxUint256`, which is not zero. */
  lemma NoSecondApproval(ledger: Allowances, token0: Token, account: string, inputAmount: string)
    requires account != "" && inputAmount != "" && !IsWeth(token0)
    ensures var read := FetchAllowance(Some(account), inputAmount, Some(token0)).value;
      var after := ApplyApprove(ledger, account, ApproveCall(token0));
      !ApprovesFirst(token0, IsApprovalNeeded(Some(ReadAllowance(after, read))))
  {
    AllowanceAfterApprove(ledger, token0, account);
  }

  // ---------------------------------------------------------------------------
  // Submitting.

  /** The guard of `swapOrApprove`: an account, an input amount, a nonzero quote. */
  predicate CanSubmit(account: Option<string>, inputAmount: string, outputAmount: Option<nat>) {
    Present(account) && inputAmount != "" && outputAmount.Some? && outputAmount.value != 0
  }

  /** `swapOrApprove`: send an approval or a swap, then start awaiting the
      transaction, recorded with `token0` as its associated token. `sent` is
      the call the form sends. `txHash` is the hash the wallet returns for it,
      or `None` when the send throws (the wallet refuses, the RPC fails): the
      awaited call then rejects before anything is dispatched. `signer` is
      the signer's address and `nowSeconds` the clock in whole seconds. */
  method SwapOrApprove(store: SwapSlice.TokenSwapStore, account: Option<string>, inputAmount: string,
                       outputAmount: Option<nat>, token0: Token, token1: Token, isApprovalNeeded: bool,
                       fromRaw: (string, nat) -> nat, signer: string, nowSeconds: nat, txHash: Option<string>)
    returns (sent: Option<ChainCall>)
    requires store.Valid()
    modifies store
    ensures store.Valid()
    ensures sent.None? <==> !CanSubmit(account, inputAmount, outputAmount)
    ensures sent.None? || txHash.None? ==> store.transactions == old(store.transactions)
    ensures sent.Some? && ApprovesFirst(token0, isApprovalNeeded) ==>
      sent == Some(ApproveCall(token0)) &&
      (txHash.Some? ==>
         store.transactions == SwapSlice.Added(old(store.transactions), StoreTransaction(txHash.value, Approval, Some(token0.id))))
    ensures sent.Some? && !ApprovesFirst(token0, isApprovalNeeded) ==>
      sent == Some(SwapExactForVolatile(inputAmount, fromRaw, outputAmount.value, token0, token1,
                                        nowSeconds + TX_TIMEOUT_SECONDS, signer)) &&
      (txHash.Some? ==>
         store.transactions == SwapSlice.Added(old(store.transactions), StoreTransaction(txHash.value, Swap, Some(token0.id))))
  {
    sent := None;
    if CanSubmit(account, inputAmount, outputAmount) {
      var tx: ChainCall;
      var transactionType: StoreTransactionType;
      if token0.id != WETH && isApprovalNeeded {
        tx := ApproveCall(token0);
        transactionType := Approval;
      } else {
        var deadline := nowSeconds + TX_TIMEOUT_SECONDS;
        tx := SwapExactForVolatile(inputAmount, fromRaw, outputAmount.value, token0, token1, deadline, signer);
        transactionType := Swap;
      }
      sent := Some(tx);
      if txHash.Some? {
        var transaction := StoreTransaction(txHash.value, transactionType, Some(token0.id));
        store.Dispatch(SwapSlice.Pending(transaction));
      }
    }
  }

  // ---------------------------------------------------------------------------
  // The button.

  /** `insufficientBalance`: the converted input exceeds the balance. */
  predicate InsufficientBalance(inputAmount: string, token0: Option<Token>, balance: nat, fromRaw: (string, nat) -> nat) {
    inputAmount != "" && token0.Some? && fromRaw(inputAmount, token0.value.decimals) > balance
  }

  /** `isSwapButtonDisabled`, with its five disjuncts as the source lists them. */
  function IsSwapButtonDisabled(inputAmount: string, insufficientBalance: bool, outputAmount: Option<nat>): (disabled: bool)
    ensures disabled <==> inputAmount == "" || insufficientBalance || outputAmount.None? || outputAmount.value == 0
  {
    var isInputAmountChanging := inputAmount == "";
    isInputAmountChanging || insufficientBalance || inputAmount == "" || outputAmount.None? || outputAmount.value == 0
  }

  /** The button's caption. */
  function SwapButtonCaption(insufficientBalance: bool, token0: Option<Token>, isApprovalNeeded: bool): (caption: string)
    ensures insufficientBalance ==> caption == "Insufficient balance"
    ensures caption == "Swap" || caption == "Insufficient balance" || (token0.Some? && caption == "Approve " + token0.value.symbol)
  {
    if insufficientBalance then "Insufficient balance"
    else if token0.Some? && token0.value.id != WETH && isApprovalNeeded then "Approve " + token0.value.symbol
    else "Swap"
  }

  /** An enabled button always does something when clicked with an account connected. */
  lemma EnabledButtonSubmits(account: Option<string>, inputAmount: string, insufficientBalance: bool, outputAmount: Option<nat>)
    requires Present(account)
    requires !IsSwapButtonDisabled(inputAmount, insufficientBalance, outputAmount)
    ensures CanSubmit(account, inputAmount, outputAmount)
  {}

  /** Unless the balance is short, the caption names what a click sends:
      "Approve <symbol>" exactly when `swapOrApprove` approves. */
  lemma CaptionMatchesAction(token0: Option<Token>, isApprovalNeeded: bool)
    ensures SwapButtonCaption(false, token0, isApprovalNeeded) ==
      (if token0.Some? && ApprovesFirst(token0.value, isApprovalNeeded) then "Approve " + token0.value.symbol else "Swap")
  {}

  /** WETH input is never offered for approval, although its allowance is
      never fetched and so always counts as needed. */
  lemma WethIsNeverApproved(account: Option<string>, inputAmount: string, token0: Token)
    requires IsWeth(token0)
    ensures FetchAllowance(account, inputAmount, Some(token0)).None?
    ensures IsApprovalNeeded(None)
    ensures !ApprovesFirst(token0, IsApprovalNeeded(None))
    ensures SwapButtonCaption(false, Some(token0), IsApprovalNeeded(None)) == "Swap"
  {}
}
