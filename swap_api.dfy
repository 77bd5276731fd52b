/**
 * The pure part of `TokenSwapApi` (src/features/tokenSwap/api.ts): the
 * reserve quoter, the slippage-adjusted minimum, the choice of router entry
 * point and the arguments of the ERC-20 approve/allowance calls. Chain reads
 * (reserves, balances) are parameters; the decimal-string conversion
 * `fromRawAmount` is the parameter `fromRaw`.
 */
module SwapApi {
  import opened Wrappers
  import opened Types

  /** Why a quote fails: the input token is not in the pair (the `invariant`),
      or BigNumber `div` throws on a zero denominator. */
  datatype QuoteError = InvalidPairing | DivisionByZero

  /** Uniswap V2's 0.3 % fee: 997 of every 1000 input units reach the pool. */
  const FEE_KEPT: nat := 997
  const FEE_SCALE: nat := 1000

  /** The router's minimum output is `100 / (100 + tolerance)` of the quote. */
  const SLIPPAGE_TOLERANCE_PERCENT: nat := 1

  /** Gas ceiling passed with every swap. */
  const SWAP_GAS_LIMIT: nat := 200000

  /** The pair seen from the input side: input/output token and their reserves. */
  datatype Orientation = Orientation(inputToken: Token, outputToken: Token, inputReserve: nat, outputReserve: nat)

  /** Resolves which side of `pair` is the input, given the reserves the pair
      contract reports in its own `token0`/`token1` order. */
  function Orient(pair: Pair, inputAddr: string, reserve0: nat, reserve1: nat): (r: Result<Orientation, QuoteError>)
    ensures r.Failure? <==> inputAddr != pair.token0.id && inputAddr != pair.token1.id
    ensures r.Failure? ==> r.error == InvalidPairing
    ensures r.Success? ==> r.value.inputToken.id == inputAddr
    ensures r.Success? && inputAddr == pair.token0.id ==>
      r.value == Orientation(pair.token0, pair.token1, reserve0, reserve1)
    ensures r.Success? && inputAddr != pair.token0.id ==>
      r.value == Orientation(pair.token1, pair.token0, reserve1, reserve0)
  {
    if inputAddr != pair.token0.id && inputAddr != pair.token1.id then
      Failure(InvalidPairing)
    else if pair.token0.id == inputAddr then
      Success(Orientation(pair.token0, pair.token1, reserve0, reserve1))
    else
      Success(Orientation(pair.token1, pair.token0, reserve1, reserve0))
  }

  // ---------------------------------------------------------------------------
  // Arithmetic facts used by the bounds below.

  /** `q` is the floor of `n / d`. */
  ghost predicate IsFloorQuotient(q: nat, n: nat, d: nat) {
    q * d <= n < (q + 1) * d
  }

  /** `n / d` is the floor of the quotient. */
  lemma FloorDiv(n: nat, d: nat)
    requires d > 0
    ensures IsFloorQuotient(n / d, n, d)
  {
    var q, m := n / d, n % d;
    assert n == q * d + m && 0 <= m < d;
    assert (q + 1) * d == q * d + d;
  }

  lemma MulLeftMono(x: nat, y: nat, k: nat)
    requires x <= y
    ensures x * k <= y * k
  {}

  /** A positive factor can be cancelled from an inequality. */
  lemma MulCancel(x: nat, y: nat, k: nat)
    requires k > 0 && x * k <= y * k
    ensures x <= y
  {
    assert (y + 1) * k == y * k + k;
    if x > y {
      MulLeftMono(y + 1, x, k);
    }
  }

  lemma MulSwap(q: nat, b: nat, d: nat)
    ensures (q * b) * d == (q * d) * b
  {}

  /** Floor division respects the order of the quotients it approximates. */
  lemma {:induction false} DivMono(a: nat, b: nat, c: nat, d: nat)
    requires b > 0 && d > 0
    requires a * d <= c * b
    ensures a / b <= c / d
  {
    var q := a / b;
    FloorDiv(a, b);
    MulLeftMono(q * b, a, d);
    MulSwap(q, b, d);
    MulCancel(q * d, c, b);
    var p := c / d;
    FloorDiv(c, d);
    if q > p {
      MulLeftMono(p + 1, q, d);
      assert false;
    }
  }

  /** The constant-product quote with the fee taken from the input side:
      `997·in·outRes div (997·in + 1000·inRes)`, failing where `div` throws. */
  function Quote(inputAmount: nat, inputReserve: nat, outputReserve: nat): (r: Result<nat, QuoteError>)
    ensures r.Failure? <==> inputAmount == 0 && inputReserve == 0
    ensures r.Failure? ==> r.error == DivisionByZero
    ensures r.Success? ==>
      IsFloorQuotient(r.value, FEE_KEPT * inputAmount * outputReserve, FEE_KEPT * inputAmount + FEE_SCALE * inputReserve)
  {
    var fee := FEE_KEPT * inputAmount;
    var denom := fee + FEE_SCALE * inputReserve;
    if denom == 0 then Failure(DivisionByZero)
    else
      FloorDiv(fee * outputReserve, denom);
      Success(fee * outputReserve / denom)
  }

  /** `getOutputAmount`: check membership, orient the pair, convert the raw
      input with the INPUT token's decimals, then quote. */
  function GetOutputAmount(pair: Pair, inputAddr: string, inputAmountRaw: string,
                           fromRaw: (string, nat) -> nat, reserve0: nat, reserve1: nat): (r: Result<nat, QuoteError>)
    ensures inputAddr != pair.token0.id && inputAddr != pair.token1.id ==> r == Failure(InvalidPairing)
    ensures inputAddr == pair.token0.id ==>
      r == Quote(fromRaw(inputAmountRaw, pair.token0.decimals), reserve0, reserve1)
    ensures inputAddr != pair.token0.id && inputAddr == pair.token1.id ==>
      r == Quote(fromRaw(inputAmountRaw, pair.token1.decimals), reserve1, reserve0)
  {
    var o :- Orient(pair, inputAddr, reserve0, reserve1);
    Quote(fromRaw(inputAmountRaw, o.inputToken.decimals), o.inputReserve, o.outputReserve)
  }

  // ---------------------------------------------------------------------------
  // Properties of the quote.

  /** Nothing in, nothing out, as long as the pool holds input reserves. */
  lemma QuoteOfZero(inputReserve: nat, outputReserve: nat)
    requires inputReserve > 0
    ensures Quote(0, inputReserve, outputReserve) == Success(0)
  {}

  /** A trade can never drain the output reserve. */
  lemma {:induction false} QuoteBelowReserve(inputAmount: nat, inputReserve: nat, outputReserve: nat)
    requires inputReserve > 0
    ensures Quote(inputAmount, inputReserve, outputReserve).Success?
    ensures Quote(inputAmount, inputReserve, outputReserve).value <= outputReserve
    ensures outputReserve > 0 ==> Quote(inputAmount, inputReserve, outputReserve).value < outputReserve
  {
    var fee := FEE_KEPT * inputAmount;
    var denom := fee + FEE_SCALE * inputReserve;
    var r := Quote(inputAmount, inputReserve, outputReserve).value;
    assert r * denom <= fee * outputReserve;
    if outputReserve > 0 {
      assert fee * outputReserve < denom * outputReserve by {
        assert denom * outputReserve == fee * outputReserve + FEE_SCALE * inputReserve * outputReserve;
      }
      if r >= outputReserve {
        MulLeftMono(outputReserve, r, denom);
        assert false;
      }
    } else {
      assert r * denom <= 0;
    }
  }

  /** Paying more never yields less. */
  lemma {:induction false} QuoteMonotoneInInput(x: nat, y: nat, inputReserve: nat, outputReserve: nat)
    requires x <= y
    requires Quote(x, inputReserve, outputReserve).Success?
    ensures Quote(y, inputReserve, outputReserve).Success?
    ensures Quote(x, inputReserve, outputReserve).value <= Quote(y, inputReserve, outputReserve).value
  {
    var fx, fy, k := FEE_KEPT * x, FEE_KEPT * y, FEE_SCALE * inputReserve;
    assert fx <= fy;
    var rk := outputReserve * k;
    MulLeftMono(fx, fy, rk);
    assert (fx * outputReserve) * (fy + k) == fx * outputReserve * fy + fx * rk;
    assert (fy * outputReserve) * (fx + k) == fy * outputReserve * fx + fy * rk;
    assert fx * outputReserve * fy == fy * outputReserve * fx;
    DivMono(fx * outputReserve, fx + k, fy * outputReserve, fy + k);
  }

  /** A deeper input reserve never yields more. */
  lemma {:induction false} QuoteAntitoneInInputReserve(inputAmount: nat, i: nat, j: nat, outputReserve: nat)
    requires i <= j
    requires Quote(inputAmount, i, outputReserve).Success?
    ensures Quote(inputAmount, j, outputReserve).Success?
    ensures Quote(inputAmount, j, outputReserve).value <= Quote(inputAmount, i, outputReserve).value
  {
    var f, ki, kj := FEE_KEPT * inputAmount, FEE_SCALE * i, FEE_SCALE * j;
    var a := f * outputReserve;
    assert ki <= kj;
    MulLeftMono(ki, kj, a);
    assert a * (f + ki) == a * f + ki * a;
    assert a * (f + kj) == a * f + kj * a;
    DivMono(a, f + kj, a, f + ki);
  }

  /** A deeper output reserve never yields less. */
  lemma {:induction false} QuoteMonotoneInOutputReserve(inputAmount: nat, inputReserve: nat, o: nat, p: nat)
    requires o <= p
    requires Quote(inputAmount, inputReserve, o).Success?
    ensures Quote(inputAmount, inputReserve, p).Success?
    ensures Quote(inputAmount, inputReserve, o).value <= Quote(inputAmount, inputReserve, p).value
  {
    var f := FEE_KEPT * inputAmount;
    var d := f + FEE_SCALE * inputReserve;
    MulLeftMono(o, p, f);
    MulLeftMono(f * o, f * p, d);
    assert f * o == o * f && f * p == p * f;
    DivMono(f * o, d, f * p, d);
  }

  /** Which pair side is stored first does not change the quote: the same
      pool listed the other way round, with its reserves reported the other
      way round, quotes the same amount. */
  lemma QuoteIgnoresPairOrder(pair: Pair, inputAddr: string, raw: string, fromRaw: (string, nat) -> nat,
                              reserve0: nat, reserve1: nat)
    requires pair.token0.id != pair.token1.id
    ensures GetOutputAmount(Pair(pair.id, pair.reserveUSD, pair.token1, pair.token0), inputAddr, raw, fromRaw, reserve1, reserve0)
         == GetOutputAmount(pair, inputAddr, raw, fromRaw, reserve0, reserve1)
  {}

  // ---------------------------------------------------------------------------
  // Slippage.

  /** The router's minimum output `100·q div 101`: never above the quote, and
      below it by at most a 1/101 share (rounded up), not 1/100. */
  function SlippageAdjusted(outputAmountMin: nat): (r: nat)
    ensures r <= outputAmountMin
    ensures r * (100 + SLIPPAGE_TOLERANCE_PERCENT) <= 100 * outputAmountMin
    ensures 100 * outputAmountMin < (r + 1) * (100 + SLIPPAGE_TOLERANCE_PERCENT)
    ensures 101 * (outputAmountMin - r) <= outputAmountMin + 100
  {
    100 * outputAmountMin / (100 + SLIPPAGE_TOLERANCE_PERCENT)
  }

  /** The minimum is the 100/101 share, which differs from a 99/100 share. */
  lemma SlippageIsNotNinetyNinePercent()
    // A 99/100 share of the same quote would be 990000.
    ensures SlippageAdjusted(1000000) == 990099
  {}

  // ---------------------------------------------------------------------------
  // Calls into the chain.

  /** The router entry points `swapExactForVolatile` can choose. For
      `SwapExactETHForTokens` the input amount travels as the call's `value`. */
  datatype SwapRoute =
    | SwapExactETHForTokens(amountOutMin: nat, path: seq<string>, to: string, deadline: nat, value: nat, gasLimit: nat)
    | SwapExactTokensForETH(amountIn: nat, amountOutMin: nat, path: seq<string>, to: string, deadline: nat, gasLimit: nat)
    | SwapExactTokensForTokens(amountIn: nat, amountOutMin: nat, path: seq<string>, to: string, deadline: nat, gasLimit: nat)

  /** The two EIP-20 methods the front end uses. */
  datatype Erc20Method = Approve(spender: string, amount: nat) | Allowance(owner: string, spender: string)

  /** A call sent to a contract: an ERC-20 token or the router. */
  datatype ChainCall = TokenCall(token: string, erc20: Erc20Method) | RouterCall(router: string, route: SwapRoute)

  /** `swapExactForVolatile`: the router call it issues. `signer` is the
      signer's address, `fromRaw` the decimal-string conversion. */
  function SwapExactForVolatile(inputAmountRaw: string, fromRaw: (string, nat) -> nat, outputAmountMin: nat,
                                inputToken: Token, outputToken: Token, deadline: nat, signer: string): (r: ChainCall)
    ensures r.RouterCall? && r.router == UNISWAP_V2_ROUTER02
    ensures r.route.path == [inputToken.id, outputToken.id]
    ensures r.route.gasLimit == SWAP_GAS_LIMIT && r.route.to == signer && r.route.deadline == deadline
    ensures r.route.amountOutMin == SlippageAdjusted(outputAmountMin) && r.route.amountOutMin <= outputAmountMin
    ensures r.route.SwapExactETHForTokens? <==> IsWeth(inputToken)
    ensures r.route.SwapExactTokensForETH? <==> !IsWeth(inputToken) && IsWeth(outputToken)
    ensures r.route.SwapExactTokensForTokens? <==> !IsWeth(inputToken) && !IsWeth(outputToken)
    ensures r.route.SwapExactETHForTokens? ==> r.route.value == fromRaw(inputAmountRaw, inputToken.decimals)
    ensures !r.route.SwapExactETHForTokens? ==> r.route.amountIn == fromRaw(inputAmountRaw, inputToken.decimals)
  {
    var path := [inputToken.id, outputToken.id];
    var inputAmount := fromRaw(inputAmountRaw, inputToken.decimals);
    var minimum := SlippageAdjusted(outputAmountMin);
    var route :=
      if inputToken.id == WETH then
        SwapExactETHForTokens(minimum, path, signer, deadline, inputAmount, SWAP_GAS_LIMIT)
      else if outputToken.id == WETH then
        SwapExactTokensForETH(inputAmount, minimum, path, signer, deadline, SWAP_GAS_LIMIT)
      else
        SwapExactTokensForTokens(inputAmount, minimum, path, signer, deadline, SWAP_GAS_LIMIT);
    RouterCall(UNISWAP_V2_ROUTER02, route)
  }

  /** `approve`: grants the router an allowance of exactly `MaxUint256`. */
  function ApproveCall(token: Token): (r: ChainCall)
    ensures r.TokenCall? && r.token == token.id
    ensures r.erc20 == Approve(UNISWAP_V2_ROUTER02, MAX_UINT256)
  {
    TokenCall(token.id, Approve(UNISWAP_V2_ROUTER02, MAX_UINT256))
  }

  /** `allowance`: asks how much the router may spend of `owner`'s tokens. */
  function AllowanceCall(tokenAddr: string, owner: string): (r: ChainCall)
    ensures r.TokenCall? && r.token == tokenAddr
    ensures r.erc20 == Allowance(owner, UNISWAP_V2_ROUTER02)
  {
    TokenCall(tokenAddr, Allowance(owner, UNISWAP_V2_ROUTER02))
  }

  // ---------------------------------------------------------------------------
  // The token side of these calls, as EIP-20's "Methods" section describes
  // approve and allowance: allowances keyed by (token, owner, spender).

  type Allowances = map<(string, string, string), nat>

  /** The allowance `allowance(owner, spender)` reports on `token`: zero when never set. */
  function AllowanceOf(ledger: Allowances, token: string, owner: string, spender: string): nat {
    if (token, owner, spender) in ledger then ledger[(token, owner, spender)] else 0
  }

  /** Effect of `sender` sending an `approve` call: the allowance is overwritten. */
  function ApplyApprove(ledger: Allowances, sender: string, call: ChainCall): (r: Allowances)
    requires call.TokenCall? && call.erc20.Approve?
    ensures AllowanceOf(r, call.token, sender, call.erc20.spender) == call.erc20.amount
    ensures forall t, o, s :: (t, o, s) != (call.token, sender, call.erc20.spender) ==>
      AllowanceOf(r, t, o, s) == AllowanceOf(ledger, t, o, s)
  {
    ledger[(call.token, sender, call.erc20.spender) := call.erc20.amount]
  }

  /** The value an `allowance` call returns. */
  function ReadAllowance(ledger: Allowances, call: ChainCall): nat
    requires call.TokenCall? && call.erc20.Allowance?
  {
    AllowanceOf(ledger, call.token, call.erc20.owner, call.erc20.spender)
  }

  /** After `approve(token)` by the signer, `allowance(token, signer)` reads `MaxUint256`. */
  lemma AllowanceAfterApprove(ledger: Allowances, token: Token, signer: string)
    ensures ReadAllowance(ApplyApprove(ledger, signer, ApproveCall(token)), AllowanceCall(token.id, signer)) == MAX_UINT256
  {}
}
