/**
 * The records the front end passes around (src/app/types.ts,
 * src/features/tokenSwap/types.ts) and the fixed chain identifiers it
 * trusts (src/app/constants.ts).
 */
module Types {
  import opened Wrappers

  /** An ERC-20 token as reported by the subgraph; `decimals` is its precision. */
  datatype Token = Token(id: string, symbol: string, decimals: nat)

  /** A Uniswap V2 pair; `reserveUSD` is display-only. */
  datatype Pair = Pair(id: string, reserveUSD: string, token0: Token, token1: Token)

  /** What kind of transaction a store entry waits for. */
  datatype StoreTransactionType = Approval | Swap

  /** A transaction the store waits on; `associatedToken` is optional in the source. */
  datatype StoreTransaction = StoreTransaction(hash: string, kind: StoreTransactionType, associatedToken: Option<string>)

  /** Address of the UniswapV2Router02 contract that every swap and approval targets. */
  const UNISWAP_V2_ROUTER02: string := "0x7a250d5630B4cF539739dF2C5dAcb4c659F2488D"

  /** Token addresses of `TokenId`. */
  const ALCHEMIST: string := "0x88acdd2a6425c3faae4bc9650fd7e27e0bebb7ab"
  const WETH: string := "0xc02aaa39b223fe8d0a0e5c4f27ead9083c756cc2"

  /** ethers' `constants.MaxUint256`, that is 2^256 - 1. */
  const MAX_UINT256: nat := 0xffff_ffff_ffff_ffff_ffff_ffff_ffff_ffff_ffff_ffff_ffff_ffff_ffff_ffff_ffff_ffff

  /** Whether a token is wrapped ether, which the router treats as native ether. */
  predicate IsWeth(t: Token) { t.id == WETH }
}
