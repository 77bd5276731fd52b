/**
 * Derivations over the subgraph's pairs (src/features/uniswapSubgraph/api.ts):
 * which tokens can be paired with a given one, and the token list
 * `fetchTopPairs` builds from the pairs it receives. The query itself is
 * not part of this model; the pairs are an input.
 */
module SubgraphApi {
  import opened Types
  import opened Seqs

  /** Pair `p` has the ids `id` and `other` on its two sides, in either order. */
  predicate Joins(p: Pair, id: string, other: string) {
    (id == p.token0.id && other == p.token1.id) || (id == p.token1.id && other == p.token0.id)
  }

  /** `pairs.findIndex(...)` for a pair joining `id` with `other`. */
  function FindJoiningPair(pairs: seq<Pair>, id: string, other: string): (i: int)
    ensures -1 <= i < |pairs|
    ensures i == -1 <==> forall k :: 0 <= k < |pairs| ==> !Joins(pairs[k], id, other)
    ensures 0 <= i ==> Joins(pairs[i], id, other) && forall j :: 0 <= j < i ==> !Joins(pairs[j], id, other)
  {
    FindIndex(pairs, (p: Pair) => Joins(p, id, other))
  }

  /** `getPairableTokens`: the tokens of `tokens`, in their order, for which
      some pair joins them with `inputToken`. */
  function GetPairableTokens(inputToken: Token, tokens: seq<Token>, pairs: seq<Pair>): (r: seq<Token>)
    ensures forall t :: t in r <==>
      t in tokens && exists k :: 0 <= k < |pairs| && Joins(pairs[k], t.id, inputToken.id)
    ensures forall t: Token :: (exists k :: 0 <= k < |pairs| && Joins(pairs[k], t.id, inputToken.id)) ==>
      multiset(r)[t] == multiset(tokens)[t]
    ensures IsSubsequence(r, tokens)
    ensures |r| <= |tokens|
  {
    Filter(tokens, (t: Token) => FindJoiningPair(pairs, t.id, inputToken.id) != -1)
  }

  /** Pairing is symmetric: `b` is pairable with `a` exactly when `a` is with `b`. */
  lemma PairableIsSymmetric(a: Token, b: Token, pairs: seq<Pair>)
    ensures b in GetPairableTokens(a, [b], pairs) <==> a in GetPairableTokens(b, [a], pairs)
  {
    var ra := GetPairableTokens(a, [b], pairs);
    var rb := GetPairableTokens(b, [a], pairs);
    if b in ra {
      var k :| 0 <= k < |pairs| && Joins(pairs[k], b.id, a.id);
      assert Joins(pairs[k], a.id, b.id);
    }
    if a in rb {
      var k :| 0 <= k < |pairs| && Joins(pairs[k], a.id, b.id);
      assert Joins(pairs[k], b.id, a.id);
    }
  }

  // ---------------------------------------------------------------------------
  // The token list of `fetchTopPairs`.

  /** Some pair lists `t` (as a whole record) on either side. */
  ghost predicate InSomePair(t: Token, pairs: seq<Pair>) {
    exists k :: 0 <= k < |pairs| && (pairs[k].token0 == t || pairs[k].token1 == t)
  }

  /** The `reduce` that pushes `token0` and `token1` of every pair, in order. */
  method CollectTokens(pairs: seq<Pair>) returns (all: seq<Token>)
    ensures |all| == 2 * |pairs|
    ensures forall k :: 0 <= k < |pairs| ==> all[2 * k] == pairs[k].token0 && all[2 * k + 1] == pairs[k].token1
    ensures forall t :: t in all <==> InSomePair(t, pairs)
  {
    all := [];
    for i := 0 to |pairs|
      invariant |all| == 2 * i
      invariant forall k :: 0 <= k < i ==> all[2 * k] == pairs[k].token0 && all[2 * k + 1] == pairs[k].token1
    {
      all := all + [pairs[i].token0, pairs[i].token1];
    }
    forall t | t in all ensures InSomePair(t, pairs) {
      var j :| 0 <= j < |all| && all[j] == t;
      var k := j / 2;
      if j % 2 == 0 {
        assert all[2 * k] == pairs[k].token0;
      } else {
        assert all[2 * k + 1] == pairs[k].token1;
      }
    }
    forall t | InSomePair(t, pairs) ensures t in all {
      var k :| 0 <= k < |pairs| && (pairs[k].token0 == t || pairs[k].token1 == t);
      assert all[2 * k] == pairs[k].token0 && all[2 * k + 1] == pairs[k].token1;
    }
  }

  /** The comparator of the `sort`: WETH before anything, else by symbol. */
  function TokenOrder(symbolLe: (string, string) -> bool): (le: (Token, Token) -> bool) {
    (a: Token, b: Token) => a.id == WETH || (b.id != WETH && symbolLe(a.symbol, b.symbol))
  }

  lemma TokenOrderIsTotalPreorder(symbolLe: (string, string) -> bool)
    requires IsTotalPreorder(symbolLe)
    ensures IsTotalPreorder(TokenOrder(symbolLe))
  {
    var le := TokenOrder(symbolLe);
    forall a, b ensures le(a, b) || le(b, a) {
      if a.id != WETH && b.id != WETH {
        assert symbolLe(a.symbol, b.symbol) || symbolLe(b.symbol, a.symbol);
      }
    }
    forall a, b, c | le(a, b) && le(b, c) ensures le(a, c) {
      if a.id != WETH {
        assert b.id != WETH && symbolLe(a.symbol, b.symbol);
        assert c.id != WETH && symbolLe(b.symbol, c.symbol);
      }
    }
  }

  /** In a list sorted by `TokenOrder`, every WETH entry precedes every other one. */
  lemma {:induction false} SortedPutsWethFirst(s: seq<Token>, symbolLe: (string, string) -> bool)
    requires SortedBy(s, TokenOrder(symbolLe))
    ensures forall i, j :: 0 <= i < j < |s| && s[j].id == WETH ==> s[i].id == WETH
    ensures (exists k :: 0 <= k < |s| && s[k].id == WETH) ==> s[0].id == WETH
  {
    forall i, j | 0 <= i < j < |s| && s[j].id == WETH ensures s[i].id == WETH {
      assert TokenOrder(symbolLe)(s[i], s[j]);
    }
  }

  /** The `filter` of `fetchTopPairs`: ALCHEMIST is dropped from the list. */
  predicate IsListed(t: Token) { t.id != ALCHEMIST }

  /** What the list holds before sorting: every listed pair token, once. */
  lemma {:induction false} FilteredUniqueTokens(all: seq<Token>, pairs: seq<Pair>)
    requires forall t :: t in all <==> InSomePair(t, pairs)
    ensures forall t :: t in Filter(Dedupe(all), IsListed) <==> InSomePair(t, pairs) && IsListed(t)
    ensures NoDuplicates(Filter(Dedupe(all), IsListed))
  {
    FilterKeepsNoDuplicates(Dedupe(all), IsListed);
  }

  /** Sorting the list keeps its elements and orders non-WETH tokens by symbol. */
  lemma {:induction false} SortedTokens(kept: seq<Token>, symbolLe: (string, string) -> bool)
    requires IsTotalPreorder(symbolLe)
    requires NoDuplicates(kept)
    ensures IsTotalPreorder(TokenOrder(symbolLe))
    ensures var s := Sort(kept, TokenOrder(symbolLe));
      && (forall t :: t in s <==> t in kept)
      && NoDuplicates(s)
      && (forall i, j :: 0 <= i < j < |s| && s[i].id != WETH && s[j].id != WETH ==>
            symbolLe(s[i].symbol, s[j].symbol))
  {
    TokenOrderIsTotalPreorder(symbolLe);
    var s := Sort(kept, TokenOrder(symbolLe));
    assert multiset(s) == multiset(kept);
    assert forall t :: t in s <==> t in multiset(s);
    assert forall t :: t in kept <==> t in multiset(kept);
    forall i, j | 0 <= i < j < |s| && s[i].id != WETH && s[j].id != WETH
      ensures symbolLe(s[i].symbol, s[j].symbol)
    {
      assert TokenOrder(symbolLe)(s[i], s[j]);
    }
  }

  /** The post-query processing of `fetchTopPairs`: collect, de-duplicate by
      the whole record (the `JSON.stringify` round trip through a `Set`),
      drop ALCHEMIST, sort with WETH first and then by `symbolLe`, which
      stands for `localeCompare`. */
  method TopPairsTokens(pairs: seq<Pair>, symbolLe: (string, string) -> bool) returns (tokens: seq<Token>)
    requires IsTotalPreorder(symbolLe)
    ensures forall t :: t in tokens <==> InSomePair(t, pairs) && t.id != ALCHEMIST
    ensures NoDuplicates(tokens)
    ensures forall k :: 0 <= k < |tokens| ==> tokens[k].id != ALCHEMIST
    ensures SortedBy(tokens, TokenOrder(symbolLe))
    ensures (exists k :: 0 <= k < |tokens| && tokens[k].id == WETH) ==> tokens[0].id == WETH
    ensures forall i, j :: 0 <= i < j < |tokens| && tokens[i].id != WETH && tokens[j].id != WETH ==>
      symbolLe(tokens[i].symbol, tokens[j].symbol)
  {
    var all := CollectTokens(pairs);
    var unique := Dedupe(all);
    var kept := Filter(unique, IsListed);
    FilteredUniqueTokens(all, pairs);
    SortedTokens(kept, symbolLe);
    tokens := Sort(kept, TokenOrder(symbolLe));
    SortedPutsWethFirst(tokens, symbolLe);
    assert forall k :: 0 <= k < |tokens| ==> tokens[k] in tokens;
  }
}
