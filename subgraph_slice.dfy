/**
 * The loading state machine of src/features/uniswapSubgraph/slice.ts: the
 * `getTopPairs` thunk and the reducers that track loading, the last error,
 * and the pairs and tokens received.
 */
module SubgraphSlice {
  import opened Wrappers
  import opened Types

  /** `UniswapSubgraphState`; `error` is `None` where the source has `undefined`. */
  datatype SubgraphState = SubgraphState(loading: bool, error: Option<string>, pairs: seq<Pair>, tokens: seq<Token>)

  const INITIAL_STATE: SubgraphState := SubgraphState(false, None, [], [])

  /** How `fetchTopPairs` ended: its result, or a thrown error whose
      `message` may itself be undefined. */
  datatype FetchResult = Fetched(pairs: seq<Pair>, tokens: seq<Token>) | FetchThrew(message: Option<string>)

  /** The actions of `getTopPairs`. */
  datatype TopPairsAction =
    | Pending
    | Fulfilled(pairs: seq<Pair>, tokens: seq<Token>)
    | Rejected(payload: Option<string>)

  /** The thunk's settled action: a result fulfils, a throw rejects with `err?.message`. */
  function GetTopPairsSettlement(result: FetchResult): (a: TopPairsAction)
    ensures a.Fulfilled? <==> result.Fetched?
    ensures a.Rejected? <==> result.FetchThrew?
    ensures a.Fulfilled? ==> a.pairs == result.pairs && a.tokens == result.tokens
    ensures a.Rejected? ==> a.payload == result.message
  {
    match result
    case Fetched(pairs, tokens) => Fulfilled(pairs, tokens)
    case FetchThrew(message) => Rejected(message)
  }

  /** The slice reducer: `startLoading`, the fulfilled case, `receiveError`. */
  function Reduce(s: SubgraphState, a: TopPairsAction): (r: SubgraphState)
    ensures a.Pending? ==> r.loading && r.error == None
    ensures !a.Pending? ==> !r.loading
    ensures a.Fulfilled? ==> r.pairs == a.pairs && r.tokens == a.tokens && r.error == s.error
    ensures !a.Fulfilled? ==> r.pairs == s.pairs && r.tokens == s.tokens
    ensures a.Rejected? ==> r.error == a.payload
  {
    match a
    case Pending => s.(error := None, loading := true)
    case Fulfilled(pairs, tokens) => s.(loading := false).(pairs := pairs, tokens := tokens)
    case Rejected(payload) => s.(loading := false, error := payload)
  }

  /** A fetch that succeeds leaves exactly its result: not loading, no error. */
  lemma FetchSucceeded(s: SubgraphState, pairs: seq<Pair>, tokens: seq<Token>)
    ensures Reduce(Reduce(s, Pending), GetTopPairsSettlement(Fetched(pairs, tokens)))
         == SubgraphState(false, None, pairs, tokens)
  {}

  /** A fetch that throws keeps the previous pairs and tokens and records the message. */
  lemma FetchFailed(s: SubgraphState, message: Option<string>)
    ensures Reduce(Reduce(s, Pending), GetTopPairsSettlement(FetchThrew(message)))
         == SubgraphState(false, message, s.pairs, s.tokens)
  {}

  /** The first fetch after start-up, either way it ends. */
  lemma FirstFetch(result: FetchResult)
    ensures var r := Reduce(Reduce(INITIAL_STATE, Pending), GetTopPairsSettlement(result));
      && !r.loading
      && (result.Fetched? ==> r == SubgraphState(false, None, result.pairs, result.tokens))
      && (result.FetchThrew? ==> r == SubgraphState(false, result.message, [], []))
  {}

  /** The store. */
  class UniswapSubgraphStore {
    var loading: bool
    var error: Option<string>
    var pairs: seq<Pair>
    var tokens: seq<Token>

    function State(): SubgraphState
      reads this
    {
      SubgraphState(loading, error, pairs, tokens)
    }

    /** `initialState`. */
    constructor ()
      ensures State() == INITIAL_STATE
    {
      loading, error, pairs, tokens := false, None, [], [];
    }

    /** `startLoading`. */
    method StartLoading()
      modifies this
      ensures loading && error == None
      ensures pairs == old(pairs) && tokens == old(tokens)
    {
      error := None;
      loading := true;
    }

    /** `stopLoading`. */
    method StopLoading()
      modifies this
      ensures !loading
      ensures error == old(error) && pairs == old(pairs) && tokens == old(tokens)
    {
      loading := false;
    }

    /** `receiveError`: stop loading, then assign `loading` and `error` together. */
    method ReceiveError(payload: Option<string>)
      modifies this
      ensures !loading && error == payload
      ensures pairs == old(pairs) && tokens == old(tokens)
    {
      StopLoading();
      loading, error := false, payload;
    }

    /** The fulfilled case: stop loading and replace pairs and tokens. */
    method ReceivePairs(newPairs: seq<Pair>, newTokens: seq<Token>)
      modifies this
      ensures !loading && pairs == newPairs && tokens == newTokens
      ensures error == old(error)
    {
      StopLoading();
      pairs := newPairs;
      tokens := newTokens;
    }

    /** The reducer receiving one action. */
    method Dispatch(a: TopPairsAction)
      modifies this
      ensures State() == Reduce(old(State()), a)
    {
      match a
      case Pending => StartLoading();
      case Fulfilled(p, t) => ReceivePairs(p, t);
      case Rejected(payload) => ReceiveError(payload);
    }

    /** One `getTopPairs` run: `pending`, the fetch, then its settled action. */
    method GetTopPairs(result: FetchResult)
      modifies this
      ensures State() == Reduce(Reduce(old(State()), Pending), GetTopPairsSettlement(result))
      ensures !loading
      ensures result.Fetched? ==> error == None && pairs == result.pairs && tokens == result.tokens
      ensures result.FetchThrew? ==> error == result.message && pairs == old(pairs) && tokens == old(tokens)
    {
      Dispatch(Pending);
      Dispatch(GetTopPairsSettlement(result));
    }
  }
}
