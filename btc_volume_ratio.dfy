/**
 * The BTC volume-ratio transformation. It listens to tickers and remembers the
 * latest quote volume of `BTC_USD` and `BTC_USDT` per exchange, market type
 * and quote field. Any other ticker whose pair contains `_USD` (so `_USDT` and
 * `_USDC` too) is published with its quote volume next to that BTC volume,
 * provided one is cached for the same exchange, market type and quote field.
 */
module BtcVolumeRatio {
  import opened Wrappers
  import opened Strings

  /** The ticker fields the transformation reads. */
  datatype TickerMsg = TickerMsg(exchange: string, marketType: string, pair: string, timestamp: int, quoteVolume: real)

  /** The published message: a ticker's quote volume beside BTC's for the same market. */
  datatype RatioMsg = RatioMsg(
    exchange: string, marketType: string, pair: string, base: string, quote: string,
    timestamp: int, quoteVolume: real, btcQuoteVolume: real)

  /** Only pairs mentioning `_USD` (so USD, USDT and the like) are looked at. */
  predicate Relevant(t: TickerMsg)
  {
    Contains(t.pair, "_USD")
  }

  /** The ticker is BTC's own, in USD or USDT. */
  predicate IsBtc(t: TickerMsg)
  {
    t.pair == "BTC_USD" || t.pair == "BTC_USDT"
  }

  /** `pair.split('_')[i]` for a pair that has an underscore, so both fields exist. */
  function PairField(pair: string, i: nat): (r: string)
    requires '_' in pair && i < 2
    ensures '_' !in r
  {
    SplitHasTwoFields(pair, '_');
    Split(pair, '_')[i]
  }

  /** The cache key `<exchange>-<marketType>-<quote>`, the quote being the pair's second field. */
  function CacheKey(t: TickerMsg): string
    requires Relevant(t)
  {
    ContainsChar(t.pair, "_USD", '_');
    Join([t.exchange, t.marketType, PairField(t.pair, 1)], '-')
  }

  /**
   * What one ticker does to the cache and what it publishes: irrelevant
   * tickers do nothing, BTC tickers update the cache, and other tickers are
   * published beside the cached BTC volume when there is one.
   */
  function Respond(cache: map<string, real>, t: TickerMsg): (r: (map<string, real>, Option<RatioMsg>))
    ensures r.0 == if Relevant(t) && IsBtc(t) then cache[CacheKey(t) := t.quoteVolume] else cache
    ensures r.1.Some? <==> Relevant(t) && !IsBtc(t) && CacheKey(t) in cache
    ensures r.1.Some? ==> r.1.value.btcQuoteVolume == cache[CacheKey(t)] && r.1.value.pair == t.pair
  {
    if !Relevant(t) then (cache, None)
    else
      var key := CacheKey(t);
      if IsBtc(t) then (cache[key := t.quoteVolume], None)
      else if key !in cache then (cache, None)
      else
        assert '_' in t.pair by { ContainsChar(t.pair, "_USD", '_'); }
        (cache, Some(RatioMsg(t.exchange, t.marketType, t.pair, PairField(t.pair, 0), PairField(t.pair, 1),
                              t.timestamp, t.quoteVolume, cache[key])))
  }

  /** The subscriber's state: the latest BTC quote volume per cache key. */
  class VolumeRatio {
    var btcVolumeMap: map<string, real>

    /** Nothing cached yet. */
    constructor()
      ensures btcVolumeMap == map[]
    {
      btcVolumeMap := map[];
    }

    /** Handles one ticker; the cache changes only on a BTC ticker. */
    method OnTicker(t: TickerMsg) returns (published: Option<RatioMsg>)
      modifies this
      ensures (btcVolumeMap, published) == Respond(old(btcVolumeMap), t)
      ensures !(Relevant(t) && IsBtc(t)) ==> btcVolumeMap == old(btcVolumeMap)
      ensures published.Some? ==> Relevant(t) && !IsBtc(t) && CacheKey(t) in old(btcVolumeMap)
    {
      published := None;
      if !Relevant(t) {
        return;
      }
      var cacheKey := CacheKey(t);
      if IsBtc(t) {
        btcVolumeMap := btcVolumeMap[cacheKey := t.quoteVolume];
      } else {
        if cacheKey !in btcVolumeMap {
          return;
        }
        var btcVolume := btcVolumeMap[cacheKey];
        assert '_' in t.pair by { ContainsChar(t.pair, "_USD", '_'); }
        published := Some(RatioMsg(t.exchange, t.marketType, t.pair, PairField(t.pair, 0), PairField(t.pair, 1),
                                   t.timestamp, t.quoteVolume, btcVolume));
      }
    }
  }

  /** The cache after feeding `ts`, oldest first, to `cache`. */
  function Feed(cache: map<string, real>, ts: seq<TickerMsg>): map<string, real>
  {
    if |ts| == 0 then cache else Respond(Feed(cache, ts[..|ts| - 1]), ts[|ts| - 1]).0
  }

  /** The quote volume of the last BTC ticker in `ts` whose cache key is `key`, if any. */
  function LastBtcVolume(ts: seq<TickerMsg>, key: string): Option<real>
  {
    if |ts| == 0 then None
    else
      var t := ts[|ts| - 1];
      if Relevant(t) && IsBtc(t) && CacheKey(t) == key then Some(t.quoteVolume)
      else LastBtcVolume(ts[..|ts| - 1], key)
  }

  /** From an empty start, the cache holds exactly the latest BTC volume seen under each key. */
  lemma {:induction false} FeedIsLastBtcVolume(ts: seq<TickerMsg>, key: string)
    ensures key in Feed(map[], ts) <==> LastBtcVolume(ts, key).Some?
    ensures key in Feed(map[], ts) ==> Feed(map[], ts)[key] == LastBtcVolume(ts, key).value
  {
    if |ts| > 0 {
      FeedIsLastBtcVolume(ts[..|ts| - 1], key);
    }
  }

  /**
   * After the tickers `ts`, a published ratio for ticker `t` carries the
   * volume of the latest BTC ticker for the same exchange, market type and
   * quote currency, and copies the rest from `t`.
   */
  lemma PublishedUsesLatestBtc(ts: seq<TickerMsg>, t: TickerMsg)
    requires Respond(Feed(map[], ts), t).1.Some?
    ensures Relevant(t) && !IsBtc(t)
    ensures LastBtcVolume(ts, CacheKey(t)).Some?
    ensures var m := Respond(Feed(map[], ts), t).1.value;
      m.btcQuoteVolume == LastBtcVolume(ts, CacheKey(t)).value
      && m.exchange == t.exchange && m.marketType == t.marketType && m.pair == t.pair
      && m.timestamp == t.timestamp && m.quoteVolume == t.quoteVolume
  {
    FeedIsLastBtcVolume(ts, CacheKey(t));
  }

  /**
   * For any pair, the published base and quote are the pair's first two
   * `_`-separated fields: neither holds `_`, and the pair starts with
   * `<base>_<quote>`, followed by its end or by a further `_`.
   */
  lemma PublishedFields(cache: map<string, real>, t: TickerMsg)
    requires Respond(cache, t).1.Some?
    ensures var m := Respond(cache, t).1.value;
      '_' !in m.base && '_' !in m.quote
    ensures var m, n := Respond(cache, t).1.value, |Respond(cache, t).1.value.base| + 1 + |Respond(cache, t).1.value.quote|;
      n <= |t.pair| && t.pair[..n] == m.base + "_" + m.quote && (n == |t.pair| || t.pair[n] == '_')
  {
    ContainsChar(t.pair, "_USD", '_');
    SplitHasTwoFields(t.pair, '_');
    JoinFirstTwo(Split(t.pair, '_'), '_');
  }

  /** For a pair `<base>_<quote>`, the published base and quote are its two halves. */
  lemma PublishedBaseQuote(cache: map<string, real>, t: TickerMsg, base: string, quote: string)
    requires t.pair == base + "_" + quote && '_' !in base && '_' !in quote
    requires Respond(cache, t).1.Some?
    ensures Respond(cache, t).1.value.base == base
    ensures Respond(cache, t).1.value.quote == quote
  {
    SplitJoin([base, quote], '_');
    assert Join([base, quote], '_') == t.pair by {
      assert [base, quote][1..] == [quote];
    }
  }

  /**
   * Tickers of the same exchange and market type share a cache entry only when
   * their quote fields agree, so USD and USDT volumes never mix.
   */
  lemma CacheKeySeparatesQuotes(a: TickerMsg, b: TickerMsg)
    requires Relevant(a) && Relevant(b)
    requires '-' !in a.exchange && '-' !in a.marketType && '-' !in b.exchange && '-' !in b.marketType
    requires '_' in a.pair && '_' in b.pair && '-' !in PairField(a.pair, 1) && '-' !in PairField(b.pair, 1)
    requires CacheKey(a) == CacheKey(b)
    ensures a.exchange == b.exchange && a.marketType == b.marketType
    ensures PairField(a.pair, 1) == PairField(b.pair, 1)
  {
    var fa := [a.exchange, a.marketType, PairField(a.pair, 1)];
    var fb := [b.exchange, b.marketType, PairField(b.pair, 1)];
    SplitJoin(fa, '-');
    SplitJoin(fb, '-');
  }
}
