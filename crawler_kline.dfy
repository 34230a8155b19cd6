/**
 * The kline crawler: exchanges push the bar of the current period over and
 * over while it is open; the crawler keeps the latest push per instrument and
 * period and publishes it once a push for a later period arrives. The same
 * forwarder feeds Kafka in one deployment and Redis in the other.
 */
module CrawlerKline {
  import opened Wrappers
  import opened Strings
  import opened LatestValue

  /** A kline push as the crawler library delivers it; `timestamp` is the bar's start. */
  datatype KlineMsg = KlineMsg(
    exchange: string, marketType: string, pair: string, rawPair: string, period: string,
    timestamp: int, open: real, high: real, low: real, close: real, volume: real)

  /** The forwarder key `<exchange>-<marketType>-<rawPair>-<period>`; the normalised pair is not part of it. */
  function KlineKey(m: KlineMsg): string
  {
    Join([m.exchange, m.marketType, m.rawPair, m.period], '-')
  }

  /** The key splits back into its fields, with the raw pair's own dashes in the middle. */
  lemma KlineKeyFields(m: KlineMsg)
    requires '-' !in m.exchange && '-' !in m.marketType && '-' !in m.period
    ensures Split(KlineKey(m), '-') == [m.exchange, m.marketType] + (Split(m.rawPair, '-') + [m.period])
  {
    assert [m.exchange, m.marketType, m.rawPair, m.period] == [m.exchange, m.marketType] + [m.rawPair, m.period];
    SplitJoinAroundMiddle([m.exchange, m.marketType], m.rawPair, m.period, '-');
  }

  /**
   * Pushes share a key exactly when they share exchange, market type, raw pair
   * and period, provided only the raw pair may hold dashes (as OKEx's
   * `BTC-USDT-SWAP` does).
   */
  lemma KlineKeyInjective(a: KlineMsg, b: KlineMsg)
    requires '-' !in a.exchange && '-' !in a.marketType && '-' !in a.period
    requires '-' !in b.exchange && '-' !in b.marketType && '-' !in b.period
    requires KlineKey(a) == KlineKey(b)
    ensures a.exchange == b.exchange && a.marketType == b.marketType
    ensures a.rawPair == b.rawPair && a.period == b.period
  {
    assert [a.exchange, a.marketType, a.rawPair, a.period] == [a.exchange, a.marketType] + [a.rawPair, a.period];
    assert [b.exchange, b.marketType, b.rawPair, b.period] == [b.exchange, b.marketType] + [b.rawPair, b.period];
    JoinAroundMiddleInjective([a.exchange, a.marketType], a.rawPair, a.period,
                              [b.exchange, b.marketType], b.rawPair, b.period, '-');
    assert [a.exchange, a.marketType][0] == [b.exchange, b.marketType][0];
  }

  /** Every push is kept under its own key, with its own timestamp. */
  predicate Keyed(latest: map<string, Stamped<KlineMsg>>)
  {
    forall k :: k in latest ==> KlineKey(latest[k].msg) == k && latest[k].timestamp == latest[k].msg.timestamp
  }

  /** The crawler's per-process state: one forwarder keyed by `KlineKey`. */
  class KlineCrawler {
    const forwarder: Forwarder<KlineMsg>

    /** The forwarder holds each push under its own key. */
    predicate Valid()
      reads this, forwarder
    {
      Keyed(forwarder.latest)
    }

    /** A crawler that has seen no push yet. */
    constructor()
      ensures Valid()
      ensures fresh(forwarder) && forwarder.latest == map[]
    {
      forwarder := new Forwarder();
    }

    /**
     * Handles one push: returns the kept push of the same key when this one is
     * strictly later (to be published on the kline topic), and keeps this one.
     */
    method OnKline(msg: KlineMsg) returns (published: Option<KlineMsg>)
      requires Valid()
      modifies forwarder
      ensures Valid()
      ensures published == Forward(old(forwarder.latest), KlineKey(msg), Stamped(msg, msg.timestamp))
      ensures KlineKey(msg) !in old(forwarder.latest) ==> published == None
      ensures published.Some? ==> published.value.timestamp < msg.timestamp
      ensures forwarder.latest == old(forwarder.latest)[KlineKey(msg) := Stamped(msg, msg.timestamp)]
    {
      published := forwarder.Observe(KlineKey(msg), msg, msg.timestamp);
    }
  }

  /**
   * What is published is always an earlier push for the same exchange, market
   * type, raw pair and period as the push that triggered it.
   */
  lemma PublishedSameInstrument(latest: map<string, Stamped<KlineMsg>>, msg: KlineMsg)
    requires Keyed(latest)
    requires '-' !in msg.exchange && '-' !in msg.marketType && '-' !in msg.period
    requires forall k :: k in latest ==> '-' !in latest[k].msg.exchange && '-' !in latest[k].msg.marketType && '-' !in latest[k].msg.period
    ensures var p := Forward(latest, KlineKey(msg), Stamped(msg, msg.timestamp));
      p.Some? ==> (p.value.exchange == msg.exchange && p.value.marketType == msg.marketType
                   && p.value.rawPair == msg.rawPair && p.value.period == msg.period
                   && p.value.timestamp < msg.timestamp)
  {
    var k := KlineKey(msg);
    if k in latest && msg.timestamp > latest[k].timestamp {
      KlineKeyInjective(latest[k].msg, msg);
    }
  }
}
