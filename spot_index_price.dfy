/**
 * The OKEx spot-index crawler. Index tickers pass straight through to the
 * index-price topic; index klines go through a latest-value forwarder keyed by
 * pair and interval, and each closed kline is published on a topic per interval.
 */
module SpotIndexPrice {
  import opened Wrappers
  import opened Strings
  import opened LatestValue
  import opened Common

  /** An index message: a ticker has no interval, a kline has one. */
  datatype IndexMsg =
    | IndexTicker(pair: string, timestamp: int, price: real)
    | IndexKline(pair: string, interval: string, timestamp: int, open: real, high: real, low: real, close: real)

  /** The message's `interval` field, with the empty string for a ticker, which has none. */
  function Interval(m: IndexMsg): string
  {
    if m.IndexKline? then m.interval else ""
  }

  /** The message counts as a kline when its interval is a non-empty string (JavaScript truthiness). */
  predicate HasInterval(m: IndexMsg)
  {
    Interval(m) != ""
  }

  /** A publication: the topic and the message sent to it. */
  datatype Publication = Publication(topic: string, msg: IndexMsg)

  /** The forwarder key `OKEx-<pair>-<interval>`. */
  function IndexKey(pair: string, interval: string): string
  {
    Join(["OKEx", pair, interval], '-')
  }

  /** The topic of closed index klines of one interval: `<spot_index_kline topic>_<interval>`. */
  function KlineTopic(interval: string): (r: string)
    ensures |r| == |RedisTopicSpotIndexKline| + 1 + |interval|
    ensures r[..|RedisTopicSpotIndexKline|] == RedisTopicSpotIndexKline
    ensures r[|RedisTopicSpotIndexKline|..] == "_" + interval
  {
    RedisTopicSpotIndexKline + "_" + interval
  }

  /** Klines and tickers never share a topic. */
  lemma KlineTopicNotPriceTopic(interval: string)
    ensures KlineTopic(interval) != RedisTopicSpotIndexPrice
  {
    var t := KlineTopic(interval);
    assert t[27] == RedisTopicSpotIndexKline[27] == 'k';
    assert RedisTopicSpotIndexPrice[27] == 'p';
  }

  /** Different intervals publish on different topics. */
  lemma KlineTopicInjective(i: string, j: string)
    requires KlineTopic(i) == KlineTopic(j)
    ensures i == j
  {
    assert "_" + i == KlineTopic(i)[|RedisTopicSpotIndexKline|..];
    assert i == ("_" + i)[1..];
  }

  /** With dash-free pairs and intervals (`BTC_USDT`, `1m`), the key determines both. */
  lemma IndexKeyInjective(p1: string, i1: string, p2: string, i2: string)
    requires '-' !in p1 && '-' !in i1 && '-' !in p2 && '-' !in i2
    requires IndexKey(p1, i1) == IndexKey(p2, i2)
    ensures p1 == p2 && i1 == i2
  {
    assert '-' !in "OKEx";
    SplitJoin(["OKEx", p1, i1], '-');
    SplitJoin(["OKEx", p2, i2], '-');
    assert ["OKEx", p1, i1][1] == ["OKEx", p2, i2][1];
  }

  /** Every kept message is a kline, kept under its own key with its own timestamp. */
  predicate Keyed(latest: map<string, Stamped<IndexMsg>>)
  {
    forall k :: k in latest ==>
      HasInterval(latest[k].msg) && k == IndexKey(latest[k].msg.pair, Interval(latest[k].msg))
      && latest[k].timestamp == latest[k].msg.timestamp
  }

  /** The crawler's per-process state: the index-kline forwarder. */
  class SpotIndexCrawler {
    const forwarder: Forwarder<IndexMsg>

    /** The forwarder holds only klines, each under its own key. */
    predicate Valid()
      reads this, forwarder
    {
      Keyed(forwarder.latest)
    }

    /** A crawler that has seen nothing yet. */
    constructor()
      ensures Valid()
      ensures fresh(forwarder) && forwarder.latest == map[]
    {
      forwarder := new Forwarder();
    }

    /**
     * Handles one message. A ticker goes out unchanged on the index-price
     * topic; a kline goes through the forwarder, and a closed kline goes out on
     * the topic of the arriving kline's interval.
     */
    method OnMessage(msg: IndexMsg) returns (published: Option<Publication>)
      requires Valid()
      modifies forwarder
      ensures Valid()
      ensures !HasInterval(msg) ==>
        published == Some(Publication(RedisTopicSpotIndexPrice, msg)) && forwarder.latest == old(forwarder.latest)
      ensures HasInterval(msg) ==>
        var key := IndexKey(msg.pair, msg.interval);
        var out := Forward(old(forwarder.latest), key, Stamped(msg, msg.timestamp));
        forwarder.latest == old(forwarder.latest)[key := Stamped(msg, msg.timestamp)]
        && published == (if out.Some? then Some(Publication(KlineTopic(msg.interval), out.value)) else None)
    {
      if HasInterval(msg) {
        var key := IndexKey(msg.pair, msg.interval);
        var prev := forwarder.Observe(key, msg, msg.timestamp);
        published := if prev.Some? then Some(Publication(KlineTopic(msg.interval), prev.value)) else None;
      } else {
        published := Some(Publication(RedisTopicSpotIndexPrice, msg));
      }
    }
  }

  /**
   * A closed kline is published on the topic of its own interval and is an
   * earlier kline of the same pair: naming the topic after the arriving
   * kline's interval picks the right topic.
   */
  lemma PublishedOnOwnTopic(latest: map<string, Stamped<IndexMsg>>, msg: IndexMsg)
    requires Keyed(latest) && HasInterval(msg)
    requires '-' !in msg.pair && '-' !in msg.interval
    requires forall k :: k in latest ==> '-' !in latest[k].msg.pair && '-' !in Interval(latest[k].msg)
    ensures var out := Forward(latest, IndexKey(msg.pair, msg.interval), Stamped(msg, msg.timestamp));
      out.Some? ==> (out.value.IndexKline? && out.value.pair == msg.pair
                     && KlineTopic(out.value.interval) == KlineTopic(msg.interval)
                     && out.value.timestamp < msg.timestamp)
  {
    var k := IndexKey(msg.pair, msg.interval);
    if k in latest && msg.timestamp > latest[k].timestamp {
      var prev := latest[k].msg;
      IndexKeyInjective(prev.pair, Interval(prev), msg.pair, msg.interval);
    }
  }
}
