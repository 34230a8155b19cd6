/**
 * The OKEx funding-rate crawler: it subscribes to one funding-rate channel
 * per active perpetual swap, and turns each pushed data array into one record
 * per element and one keyed Kafka message per record.
 */
module OkexFundingRate {
  import opened Wrappers
  import opened Strings
  import opened Common

  /**
   * `instrument_id_to_pair`: the first two dash-separated fields joined by an
   * underscore; when there is no second field JavaScript renders it as
   * `undefined`. Later fields are dropped.
   */
  function InstrumentIdToPair(instrumentId: string): (r: string)
    ensures '-' !in r
  {
    var arr := Split(instrumentId, '-');
    arr[0] + "_" + (if |arr| > 1 then arr[1] else "undefined")
  }

  /** `<base>-<quote>-<anything>` maps to `<base>_<quote>`. */
  lemma InstrumentIdDropsRest(base: string, quote: string, rest: string)
    requires '-' !in base && '-' !in quote
    ensures InstrumentIdToPair(base + "-" + quote + "-" + rest) == base + "_" + quote
  {
    var c := '-';
    assert base + "-" + quote + "-" + rest == base + [c] + (quote + [c] + rest);
    SplitAtFirstSeparator(base, c, quote + [c] + rest);
    SplitAtFirstSeparator(quote, c, rest);
  }

  /** The prefix of every funding-rate channel name. */
  const ChannelPrefix: string := "swap/funding_rate:"

  /** The swap's instrument id `<baseId>-<quoteId>-SWAP`. */
  function SwapInstrumentId(m: Market): string
  {
    m.baseId + "-" + m.quoteId + "-SWAP"
  }

  /** The channel `swap/funding_rate:<baseId>-<quoteId>-SWAP` of a swap market. */
  function Channel(m: Market): string
  {
    ChannelPrefix + SwapInstrumentId(m)
  }

  /** The channels of the active markets, in catalogue order. */
  function Channels(markets: seq<Market>): (r: seq<string>)
    ensures |r| <= |markets|
    ensures forall x :: x in r <==> exists m :: m in markets && m.active && Channel(m) == x
  {
    if |markets| == 0 then []
    else
      var rest := Channels(markets[1..]);
      assert forall m :: m in markets <==> m == markets[0] || m in markets[1..];
      if markets[0].active then [Channel(markets[0])] + rest else rest
  }

  /** The subscription: the channels, or nothing when no market is active (the crawler stops). */
  function Subscribe(markets: seq<Market>): (r: Option<seq<string>>)
    ensures r.None? <==> forall m :: m in markets ==> !m.active
    ensures r.Some? ==> |r.value| > 0
  {
    var channels := Channels(markets);
    if |channels| > 0 then
      assert channels[0] in channels;
      Some(channels)
    else
      assert forall m :: m in markets && m.active ==> Channel(m) in channels;
      None
  }

  /** Each subscribed channel's instrument id maps back to the market's `<baseId>_<quoteId>`. */
  lemma ChannelRoundTrip(m: Market)
    requires '-' !in m.baseId && '-' !in m.quoteId
    ensures Channel(m)[..|ChannelPrefix|] == ChannelPrefix
    ensures InstrumentIdToPair(Channel(m)[|ChannelPrefix|..]) == m.baseId + "_" + m.quoteId
  {
    assert Channel(m)[|ChannelPrefix|..] == m.baseId + "-" + m.quoteId + "-" + "SWAP";
    InstrumentIdDropsRest(m.baseId, m.quoteId, "SWAP");
  }

  /** One element of the pushed data array; the numbers stay as the strings OKEx sends. */
  datatype RawRate = RawRate(
    estimatedRate: string, fundingRate: string, fundingTime: string,
    instrumentId: string, interestRate: string, settlementTime: string)

  /** The funding-rate record built from one element. */
  datatype FundingRateMsg = FundingRateMsg(
    exchange: string, marketType: string, pair: string, rawPair: string,
    channel: string, channelType: string, timestamp: nat, raw: RawRate)

  /**
   * The record of one element, stamped with the clock reading `now` taken for
   * it. Its pair has no dash, so its message key splits back into its fields
   * (`MessageKeyFields`).
   */
  function Record(x: RawRate, table: string, now: nat): (r: FundingRateMsg)
    ensures r.exchange == "OKEx" && r.marketType == "Swap" && '-' !in r.pair
  {
    FundingRateMsg("OKEx", "Swap", InstrumentIdToPair(x.instrumentId), x.instrumentId, table, "FundingRate", now, x)
  }

  /**
   * The records of a push: one per element, in order. The clock is read once
   * per element, so `times[i]` is the reading taken while building the i-th.
   */
  function Records(arr: seq<RawRate>, table: string, times: seq<nat>): (r: seq<FundingRateMsg>)
    requires |times| == |arr|
    ensures |r| == |arr|
  {
    seq(|arr|, i requires 0 <= i < |arr| => Record(arr[i], table, times[i]))
  }

  /** A Kafka message: its key and the record it carries. */
  datatype KeyedMessage = KeyedMessage(key: string, value: FundingRateMsg)

  /** The message key `<exchange>-<marketType>-<pair>-<rawPair>-<timestamp>`. */
  function MessageKey(rate: FundingRateMsg): string
  {
    Join([rate.exchange, rate.marketType, rate.pair, rate.rawPair, NatToString(rate.timestamp)], '-')
  }

  /** The messages of a push: one per record, in order. */
  function Messages(rates: seq<FundingRateMsg>): (r: seq<KeyedMessage>)
    ensures |r| == |rates|
  {
    seq(|rates|, i requires 0 <= i < |rates| => KeyedMessage(MessageKey(rates[i]), rates[i]))
  }

  /**
   * Each element yields one record and one message, in order: the record keeps
   * the instrument id as its raw pair and its pair is the id's converted form.
   */
  lemma PushShape(arr: seq<RawRate>, table: string, times: seq<nat>, i: nat)
    requires |times| == |arr| && i < |arr|
    ensures |Messages(Records(arr, table, times))| == |arr|
    ensures var msg := Messages(Records(arr, table, times))[i];
      msg.value.raw == arr[i] && msg.value.rawPair == arr[i].instrumentId
      && msg.value.pair == InstrumentIdToPair(arr[i].instrumentId)
      && msg.value.exchange == "OKEx" && msg.value.marketType == "Swap"
      && msg.value.timestamp == times[i] && msg.value.channel == table
  {
  }

  /** A message key splits back into its fields, the raw pair's own dashes in the middle. */
  lemma MessageKeyFields(rate: FundingRateMsg)
    requires rate.exchange == "OKEx" && rate.marketType == "Swap" && '-' !in rate.pair
    ensures Split(MessageKey(rate), '-') == ["OKEx", "Swap", rate.pair] + (Split(rate.rawPair, '-') + [NatToString(rate.timestamp)])
  {
    var ts := NatToString(rate.timestamp);
    var front := [rate.exchange, rate.marketType, rate.pair];
    assert '-' !in ts && '-' !in "OKEx" && '-' !in "Swap";
    assert [rate.exchange, rate.marketType, rate.pair, rate.rawPair, ts] == front + [rate.rawPair, ts];
    SplitJoinAroundMiddle(front, rate.rawPair, ts, '-');
  }

  /** Within one push, elements with different instrument ids get different message keys. */
  lemma MessageKeysDistinct(arr: seq<RawRate>, table: string, times: seq<nat>, i: nat, j: nat)
    requires |times| == |arr| && i < |arr| && j < |arr| && arr[i].instrumentId != arr[j].instrumentId
    ensures Messages(Records(arr, table, times))[i].key != Messages(Records(arr, table, times))[j].key
  {
    var a := Record(arr[i], table, times[i]);
    var b := Record(arr[j], table, times[j]);
    if MessageKey(a) == MessageKey(b) {
      MessageKeyDeterminesRawPair(a, b);
    }
  }

  /** Two records of OKEx swaps with the same message key have the same raw pair. */
  lemma MessageKeyDeterminesRawPair(a: FundingRateMsg, b: FundingRateMsg)
    requires a.exchange == "OKEx" && a.marketType == "Swap" && '-' !in a.pair
    requires b.exchange == "OKEx" && b.marketType == "Swap" && '-' !in b.pair
    requires MessageKey(a) == MessageKey(b)
    ensures a.rawPair == b.rawPair
  {
    var ta, tb := NatToString(a.timestamp), NatToString(b.timestamp);
    assert '-' !in ta && '-' !in tb && '-' !in "OKEx" && '-' !in "Swap";
    assert [a.exchange, a.marketType, a.pair, a.rawPair, ta] == [a.exchange, a.marketType, a.pair] + [a.rawPair, ta];
    assert [b.exchange, b.marketType, b.pair, b.rawPair, tb] == [b.exchange, b.marketType, b.pair] + [b.rawPair, tb];
    JoinAroundMiddleInjective([a.exchange, a.marketType, a.pair], a.rawPair, ta,
                              [b.exchange, b.marketType, b.pair], b.rawPair, tb, '-');
  }
}
