# crypto-crawlers core, modelled in Dafny

This project models the logic at the heart of the crypto-crawlers market-data
pipeline and proves properties of that model:

- **Kline builder** (`kline_builder.dfy`, `kline_window.dfy`). It turns a stream of
  trades into one-minute bars:
  - `aggregate` reduces a price list to open, high, low, close, mean and median;
  - `buildTimeBar` deduplicates trades by trade id, sorts them stably by
    timestamp and builds one `TimeBar` record;
  - the subscriber callback keeps the three bar boundaries and two per-instrument
    trade buffers (`cache`, `cacheNext`). It emits one bar per instrument when a
    trade of the minute after next arrives.

  The callback is the class `KlineWindow.BarWindow`. Its `Step` is proved equal to
  the pure transition `KlineWindow.Next`, which follows the code as written.
- **Latest-value forwarder** (`latest_value.dfy`). Three crawlers share it: the
  Kafka and the Redis kline crawlers (`crawler_kline.dfy`) and the spot-index
  crawler (`spot_index_price.dfy`). Per key it keeps the latest message. When a
  strictly later message arrives, it publishes the kept one. While timestamps
  only rise, each published message is final for its period; when they go back,
  the same period can be published more than once.
- **BTC volume ratio** (`btc_volume_ratio.dfy`). It caches the quote volume of
  `BTC_USD` and `BTC_USDT` per exchange, market type and quote field. Any other
  ticker whose pair contains `_USD` (so `_USDT` and `_USDC` too) is published
  next to that volume, but only when one is cached for the same exchange, market
  type and quote field.
- **Shared crawler settings** (`common.dfy`). These are the Redis topic names and
  `calcPairs`, which chooses the pairs to crawl from the market catalogues and
  the `PAIRS` environment variable.
- **OKEx funding rates** (`okex_funding_rate.dfy`):
  - conversion of instrument ids to pairs;
  - channel names;
  - records and keyed Kafka messages built from a pushed data array.

Supporting modules:

- `Strings`: JavaScript `split`, `join`, `includes` and number-to-string.
- `Sorting`: a stable sort by numeric key, as `_.sortBy` and a numeric
  `Array.prototype.sort` behave.
- `Wrappers`: `Option`.

Modelling choices:

- Prices and quantities are exact reals.
- Timestamps are integers in milliseconds.
- Wall-clock reads, market catalogues and the `PAIRS` variable are parameters.
- A JavaScript `Map` that is iterated is modelled as a key list in insertion
  order plus a map (`KlineWindow.Buckets`), because bars are emitted in that order.

## Model

| member | source | states |
|---|---|---|
| `Strings.Split` | crypto-crawlers/src/crawlers/common.ts:34 | `s.split(c)` is never empty, no field holds `c`, and joining the fields with `c` gives `s` back |
| `Strings.SplitJoin` | crypto-crawlers/src/crawlers/crawler_okex_funding_rate.ts:12 | splitting undoes joining when no part holds the separator |
| `Strings.SplitBeforeLast` | crypto-crawlers/src/crawlers/crawler_kline.ts:37 | a separator-free last field is peeled off intact, whatever precedes it |
| `Strings.JoinFirstTwo` | nodejs/crypto-crawlers/src/transformations/btc_volume_ratio.ts:49-50 | a join of two or more fields starts with the first two around one separator, followed by the end or another separator |
| `Sorting.SortBy` | crypto-crawlers/src/transformations/kline_builder.ts:27 | the sorted list is a permutation of the input |
| `Sorting.SortBySorted` | crypto-crawlers/src/transformations/kline_builder.ts:27 | the sorted list is in ascending key order |
| `Sorting.SortByStable` | crypto-crawlers/src/transformations/kline_builder.ts:49 | elements with equal keys keep their relative order (`_.sortBy` is stable) |
| `Sorting.SortedPermutationsEqual` | crypto-crawlers/src/transformations/kline_builder.ts:27 | two ascending lists with the same elements are equal, so the sorted prices do not depend on input order |
| `KlineBuilder.Aggregate` | crypto-crawlers/src/transformations/kline_builder.ts:22-46 | `open`/`close` are the first/last price as given; `high`/`low` occur in the list and bound every price; `mean` is sum over count, between `low` and `high`; `median` lies between `low` and `high` and splits the sorted list at `ceil(n/2)` |
| `KlineBuilder.SumPermutation` | crypto-crawlers/src/transformations/kline_builder.ts:32 | the sum (hence the mean) does not depend on the order of the numbers |
| `KlineBuilder.MeanBounds` | crypto-crawlers/src/transformations/kline_builder.ts:32 | the mean of numbers within `[lo, hi]` is within `[lo, hi]` |
| `KlineBuilder.MedianSplits` | crypto-crawlers/src/transformations/kline_builder.ts:34-36 | over a sorted list, the first `ceil(n/2)` elements are at most the median and the last `ceil(n/2)` at least it |
| `KlineBuilder.AggregateOrderIndependent` | crypto-crawlers/src/transformations/kline_builder.ts:27-36 | `high`, `low`, `mean` and `median` depend only on which prices occur, not on their order |
| `KlineBuilder.MedianOfSorted` | crypto-crawlers/src/transformations/kline_builder.ts:34-36 | on an ascending list the median is the middle element (odd count) or the mean of the two middle ones (even count) |
| `KlineBuilder.MedianEvenExample` | crypto-crawlers/src/transformations/kline_builder.ts:36 | the median of `[1, 2, 3, 4]` is 2.5 |
| `KlineBuilder.MedianOddExample` | crypto-crawlers/src/transformations/kline_builder.ts:36 | the median of `[1, 2, 3, 4, 5]` is 3 |
| `KlineBuilder.UniqById` | crypto-crawlers/src/transformations/kline_builder.ts:49 | deduplication keeps exactly one trade per trade id, each taken from the input; with `UniqByDropsLaterRepeat` and `UniqByKeepsDistinct` it is the first trade of each id, in arrival order |
| `KlineBuilder.UniqByDropsLaterRepeat` | crypto-crawlers/src/transformations/kline_builder.ts:49 | removing any trade whose id an earlier trade carries leaves the result unchanged, so later repeats never count |
| `KlineBuilder.UniqByKeepsDistinct` | crypto-crawlers/src/transformations/kline_builder.ts:49 | trades with distinct ids come back unchanged, in arrival order |
| `KlineBuilder.UniqByIgnoresRedelivery` | crypto-crawlers/src/transformations/kline_builder.ts:49 | appending trades whose ids are already present leaves the deduplicated list unchanged (first occurrence wins) |
| `KlineBuilder.DistinctIdsCount` | crypto-crawlers/src/transformations/kline_builder.ts:80 | a list with distinct ids has as many trades as ids |
| `KlineBuilder.BuildTimeBar` | crypto-crawlers/src/transformations/kline_builder.ts:48-86 | `timestamp`/`bar_size` are the arguments; `count` is the number of distinct trade ids and equals sells plus buys; volumes and quote volumes split into sell and buy parts; `timestamp_start` is the time of a deduplicated trade and no later than any of them; `vwap` is not a finite number exactly when the volume is 0; `BarVolumes`, `BarPrices`, `OpenCloseByArrival` and `BarInstrument` fix the other fields |
| `KlineBuilder.BarVolumes` | crypto-crawlers/src/transformations/kline_builder.ts:55-82 | `volume`/`volume_quote` are the sums over the deduplicated trades; the sell fields and `count_sell` cover exactly the trades with `side` true and the buy fields and `count_buy` the others; `vwap` is `volume_quote / volume` unless the volume is 0 |
| `KlineBuilder.BarPrices` | crypto-crawlers/src/transformations/kline_builder.ts:49-53 | `low`, `high`, `mean` and `median` are those `aggregate` gives for the deduplicated prices in arrival order, so the sort does not change them |
| `KlineBuilder.SideCount` | crypto-crawlers/src/transformations/kline_builder.ts:80-82 | every trade is either a sell (`side` true) or a buy, so the counts add up |
| `KlineBuilder.SideSplit` | crypto-crawlers/src/transformations/kline_builder.ts:55-60 | `volume = volume_sell + volume_buy` and `volume_quote = volume_quote_sell + volume_quote_buy` |
| `KlineBuilder.BuildTimeBarIgnoresRedelivery` | crypto-crawlers/src/transformations/kline_builder.ts:49 | adding trades whose ids are already present leaves the bar unchanged |
| `KlineBuilder.BarInstrument` | crypto-crawlers/src/transformations/kline_builder.ts:49-69 | a deduplicated input trade with the least timestamp supplies the bar's exchange, market type, pair, raw pair and `timestamp_start` |
| `KlineBuilder.VwapBetween` | crypto-crawlers/src/transformations/kline_builder.ts:55-78 | for non-negative quantities with prices in `[lo, hi]`, the volume is non-negative and, when positive, quote volume over volume is within `[lo, hi]` |
| `KlineBuilder.VwapWithinRange` | crypto-crawlers/src/transformations/kline_builder.ts:78 | with non-negative quantities, a finite `vwap` lies between the bar's `low` and `high` |
| `KlineBuilder.OpenCloseByArrival` | crypto-crawlers/src/transformations/kline_builder.ts:49-53 | `open` is the price of the first-arrived trade among those with the earliest timestamp, and `close` that of the last-arrived among those with the latest |
| `KlineWindow.Key` | crypto-crawlers/src/transformations/kline_builder.ts:124 | the buffer key `<exchange>-<marketType>-<pair>-<rawPair>`; with `BarsPerKey`, each emitted bar carries the four fields of its key |
| `KlineWindow.Buckets.Add` | crypto-crawlers/src/transformations/kline_builder.ts:124-128 | appending a trade under a key: a new key joins the end of the key order; only that key's list changes, and it gains the trade at its end |
| `KlineWindow.Initial` | crypto-crawlers/src/transformations/kline_builder.ts:104-109 | the starting state satisfies the invariant, and `barTimeEnd` is `now` rounded down to a whole minute |
| `KlineWindow.Bars` | crypto-crawlers/src/transformations/kline_builder.ts:131-133 | one bar per buffered key, in insertion order; bar i is `BuildTimeBar(barTime, 60000, …)` over key i's buffered trades, so `BarVolumes`, `BarPrices` and `OpenCloseByArrival` give its contents |
| `KlineWindow.Next` | crypto-crawlers/src/transformations/kline_builder.ts:117-163 | every step keeps the invariant: boundaries one minute apart on the minute grid, buffers keyed by instrument and holding only trades of their time range |
| `KlineWindow.ExpiredOrFutureIgnored` | crypto-crawlers/src/transformations/kline_builder.ts:117-162 | an expired or a future trade changes nothing and emits nothing |
| `KlineWindow.BufferedGoesToCacheNext` | crypto-crawlers/src/transformations/kline_builder.ts:121-128 | a trade in `[barTimeBegin, nextBarTimeEnd)` is appended to its key in `cacheNext`; `cache` and the boundaries stay, nothing is emitted |
| `KlineWindow.BarsPerKey` | crypto-crawlers/src/transformations/kline_builder.ts:131-133 | the i-th bar is built from the i-th buffered key's trades with a one-minute bar size, belongs to that key and is stamped with the given bar time |
| `KlineWindow.RolloverEmitsCache` | crypto-crawlers/src/transformations/kline_builder.ts:129-139 | a rollover trade emits one bar per key of `cache` in insertion order, each built from that key's buffered trades with a one-minute bar size and stamped with the old `barTimeEnd`; all boundaries advance by one minute; `cache` becomes the old `cacheNext`, `cacheNext` becomes empty, and the trade is not stored |
| `KlineWindow.Run` | crypto-crawlers/src/transformations/kline_builder.ts:111-164 | the invariant holds after any sequence of trades |
| `KlineWindow.RunBars` | crypto-crawlers/src/transformations/kline_builder.ts:129-139 | over any run, bars come out in non-decreasing bar time within the range the run covered, and no instrument gets two bars for one bar time |
| `KlineWindow.BarWindow.constructor` | crypto-crawlers/src/transformations/kline_builder.ts:104-109 | the fields start as `Initial(now)` |
| `KlineWindow.BarWindow.Step` | crypto-crawlers/src/transformations/kline_builder.ts:112-163 | the in-place update of the five variables leaves exactly the state `Next` describes and returns its bars, keeping the invariant |
| `KlineWindow.BarsStartWithin` | crypto-crawlers/src/transformations/kline_builder.ts:69 | every bar built from a buffer starts within the buffer's time range |
| `KlineWindow.StaleTradeInBar` | crypto-crawlers/src/transformations/kline_builder.ts:121-122 | as written, a bar stamped 120000 holds a trade at 0, two minutes before its end |
| `KlineWindow.RolloverTradeLost` | crypto-crawlers/src/transformations/kline_builder.ts:129-139 | as written, the trade that triggers a rollover is in neither buffer afterwards |
| `KlineWindow.InitialCorrected` | crypto-crawlers/src/transformations/kline_builder.ts:104-109 | the starting state satisfies the intended invariant (`cache` holds the current minute, `cacheNext` the next) |
| `KlineWindow.NextCorrected` | crypto-crawlers/src/transformations/kline_builder.ts:121-139 | the intended step keeps the intended invariant |
| `KlineWindow.CorrectedBarsInWindow` | crypto-crawlers/src/transformations/kline_builder.ts:121-139 | with the intended step, every bar stamped `E` starts within its own minute `[E - 60000, E)` |
| `KlineWindow.CorrectedKeepsRolloverTrade` | crypto-crawlers/src/transformations/kline_builder.ts:129-139 | with the intended step, the rollover trade is the only entry of the new `cacheNext` |
| `LatestValue.Forward` | crypto-crawlers/src/crawlers/crawler_kline.ts:39-56 | what one arrival publishes; with `Observe` and `ReplayPublishesClosed`, the kept message exactly when the arrival is strictly later |
| `LatestValue.Forwarder.constructor` | crypto-crawlers/src/crawlers/crawler_kline.ts:26 | the map starts empty |
| `LatestValue.Forwarder.Observe` | nodejs/crypto-crawlers/src/crawlers/crawler_kline.ts:32-38 | it emits iff the key is stored and the new timestamp is strictly greater; the emitted value is the stored message, never the new one; the entry is overwritten unconditionally and other keys are unchanged |
| `LatestValue.Replay` | crypto-crawlers/src/crawlers/crawler_kline.ts:39-56 | after a stream of messages for one key, the last message is stored, other keys are unchanged, and at most one message is published per arrival |
| `LatestValue.ReplayPublishesClosed` | crypto-crawlers/src/crawlers/crawler_kline.ts:39-56 | on any stream, exactly the closed messages (each one directly followed by a strictly later one) are published, in order, after the previously kept message when the first arrival is strictly later than it |
| `LatestValue.PeriodPublishedTwice` | crypto-crawlers/src/crawlers/crawler_kline.ts:39-56 | when timestamps go back, one period is published twice: the stream `a@10, b@20, c@10, d@20` on a fresh key publishes `a` and then `c` |
| `LatestValue.ClosedIncreasing` | crypto-crawlers/src/crawlers/crawler_kline.ts:41 | with strictly rising timestamps, every message but the last is closed |
| `LatestValue.FreshKeyIncreasing` | crypto-crawlers/src/crawlers/crawler_kline.ts:39-56 | for a fresh key fed strictly increasing timestamps, every message except the last is published exactly once, in arrival order, and the last one is kept |
| `LatestValue.LateMessageDisplaces` | nodejs/crypto-crawlers/src/crawlers/crawler_kline.ts:34-38 | a late message replaces the kept one, so after `a`, an earlier `b` and a later `c`, only `b` is published |
| `CrawlerKline.KlineKey` | crypto-crawlers/src/crawlers/crawler_kline.ts:37 | the forwarder key; with `KlineKeyFields` and `KlineKeyInjective`, it holds exchange, market type, raw pair and period, and not the normalised pair |
| `CrawlerKline.KlineKeyFields` | crypto-crawlers/src/crawlers/crawler_kline.ts:37 | the key splits back into exchange, market type, the raw pair's fields and period |
| `CrawlerKline.KlineKeyInjective` | crypto-crawlers/src/crawlers/crawler_kline.ts:37 | two messages share a key iff they share exchange, market type, raw pair and period (for dash-free exchange, market type and period); `pair` is not part of it |
| `CrawlerKline.KlineCrawler.constructor` | nodejs/crypto-crawlers/src/crawlers/crawler_kline.ts:19 | the map starts empty and every entry is stored under its own key |
| `CrawlerKline.KlineCrawler.OnKline` | crypto-crawlers/src/crawlers/crawler_kline.ts:37-56 | the first message for a key publishes nothing; a published message is the stored one and is strictly earlier; the entry for the message's key is replaced and no other changes |
| `CrawlerKline.PublishedSameInstrument` | crypto-crawlers/src/crawlers/crawler_kline.ts:39-46 | what is published is an earlier message with the same exchange, market type, raw pair and period |
| `SpotIndexPrice.KlineTopic` | crypto-crawlers/src/crawlers/crawler_spot_index_price.ts:46 | the kline topic is the spot-index-kline topic, `_` and the interval |
| `SpotIndexPrice.KlineTopicNotPriceTopic` | crypto-crawlers/src/crawlers/crawler_spot_index_price.ts:46-52 | index klines and index tickers never share a topic |
| `SpotIndexPrice.KlineTopicInjective` | crypto-crawlers/src/crawlers/crawler_spot_index_price.ts:46 | different intervals publish to different topics |
| `SpotIndexPrice.IndexKey` | crypto-crawlers/src/crawlers/crawler_spot_index_price.ts:41 | the forwarder key `OKEx-<pair>-<interval>`; with `IndexKeyInjective`, it determines pair and interval |
| `SpotIndexPrice.IndexKeyInjective` | crypto-crawlers/src/crawlers/crawler_spot_index_price.ts:41 | the key `OKEx-<pair>-<interval>` determines pair and interval when neither holds a dash |
| `SpotIndexPrice.SpotIndexCrawler.constructor` | crypto-crawlers/src/crawlers/crawler_spot_index_price.ts:31 | the map starts empty |
| `SpotIndexPrice.SpotIndexCrawler.OnMessage` | crypto-crawlers/src/crawlers/crawler_spot_index_price.ts:39-53 | a message without a non-empty interval is published unchanged to the index-price topic and the map is untouched; a kline goes through the forwarder under `OKEx-<pair>-<interval>`, and a kept kline is published to the topic of the arriving interval |
| `SpotIndexPrice.PublishedOnOwnTopic` | crypto-crawlers/src/crawlers/crawler_spot_index_price.ts:41-49 | a published kline is an earlier kline of the same pair, and its own interval names the same topic |
| `BtcVolumeRatio.PairField` | nodejs/crypto-crawlers/src/transformations/btc_volume_ratio.ts:35 | the first and second `_` fields of a pair hold no `_` |
| `BtcVolumeRatio.CacheKey` | nodejs/crypto-crawlers/src/transformations/btc_volume_ratio.ts:34-36 | the cache key from exchange, market type and the pair's second `_` field; with `CacheKeySeparatesQuotes`, different quote fields never share an entry |
| `BtcVolumeRatio.Respond` | nodejs/crypto-crawlers/src/transformations/btc_volume_ratio.ts:31-56 | the cache changes only on a `BTC_USD`/`BTC_USDT` ticker, which sets its key to the ticker's quote volume; a message is published iff the pair contains `_USD`, is not BTC's and its key is cached, and it carries the cached BTC volume and the ticker's pair |
| `BtcVolumeRatio.VolumeRatio.constructor` | nodejs/crypto-crawlers/src/transformations/btc_volume_ratio.ts:28 | the cache starts empty |
| `BtcVolumeRatio.VolumeRatio.OnTicker` | nodejs/crypto-crawlers/src/transformations/btc_volume_ratio.ts:31-56 | the update is `Respond`: a pair without `_USD` does nothing; `BTC_USD`/`BTC_USDT` sets the cache and publishes nothing; an uncached key publishes nothing; the cache changes only on BTC tickers; a publication needs a cached key |
| `BtcVolumeRatio.FeedIsLastBtcVolume` | nodejs/crypto-crawlers/src/transformations/btc_volume_ratio.ts:38-39 | after any ticker stream the cache holds, per key, exactly the quote volume of the latest BTC ticker with that key |
| `BtcVolumeRatio.PublishedUsesLatestBtc` | nodejs/crypto-crawlers/src/transformations/btc_volume_ratio.ts:41-55 | a published message carries the latest BTC volume for the same exchange, market type and quote currency, and copies exchange, market type, pair, timestamp and quote volume from the ticker |
| `BtcVolumeRatio.PublishedBaseQuote` | nodejs/crypto-crawlers/src/transformations/btc_volume_ratio.ts:49-50 | for a pair `<base>_<quote>`, the published `base` and `quote` are its two halves |
| `BtcVolumeRatio.PublishedFields` | nodejs/crypto-crawlers/src/transformations/btc_volume_ratio.ts:49-50 | for any published pair, `base` and `quote` are its first two `_`-separated fields: neither holds `_`, and the pair starts with `<base>_<quote>` followed by its end or another `_` |
| `BtcVolumeRatio.CacheKeySeparatesQuotes` | nodejs/crypto-crawlers/src/transformations/btc_volume_ratio.ts:34-36 | tickers share a cache entry only with the same exchange, market type and quote field, so USD and USDT volumes never mix |
| `Common.Topic` | crypto-crawlers/src/crawlers/common.ts:39-50 | a topic is `crypto-crawlers`, a colon and its name |
| `Common.TopicInjective` | crypto-crawlers/src/crawlers/common.ts:39-50 | topics with different names differ |
| `Common.TopicsDistinct` | crypto-crawlers/src/crawlers/common.ts:4 | every topic constant is the prefix, `:` and its own suffix, and no two coincide |
| `Common.CandidatePairs` | crypto-crawlers/src/crawlers/common.ts:30-32 | a pair is chosen iff some market has it, is quoted in exactly `USD` or `USDT`, and has a base that also trades as a swap |
| `Common.CandidatePairsAppend` | crypto-crawlers/src/crawlers/common.ts:30-32 | the choice keeps catalogue order |
| `Common.KeepIn` | crypto-crawlers/src/crawlers/common.ts:36 | an element is kept iff it is in both lists; with `KeepInAppend`, in the order of the first list with its repeats |
| `Common.KeepInAppend` | crypto-crawlers/src/crawlers/common.ts:36 | filtering distributes over concatenation, so `PAIRS` order and repeats are kept |
| `Common.EnvPairs` | crypto-crawlers/src/crawlers/common.ts:34 | the names in `PAIRS` (a blank string when unset or empty) are non-empty and hold no space, and a name is listed iff it is a non-empty space-separated field of `PAIRS` |
| `Common.NonEmptyFields` | crypto-crawlers/src/crawlers/common.ts:34 | the pair names from `PAIRS` are non-empty and hold no space, and a string is listed iff it is a non-empty field of the split on single spaces |
| `Common.NonEmptyAppend` | crypto-crawlers/src/crawlers/common.ts:34 | dropping empty fields distributes over concatenation, so the fields keep their order |
| `Common.NonEmptyKeepsAll` | crypto-crawlers/src/crawlers/common.ts:34 | fields that are all non-empty are kept as they are |
| `Common.EnvPairsRoundTrip` | crypto-crawlers/src/crawlers/common.ts:34 | names joined with single spaces are read back from `PAIRS` as written, in order and with repeats |
| `Common.BlankHasNoFields` | crypto-crawlers/src/crawlers/common.ts:34 | a blank `PAIRS` names no pair |
| `Common.CalcPairs` | crypto-crawlers/src/crawlers/common.ts:24-37 | every chosen pair is one of the qualifying candidates |
| `Common.CalcPairsQualify` | crypto-crawlers/src/crawlers/common.ts:28-36 | whatever `PAIRS` says, each chosen pair belongs to a `USD`/`USDT` market whose base has a swap market |
| `Common.CalcPairsFromEnv` | crypto-crawlers/src/crawlers/common.ts:36 | with a non-empty `PAIRS`, a pair is chosen iff `PAIRS` names it and it qualifies |
| `Common.EnvPairsKept` | crypto-crawlers/src/crawlers/common.ts:36 | when all `PAIRS` entries qualify, the result is `PAIRS` itself, in its order and with repeats |
| `Common.NoEnvTakesAll` | crypto-crawlers/src/crawlers/common.ts:34-36 | with `PAIRS` unset, empty or blank, every qualifying pair is chosen |
| `OkexFundingRate.InstrumentIdToPair` | crypto-crawlers/src/crawlers/crawler_okex_funding_rate.ts:11-14 | the pair never holds a dash |
| `OkexFundingRate.InstrumentIdDropsRest` | crypto-crawlers/src/crawlers/crawler_okex_funding_rate.ts:11-13 | `<b>-<q>-<anything>` gives `<b>_<q>`: fields after the second are discarded |
| `OkexFundingRate.Channels` | crypto-crawlers/src/crawlers/crawler_okex_funding_rate.ts:22-23 | a channel is subscribed iff it is the channel of an active market |
| `OkexFundingRate.Subscribe` | crypto-crawlers/src/crawlers/crawler_okex_funding_rate.ts:22-24 | the crawler stops exactly when no market is active; otherwise it subscribes to a non-empty list |
| `OkexFundingRate.ChannelRoundTrip` | crypto-crawlers/src/crawlers/crawler_okex_funding_rate.ts:23 | the instrument id in a channel name, `<b>-<q>-SWAP`, converts back to `<b>_<q>` |
| `OkexFundingRate.Record` | crypto-crawlers/src/crawlers/crawler_okex_funding_rate.ts:51-61 | a record is an `OKEx` `Swap` record whose pair has no dash, so its message key splits back (`MessageKeyFields`) |
| `OkexFundingRate.Records` | crypto-crawlers/src/crawlers/crawler_okex_funding_rate.ts:50-62 | one record per data element, each stamped with its own clock reading |
| `OkexFundingRate.MessageKey` | crypto-crawlers/src/crawlers/crawler_okex_funding_rate.ts:67 | the key `<exchange>-<marketType>-<pair>-<rawPair>-<timestamp>`; with `MessageKeyFields` and `MessageKeyDeterminesRawPair`, it splits back and determines the raw pair |
| `OkexFundingRate.Messages` | crypto-crawlers/src/crawlers/crawler_okex_funding_rate.ts:64-70 | one Kafka message per record |
| `OkexFundingRate.PushShape` | crypto-crawlers/src/crawlers/crawler_okex_funding_rate.ts:50-70 | the i-th message carries the i-th element's record: raw pair is the unchanged instrument id, pair its converted form, exchange `OKEx`, market type `Swap`, timestamp the clock reading taken for that element |
| `OkexFundingRate.MessageKeyFields` | crypto-crawlers/src/crawlers/crawler_okex_funding_rate.ts:67 | a message key splits back into `OKEx`, `Swap`, the pair, the raw pair's fields and the timestamp |
| `OkexFundingRate.MessageKeyDeterminesRawPair` | crypto-crawlers/src/crawlers/crawler_okex_funding_rate.ts:67 | two funding-rate records with the same key have the same raw pair |
| `OkexFundingRate.MessageKeysDistinct` | crypto-crawlers/src/crawlers/crawler_okex_funding_rate.ts:64-70 | within one push, elements with different instrument ids get different message keys |

## Left out

- I/O is not modelled. This covers Kafka and Redis publishing and subscribing,
  the `crawl`/`crawlRaw`/`crawlIndex` callbacks, heartbeats, logging, and the
  `assert.equal` in publish callbacks. Emissions are return values.
- `Date.now()` is the parameter `now` in `KlineWindow.Initial` and in the
  `KlineWindow.BarWindow` constructor. `OkexFundingRate.Records` reads the clock
  once per element, as the source does; it takes the readings as the list `times`.
- `fetchMarkets` and `fetchMarketsWithCache` are left out as network and cache I/O.
  - Market lists are parameters.
  - `Common.CalcPairs` takes the lists as `fetchMarketsWithCache` returns them,
    already filtered to active markets.
- Floating point is not modelled. Sums, means, medians and the VWAP are exact
  reals. `KlineBuilder.Vwap` records only that `volume_quote / volume` is not a
  finite number when the volume is zero.
- `parseFloat` and `new Date(...).getTime()` for funding rates are not modelled.
  The funding-rate record keeps OKEx's strings (`RawRate`).
- `JSON.stringify` of Kafka payloads is left out. A message carries the record itself.
- The Kafka message keys of the kline builder and of the Kafka kline crawler are
  not modelled. The funding-rate crawler's keys are.
- Kafka topic constants are opaque. They are imported from a `common.ts` that does
  not define them.
- `nodejs/crypto-crawlers/src/crawlers/common.ts` is not part of this model:
  - the Redis kline crawler's topic and the BTC-ratio transformation's topics are
    not fixed;
  - the forwarder and `BtcVolumeRatio.VolumeRatio.OnTicker` return what is
    published.
- `KlineWindow.BarWindow.Step` follows the code as written. The intended
  behaviour is modelled separately (see Findings).
- The Redis and Kafka kline crawlers have identical forwarding logic. One class,
  `CrawlerKline.KlineCrawler`, models both.
- `TimeBar.bar_size` is milliseconds, as `buildTimeBar` receives it. The type
  declaration's comment says seconds.

## Findings

| source | as written | input that shows it | evidently intended | confidence | as-written member | corrected member |
|---|---|---|---|---|---|---|
| crypto-crawlers/src/transformations/kline_builder.ts:122 | the buffer test repeats the `timestamp < barTimeBegin` test of line 117, so every trade in `[barTimeBegin, nextBarTimeEnd)` goes to `cacheNext`; a bar stamped `E` then holds trades from `[E - 120000, E)` | start at `now = 60000`; trades at 0, 120000 and 180000 give one bar stamped 120000 whose `timestamp_start` is 0 | test `timestamp < barTimeEnd`, so each bar stamped `E` holds only trades of `[E - 60000, E)` | not executed | `KlineWindow.StaleTradeInBar` | `KlineWindow.CorrectedBarsInWindow` |
| crypto-crawlers/src/transformations/kline_builder.ts:129-139 | the trade that triggers a rollover is never stored | start at `now = 60000`; after trades at 0 and 120000, the trade at 120000 is in neither buffer | the trade is put in the new `cacheNext`, the minute it belongs to | not executed | `KlineWindow.RolloverTradeLost` | `KlineWindow.CorrectedKeepsRolloverTrade` |
