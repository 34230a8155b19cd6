/**
 * What the crawlers share: the Redis topic names, all under one prefix, and
 * the choice of pairs a crawler subscribes to.
 */
module Common {
  import opened Wrappers
  import opened Strings

  const RedisTopicPrefix: string := "crypto-crawlers"

  /** The topic `<prefix>:<name>`. */
  function Topic(name: string): (r: string)
    ensures |r| == |RedisTopicPrefix| + 1 + |name|
    ensures r[..|RedisTopicPrefix|] == RedisTopicPrefix && r[|RedisTopicPrefix|] == ':'
    ensures r[|RedisTopicPrefix| + 1..] == name
  {
    RedisTopicPrefix + ":" + name
  }

  const RedisTopicTicker: string := Topic("ticker")
  const RedisTopicTrade: string := Topic("trade")
  const RedisTopicSpotIndexPrice: string := Topic("spot_index_price")
  const RedisTopicSpotIndexKline: string := Topic("spot_index_kline")
  const RedisKlineTopic: string := Topic("kline")
  const RedisTopicKlineExt: string := Topic("kline_ext")
  const RedisTopicFundingRate: string := Topic("funding_rate")
  const RedisTopicOkexFundingRate: string := Topic("okex_funding_rate")
  const RedisHb10Topic: string := Topic("hb10")
  const RedisTopicBtcVolumeRatio: string := Topic("btc_volume_ratio")

  /** The names after the prefix, in the order the topics are declared. */
  const TopicNames: seq<string> := ["ticker", "trade", "spot_index_price", "spot_index_kline",
    "kline", "kline_ext", "funding_rate", "okex_funding_rate", "hb10", "btc_volume_ratio"]

  /** Every topic shared by the crawlers. */
  const AllTopics: seq<string> := [RedisTopicTicker, RedisTopicTrade, RedisTopicSpotIndexPrice,
    RedisTopicSpotIndexKline, RedisKlineTopic, RedisTopicKlineExt, RedisTopicFundingRate,
    RedisTopicOkexFundingRate, RedisHb10Topic, RedisTopicBtcVolumeRatio]

  /** Two topics are the same only when their names are. */
  lemma TopicInjective(a: string, b: string)
    requires Topic(a) == Topic(b)
    ensures a == b
  {
    assert a == Topic(a)[|RedisTopicPrefix| + 1..];
  }

  /** Every shared topic is the prefix, a colon and its name, and no two coincide. */
  lemma TopicsDistinct()
    ensures |AllTopics| == |TopicNames|
    ensures forall i :: 0 <= i < |AllTopics| ==> AllTopics[i] == Topic(TopicNames[i])
    ensures forall i, j :: 0 <= i < j < |AllTopics| ==> AllTopics[i] != AllTopics[j]
  {
    forall i, j | 0 <= i < j < |AllTopics| ensures AllTopics[i] != AllTopics[j] {
    }
  }

  /** A market as the exchange catalogue lists it. */
  datatype Market = Market(base: string, quote: string, baseId: string, quoteId: string, pair: string, active: bool)

  /** The base currencies that have a perpetual swap market. */
  function SwapCoins(swapMarkets: seq<Market>): set<string>
  {
    set m | m in swapMarkets :: m.base
  }

  /** A market worth crawling: quoted in USD or USDT, on a coin that also trades as a swap. */
  predicate Qualifies(m: Market, swapCoins: set<string>)
  {
    (m.quote == "USD" || m.quote == "USDT") && m.base in swapCoins
  }

  /** The pairs of the qualifying markets, in catalogue order. */
  function CandidatePairs(markets: seq<Market>, swapCoins: set<string>): (r: seq<string>)
    ensures forall x :: x in r <==> exists m :: m in markets && Qualifies(m, swapCoins) && m.pair == x
  {
    if |markets| == 0 then []
    else
      var rest := CandidatePairs(markets[1..], swapCoins);
      assert forall m :: m in markets <==> m == markets[0] || m in markets[1..];
      if Qualifies(markets[0], swapCoins) then [markets[0].pair] + rest else rest
  }

  /**
   * Choosing pairs distributes over concatenation of catalogues, so the pairs
   * of earlier markets always come before those of later ones.
   */
  lemma {:induction false} CandidatePairsAppend(a: seq<Market>, b: seq<Market>, swapCoins: set<string>)
    ensures CandidatePairs(a + b, swapCoins) == CandidatePairs(a, swapCoins) + CandidatePairs(b, swapCoins)
  {
    if |a| > 0 {
      assert (a + b)[0] == a[0];
      assert (a + b)[1..] == a[1..] + b;
      CandidatePairsAppend(a[1..], b, swapCoins);
    } else {
      assert a + b == b;
    }
  }

  /** The elements of `xs` that occur in `ys`, in the order of `xs`, repeats kept. */
  function KeepIn(xs: seq<string>, ys: seq<string>): (r: seq<string>)
    ensures |r| <= |xs|
    ensures forall x :: x in r <==> x in xs && x in ys
  {
    if |xs| == 0 then []
    else
      var rest := KeepIn(xs[1..], ys);
      assert forall x :: x in xs <==> x == xs[0] || x in xs[1..];
      if xs[0] in ys then [xs[0]] + rest else rest
  }

  /**
   * Filtering distributes over concatenation, so the kept elements stay in the
   * order of `xs`, each repeat kept as often as it occurs.
   */
  lemma {:induction false} KeepInAppend(xs: seq<string>, ys: seq<string>, zs: seq<string>)
    ensures KeepIn(xs + ys, zs) == KeepIn(xs, zs) + KeepIn(ys, zs)
  {
    if |xs| > 0 {
      assert (xs + ys)[0] == xs[0];
      assert (xs + ys)[1..] == xs[1..] + ys;
      KeepInAppend(xs[1..], ys, zs);
    } else {
      assert xs + ys == ys;
    }
  }

  /** The non-empty fields of `s`, as `s.split(' ').filter((x) => x)` leaves them. */
  function NonEmptyFields(s: string): (r: seq<string>)
    ensures forall i :: 0 <= i < |r| ==> r[i] != "" && ' ' !in r[i]
    ensures forall x :: x in r <==> x in Split(s, ' ') && x != ""
  {
    var parts := Split(s, ' ');
    var r := NonEmpty(parts);
    assert forall i :: 0 <= i < |r| ==> r[i] in parts;
    r
  }

  /** The non-empty strings of `xs`, in order. */
  function NonEmpty(xs: seq<string>): (r: seq<string>)
    ensures |r| <= |xs|
    ensures forall x :: x in r <==> x in xs && x != ""
  {
    if |xs| == 0 then []
    else
      var rest := NonEmpty(xs[1..]);
      assert forall x :: x in xs <==> x == xs[0] || x in xs[1..];
      if xs[0] != "" then [xs[0]] + rest else rest
  }

  /** The pairs named by the `PAIRS` variable; unset or empty reads as a single blank. */
  function EnvPairs(env: Option<string>): (r: seq<string>)
    ensures forall i :: 0 <= i < |r| ==> r[i] != "" && ' ' !in r[i]
    ensures forall x :: x in r <==> x in Split(if env == None || env == Some("") then " " else env.value, ' ') && x != ""
  {
    NonEmptyFields(if env == None || env == Some("") then " " else env.value)
  }

  /** Dropping empty strings distributes over concatenation, so the order is kept. */
  lemma {:induction false} NonEmptyAppend(xs: seq<string>, ys: seq<string>)
    ensures NonEmpty(xs + ys) == NonEmpty(xs) + NonEmpty(ys)
  {
    if |xs| > 0 {
      assert (xs + ys)[0] == xs[0];
      assert (xs + ys)[1..] == xs[1..] + ys;
      NonEmptyAppend(xs[1..], ys);
    } else {
      assert xs + ys == ys;
    }
  }

  /** Non-empty strings are all kept, in order. */
  lemma {:induction false} NonEmptyKeepsAll(xs: seq<string>)
    requires forall i :: 0 <= i < |xs| ==> xs[i] != ""
    ensures NonEmpty(xs) == xs
  {
    if |xs| > 0 {
      NonEmptyKeepsAll(xs[1..]);
    }
  }

  /**
   * Names written one after another with single spaces come back as written,
   * in order and with repeats.
   */
  lemma EnvPairsRoundTrip(names: seq<string>)
    requires |names| > 0
    requires forall i :: 0 <= i < |names| ==> names[i] != "" && ' ' !in names[i]
    ensures EnvPairs(Some(Join(names, ' '))) == names
  {
    SplitJoin(names, ' ');
    NonEmptyKeepsAll(names);
    assert Join(names, ' ') != "" by {
      JoinContains(names, ' ', 0, names[0][0]);
    }
  }

  /**
   * The pairs a crawler subscribes to: those named in `PAIRS` that qualify, in
   * the order `PAIRS` names them, or every qualifying pair when `PAIRS` names none.
   */
  function CalcPairs(markets: seq<Market>, swapMarkets: seq<Market>, env: Option<string>): (r: seq<string>)
    ensures forall x :: x in r ==> x in CandidatePairs(markets, SwapCoins(swapMarkets))
  {
    var pairs := CandidatePairs(markets, SwapCoins(swapMarkets));
    var fromEnv := EnvPairs(env);
    if |fromEnv| > 0 then KeepIn(fromEnv, pairs) else pairs
  }

  /** Whatever `PAIRS` says, every chosen pair belongs to a USD or USDT market of a coin with a swap. */
  lemma CalcPairsQualify(markets: seq<Market>, swapMarkets: seq<Market>, env: Option<string>, x: string)
    requires x in CalcPairs(markets, swapMarkets, env)
    ensures exists m :: (m in markets && (m.quote == "USD" || m.quote == "USDT") && m.pair == x
                         && exists s :: s in swapMarkets && s.base == m.base)
  {
    var m :| m in markets && Qualifies(m, SwapCoins(swapMarkets)) && m.pair == x;
    var s :| s in swapMarkets && s.base == m.base;
  }

  /** When `PAIRS` names some pairs, exactly the qualifying ones among them are chosen. */
  lemma CalcPairsFromEnv(markets: seq<Market>, swapMarkets: seq<Market>, env: Option<string>)
    requires |EnvPairs(env)| > 0
    ensures forall x :: x in CalcPairs(markets, swapMarkets, env) <==>
      x in EnvPairs(env) && x in CandidatePairs(markets, SwapCoins(swapMarkets))
    ensures |CalcPairs(markets, swapMarkets, env)| <= |EnvPairs(env)|
  {
  }

  /** A blank `PAIRS` string splits into no pair names. */
  lemma {:induction false} BlankHasNoFields(s: string)
    requires forall i :: 0 <= i < |s| ==> s[i] == ' '
    ensures NonEmptyFields(s) == []
  {
    var parts := Split(s, ' ');
    forall i | 0 <= i < |parts| ensures parts[i] == "" {
      if parts[i] != "" {
        JoinContains(parts, ' ', i, parts[i][0]);
      }
    }
    AllEmpty(parts);
  }

  /** Keeping the non-empty strings of all-empty strings keeps nothing. */
  lemma {:induction false} AllEmpty(xs: seq<string>)
    requires forall i :: 0 <= i < |xs| ==> xs[i] == ""
    ensures NonEmpty(xs) == []
  {
    if |xs| > 0 {
      AllEmpty(xs[1..]);
    }
  }

  /** With `PAIRS` unset, empty or blank, the crawler takes every qualifying pair. */
  lemma NoEnvTakesAll(markets: seq<Market>, swapMarkets: seq<Market>, env: Option<string>)
    requires env == None || forall i :: 0 <= i < |env.value| ==> env.value[i] == ' '
    ensures CalcPairs(markets, swapMarkets, env) == CandidatePairs(markets, SwapCoins(swapMarkets))
  {
    BlankHasNoFields(if env == None || env == Some("") then " " else env.value);
  }

  /** Keeping the elements of `xs` that occur in `ys` keeps all of `xs` when all occur. */
  lemma {:induction false} KeepInAll(xs: seq<string>, ys: seq<string>)
    requires forall i :: 0 <= i < |xs| ==> xs[i] in ys
    ensures KeepIn(xs, ys) == xs
  {
    if |xs| > 0 {
      KeepInAll(xs[1..], ys);
    }
  }

  /** When every pair `PAIRS` names qualifies, the crawler takes exactly those, in that order, repeats included. */
  lemma EnvPairsKept(markets: seq<Market>, swapMarkets: seq<Market>, env: Option<string>)
    requires |EnvPairs(env)| > 0
    requires forall i :: 0 <= i < |EnvPairs(env)| ==> EnvPairs(env)[i] in CandidatePairs(markets, SwapCoins(swapMarkets))
    ensures CalcPairs(markets, swapMarkets, env) == EnvPairs(env)
  {
    KeepInAll(EnvPairs(env), CandidatePairs(markets, SwapCoins(swapMarkets)));
  }
}
