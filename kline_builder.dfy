/**
 * The pure half of the trade-to-bar builder: `aggregate` reduces a list of
 * prices to open/high/low/close, mean and median, and `buildTimeBar` reduces
 * the trades one instrument made in a window to a `TimeBar` record.
 *
 * Prices and quantities are JavaScript doubles in the source; here they are
 * exact reals, so sums, means and medians are exact.
 */
module KlineBuilder {
  import opened Sorting

  /** One trade as the crawler library delivers it; `side == true` marks a sell. */
  datatype Trade = Trade(
    exchange: string,
    marketType: string,
    pair: string,
    rawPair: string,
    tradeId: string,
    timestamp: int,
    price: real,
    quantity: real,
    side: bool)

  /** The price summary `aggregate` returns. */
  datatype Ohlc = Ohlc(open: real, high: real, low: real, close: real, mean: real, median: real)

  /**
   * `volume_quote / volume` as a double: a number when the volume is not zero,
   * otherwise NaN or an infinity.
   */
  datatype Vwap = Finite(value: real) | NonFinite

  /** One bar, with the fields of the `TimeBar` record. */
  datatype TimeBar = TimeBar(
    exchange: string,
    marketType: string,
    pair: string,
    rawPair: string,
    barSize: int,
    timestamp: int,        // end of the bar
    timestampStart: int,   // earliest trade in the bar
    open: real,
    high: real,
    low: real,
    close: real,
    mean: real,
    median: real,
    volume: real,
    volumeQuote: real,
    volumeSell: real,
    volumeBuy: real,
    volumeQuoteSell: real,
    volumeQuoteBuy: real,
    vwap: Vwap,
    count: nat,
    countSell: nat,
    countBuy: nat)

  // ---------------------------------------------------------------------------
  // Sums

  /** `_.sum`: the total of a list of numbers. */
  function Sum(xs: seq<real>): real
  {
    if |xs| == 0 then 0.0 else xs[0] + Sum(xs[1..])
  }

  lemma {:induction false} SumConcat(xs: seq<real>, ys: seq<real>)
    ensures Sum(xs + ys) == Sum(xs) + Sum(ys)
  {
    if |xs| > 0 {
      SumConcat(xs[1..], ys);
      assert (xs + ys)[1..] == xs[1..] + ys;
    } else {
      assert xs + ys == ys;
    }
  }

  /** Taking one summand out of a list. */
  lemma SumRemove(ys: seq<real>, i: nat)
    requires i < |ys|
    ensures Sum(ys) == ys[i] + Sum(ys[..i] + ys[i + 1..])
  {
    var front, back := ys[..i], ys[i + 1..];
    var mid := [ys[i]] + back;
    SplitAround(ys, i);
    assert mid[1..] == back;
    assert Sum(mid) == ys[i] + Sum(back);
    SumConcat(front, mid);
    SumConcat(front, back);
  }

  /** The total does not depend on the order of the summands. */
  lemma {:induction false} SumPermutation(xs: seq<real>, ys: seq<real>)
    requires multiset(xs) == multiset(ys)
    ensures Sum(xs) == Sum(ys)
  {
    if |xs| > 0 {
      var i := MatchHead(xs, ys);
      SumPermutation(xs[1..], ys[..i] + ys[i + 1..]);
      SumRemove(ys, i);
    } else {
      assert |ys| == |multiset(ys)| == 0;
    }
  }

  /** A total of values within `[lo, hi]` lies within `[n * lo, n * hi]`. */
  lemma {:induction false} SumBounds(xs: seq<real>, lo: real, hi: real)
    requires forall i :: 0 <= i < |xs| ==> lo <= xs[i] <= hi
    ensures (|xs| as real) * lo <= Sum(xs) <= (|xs| as real) * hi
  {
    if |xs| > 0 {
      SumBounds(xs[1..], lo, hi);
    }
  }

  // ---------------------------------------------------------------------------
  // aggregate

  /** `Math.ceil(n / 2)` for a list length `n`. */
  function CeilHalf(n: nat): nat
  {
    if n % 2 == 0 then n / 2 else n / 2 + 1
  }

  /** The median rule applied to the ascending prices `s`. */
  function Median(s: seq<real>): real
    requires |s| > 0
  {
    var mid := CeilHalf(|s|);
    if |s| % 2 == 0 then (s[mid] + s[mid - 1]) / 2.0 else s[mid - 1]
  }

  /** In an ascending list every element lies between the first and the last. */
  lemma SortedExtremes(s: seq<real>)
    requires |s| > 0 && SortedBy(s, Id)
    ensures forall i :: 0 <= i < |s| ==> s[0] <= s[i] <= s[|s| - 1]
  {
    forall i | 0 <= i < |s| ensures s[0] <= s[i] <= s[|s| - 1] {
      SortedLe(s, Id, 0, i);
      SortedLe(s, Id, i, |s| - 1);
    }
  }

  /** An element of a list is an element of every permutation of it. */
  lemma PermutationMember(s: seq<real>, nums: seq<real>, i: nat)
    requires multiset(s) == multiset(nums) && i < |s|
    ensures s[i] in nums
  {
    assert s[i] in multiset(s);
  }

  /** Bounds on the elements carry over to any permutation. */
  lemma PermutationBounds(s: seq<real>, nums: seq<real>, lo: real, hi: real)
    requires multiset(s) == multiset(nums)
    requires forall i :: 0 <= i < |s| ==> lo <= s[i] <= hi
    ensures forall i :: 0 <= i < |nums| ==> lo <= nums[i] <= hi
  {
    forall i | 0 <= i < |nums| ensures lo <= nums[i] <= hi {
      assert nums[i] in multiset(s);
    }
  }

  /** `_.mean`: the total divided by the count. */
  function Mean(xs: seq<real>): real
    requires |xs| > 0
  {
    Sum(xs) / (|xs| as real)
  }

  /** The average of values within `[lo, hi]` lies within `[lo, hi]`. */
  lemma MeanBounds(s: seq<real>, lo: real, hi: real)
    requires |s| > 0
    requires forall i :: 0 <= i < |s| ==> lo <= s[i] <= hi
    ensures lo <= Mean(s) <= hi
  {
    SumBounds(s, lo, hi);
    var n := |s| as real;
    assert Mean(s) * n == Sum(s);
  }

  /** The first and the last `ceil(n/2)` elements of an ascending list lie on either side of its median. */
  lemma MedianSplits(s: seq<real>)
    requires |s| > 0 && SortedBy(s, Id)
    ensures forall i :: 0 <= i < CeilHalf(|s|) ==> s[i] <= Median(s)
    ensures forall i :: |s| - CeilHalf(|s|) <= i < |s| ==> Median(s) <= s[i]
  {
    var n, mid := |s|, CeilHalf(|s|);
    SortedLe(s, Id, mid - 1, n - mid);
    if n % 2 == 0 {
      SortedLe(s, Id, mid - 1, mid);
    }
    forall i | 0 <= i < mid ensures s[i] <= Median(s) {
      SortedLe(s, Id, i, mid - 1);
    }
    forall i | n - mid <= i < n ensures Median(s) <= s[i] {
      SortedLe(s, Id, n - mid, i);
    }
  }

  /**
   * For an ascending permutation `s` of `nums`, its first and last elements
   * occur in `nums` and bound it, and its mean is that of `nums` and lies
   * between them.
   */
  lemma SortedRange(s: seq<real>, nums: seq<real>)
    requires |s| > 0 && SortedBy(s, Id) && multiset(s) == multiset(nums)
    ensures s[0] in nums && s[|s| - 1] in nums
    ensures forall i :: 0 <= i < |nums| ==> s[0] <= nums[i] <= s[|s| - 1]
    ensures |nums| == |s| && Mean(s) == Sum(nums) / (|nums| as real)
    ensures s[0] <= Mean(s) <= s[|s| - 1]
  {
    assert |s| == |multiset(s)| == |multiset(nums)| == |nums|;
    PermutationMember(s, nums, 0);
    PermutationMember(s, nums, |s| - 1);
    SortedExtremes(s);
    PermutationBounds(s, nums, s[0], s[|s| - 1]);
    SumPermutation(s, nums);
    MeanBounds(s, s[0], s[|s| - 1]);
  }

  /**
   * `aggregate(nums)`: `open`/`close` are the first and last numbers as given;
   * `high`/`low` the largest and smallest; `mean` the average; and `median` is
   * the middle of the sorted numbers (the average of the two middle ones for
   * an even count): the first and the last `ceil(n/2)` sorted numbers lie on
   * either side of it.
   */
  function Aggregate(nums: seq<real>): (r: Ohlc)
    requires |nums| > 0
    ensures r.open == nums[0] && r.close == nums[|nums| - 1]
    ensures r.high in nums && forall i :: 0 <= i < |nums| ==> nums[i] <= r.high
    ensures r.low in nums && forall i :: 0 <= i < |nums| ==> r.low <= nums[i]
    ensures r.mean == Sum(nums) / (|nums| as real)
    ensures r.low <= r.mean <= r.high
    ensures r.low <= r.median <= r.high
    ensures var s := SortBy(nums, Id);
      && (forall i :: 0 <= i < CeilHalf(|nums|) ==> s[i] <= r.median)
      && (forall i :: |nums| - CeilHalf(|nums|) <= i < |nums| ==> r.median <= s[i])
  {
    var s := SortBy(nums, Id);
    var n := |s|;
    SortBySorted(nums, Id);
    SortedRange(s, nums);
    MedianSplits(s);
    Ohlc(nums[0], s[n - 1], s[0], nums[n - 1], Mean(s), Median(s))
  }

  /** The summary of a price list depends only on which prices occur, apart from open and close. */
  lemma AggregateOrderIndependent(a: seq<real>, b: seq<real>)
    requires |a| > 0 && multiset(a) == multiset(b)
    ensures |b| > 0
    ensures Aggregate(a).high == Aggregate(b).high && Aggregate(a).low == Aggregate(b).low
    ensures Aggregate(a).mean == Aggregate(b).mean && Aggregate(a).median == Aggregate(b).median
  {
    assert |a| == |multiset(a)| == |multiset(b)| == |b|;
    SortBySorted(a, Id);
    SortBySorted(b, Id);
    SortedPermutationsEqual(SortBy(a, Id), SortBy(b, Id));
  }

  /** On an already ascending list the median is read off directly. */
  lemma MedianOfSorted(s: seq<real>)
    requires |s| > 0 && SortedBy(s, Id)
    ensures Aggregate(s).median == Median(s)
  {
    SortBySorted(s, Id);
    SortedPermutationsEqual(SortBy(s, Id), s);
  }

  /** The list `1, 2, ..., n` is ascending. */
  lemma CountingUpSorted(s: seq<real>)
    requires forall i :: 0 <= i < |s| ==> s[i] == (i + 1) as real
    ensures SortedBy(s, Id)
  {
    AdjacentSorted(s, Id);
  }

  /** An even count averages the two middle prices: `[1, 2, 3, 4]` gives 2.5. */
  lemma MedianEvenExample(s: seq<real>)
    requires s == [1.0, 2.0, 3.0, 4.0]
    ensures Aggregate(s).median == 2.5
  {
    assert Median(s) == 2.5;
    CountingUpSorted(s);
    MedianOfSorted(s);
  }

  /** An odd count takes the middle price: `[1, 2, 3, 4, 5]` gives 3. */
  lemma MedianOddExample(s: seq<real>)
    requires s == [1.0, 2.0, 3.0, 4.0, 5.0]
    ensures Aggregate(s).median == 3.0
  {
    assert Median(s) == 3.0;
    CountingUpSorted(s);
    MedianOfSorted(s);
  }

  // ---------------------------------------------------------------------------
  // _.uniqBy(trades, 'trade_id')

  /** The trade ids that occur in `ts`. */
  function Ids(ts: seq<Trade>): set<string>
  {
    set i | 0 <= i < |ts| :: ts[i].tradeId
  }

  /** No trade id occurs twice in `ts`. */
  predicate DistinctIds(ts: seq<Trade>)
  {
    forall i, j :: 0 <= i < j < |ts| ==> ts[i].tradeId != ts[j].tradeId
  }

  /** The ids of a list are the id of its head and the ids of its tail. */
  lemma IdsCons(ts: seq<Trade>)
    requires |ts| > 0
    ensures Ids(ts) == {ts[0].tradeId} + Ids(ts[1..])
  {
    forall id | id in Ids(ts) ensures id in {ts[0].tradeId} + Ids(ts[1..]) {
      var i :| 0 <= i < |ts| && ts[i].tradeId == id;
      if i > 0 { assert ts[1..][i - 1] == ts[i]; }
    }
    forall id | id in Ids(ts[1..]) ensures id in Ids(ts) {
      var i :| 0 <= i < |ts[1..]| && ts[1..][i].tradeId == id;
      assert ts[i + 1] == ts[1..][i];
    }
  }

  /**
   * The walk `_.uniqBy` makes over `ts` with the ids in `seen` already taken:
   * a trade is kept when its id is neither in `seen` nor on an earlier trade.
   */
  function UniqFrom(ts: seq<Trade>, seen: set<string>): (r: seq<Trade>)
    ensures Ids(r) == Ids(ts) - seen
    ensures DistinctIds(r)
    ensures multiset(r) <= multiset(ts)
  {
    if |ts| == 0 then []
    else
      var t := ts[0];
      IdsCons(ts);
      assert ts == [t] + ts[1..];
      if t.tradeId in seen then UniqFrom(ts[1..], seen)
      else
        var rest := UniqFrom(ts[1..], seen + {t.tradeId});
        var r := [t] + rest;
        assert r[1..] == rest;
        IdsCons(r);
        assert DistinctIds(r) by {
          forall i, j | 0 <= i < j < |r| ensures r[i].tradeId != r[j].tradeId {
            if i == 0 { assert r[j] == rest[j - 1]; }
          }
        }
        r
  }

  /**
   * `_.uniqBy(ts, 'trade_id')`: the first trade of each id, in arrival order.
   * Every id survives, and each exactly once.
   */
  function UniqById(ts: seq<Trade>): (r: seq<Trade>)
    ensures Ids(r) == Ids(ts)
    ensures DistinctIds(r)
    ensures multiset(r) <= multiset(ts)
  {
    UniqFrom(ts, {})
  }

  /** Trades whose ids are all taken already contribute nothing. */
  lemma {:induction false} UniqFromAllSeen(ts: seq<Trade>, seen: set<string>)
    requires Ids(ts) <= seen
    ensures UniqFrom(ts, seen) == []
  {
    if |ts| > 0 {
      IdsCons(ts);
      UniqFromAllSeen(ts[1..], seen);
    }
  }

  /** Trades whose ids occur earlier or in `seen` do not change the walk. */
  lemma {:induction false} UniqFromIgnoresRedelivery(ts: seq<Trade>, again: seq<Trade>, seen: set<string>)
    requires Ids(again) <= Ids(ts) + seen
    ensures UniqFrom(ts + again, seen) == UniqFrom(ts, seen)
  {
    if |ts| == 0 {
      assert ts + again == again;
      UniqFromAllSeen(again, seen);
    } else {
      IdsCons(ts);
      assert (ts + again)[0] == ts[0];
      assert (ts + again)[1..] == ts[1..] + again;
      UniqFromIgnoresRedelivery(ts[1..], again, seen + {ts[0].tradeId});
      if ts[0].tradeId in seen {
        UniqFromIgnoresRedelivery(ts[1..], again, seen);
      }
    }
  }

  /** A list without repeated ids has as many elements as ids. */
  lemma {:induction false} DistinctIdsCount(ts: seq<Trade>)
    requires DistinctIds(ts)
    ensures |Ids(ts)| == |ts|
  {
    if |ts| > 0 {
      var init := ts[..|ts| - 1];
      DistinctIdsCount(init);
      assert Ids(ts) == Ids(init) + {ts[|ts| - 1].tradeId} by {
        forall id | id in Ids(ts) ensures id in Ids(init) + {ts[|ts| - 1].tradeId} {
          var i :| 0 <= i < |ts| && ts[i].tradeId == id;
          if i < |ts| - 1 { assert init[i] == ts[i]; }
        }
      }
      assert ts[|ts| - 1].tradeId !in Ids(init);
    }
  }

  /** Re-delivered trades (ids already seen) leave the deduplicated list unchanged. */
  lemma UniqByIgnoresRedelivery(ts: seq<Trade>, again: seq<Trade>)
    requires Ids(again) <= Ids(ts)
    ensures UniqById(ts + again) == UniqById(ts)
  {
    UniqFromIgnoresRedelivery(ts, again, {});
  }

  /** The walk skips a trade whose id is in `seen` or on an earlier trade. */
  lemma {:induction false} UniqFromDropsRepeat(ts: seq<Trade>, j: nat, seen: set<string>)
    requires j < |ts| && ts[j].tradeId in Ids(ts[..j]) + seen
    ensures UniqFrom(ts[..j] + ts[j + 1..], seen) == UniqFrom(ts, seen)
  {
    var d := ts[..j] + ts[j + 1..];
    if j == 0 {
      assert d == ts[1..];
    } else {
      var t, rest := ts[0], ts[1..];
      assert d[0] == t;
      assert d[1..] == rest[..j - 1] + rest[j..];
      assert rest[j - 1] == ts[j];
      assert Ids(ts[..j]) == {t.tradeId} + Ids(rest[..j - 1]) by {
        IdsCons(ts[..j]);
        assert ts[..j][1..] == rest[..j - 1];
      }
      if t.tradeId in seen {
        UniqFromDropsRepeat(rest, j - 1, seen);
      } else {
        UniqFromDropsRepeat(rest, j - 1, seen + {t.tradeId});
      }
    }
  }

  /** A list without repeated ids, none of them in `seen`, is walked unchanged. */
  lemma {:induction false} UniqFromDistinct(ts: seq<Trade>, seen: set<string>)
    requires DistinctIds(ts) && Ids(ts) !! seen
    ensures UniqFrom(ts, seen) == ts
  {
    if |ts| > 0 {
      var t, rest := ts[0], ts[1..];
      IdsCons(ts);
      assert DistinctIds(rest) by {
        forall i, j | 0 <= i < j < |rest| ensures rest[i].tradeId != rest[j].tradeId {
          assert rest[i] == ts[i + 1] && rest[j] == ts[j + 1];
        }
      }
      assert t.tradeId !in Ids(rest) by {
        forall i | 0 <= i < |rest| ensures rest[i].tradeId != t.tradeId {
          assert rest[i] == ts[i + 1];
        }
      }
      UniqFromDistinct(rest, seen + {t.tradeId});
      assert ts == [t] + rest;
    }
  }

  /**
   * Removing a trade whose id an earlier trade already carries leaves the
   * deduplicated list unchanged: only the first trade of each id is kept.
   */
  lemma UniqByDropsLaterRepeat(ts: seq<Trade>, j: nat)
    requires j < |ts| && ts[j].tradeId in Ids(ts[..j])
    ensures UniqById(ts[..j] + ts[j + 1..]) == UniqById(ts)
  {
    UniqFromDropsRepeat(ts, j, {});
  }

  /** Trades with distinct ids come back as they are, in arrival order. */
  lemma UniqByKeepsDistinct(ts: seq<Trade>)
    requires DistinctIds(ts)
    ensures UniqById(ts) == ts
  {
    UniqFromDistinct(ts, {});
  }

  // ---------------------------------------------------------------------------
  // buildTimeBar

  /** The sort key of `_.sortBy(trades, 'timestamp')`. */
  function TradeTime(t: Trade): real { t.timestamp as real }

  function Prices(ts: seq<Trade>): (r: seq<real>)
    ensures |r| == |ts| && forall i :: 0 <= i < |ts| ==> r[i] == ts[i].price
  {
    seq(|ts|, i requires 0 <= i < |ts| => ts[i].price)
  }

  function Quantities(ts: seq<Trade>): seq<real>
  {
    if |ts| == 0 then [] else [ts[0].quantity] + Quantities(ts[1..])
  }

  /** A trade's value in the quote currency, `quantity * price`. */
  function Notional(t: Trade): real
  {
    t.quantity * t.price
  }

  /** The notional of every trade. */
  function QuoteQuantities(ts: seq<Trade>): seq<real>
  {
    if |ts| == 0 then [] else [Notional(ts[0])] + QuoteQuantities(ts[1..])
  }

  /** The trades on one side: `sell == true` keeps the sells. */
  function OnSide(ts: seq<Trade>, sell: bool): seq<Trade>
  {
    if |ts| == 0 then []
    else (if ts[0].side == sell then [ts[0]] else []) + OnSide(ts[1..], sell)
  }

  /** The trades of a bar: deduplicated by id, then stably sorted by time. */
  function BarTrades(trades: seq<Trade>): seq<Trade>
  {
    SortBy(UniqById(trades), TradeTime)
  }

  /** The first of the bar's sorted trades is one of the trades, and no deduplicated trade is earlier. */
  lemma BarStart(trades: seq<Trade>)
    requires |UniqById(trades)| > 0
    ensures |BarTrades(trades)| > 0
    ensures BarTrades(trades)[0] in trades && BarTrades(trades)[0] in UniqById(trades)
    ensures forall t :: t in UniqById(trades) ==> BarTrades(trades)[0].timestamp <= t.timestamp
  {
    var u := UniqById(trades);
    var ts := BarTrades(trades);
    SortBySorted(u, TradeTime);
    assert ts[0] in multiset(u);
    assert ts[0] in multiset(trades);
    forall t | t in u ensures ts[0].timestamp <= t.timestamp {
      assert t in multiset(ts);
      SortedHeadLeast(ts, TradeTime, t);
    }
  }

  /**
   * `buildTimeBar(barTime, barSize, trades)`. The source asserts that the
   * trade list is not empty after deduplication, which holds exactly when
   * it is not empty before.
   */
  function BuildTimeBar(barTime: int, barSize: int, trades: seq<Trade>): (r: TimeBar)
    requires |trades| > 0
    ensures r.timestamp == barTime && r.barSize == barSize
    ensures r.count == |Ids(trades)|
    ensures r.count == r.countSell + r.countBuy
    ensures r.volume == r.volumeSell + r.volumeBuy
    ensures r.volumeQuote == r.volumeQuoteSell + r.volumeQuoteBuy
    ensures exists t :: t in UniqById(trades) && t.timestamp == r.timestampStart
    ensures forall t :: t in UniqById(trades) ==> r.timestampStart <= t.timestamp
    ensures r.vwap.NonFinite? <==> r.volume == 0.0
  {
    var ts := BarTrades(trades);
    var u := UniqById(trades);
    assert |u| > 0 by {
      assert trades[0].tradeId in Ids(trades);
    }
    var ohlc := Aggregate(Prices(ts));
    var volume := Sum(Quantities(ts));
    var volumeSell := Sum(Quantities(OnSide(ts, true)));
    var volumeBuy := Sum(Quantities(OnSide(ts, false)));
    var volumeQuote := Sum(QuoteQuantities(ts));
    var volumeQuoteSell := Sum(QuoteQuantities(OnSide(ts, true)));
    var volumeQuoteBuy := Sum(QuoteQuantities(OnSide(ts, false)));
    SideCount(ts);
    SideSplit(ts);
    DistinctIdsCount(u);
    BarStart(trades);
    TimeBar(
      ts[0].exchange, ts[0].marketType, ts[0].pair, ts[0].rawPair,
      barSize, barTime, ts[0].timestamp,
      ohlc.open, ohlc.high, ohlc.low, ohlc.close, ohlc.mean, ohlc.median,
      volume, volumeQuote, volumeSell, volumeBuy, volumeQuoteSell, volumeQuoteBuy,
      if volume == 0.0 then NonFinite else Finite(volumeQuote / volume),
      |ts|, |OnSide(ts, true)|, |OnSide(ts, false)|)
  }

  /** Sells and buys partition the trades. */
  lemma {:induction false} SideCount(ts: seq<Trade>)
    ensures |ts| == |OnSide(ts, true)| + |OnSide(ts, false)|
  {
    if |ts| > 0 {
      SideCount(ts[1..]);
    }
  }

  /** Unfolding the per-trade sums over one trade followed by the rest. */
  lemma SumsCons(t: Trade, rest: seq<Trade>)
    ensures Sum(Quantities([t] + rest)) == t.quantity + Sum(Quantities(rest))
    ensures Sum(QuoteQuantities([t] + rest)) == Notional(t) + Sum(QuoteQuantities(rest))
  {
    assert ([t] + rest)[1..] == rest;
    assert ([t.quantity] + Quantities(rest))[1..] == Quantities(rest);
    assert ([Notional(t)] + QuoteQuantities(rest))[1..] == QuoteQuantities(rest);
  }

  /** Unfolding the per-trade sums at the first trade. */
  lemma SumsHead(ts: seq<Trade>)
    requires |ts| > 0
    ensures Sum(Quantities(ts)) == ts[0].quantity + Sum(Quantities(ts[1..]))
    ensures Sum(QuoteQuantities(ts)) == Notional(ts[0]) + Sum(QuoteQuantities(ts[1..]))
  {
    assert ([ts[0].quantity] + Quantities(ts[1..]))[1..] == Quantities(ts[1..]);
    assert ([Notional(ts[0])] + QuoteQuantities(ts[1..]))[1..] == QuoteQuantities(ts[1..]);
  }

  /** The sell and buy volumes add up to the volume, in base and in quote units. */
  lemma {:induction false} SideSplit(ts: seq<Trade>)
    ensures Sum(Quantities(ts)) == Sum(Quantities(OnSide(ts, true))) + Sum(Quantities(OnSide(ts, false)))
    ensures Sum(QuoteQuantities(ts)) == Sum(QuoteQuantities(OnSide(ts, true))) + Sum(QuoteQuantities(OnSide(ts, false)))
  {
    if |ts| > 0 {
      var t, rest := ts[0], ts[1..];
      SideSplit(rest);
      assert ts == [t] + rest;
      SumsCons(t, rest);
      if t.side {
        assert OnSide(ts, true) == [t] + OnSide(rest, true);
        assert OnSide(ts, false) == OnSide(rest, false);
        SumsCons(t, OnSide(rest, true));
      } else {
        assert OnSide(ts, false) == [t] + OnSide(rest, false);
        assert OnSide(ts, true) == OnSide(rest, true);
        SumsCons(t, OnSide(rest, false));
      }
    }
  }

  /** A trade whose id the bar already holds does not change the bar. */
  lemma BuildTimeBarIgnoresRedelivery(barTime: int, barSize: int, trades: seq<Trade>, again: seq<Trade>)
    requires |trades| > 0 && Ids(again) <= Ids(trades)
    ensures BuildTimeBar(barTime, barSize, trades + again) == BuildTimeBar(barTime, barSize, trades)
  {
    UniqByIgnoresRedelivery(trades, again);
  }

  /** `lo * q <= q * p <= hi * q` for a non-negative quantity `q` and a price `p` in `[lo, hi]`. */
  lemma ScaleBounds(q: real, p: real, lo: real, hi: real)
    requires q >= 0.0 && lo <= p <= hi
    ensures lo * q <= q * p <= hi * q
  {
    assert q * (p - lo) >= 0.0;
    assert q * (hi - p) >= 0.0;
  }

  /**
   * One more trade keeps the quote volume between `lo` and `hi` times the
   * volume: `total` and `quoteTotal` are the sums with the trade `(q, p)` added.
   */
  lemma AddBounds(q: real, p: real, v: real, qv: real, total: real, quoteTotal: real, lo: real, hi: real)
    requires q >= 0.0 && lo <= p <= hi && v >= 0.0 && lo * v <= qv <= hi * v
    requires total == q + v && quoteTotal == q * p + qv
    ensures total >= 0.0 && lo * total <= quoteTotal <= hi * total
  {
    ScaleBounds(q, p, lo, hi);
    assert lo * total == lo * q + lo * v;
    assert hi * total == hi * q + hi * v;
  }

  /** Every trade has a non-negative quantity and a price in `[lo, hi]`. */
  predicate Within(ts: seq<Trade>, lo: real, hi: real)
  {
    |ts| == 0 || (ts[0].quantity >= 0.0 && lo <= ts[0].price <= hi && Within(ts[1..], lo, hi))
  }

  lemma {:induction false} WithinAll(ts: seq<Trade>, lo: real, hi: real)
    requires forall i :: 0 <= i < |ts| ==> ts[i].quantity >= 0.0 && lo <= ts[i].price <= hi
    ensures Within(ts, lo, hi)
  {
    if |ts| > 0 {
      assert forall i :: 0 <= i < |ts[1..]| ==> ts[1..][i] == ts[i + 1];
      WithinAll(ts[1..], lo, hi);
    }
  }

  /** With non-negative quantities, quote volume is between `lo` and `hi` times the volume. */
  lemma {:induction false} QuoteVolumeBounds(ts: seq<Trade>, lo: real, hi: real)
    requires Within(ts, lo, hi)
    ensures Sum(Quantities(ts)) >= 0.0
    ensures lo * Sum(Quantities(ts)) <= Sum(QuoteQuantities(ts)) <= hi * Sum(Quantities(ts))
  {
    if |ts| > 0 {
      var t, rest := ts[0], ts[1..];
      QuoteVolumeBounds(rest, lo, hi);
      var v, qv := Sum(Quantities(rest)), Sum(QuoteQuantities(rest));
      SumsHead(ts);
      AddBounds(t.quantity, t.price, v, qv, Sum(Quantities(ts)), Sum(QuoteQuantities(ts)), lo, hi);
    }
  }

  /** With non-negative quantities and prices in `[lo, hi]`, `volume_quote / volume` lies in `[lo, hi]`. */
  lemma VwapBetween(ts: seq<Trade>, lo: real, hi: real)
    requires Within(ts, lo, hi)
    ensures Sum(Quantities(ts)) >= 0.0
    ensures Sum(Quantities(ts)) > 0.0 ==> lo <= Sum(QuoteQuantities(ts)) / Sum(Quantities(ts)) <= hi
  {
    QuoteVolumeBounds(ts, lo, hi);
    if Sum(Quantities(ts)) > 0.0 {
      RatioBounds(Sum(QuoteQuantities(ts)), Sum(Quantities(ts)), lo, hi);
    }
  }

  /**
   * The bar names the instrument of one of its deduplicated trades, one with
   * the least timestamp, and starts at that trade's time.
   */
  lemma BarInstrument(barTime: int, barSize: int, trades: seq<Trade>) returns (t: Trade)
    requires |trades| > 0
    ensures t in trades && t in UniqById(trades)
    ensures forall t' :: t' in UniqById(trades) ==> t.timestamp <= t'.timestamp
    ensures var b := BuildTimeBar(barTime, barSize, trades);
      b.exchange == t.exchange && b.marketType == t.marketType && b.pair == t.pair && b.rawPair == t.rawPair
    ensures BuildTimeBar(barTime, barSize, trades).timestampStart == t.timestamp
  {
    BarFields(barTime, barSize, trades);
    assert |UniqById(trades)| > 0 by {
      assert trades[0].tradeId in Ids(trades);
    }
    BarStart(trades);
    t := BarTrades(trades)[0];
  }

  /** `q / v` lies in `[lo, hi]` when `v > 0` and `lo * v <= q <= hi * v`. */
  lemma RatioBounds(q: real, v: real, lo: real, hi: real)
    requires v > 0.0 && lo * v <= q <= hi * v
    ensures lo <= q / v <= hi
  {
    assert (q / v) * v == q;
  }

  /** The bar's price and volume fields, read off the deduplicated, time-sorted trades. */
  lemma BarFields(barTime: int, barSize: int, trades: seq<Trade>)
    requires |trades| > 0
    ensures |BarTrades(trades)| > 0
    ensures BuildTimeBar(barTime, barSize, trades).timestampStart == BarTrades(trades)[0].timestamp
    ensures BuildTimeBar(barTime, barSize, trades).exchange == BarTrades(trades)[0].exchange
    ensures BuildTimeBar(barTime, barSize, trades).marketType == BarTrades(trades)[0].marketType
    ensures BuildTimeBar(barTime, barSize, trades).pair == BarTrades(trades)[0].pair
    ensures BuildTimeBar(barTime, barSize, trades).rawPair == BarTrades(trades)[0].rawPair
    ensures BuildTimeBar(barTime, barSize, trades).open == BarTrades(trades)[0].price
    ensures BuildTimeBar(barTime, barSize, trades).close == BarTrades(trades)[|BarTrades(trades)| - 1].price
    ensures BuildTimeBar(barTime, barSize, trades).low == Aggregate(Prices(BarTrades(trades))).low
    ensures BuildTimeBar(barTime, barSize, trades).high == Aggregate(Prices(BarTrades(trades))).high
    ensures BuildTimeBar(barTime, barSize, trades).volume == Sum(Quantities(BarTrades(trades)))
    ensures BuildTimeBar(barTime, barSize, trades).volumeQuote == Sum(QuoteQuantities(BarTrades(trades)))
    ensures var b := BuildTimeBar(barTime, barSize, trades);
      b.vwap.Finite? ==> b.vwap.value == b.volumeQuote / b.volume
  {
  }

  // ---------------------------------------------------------------------------
  // The bar's fields do not depend on the sort

  lemma {:induction false} QuantitiesConcat(xs: seq<Trade>, ys: seq<Trade>)
    ensures Quantities(xs + ys) == Quantities(xs) + Quantities(ys)
  {
    if |xs| > 0 {
      var zs := xs + ys;
      assert zs[0] == xs[0] && zs[1..] == xs[1..] + ys;
      QuantitiesConcat(xs[1..], ys);
      assert Quantities(zs) == [xs[0].quantity] + Quantities(xs[1..] + ys);
    } else {
      assert xs + ys == ys;
    }
  }

  lemma {:induction false} QuoteQuantitiesConcat(xs: seq<Trade>, ys: seq<Trade>)
    ensures QuoteQuantities(xs + ys) == QuoteQuantities(xs) + QuoteQuantities(ys)
  {
    if |xs| > 0 {
      var t, rest := xs[0], xs[1..];
      assert xs + ys == [t] + (rest + ys);
      assert xs == [t] + rest;
      QuoteQuantitiesConcat(rest, ys);
      QuoteQuantitiesCons(t, rest + ys);
      QuoteQuantitiesCons(t, rest);
    } else {
      assert xs + ys == ys;
    }
  }

  /** Unfolding the quote quantities at a first trade `t`. */
  lemma QuoteQuantitiesCons(t: Trade, rest: seq<Trade>)
    ensures QuoteQuantities([t] + rest) == [Notional(t)] + QuoteQuantities(rest)
  {
    assert ([t] + rest)[1..] == rest;
  }

  /** Taking the trade at `i` out of the volume sum. */
  lemma QuantitiesRemove(ys: seq<Trade>, i: nat)
    requires i < |ys|
    ensures Sum(Quantities(ys)) == ys[i].quantity + Sum(Quantities(ys[..i] + ys[i + 1..]))
  {
    var front, back := ys[..i], ys[i + 1..];
    var mid := [ys[i]] + back;
    SplitAround(ys, i);
    QuantitiesConcat(front, mid);
    QuantitiesConcat(front, back);
    var qf, qm, qb := Quantities(front), Quantities(mid), Quantities(back);
    assert mid[0] == ys[i] && mid[1..] == back;
    assert Sum(qm) == ys[i].quantity + Sum(qb) by {
      assert qm == [ys[i].quantity] + qb;
      assert qm[1..] == qb;
    }
    SumConcat(qf, qm);
    SumConcat(qf, qb);
  }

  /** Taking the trade `t` at `i` out of the quote-volume sum. */
  lemma QuoteQuantitiesRemove(ys: seq<Trade>, i: nat, t: Trade)
    requires i < |ys| && ys[i] == t
    ensures Sum(QuoteQuantities(ys)) == Notional(t) + Sum(QuoteQuantities(ys[..i] + ys[i + 1..]))
  {
    var front, back := ys[..i], ys[i + 1..];
    var mid := [t] + back;
    SplitAround(ys, i);
    QuoteQuantitiesConcat(front, mid);
    QuoteQuantitiesConcat(front, back);
    var qf, qm, qb := QuoteQuantities(front), QuoteQuantities(mid), QuoteQuantities(back);
    assert Sum(qm) == Notional(t) + Sum(qb) by {
      QuoteQuantitiesCons(t, back);
      assert qm[1..] == qb;
    }
    SumConcat(qf, qm);
    SumConcat(qf, qb);
  }

  /** The volume sums do not depend on the order of the trades. */
  lemma {:induction false} TradeSumsPermutation(xs: seq<Trade>, ys: seq<Trade>)
    requires multiset(xs) == multiset(ys)
    ensures Sum(Quantities(xs)) == Sum(Quantities(ys))
    ensures Sum(QuoteQuantities(xs)) == Sum(QuoteQuantities(ys))
  {
    if |xs| > 0 {
      var i := MatchHead(xs, ys);
      TradeSumsPermutation(xs[1..], ys[..i] + ys[i + 1..]);
      SumsHead(xs);
      QuantitiesRemove(ys, i);
      QuoteQuantitiesRemove(ys, i, xs[0]);
    } else {
      assert |ys| == |multiset(ys)| == 0;
    }
  }

  lemma {:induction false} OnSideConcat(xs: seq<Trade>, ys: seq<Trade>, sell: bool)
    ensures OnSide(xs + ys, sell) == OnSide(xs, sell) + OnSide(ys, sell)
  {
    if |xs| > 0 {
      assert (xs + ys)[0] == xs[0];
      assert (xs + ys)[1..] == xs[1..] + ys;
      OnSideConcat(xs[1..], ys, sell);
    } else {
      assert xs + ys == ys;
    }
  }

  /** Which trades lie on one side does not depend on their order. */
  lemma {:induction false} OnSidePermutation(xs: seq<Trade>, ys: seq<Trade>, sell: bool)
    requires multiset(xs) == multiset(ys)
    ensures multiset(OnSide(xs, sell)) == multiset(OnSide(ys, sell))
  {
    if |xs| > 0 {
      var i := MatchHead(xs, ys);
      var front, back := ys[..i], ys[i + 1..];
      var mid := [ys[i]] + back;
      OnSidePermutation(xs[1..], front + back, sell);
      SplitAround(ys, i);
      OnSideConcat(front, mid, sell);
      OnSideConcat(front, back, sell);
      assert mid[0] == ys[i] && mid[1..] == back;
    } else {
      assert |ys| == |multiset(ys)| == 0;
    }
  }

  /** The prices of two orderings of the same trades are the same multiset. */
  lemma {:induction false} PricesPermutation(xs: seq<Trade>, ys: seq<Trade>)
    requires multiset(xs) == multiset(ys)
    ensures multiset(Prices(xs)) == multiset(Prices(ys))
  {
    if |xs| > 0 {
      var i := MatchHead(xs, ys);
      var rest := ys[..i] + ys[i + 1..];
      PricesPermutation(xs[1..], rest);
      var px, py := Prices(xs), Prices(ys);
      assert Prices(xs[1..]) == px[1..];
      assert Prices(rest) == py[..i] + py[i + 1..] by {
        forall k | 0 <= k < |rest| ensures Prices(rest)[k] == (py[..i] + py[i + 1..])[k] {
          if k < i { assert rest[k] == ys[k]; } else { assert rest[k] == ys[k + 1]; }
        }
      }
      assert px[0] == py[i];
      assert px == [px[0]] + px[1..];
      SplitAround(py, i);
    } else {
      assert |ys| == |multiset(ys)| == 0;
    }
  }

  /**
   * The bar's volumes and counts are those of the deduplicated trades in
   * arrival order: the sell fields sum the trades with `side == true`, the
   * buy fields the others, and the VWAP is the quote volume over the volume.
   */
  lemma BarVolumes(barTime: int, barSize: int, trades: seq<Trade>)
    requires |trades| > 0
    ensures var b, u := BuildTimeBar(barTime, barSize, trades), UniqById(trades);
      && b.volume == Sum(Quantities(u)) && b.volumeQuote == Sum(QuoteQuantities(u))
      && b.volumeSell == Sum(Quantities(OnSide(u, true)))
      && b.volumeBuy == Sum(Quantities(OnSide(u, false)))
      && b.volumeQuoteSell == Sum(QuoteQuantities(OnSide(u, true)))
      && b.volumeQuoteBuy == Sum(QuoteQuantities(OnSide(u, false)))
      && b.countSell == |OnSide(u, true)| && b.countBuy == |OnSide(u, false)|
    ensures var b := BuildTimeBar(barTime, barSize, trades);
      b.vwap == if b.volume == 0.0 then NonFinite else Finite(b.volumeQuote / b.volume)
  {
    var ts, u := BarTrades(trades), UniqById(trades);
    var sells, buys := OnSide(ts, true), OnSide(ts, false);
    TradeSumsPermutation(ts, u);
    OnSidePermutation(ts, u, true);
    OnSidePermutation(ts, u, false);
    TradeSumsPermutation(sells, OnSide(u, true));
    TradeSumsPermutation(buys, OnSide(u, false));
    assert |sells| == |multiset(sells)| == |multiset(OnSide(u, true))| == |OnSide(u, true)|;
    assert |buys| == |multiset(buys)| == |multiset(OnSide(u, false))| == |OnSide(u, false)|;
  }

  /**
   * The bar's low, high, mean and median are those `aggregate` gives for the
   * deduplicated prices in arrival order.
   */
  lemma BarPrices(barTime: int, barSize: int, trades: seq<Trade>)
    requires |trades| > 0
    ensures |UniqById(trades)| > 0
    ensures var b, a := BuildTimeBar(barTime, barSize, trades), Aggregate(Prices(UniqById(trades)));
      b.low == a.low && b.high == a.high && b.mean == a.mean && b.median == a.median
  {
    var ts, u := BarTrades(trades), UniqById(trades);
    BarFields(barTime, barSize, trades);
    PricesPermutation(ts, u);
    AggregateOrderIndependent(Prices(ts), Prices(u));
  }

  /** Every price of a list lies between the low and the high `aggregate` reports for it. */
  lemma PricesWithin(ts: seq<Trade>)
    requires |ts| > 0
    ensures forall i :: 0 <= i < |ts| ==> Aggregate(Prices(ts)).low <= ts[i].price <= Aggregate(Prices(ts)).high
  {
    var ps := Prices(ts);
    forall i | 0 <= i < |ts| ensures Aggregate(ps).low <= ts[i].price <= Aggregate(ps).high {
      assert ps[i] == ts[i].price;
    }
  }

  /** Every trade of a bar is one of the trades it was built from. */
  lemma BarTradesFrom(trades: seq<Trade>, i: nat)
    requires i < |BarTrades(trades)|
    ensures BarTrades(trades)[i] in trades
  {
    assert BarTrades(trades)[i] in multiset(BarTrades(trades));
    assert BarTrades(trades)[i] in multiset(trades);
  }

  /**
   * With non-negative quantities the VWAP, when it is a number, lies between
   * the bar's low and high.
   */
  lemma VwapWithinRange(barTime: int, barSize: int, trades: seq<Trade>)
    requires |trades| > 0
    requires forall i :: 0 <= i < |trades| ==> trades[i].quantity >= 0.0
    ensures var b := BuildTimeBar(barTime, barSize, trades);
      b.vwap.Finite? ==> b.low <= b.vwap.value <= b.high
  {
    BarFields(barTime, barSize, trades);
    var ts := BarTrades(trades);
    forall i | 0 <= i < |ts| ensures ts[i].quantity >= 0.0 {
      BarTradesFrom(trades, i);
    }
    PricesWithin(ts);
    WithinAll(ts, Aggregate(Prices(ts)).low, Aggregate(Prices(ts)).high);
    VwapBetween(ts, Aggregate(Prices(ts)).low, Aggregate(Prices(ts)).high);
  }

  /** The latest timestamp among `ts`. */
  function MaxTime(ts: seq<Trade>): (m: int)
    requires |ts| > 0
    ensures (exists i :: 0 <= i < |ts| && ts[i].timestamp == m) && forall i :: 0 <= i < |ts| ==> ts[i].timestamp <= m
  {
    if |ts| == 1 then ts[0].timestamp
    else
      var m := MaxTime(ts[1..]);
      assert forall i :: 1 <= i < |ts| ==> ts[i] == ts[1..][i - 1];
      if ts[0].timestamp >= m then ts[0].timestamp else m
  }

  /** The first element of a list is the first of those sharing its key. */
  lemma WithKeyHead<T>(s: seq<T>, key: T -> real)
    requires |s| > 0
    ensures var w := WithKey(s, key, key(s[0])); |w| > 0 && w[0] == s[0]
  {
  }

  /** The last element of a list is the last of those sharing its key. */
  lemma {:induction false} WithKeyLast<T>(s: seq<T>, key: T -> real)
    requires |s| > 0
    ensures var w := WithKey(s, key, key(s[|s| - 1])); |w| > 0 && w[|w| - 1] == s[|s| - 1]
  {
    if |s| > 1 {
      WithKeyLast(s[1..], key);
      assert s[1..][|s[1..]| - 1] == s[|s| - 1];
    }
  }

  /** The head of a stable sort is the first to arrive among those with the least key. */
  lemma SortedFirstArrival(u: seq<Trade>)
    requires |u| > 0
    ensures var ts := SortBy(u, TradeTime);
      var first := WithKey(u, TradeTime, TradeTime(ts[0]));
      |first| > 0 && first[0] == ts[0]
  {
    var ts := SortBy(u, TradeTime);
    SortByStable(u, TradeTime, TradeTime(ts[0]));
    WithKeyHead(ts, TradeTime);
  }

  /** Where an element of `u` sorted sits in `u`. */
  lemma UnsortedIndexOf(u: seq<Trade>, k: nat) returns (i: nat)
    requires k < |u|
    ensures i < |u| && u[i] == SortBy(u, TradeTime)[k]
  {
    assert SortBy(u, TradeTime)[k] in multiset(u);
    i :| 0 <= i < |u| && u[i] == SortBy(u, TradeTime)[k];
  }

  /** No trade is later than the last of the sorted trades. */
  lemma SortedLastIsLatest(u: seq<Trade>, i: nat)
    requires i < |u|
    ensures u[i].timestamp <= SortBy(u, TradeTime)[|u| - 1].timestamp
  {
    SortBySorted(u, TradeTime);
    SortedLastGreatest(SortBy(u, TradeTime), TradeTime, u[i]);
  }

  /** The last element of the sorted trades carries the latest time. */
  lemma SortedMaxTime(u: seq<Trade>)
    requires |u| > 0
    ensures MaxTime(u) == SortBy(u, TradeTime)[|u| - 1].timestamp
  {
    var i :| 0 <= i < |u| && u[i].timestamp == MaxTime(u);
    SortedLastIsLatest(u, i);
    var j := UnsortedIndexOf(u, |u| - 1);
  }


  /** The last of a stable sort has the latest time, and is the last to arrive with that time. */
  lemma SortedLastArrival(u: seq<Trade>)
    requires |u| > 0
    ensures var ts := SortBy(u, TradeTime);
      var last := WithKey(u, TradeTime, MaxTime(u) as real);
      |last| > 0 && last[|last| - 1] == ts[|ts| - 1]
  {
    var ts := SortBy(u, TradeTime);
    SortByStable(u, TradeTime, TradeTime(ts[|ts| - 1]));
    WithKeyLast(ts, TradeTime);
    SortedMaxTime(u);
  }

  /**
   * `open` is the price of the first trade to arrive (after deduplication)
   * among those with the smallest timestamp, and `close` the price of the last
   * to arrive among those with the largest timestamp: the sort is stable.
   */
  lemma OpenCloseByArrival(barTime: int, barSize: int, trades: seq<Trade>)
    requires |trades| > 0
    ensures var b := BuildTimeBar(barTime, barSize, trades);
      var u := UniqById(trades);
      var first := WithKey(u, TradeTime, b.timestampStart as real);
      |first| > 0 && b.open == first[0].price
    ensures var b := BuildTimeBar(barTime, barSize, trades);
      var u := UniqById(trades);
      |u| > 0 &&
      var last := WithKey(u, TradeTime, MaxTime(u) as real);
      |last| > 0 && b.close == last[|last| - 1].price
  {
    BarFields(barTime, barSize, trades);
    SortedFirstArrival(UniqById(trades));
    SortedLastArrival(UniqById(trades));
  }
}
