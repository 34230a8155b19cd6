/**
 * The windowing state machine of the bar builder: the subscriber callback
 * keeps three boundaries (`barTimeBegin`, `barTimeEnd`, `nextBarTimeEnd`) and
 * two per-instrument buffers (`cache`, `cacheNext`), and classifies every
 * incoming trade as expired, buffered, rollover or future.
 *
 * `Next` is the step as a function on a `Window` value; the class `BarWindow`
 * is the callback's mutable state, and its `Step` is proved to do what `Next`
 * says. The model follows the code as written; `NextCorrected` is the step as
 * the code evidently intends it (see the findings lemmas at the end).
 */
module KlineWindow {
  import opened Strings
  import opened KlineBuilder

  /** One minute in milliseconds: the bar size. */
  const Interval: int := 60000

  /** The buffer key of a trade: exchange, market type, pair and raw pair, joined by `-`. */
  function Key(t: Trade): string
  {
    Join([t.exchange, t.marketType, t.pair, t.rawPair], '-')
  }

  /** The same four fields of a bar, joined the same way. */
  function BarKey(b: TimeBar): string
  {
    Join([b.exchange, b.marketType, b.pair, b.rawPair], '-')
  }

  /**
   * A JavaScript `Map<string, TradeMsg[]>`: `keys` is the insertion order in
   * which `values()` visits the entries, `lists` the entries themselves.
   */
  datatype Buckets = Buckets(keys: seq<string>, lists: map<string, seq<Trade>>)
  {
    /** Keys are distinct, name exactly the entries, and no list is empty. */
    predicate Valid()
    {
      && (forall i, j :: 0 <= i < j < |keys| ==> keys[i] != keys[j])
      && (forall k :: k in lists ==> k in keys)
      && (forall i :: 0 <= i < |keys| ==> keys[i] in lists)
      && (forall k :: k in lists ==> |lists[k]| > 0)
    }

    /**
     * `if (!m.has(k)) m.set(k, []); m.get(k).push(t)`: the list under `k`
     * gets `t` at its end, a new key goes last in the order, and every other
     * entry is unchanged.
     */
    function Add(k: string, t: Trade): (r: Buckets)
      ensures Valid() ==> r.Valid()
      ensures k in r.lists && r.lists[k] == (if k in lists then lists[k] else []) + [t]
      ensures forall k' :: k' != k ==> (k' in r.lists <==> k' in lists)
      ensures forall k' :: k' != k && k' in lists ==> r.lists[k'] == lists[k']
      ensures r.keys == if k in lists then keys else keys + [k]
    {
      if k in lists then Buckets(keys, lists[k := lists[k] + [t]])
      else
        var r := Buckets(keys + [k], lists[k := [t]]);
        assert Valid() ==> forall i :: 0 <= i < |keys| ==> keys[i] != k;
        r
    }
  }

  /** `new Map()`. */
  const Empty: Buckets := Buckets([], map[])

  /** Every list sits under its own trade key and holds only times in `[lo, hi)`. */
  predicate Holds(c: Buckets, lo: int, hi: int)
  {
    && c.Valid()
    && forall k, i :: k in c.lists && 0 <= i < |c.lists[k]| ==>
         Key(c.lists[k][i]) == k && lo <= c.lists[k][i].timestamp < hi
  }

  /** Adding a trade from the range under its own key keeps the buckets in shape. */
  lemma AddHolds(c: Buckets, lo: int, hi: int, t: Trade)
    requires Holds(c, lo, hi) && lo <= t.timestamp < hi
    ensures Holds(c.Add(Key(t), t), lo, hi)
  {
    var r := c.Add(Key(t), t);
    forall k, i | k in r.lists && 0 <= i < |r.lists[k]|
      ensures Key(r.lists[k][i]) == k && lo <= r.lists[k][i].timestamp < hi
    {
      if k == Key(t) && i == |r.lists[k]| - 1 {
      } else if k == Key(t) {
        assert r.lists[k][i] == c.lists[k][i];
      }
    }
  }

  /** The callback's state, as a value. */
  datatype Window = Window(begin: int, end: int, next: int, cache: Buckets, cacheNext: Buckets)

  /** What one trade does: the new state and the bars emitted. */
  datatype Stepped = Stepped(window: Window, bars: seq<TimeBar>)

  /**
   * The invariant of the code as written: the boundaries are one interval
   * apart on the minute grid, `cacheNext` holds trades from `[begin, next)`,
   * and `cache` (the previous `cacheNext`) trades from `[begin - Interval, end)`.
   */
  predicate Inv(w: Window)
  {
    && w.end == w.begin + Interval
    && w.next == w.end + Interval
    && w.end % Interval == 0
    && Holds(w.cache, w.begin - Interval, w.end)
    && Holds(w.cacheNext, w.begin, w.next)
  }

  /** The state the callback starts in at wall-clock time `now`. */
  function Initial(now: int): (w: Window)
    ensures Inv(w)
    ensures w.end <= now < w.end + Interval
  {
    var end := (now / Interval) * Interval;
    Window(end - Interval, end, end + Interval, Empty, Empty)
  }

  /** `Array.from(c.values()).map(trades => buildTimeBar(barTime, INTERVAL, trades))`. */
  function Bars(c: Buckets, barTime: int): (r: seq<TimeBar>)
    requires c.Valid()
    ensures |r| == |c.keys|
    ensures forall i {:trigger r[i]} :: 0 <= i < |c.keys| ==> r[i] == BuildTimeBar(barTime, Interval, c.lists[c.keys[i]])
  {
    seq(|c.keys|, i requires 0 <= i < |c.keys| => BuildTimeBar(barTime, Interval, c.lists[c.keys[i]]))
  }

  /** Expired: the trade is older than the current bar. */
  predicate Expired(w: Window, t: Trade) { t.timestamp < w.begin }

  /** Buffered: the trade belongs to the current or the next bar. */
  predicate Buffered(w: Window, t: Trade) { w.begin <= t.timestamp < w.next }

  /** Rollover: the trade belongs to the bar after the next one. */
  predicate Rollover(w: Window, t: Trade) { w.next <= t.timestamp < w.next + Interval }

  /** Future: the trade is further ahead still. */
  predicate Future(w: Window, t: Trade) { w.next + Interval <= t.timestamp }

  /** The window after a rollover: every boundary one interval on, `cacheNext` promoted. */
  function Advance(w: Window): Window
  {
    Window(w.end, w.next, w.next + Interval, w.cacheNext, Empty)
  }

  /**
   * One callback invocation as written. A buffered trade goes to `cache`
   * when it is older than `begin` and to `cacheNext` otherwise, a test that
   * can only pick `cacheNext` on this branch.
   */
  function Next(w: Window, t: Trade): (s: Stepped)
    requires Inv(w)
    ensures Inv(s.window)
  {
    if t.timestamp < w.begin then Stepped(w, [])
    else if t.timestamp < w.next then
      if t.timestamp < w.begin then Stepped(w.(cache := w.cache.Add(Key(t), t)), [])
      else
        AddHolds(w.cacheNext, w.begin, w.next, t);
        Stepped(w.(cacheNext := w.cacheNext.Add(Key(t), t)), [])
    else if t.timestamp < w.next + Interval then
      Stepped(Advance(w), Bars(w.cache, w.end))
    else Stepped(w, [])
  }

  /** Expired and future trades change nothing and emit nothing. */
  lemma ExpiredOrFutureIgnored(w: Window, t: Trade)
    requires Inv(w) && (Expired(w, t) || Future(w, t))
    ensures Next(w, t) == Stepped(w, [])
  {
  }

  /**
   * A buffered trade is appended to its key's list in `cacheNext`; `cache`
   * and the boundaries stay, and nothing is emitted.
   */
  lemma BufferedGoesToCacheNext(w: Window, t: Trade)
    requires Inv(w) && Buffered(w, t)
    ensures var s := Next(w, t);
      && s.bars == []
      && s.window == w.(cacheNext := w.cacheNext.Add(Key(t), t))
      && s.window.cacheNext.lists[Key(t)][|s.window.cacheNext.lists[Key(t)]| - 1] == t
  {
  }

  /** A trade in a list of the buckets sits under its own key and in the time range. */
  lemma HoldsMember(c: Buckets, lo: int, hi: int, k: string, t: Trade)
    requires Holds(c, lo, hi) && k in c.lists && t in c.lists[k]
    ensures Key(t) == k && lo <= t.timestamp < hi
  {
    var i :| 0 <= i < |c.lists[k]| && c.lists[k][i] == t;
  }

  /** A list under a key whose trades all have that key builds a bar with that key. */
  lemma BarOfKey(c: Buckets, lo: int, hi: int, barTime: int, k: string)
    requires Holds(c, lo, hi) && k in c.lists
    ensures BarKey(BuildTimeBar(barTime, Interval, c.lists[k])) == k
    ensures BuildTimeBar(barTime, Interval, c.lists[k]).timestamp == barTime
  {
    var t := BarInstrument(barTime, Interval, c.lists[k]);
    HoldsMember(c, lo, hi, k, t);
  }

  /**
   * The bars of a rollover, one per key in insertion order: bar `i` is built
   * from key `i`'s buffered trades with a one-minute bar size, carries that
   * key and is stamped `barTime`.
   */
  lemma BarsPerKey(c: Buckets, lo: int, hi: int, barTime: int)
    requires Holds(c, lo, hi)
    ensures forall i :: 0 <= i < |c.keys| ==>
      Bars(c, barTime)[i] == BuildTimeBar(barTime, Interval, c.lists[c.keys[i]])
    ensures forall i :: 0 <= i < |c.keys| ==>
      BarKey(Bars(c, barTime)[i]) == c.keys[i] && Bars(c, barTime)[i].timestamp == barTime
  {
    forall i | 0 <= i < |c.keys|
      ensures BarKey(Bars(c, barTime)[i]) == c.keys[i] && Bars(c, barTime)[i].timestamp == barTime
    {
      BarOfKey(c, lo, hi, barTime, c.keys[i]);
    }
  }

  /**
   * A rollover trade emits one bar per key of `cache`, in insertion order,
   * each built from that key's buffered trades and stamped with the old `end`; the boundaries advance by one interval,
   * `cache` becomes the old `cacheNext`, `cacheNext` becomes empty, and the
   * trade itself is stored nowhere.
   */
  lemma RolloverEmitsCache(w: Window, t: Trade)
    requires Inv(w) && Rollover(w, t)
    ensures var s := Next(w, t);
      && |s.bars| == |w.cache.keys|
      && (forall i :: 0 <= i < |s.bars| ==> s.bars[i] == BuildTimeBar(w.end, Interval, w.cache.lists[w.cache.keys[i]]))
      && (forall i :: 0 <= i < |s.bars| ==> BarKey(s.bars[i]) == w.cache.keys[i] && s.bars[i].timestamp == w.end)
      && s.window.begin == w.begin + Interval
      && s.window.end == w.end + Interval
      && s.window.next == w.next + Interval
      && s.window.cache == w.cacheNext
      && s.window.cacheNext == Empty
  {
    BarsPerKey(w.cache, w.begin - Interval, w.end, w.end);
  }

  /** A sequence of trades, fed one after another. */
  function Run(w: Window, ts: seq<Trade>): (s: Stepped)
    requires Inv(w)
    ensures Inv(s.window)
    decreases |ts|
  {
    if |ts| == 0 then Stepped(w, [])
    else
      var first := Next(w, ts[0]);
      var rest := Run(first.window, ts[1..]);
      Stepped(rest.window, first.bars + rest.bars)
  }

  /** No two bars share an instrument key and a bar time. */
  predicate DistinctBars(bars: seq<TimeBar>)
  {
    forall i, j :: 0 <= i < j < |bars| ==>
      BarKey(bars[i]) != BarKey(bars[j]) || bars[i].timestamp != bars[j].timestamp
  }

  /** Bar times never decrease along `bars`. */
  predicate InTimeOrder(bars: seq<TimeBar>)
  {
    forall i, j :: 0 <= i < j < |bars| ==> bars[i].timestamp <= bars[j].timestamp
  }

  /** Every bar time lies in `[lo, hi)`. */
  predicate StampedWithin(bars: seq<TimeBar>, lo: int, hi: int)
  {
    forall i :: 0 <= i < |bars| ==> lo <= bars[i].timestamp < hi
  }

  /** Bars from an earlier time range followed by bars from a later one keep all three properties. */
  lemma ConcatBars(b1: seq<TimeBar>, b2: seq<TimeBar>, lo: int, mid: int, hi: int)
    requires DistinctBars(b1) && InTimeOrder(b1) && StampedWithin(b1, lo, mid)
    requires DistinctBars(b2) && InTimeOrder(b2) && StampedWithin(b2, mid, hi)
    requires lo <= mid <= hi
    ensures DistinctBars(b1 + b2) && InTimeOrder(b1 + b2) && StampedWithin(b1 + b2, lo, hi)
  {
    var bars := b1 + b2;
    forall i | 0 <= i < |bars| ensures lo <= bars[i].timestamp < hi {
      if i >= |b1| { assert bars[i] == b2[i - |b1|]; } else { assert bars[i] == b1[i]; }
    }
    forall i, j | 0 <= i < j < |bars|
      ensures bars[i].timestamp <= bars[j].timestamp
      ensures BarKey(bars[i]) != BarKey(bars[j]) || bars[i].timestamp != bars[j].timestamp
    {
      if j < |b1| {
      } else if i >= |b1| {
        assert bars[i] == b2[i - |b1|] && bars[j] == b2[j - |b1|];
      } else {
        assert bars[j] == b2[j - |b1|];
      }
    }
  }

  /** The bars one step emits are stamped `w.end`, and only rollovers move `end`, by one interval. */
  lemma NextBars(w: Window, t: Trade)
    requires Inv(w)
    ensures var s := Next(w, t);
      && DistinctBars(s.bars)
      && InTimeOrder(s.bars)
      && (forall i :: 0 <= i < |s.bars| ==> s.bars[i].timestamp == w.end)
      && (s.window.end == w.end || s.window.end == w.end + Interval)
      && (|s.bars| > 0 ==> s.window.end == w.end + Interval)
  {
    if Rollover(w, t) {
      RolloverEmitsCache(w, t);
      var s := Next(w, t);
      forall i, j | 0 <= i < j < |s.bars| ensures BarKey(s.bars[i]) != BarKey(s.bars[j]) {
        assert w.cache.keys[i] != w.cache.keys[j];
      }
    }
  }

  /**
   * Over any run, the emitted bars come out in non-decreasing bar time, all
   * at or after the starting `end` and before the final one, and no
   * (instrument, bar time) pair is emitted twice.
   */
  lemma {:induction false} RunBars(w: Window, ts: seq<Trade>)
    requires Inv(w)
    ensures w.end <= Run(w, ts).window.end
    ensures StampedWithin(Run(w, ts).bars, w.end, Run(w, ts).window.end)
    ensures InTimeOrder(Run(w, ts).bars)
    ensures DistinctBars(Run(w, ts).bars)
    decreases |ts|
  {
    if |ts| > 0 {
      var first := Next(w, ts[0]);
      var rest := Run(first.window, ts[1..]);
      NextBars(w, ts[0]);
      RunBars(first.window, ts[1..]);
      ConcatBars(first.bars, rest.bars, w.end, first.window.end, rest.window.end);
    }
  }

  /** The callback's mutable state. */
  class BarWindow {
    var barTimeBegin: int
    var barTimeEnd: int
    var nextBarTimeEnd: int
    var cache: Buckets
    var cacheNext: Buckets

    /** The fields, as a `Window` value. */
    function State(): Window
      reads this
    {
      Window(barTimeBegin, barTimeEnd, nextBarTimeEnd, cache, cacheNext)
    }

    predicate Valid()
      reads this
    {
      Inv(State())
    }

    /** Starts on the minute grid: `barTimeEnd` is `now` rounded down to a whole interval. */
    constructor(now: int)
      ensures Valid()
      ensures State() == Initial(now)
      ensures barTimeEnd % Interval == 0 && barTimeEnd <= now < barTimeEnd + Interval
    {
      barTimeEnd := (now / Interval) * Interval;
      barTimeBegin := (now / Interval) * Interval - Interval;
      nextBarTimeEnd := (now / Interval) * Interval + Interval;
      cache := Empty;
      cacheNext := Empty;
    }

    /** Handles one trade and returns the bars it completes. */
    method Step(t: Trade) returns (bars: seq<TimeBar>)
      requires Valid()
      modifies this
      ensures Valid()
      ensures State() == Next(old(State()), t).window
      ensures bars == Next(old(State()), t).bars
    {
      ghost var s := Next(State(), t);
      if t.timestamp < barTimeBegin {
        bars := [];
      } else if t.timestamp < nextBarTimeEnd {
        var key := Key(t);
        var toCache := t.timestamp < barTimeBegin;
        cache, cacheNext :=
          if toCache then cache.Add(key, t) else cache,
          if toCache then cacheNext else cacheNext.Add(key, t);
        bars := [];
        assert State() == s.window;
      } else if t.timestamp < nextBarTimeEnd + Interval {
        bars := Bars(cache, barTimeEnd);
        barTimeBegin := barTimeEnd;
        barTimeEnd := nextBarTimeEnd;
        nextBarTimeEnd := nextBarTimeEnd + Interval;
        cache := cacheNext;
        cacheNext := Empty;
        assert State() == s.window;
      } else {
        bars := [];
      }
    }
  }

  // ---------------------------------------------------------------------------
  // Findings: the buffer test and the rollover trade

  /** The earliest trade of the bar built from one list lies in the buckets' time range. */
  lemma BarStartWithin(c: Buckets, lo: int, hi: int, barTime: int, k: string)
    requires Holds(c, lo, hi) && k in c.lists
    ensures lo <= BuildTimeBar(barTime, Interval, c.lists[k]).timestampStart < hi
  {
    var t := BarInstrument(barTime, Interval, c.lists[k]);
    HoldsMember(c, lo, hi, k, t);
  }

  /** The earliest trade of every bar built from `c` lies in `c`'s time range. */
  lemma BarsStartWithin(c: Buckets, lo: int, hi: int, barTime: int)
    requires Holds(c, lo, hi)
    ensures forall i :: 0 <= i < |c.keys| ==> lo <= Bars(c, barTime)[i].timestampStart < hi
  {
    forall i | 0 <= i < |c.keys| ensures lo <= Bars(c, barTime)[i].timestampStart < hi {
      BarStartWithin(c, lo, hi, barTime, c.keys[i]);
    }
  }

  /** Feeding `[t] + ts` is one step on `t`, then the rest. */
  lemma RunCons(w: Window, t: Trade, ts: seq<Trade>)
    requires Inv(w)
    ensures var first := Next(w, t);
      var rest := Run(first.window, ts);
      Run(w, [t] + ts) == Stepped(rest.window, first.bars + rest.bars)
  {
    assert ([t] + ts)[0] == t && ([t] + ts)[1..] == ts;
  }

  /** The window of the example runs once the trade at 0 is buffered. */
  function ExampleBuffered(a: Trade): Window
  {
    Window(0, 60000, 120000, Empty, Empty.Add(Key(a), a))
  }

  /** The window of the example runs once the trade at 120000 has rolled it over. */
  function ExampleRolled(a: Trade): Window
  {
    Window(60000, 120000, 180000, Empty.Add(Key(a), a), Empty)
  }

  /** Starting at 60000, a trade at 0 is buffered in `cacheNext`. */
  lemma ExampleFirstStep(a: Trade)
    requires a.timestamp == 0
    ensures Initial(60000) == Window(0, 60000, 120000, Empty, Empty)
    ensures Next(Initial(60000), a) == Stepped(ExampleBuffered(a), [])
  {
  }

  /** Then a trade at 120000 rolls over, emitting nothing from the empty `cache`, and is dropped. */
  lemma ExampleSecondStep(a: Trade, b: Trade)
    requires a.timestamp == 0 && b.timestamp == 120000
    ensures Inv(ExampleBuffered(a))
    ensures Next(ExampleBuffered(a), b) == Stepped(ExampleRolled(a), [])
  {
    ExampleFirstStep(a);
  }

  /** Then a trade at 180000 rolls over again and emits the bars of the buffer holding the trade at 0. */
  lemma ExampleThirdStep(a: Trade, b: Trade, c: Trade)
    requires a.timestamp == 0 && b.timestamp == 120000 && c.timestamp == 180000
    ensures Inv(ExampleRolled(a))
    ensures Next(ExampleRolled(a), c).bars == Bars(Empty.Add(Key(a), a), 120000)
  {
    ExampleSecondStep(a, b);
  }

  /** The example run from its second trade on emits what the third trade emits. */
  lemma ExampleRunFromSecond(a: Trade, b: Trade, c: Trade)
    requires a.timestamp == 0 && b.timestamp == 120000 && c.timestamp == 180000
    ensures Inv(ExampleBuffered(a))
    ensures Run(ExampleBuffered(a), [b, c]).bars == Bars(Empty.Add(Key(a), a), 120000)
  {
    ExampleSecondStep(a, b);
    ExampleThirdStep(a, b, c);
    RunCons(ExampleBuffered(a), b, [c]);
    RunCons(ExampleRolled(a), c, []);
    assert [b, c] == [b] + [c] && [c] == [c] + [];
  }

  /** The whole example run emits exactly the bars of the buffer holding the trade at 0. */
  lemma ExampleRunBars(a: Trade, b: Trade, c: Trade)
    requires a.timestamp == 0 && b.timestamp == 120000 && c.timestamp == 180000
    ensures Run(Initial(60000), [a, b, c]).bars == Bars(Empty.Add(Key(a), a), 120000)
  {
    ExampleFirstStep(a);
    ExampleRunFromSecond(a, b, c);
    var w0 := Window(0, 60000, 120000, Empty, Empty);
    RunCons(w0, a, [b, c]);
    assert [a, b, c] == [a] + [b, c];
  }

  /** A buffer holding one trade yields the one bar of that trade. */
  lemma SingleTradeBars(a: Trade, barTime: int)
    ensures Bars(Empty.Add(Key(a), a), barTime) == [BuildTimeBar(barTime, Interval, [a])]
  {
    var cache := Empty.Add(Key(a), a);
    assert cache.keys == [Key(a)] && cache.lists[Key(a)] == [a];
  }

  /** The bar of a single trade is stamped `barTime` and starts at that trade. */
  lemma SingleTradeBar(a: Trade, barTime: int)
    ensures BuildTimeBar(barTime, Interval, [a]).timestamp == barTime
    ensures BuildTimeBar(barTime, Interval, [a]).timestampStart == a.timestamp
  {
    var bar := BuildTimeBar(barTime, Interval, [a]);
    var t :| t in [a] && t.timestamp == bar.timestampStart;
  }

  /**
   * As written, a bar can hold a trade from two intervals before its end:
   * starting at 60000, a trade at 0 is buffered in `cacheNext`, a trade at
   * 120000 rolls over (emitting nothing) and is dropped, and a trade at
   * 180000 rolls over again and emits a bar stamped 120000 whose earliest
   * trade is at 0, before that bar's minute `[60000, 120000)` began.
   */
  lemma StaleTradeInBar(a: Trade, b: Trade, c: Trade)
    requires a.timestamp == 0 && b.timestamp == 120000 && c.timestamp == 180000
    ensures var s := Run(Initial(60000), [a, b, c]);
      && |s.bars| == 1
      && s.bars[0].timestamp == 120000
      && s.bars[0].timestampStart == 0
      && s.bars[0].timestampStart < s.bars[0].timestamp - Interval
  {
    ExampleRunBars(a, b, c);
    SingleTradeBars(a, 120000);
    SingleTradeBar(a, 120000);
  }

  /**
   * As written, the trade that triggers a rollover is stored nowhere: in the
   * run above, the trade at 120000 is in neither buffer afterwards.
   */
  lemma RolloverTradeLost(a: Trade, b: Trade)
    requires a.timestamp == 0 && b.timestamp == 120000
    ensures var w := Run(Initial(60000), [a, b]).window;
      && w.cacheNext == Empty
      && w.cache.keys == [Key(a)]
      && w.cache.lists[Key(a)] == [a]
      && b !in w.cache.lists[Key(a)]
  {
    ExampleFirstStep(a);
    ExampleSecondStep(a, b);
    RunCons(Initial(60000), a, [b]);
    RunCons(ExampleBuffered(a), b, []);
    assert [a, b] == [a] + [b] && [b] == [b] + [];
  }

  /**
   * The invariant of the intended step: `cache` holds the current minute
   * `[begin, end)` and `cacheNext` the next one `[end, next)`.
   */
  predicate InvCorrected(w: Window)
  {
    && w.end == w.begin + Interval
    && w.next == w.end + Interval
    && w.end % Interval == 0
    && Holds(w.cache, w.begin, w.end)
    && Holds(w.cacheNext, w.end, w.next)
  }

  /** The starting state satisfies the intended invariant as well. */
  lemma InitialCorrected(now: int)
    ensures InvCorrected(Initial(now))
  {
  }

  /**
   * The step as evidently intended: a buffered trade older than `end` goes
   * to `cache`, and the trade that triggers a rollover is kept in the new
   * `cacheNext`, whose minute it belongs to.
   */
  function NextCorrected(w: Window, t: Trade): (s: Stepped)
    requires InvCorrected(w)
    ensures InvCorrected(s.window)
  {
    if t.timestamp < w.begin then Stepped(w, [])
    else if t.timestamp < w.next then
      if t.timestamp < w.end then
        AddHolds(w.cache, w.begin, w.end, t);
        Stepped(w.(cache := w.cache.Add(Key(t), t)), [])
      else
        AddHolds(w.cacheNext, w.end, w.next, t);
        Stepped(w.(cacheNext := w.cacheNext.Add(Key(t), t)), [])
    else if t.timestamp < w.next + Interval then
      AddHolds(Empty, w.next, w.next + Interval, t);
      Stepped(Advance(w).(cacheNext := Empty.Add(Key(t), t)), Bars(w.cache, w.end))
    else Stepped(w, [])
  }

  /**
   * With the intended step, every emitted bar stamped `E` starts within its
   * own minute `[E - Interval, E)`.
   */
  lemma CorrectedBarsInWindow(w: Window, t: Trade)
    requires InvCorrected(w)
    ensures var s := NextCorrected(w, t);
      forall i :: 0 <= i < |s.bars| ==>
        s.bars[i].timestamp == w.end && w.end - Interval <= s.bars[i].timestampStart < w.end
  {
    if Rollover(w, t) {
      BarsPerKey(w.cache, w.begin, w.end, w.end);
      BarsStartWithin(w.cache, w.begin, w.end, w.end);
    }
  }

  /** With the intended step, the rollover trade is the first entry of the new `cacheNext`. */
  lemma CorrectedKeepsRolloverTrade(w: Window, t: Trade)
    requires InvCorrected(w) && Rollover(w, t)
    ensures var s := NextCorrected(w, t);
      && s.window.cacheNext.keys == [Key(t)]
      && s.window.cacheNext.lists[Key(t)] == [t]
      && s.window.end == w.end + Interval
  {
  }
}
