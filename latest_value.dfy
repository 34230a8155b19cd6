/**
 * The latest-value forwarder several crawlers share. For each key it keeps
 * the most recent message; when a message arrives whose timestamp is strictly
 * later than the kept one, the kept message is final (its period has closed)
 * and is published. The new message replaces the kept one in every case.
 */
module LatestValue {
  import opened Wrappers

  /** A message with the timestamp the forwarder compares. */
  datatype Stamped<M> = Stamped(msg: M, timestamp: int)

  /** What the forwarder publishes when `next` arrives under `key`. */
  function Forward<M>(latest: map<string, Stamped<M>>, key: string, next: Stamped<M>): Option<M>
  {
    if key in latest && next.timestamp > latest[key].timestamp then Some(latest[key].msg) else None
  }

  /** The forwarder's state: the latest message seen under each key. */
  class Forwarder<M> {
    var latest: map<string, Stamped<M>>

    /** A forwarder that has seen nothing. */
    constructor()
      ensures latest == map[]
    {
      latest := map[];
    }

    /**
     * Takes `msg`, stamped `timestamp`, under `key`: publishes the kept message
     * when `msg` is strictly later, and keeps `msg` whatever its timestamp.
     */
    method Observe(key: string, msg: M, timestamp: int) returns (emitted: Option<M>)
      modifies this
      ensures emitted == Forward(old(latest), key, Stamped(msg, timestamp))
      ensures emitted.Some? <==> key in old(latest) && timestamp > old(latest)[key].timestamp
      ensures emitted.Some? ==> emitted.value == old(latest)[key].msg
      ensures latest == old(latest)[key := Stamped(msg, timestamp)]
    {
      emitted := None;
      if key in latest {
        var prev := latest[key];
        if timestamp > prev.timestamp {
          emitted := Some(prev.msg);
        }
      }
      latest := latest[key := Stamped(msg, timestamp)];
    }
  }

  /** Feeding `msgs` one by one under `key`: the final state and what was published, in order. */
  function Replay<M>(latest: map<string, Stamped<M>>, key: string, msgs: seq<Stamped<M>>): (r: (map<string, Stamped<M>>, seq<M>))
    ensures |msgs| > 0 ==> r.0 == latest[key := msgs[|msgs| - 1]]
    ensures |msgs| == 0 ==> r.0 == latest
    ensures |r.1| <= |msgs|
    decreases |msgs|
  {
    if |msgs| == 0 then (latest, [])
    else
      var out := Forward(latest, key, msgs[0]);
      var rest := Replay(latest[key := msgs[0]], key, msgs[1..]);
      assert |msgs| > 1 ==> msgs[1..][|msgs[1..]| - 1] == msgs[|msgs| - 1];
      assert latest[key := msgs[0]][key := msgs[|msgs| - 1]] == latest[key := msgs[|msgs| - 1]];
      (rest.0, (if out.Some? then [out.value] else []) + rest.1)
  }

  /** Timestamps strictly rise along `msgs`. */
  predicate Increasing<M>(msgs: seq<Stamped<M>>)
  {
    |msgs| < 2 || (msgs[0].timestamp < msgs[1].timestamp && Increasing(msgs[1..]))
  }

  /**
   * The closed messages of a stream: each message directly followed by a
   * strictly later one, in order. The last message of the stream is never
   * closed, because nothing later has arrived. When timestamps go back, a
   * period can close more than once.
   */
  function Closed<M>(msgs: seq<Stamped<M>>): seq<M>
  {
    if |msgs| < 2 then []
    else (if msgs[0].timestamp < msgs[1].timestamp then [msgs[0].msg] else []) + Closed(msgs[1..])
  }

  /** The payloads of `msgs`, in order. */
  function Payloads<M>(msgs: seq<Stamped<M>>): (r: seq<M>)
    ensures |r| == |msgs| && forall i :: 0 <= i < |msgs| ==> r[i] == msgs[i].msg
  {
    seq(|msgs|, i requires 0 <= i < |msgs| => msgs[i].msg)
  }

  /**
   * On any stream the forwarder publishes exactly the closed messages, in
   * order (and the message it held before, if the first arrival is later).
   * When timestamps never go back, these are the last updates of every period
   * but the current one.
   */
  lemma {:induction false} ReplayPublishesClosed<M>(latest: map<string, Stamped<M>>, key: string, msgs: seq<Stamped<M>>)
    requires |msgs| > 0
    ensures Replay(latest, key, msgs).1 ==
      (if key in latest && latest[key].timestamp < msgs[0].timestamp then [latest[key].msg] else []) + Closed(msgs)
    decreases |msgs|
  {
    if |msgs| > 1 {
      var latest' := latest[key := msgs[0]];
      ReplayPublishesClosed(latest', key, msgs[1..]);
      assert msgs[1..][0] == msgs[1];
    }
  }

  /** With strictly rising timestamps, every message but the last is closed. */
  lemma {:induction false} ClosedIncreasing<M>(msgs: seq<Stamped<M>>)
    requires |msgs| > 0 && Increasing(msgs)
    ensures Closed(msgs) == Payloads(msgs[..|msgs| - 1])
  {
    if |msgs| > 1 {
      ClosedIncreasing(msgs[1..]);
      assert msgs[1..][..|msgs[1..]| - 1] == msgs[1..|msgs| - 1];
      assert Payloads(msgs[..|msgs| - 1]) == [msgs[0].msg] + Payloads(msgs[1..|msgs| - 1]);
    }
  }

  /**
   * A fresh key fed strictly later and later messages publishes each of them
   * exactly once, in arrival order, except the last, which it keeps.
   */
  lemma FreshKeyIncreasing<M>(latest: map<string, Stamped<M>>, key: string, msgs: seq<Stamped<M>>)
    requires key !in latest && |msgs| > 0 && Increasing(msgs)
    ensures Replay(latest, key, msgs).1 == Payloads(msgs[..|msgs| - 1])
    ensures Replay(latest, key, msgs).0 == latest[key := msgs[|msgs| - 1]]
  {
    ReplayPublishesClosed(latest, key, msgs);
    ClosedIncreasing(msgs);
  }

  /**
   * A late message still replaces the kept one, so the message it displaced is
   * never published: after `a` and an earlier `b`, a later `c` publishes `b`.
   */
  lemma LateMessageDisplaces<M>(latest: map<string, Stamped<M>>, key: string, a: Stamped<M>, b: Stamped<M>, c: Stamped<M>)
    requires key !in latest
    requires b.timestamp < a.timestamp < c.timestamp
    ensures Replay(latest, key, [a, b, c]).1 == [b.msg]
  {
    var l1 := latest[key := a];
    var l2 := l1[key := b];
    assert [a, b, c][1..] == [b, c];
    assert [b, c][1..] == [c];
    assert Replay(l2, key, [c]).1 == [b.msg] by {
      assert Forward(l2, key, c) == Some(b.msg);
      assert [c][1..] == [];
    }
    assert Forward(l1, key, b) == None;
    assert Forward(latest, key, a) == None;
  }

  /**
   * When timestamps go back, one period can be published twice and a later
   * one not at all: after `a` and `c` of one period and `b` and `d` of the
   * next, arriving `a, b, c, d`, the forwarder publishes `a` and then `c`,
   * both of the first period, and never `b`.
   */
  lemma PeriodPublishedTwice<M>(latest: map<string, Stamped<M>>, key: string, a: Stamped<M>, b: Stamped<M>, c: Stamped<M>, d: Stamped<M>)
    requires key !in latest
    requires a.timestamp == c.timestamp < b.timestamp == d.timestamp
    ensures Replay(latest, key, [a, b, c, d]).1 == [a.msg, c.msg]
  {
    var msgs := [a, b, c, d];
    ReplayPublishesClosed(latest, key, msgs);
    assert msgs[1..] == [b, c, d] && [b, c, d][1..] == [c, d] && [c, d][1..] == [d];
    assert Closed([d]) == [];
    assert Closed([c, d]) == [c.msg];
    assert Closed([b, c, d]) == [c.msg];
  }
}
