/**
 * The JavaScript string operations the crawlers rely on: `String.prototype.split`
 * with a one-character separator, `includes` for a substring test, and the
 * inverse of `split`, `join`.
 */
module Strings {

  /** `parts.join(c)`: the parts with one separator between neighbours. */
  function Join(parts: seq<string>, c: char): string
  {
    if |parts| == 0 then ""
    else if |parts| == 1 then parts[0]
    else parts[0] + [c] + Join(parts[1..], c)
  }

  /**
   * `s.split(c)`: the maximal separator-free fields of `s`, in order. As in
   * JavaScript, the result is never empty (`"".split(c)` is `[""]`) and empty
   * fields are kept; joining the fields again gives back `s`.
   */
  function Split(s: string, c: char): (r: seq<string>)
    ensures |r| >= 1
    ensures forall i :: 0 <= i < |r| ==> c !in r[i]
    ensures Join(r, c) == s
  {
    if |s| == 0 then [""]
    else
      var rest := Split(s[1..], c);
      if s[0] == c then
        assert Join([""] + rest, c) == [c] + Join(rest, c);
        [""] + rest
      else
        var r := [[s[0]] + rest[0]] + rest[1..];
        assert |rest| > 1 ==> Join(r, c) == [s[0]] + rest[0] + [c] + Join(rest[1..], c);
        assert s == [s[0]] + s[1..];
        r
  }

  /**
   * A join of two or more parts starts with the first two and a separator
   * between them, followed by the end or by another separator.
   */
  lemma JoinFirstTwo(parts: seq<string>, c: char)
    requires |parts| >= 2
    ensures var s, n := Join(parts, c), |parts[0]| + 1 + |parts[1]|;
      n <= |s| && s[..n] == parts[0] + [c] + parts[1] && (n == |s| || s[n] == c)
  {
    var rest := Join(parts[1..], c);
    var n := |parts[0]| + 1 + |parts[1]|;
    if |parts| == 2 {
      assert parts[1..] == [parts[1]];
      assert rest == parts[1];
      assert Join(parts, c) == parts[0] + [c] + parts[1];
    } else {
      assert parts[1..][0] == parts[1] && parts[1..][1..] == parts[2..];
      assert rest == parts[1] + [c] + Join(parts[2..], c);
      assert Join(parts, c) == (parts[0] + [c] + parts[1]) + ([c] + Join(parts[2..], c));
    }
  }

  /** `s.includes(sub)`: `sub` occurs somewhere in `s` as a contiguous block. */
  predicate Contains(s: string, sub: string)
    decreases |s|
  {
    |sub| <= |s| && (s[..|sub|] == sub || Contains(s[1..], sub))
  }

  /** Fields of `s` split at every `c`: a separator-free string is one field. */
  lemma {:induction false} SplitNoSeparator(a: string, c: char)
    requires c !in a
    ensures Split(a, c) == [a]
  {
    if |a| > 0 {
      SplitNoSeparator(a[1..], c);
      assert [a[0]] + a[1..] == a;
    }
  }

  /** Splitting at a first separator peels off the field before it. */
  lemma {:induction false} SplitAtFirstSeparator(a: string, c: char, b: string)
    requires c !in a
    ensures Split(a + [c] + b, c) == [a] + Split(b, c)
  {
    if |a| == 0 {
      assert a + [c] + b == [c] + b;
      assert ([c] + b)[1..] == b;
    } else {
      SplitAtFirstSeparator(a[1..], c, b);
      assert (a + [c] + b)[1..] == a[1..] + [c] + b;
      assert [a[0]] + a[1..] == a;
    }
  }

  /** Splitting undoes joining, when no part holds the separator. */
  lemma {:induction false} SplitJoin(parts: seq<string>, c: char)
    requires |parts| >= 1
    requires forall i :: 0 <= i < |parts| ==> c !in parts[i]
    ensures Split(Join(parts, c), c) == parts
  {
    if |parts| == 1 {
      SplitNoSeparator(parts[0], c);
    } else {
      SplitJoin(parts[1..], c);
      SplitAtFirstSeparator(parts[0], c, Join(parts[1..], c));
      assert [parts[0]] + parts[1..] == parts;
    }
  }

  /** A string holding the separator splits into at least two fields. */
  lemma {:induction false} SplitHasTwoFields(s: string, c: char)
    requires c in s
    ensures |Split(s, c)| >= 2
  {
    if s[0] != c {
      assert c in s[1..] by {
        var i :| 0 <= i < |s| && s[i] == c;
        assert s[1..][i - 1] == c;
      }
      SplitHasTwoFields(s[1..], c);
    }
  }

  /** Every character of a contained string occurs in the container. */
  lemma {:induction false} ContainsChar(s: string, sub: string, c: char)
    requires Contains(s, sub) && c in sub
    ensures c in s
  {
    if s[..|sub|] == sub {
      var i :| 0 <= i < |sub| && sub[i] == c;
      assert s[i] == c;
    } else {
      ContainsChar(s[1..], sub, c);
      var j :| 0 <= j < |s[1..]| && s[1..][j] == c;
      assert s[j + 1] == c;
    }
  }

  /** Splitting at a last separator peels off the field after it. */
  lemma {:induction false} SplitBeforeLast(a: string, c: char, b: string)
    requires c !in b
    ensures Split(a + [c] + b, c) == Split(a, c) + [b]
  {
    var s := a + [c] + b;
    if |a| == 0 {
      assert s == [c] + b && s[1..] == b;
      SplitNoSeparator(b, c);
    } else {
      var t := a[1..] + [c] + b;
      assert s[0] == a[0] && s[1..] == t;
      SplitBeforeLast(a[1..], c, b);
      var ra := Split(a[1..], c);
      var rs := Split(t, c);
      assert rs == ra + [b];
      if a[0] != c {
        assert Split(s, c) == [[a[0]] + rs[0]] + rs[1..];
        assert Split(a, c) == [[a[0]] + ra[0]] + ra[1..];
        assert rs[1..] == ra[1..] + [b];
      } else {
        assert Split(s, c) == [""] + rs;
        assert Split(a, c) == [""] + ra;
      }
    }
  }

  /**
   * Splitting a join whose leading fields and last field are separator-free
   * gives those fields back, with the middle field's own pieces in between.
   */
  lemma {:induction false} SplitJoinAroundMiddle(xs: seq<string>, mid: string, last: string, c: char)
    requires forall i :: 0 <= i < |xs| ==> c !in xs[i]
    requires c !in last
    ensures Split(Join(xs + [mid, last], c), c) == xs + (Split(mid, c) + [last])
  {
    var parts := xs + [mid, last];
    if |xs| == 0 {
      assert parts == [mid, last] && parts[1..] == [last];
      SplitBeforeLast(mid, c, last);
    } else {
      var ys := Split(mid, c) + [last];
      var tail := Join(parts[1..], c);
      assert parts[0] == xs[0] && parts[1..] == xs[1..] + [mid, last];
      assert Join(parts, c) == xs[0] + [c] + tail;
      SplitJoinAroundMiddle(xs[1..], mid, last, c);
      assert Split(tail, c) == xs[1..] + ys;
      SplitAtFirstSeparator(xs[0], c, tail);
      assert Split(Join(parts, c), c) == [xs[0]] + (xs[1..] + ys);
      ConsAppend(xs, ys);
    }
  }

  /**
   * Joins with equally many separator-free leading fields and a
   * separator-free last field agree only when every field agrees, the middle
   * one included.
   */
  lemma JoinAroundMiddleInjective(xs: seq<string>, mid: string, last: string,
                                  ys: seq<string>, mid': string, last': string, c: char)
    requires |xs| == |ys|
    requires forall i :: 0 <= i < |xs| ==> c !in xs[i]
    requires forall i :: 0 <= i < |ys| ==> c !in ys[i]
    requires c !in last && c !in last'
    requires Join(xs + [mid, last], c) == Join(ys + [mid', last'], c)
    ensures xs == ys && mid == mid' && last == last'
  {
    SplitJoinAroundMiddle(xs, mid, last, c);
    SplitJoinAroundMiddle(ys, mid', last', c);
    var q, q' := Split(mid, c) + [last], Split(mid', c) + [last'];
    var p := xs + q;
    assert p == ys + q';
    assert xs == p[..|xs|] == ys;
    assert q == p[|xs|..] == q';
    assert last == q[|q| - 1] == last';
    assert Split(mid, c) == q[..|q| - 1] == Split(mid', c);
  }

  /** Putting the head back in front of the tail followed by `ys` gives `xs + ys`. */
  lemma ConsAppend<T>(xs: seq<T>, ys: seq<T>)
    requires |xs| > 0
    ensures [xs[0]] + (xs[1..] + ys) == xs + ys
  {
    assert xs == [xs[0]] + xs[1..];
  }

  /** The decimal digits of `n`, as `String(n)` writes a non-negative integer. */
  function NatToString(n: nat): (r: string)
    ensures |r| >= 1
    ensures forall i :: 0 <= i < |r| ==> '0' <= r[i] <= '9'
  {
    if n < 10 then [Digit(n)] else NatToString(n / 10) + [Digit(n % 10)]
  }

  /** The character of one decimal digit. */
  function Digit(d: nat): (r: char)
    requires d < 10
    ensures '0' <= r <= '9'
  {
    ['0', '1', '2', '3', '4', '5', '6', '7', '8', '9'][d]
  }

  /** Every character of a part occurs in the joined string. */
  lemma {:induction false} JoinContains(parts: seq<string>, c: char, i: nat, x: char)
    requires i < |parts| && x in parts[i]
    ensures x in Join(parts, c)
  {
    if i > 0 {
      JoinContains(parts[1..], c, i - 1, x);
    }
  }
}
