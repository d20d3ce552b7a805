/**
 * Busy/idle samples of the radio channel (one per 8 us symbol) and the 12500-sample window over
 * which the channel busy ratio is taken.
 */
module ChannelSamples {
  import opened Machine

  const WINDOW: nat := 12500
  /** Symbol period of 8 us, in picosecond ticks. */
  const SYMBOL: nat := 8 * TICKS_PER_US

  /** The window lasts 100 ms, which are 10^11 ticks. */
  lemma WindowLasts()
    ensures WINDOW * SYMBOL == 100_000_000_000
  {
  }

  function Repeat(n: nat, busy: bool): (s: seq<bool>)
    ensures |s| == n
  {
    seq(n, _ => busy)
  }

  function Count(s: seq<bool>): nat {
    if s == [] then 0 else (if s[0] then 1 else 0) + Count(s[1..])
  }

  lemma {:induction false} CountConcat(s: seq<bool>, t: seq<bool>)
    ensures Count(s + t) == Count(s) + Count(t)
  {
    if s == [] {
      assert s + t == t;
    } else {
      assert (s + t)[1..] == s[1..] + t;
      CountConcat(s[1..], t);
    }
  }

  lemma {:induction false} CountRepeat(n: nat, busy: bool)
    ensures Count(Repeat(n, busy)) == if busy then n else 0
  {
    if n > 0 {
      assert Repeat(n, busy)[1..] == Repeat(n - 1, busy);
      CountRepeat(n - 1, busy);
    }
  }

  lemma {:induction false} CountAtMost(s: seq<bool>)
    ensures Count(s) <= |s|
  {
    if s != [] {
      CountAtMost(s[1..]);
    }
  }

  /** The window of a history that lists the newest sample first. */
  function Window(newestFirst: seq<bool>): seq<bool> {
    Take(newestFirst, WINDOW)
  }

  function Take(s: seq<bool>, n: nat): seq<bool> {
    if |s| <= n then s else s[..n]
  }

  /** The window of a history that lists the newest sample last. */
  function Tail(newestLast: seq<bool>): seq<bool> {
    if |newestLast| <= WINDOW then newestLast else newestLast[|newestLast| - WINDOW..]
  }

  // ---- run-length form ----

  datatype Run = Run(len: nat, busy: bool)

  function Expand(runs: seq<Run>): seq<bool> {
    if runs == [] then [] else Repeat(runs[0].len, runs[0].busy) + Expand(runs[1..])
  }

  function Total(runs: seq<Run>): nat {
    if runs == [] then 0 else runs[0].len + Total(runs[1..])
  }

  lemma {:induction false} ExpandConcat(a: seq<Run>, b: seq<Run>)
    ensures Expand(a + b) == Expand(a) + Expand(b)
    ensures Total(a + b) == Total(a) + Total(b)
  {
    if a == [] {
      assert a + b == b;
    } else {
      assert (a + b)[1..] == a[1..] + b;
      ExpandConcat(a[1..], b);
    }
  }

  lemma {:induction false} ExpandLength(runs: seq<Run>)
    ensures |Expand(runs)| == Total(runs)
  {
    if runs != [] {
      ExpandLength(runs[1..]);
    }
  }

  // ---- newest-first and newest-last forms ----

  function Reverse(s: seq<bool>): (r: seq<bool>)
    ensures |r| == |s|
  {
    if s == [] then [] else Reverse(s[1..]) + [s[0]]
  }

  lemma {:induction false} CountReverse(s: seq<bool>)
    ensures Count(Reverse(s)) == Count(s)
  {
    if s != [] {
      CountReverse(s[1..]);
      CountConcat(Reverse(s[1..]), [s[0]]);
    }
  }

  lemma {:induction false} ReverseConcat(s: seq<bool>, t: seq<bool>)
    ensures Reverse(s + t) == Reverse(t) + Reverse(s)
  {
    if s == [] {
      assert s + t == t;
    } else {
      assert (s + t)[1..] == s[1..] + t;
      ReverseConcat(s[1..], t);
    }
  }

  lemma {:induction false} ReverseRepeat(n: nat, busy: bool)
    ensures Reverse(Repeat(n, busy)) == Repeat(n, busy)
  {
    if n > 0 {
      assert Repeat(n, busy)[1..] == Repeat(n - 1, busy);
      ReverseRepeat(n - 1, busy);
    }
  }

  /**
   * The same stream seen by both meters: a history that started from a full idle window has as
   * many busy samples in its window as the ring, which started empty.
   */
  lemma WindowsAgree(stream: seq<bool>)
    ensures Count(Window(Reverse(stream) + Repeat(WINDOW, false))) == Count(Tail(stream))
  {
    var r := Reverse(stream);
    if |stream| <= WINDOW {
      assert Window(r + Repeat(WINDOW, false)) == r + Repeat(WINDOW - |stream|, false);
      CountConcat(r, Repeat(WINDOW - |stream|, false));
      CountRepeat(WINDOW - |stream|, false);
      CountReverse(stream);
    } else {
      var cut := |stream| - WINDOW;
      assert stream == stream[..cut] + stream[cut..];
      ReverseConcat(stream[..cut], stream[cut..]);
      assert Window(r + Repeat(WINDOW, false)) == Reverse(stream[cut..]);
      CountReverse(stream[cut..]);
    }
  }
}
