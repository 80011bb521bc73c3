/** The frame-arrival window behind the FPS readout: a FIFO of arrival
    timestamps (nanoseconds of a monotonic clock) from which, after each new
    arrival, every leading entry older than `now - window` is popped. */
module FrameWindow {
  /** `Duration::from_secs(2)` in nanoseconds. */
  const FpsWindow: nat := 2_000_000_000

  ghost predicate Sorted(s: seq<int>)
  {
    forall i, j :: 0 <= i < j < |s| ==> s[i] <= s[j]
  }

  /** The queue left by the `while let Some(&front)` loop: leading entries below
      `cutoff` are popped, and popping stops at the first entry that is not. */
  function Evict(q: seq<int>, cutoff: int): seq<int>
  {
    if q != [] && q[0] < cutoff then Evict(q[1..], cutoff) else q
  }

  /** The trim pops exactly the longest prefix of entries below the cutoff:
      `popped` entries go, all of them below it, and the first one kept is not. */
  lemma {:induction false} EvictShape(q: seq<int>, cutoff: int) returns (popped: nat)
    ensures popped <= |q| && Evict(q, cutoff) == q[popped..]
    ensures forall i :: 0 <= i < popped ==> q[i] < cutoff
    ensures popped < |q| ==> cutoff <= q[popped]
  {
    if q != [] && q[0] < cutoff {
      var p := EvictShape(q[1..], cutoff);
      assert q[1..][p..] == q[p + 1..];
      popped := p + 1;
    } else {
      popped := 0;
    }
  }

  /** The queue after `push_back(now)` and the trim against `now - window`. */
  function Arrive(q: seq<int>, now: int, window: nat): seq<int>
  {
    Evict(q + [now], now - window)
  }

  /** The trim never pops the arrival itself: the queue is a non-empty suffix of
      the old queue followed by `now`, at most one entry longer than before. */
  lemma ArriveRetainsNow(q: seq<int>, now: int, window: nat)
    ensures var r := Arrive(q, now, window);
      0 < |r| <= |q| + 1 && r == (q + [now])[|q| + 1 - |r|..] && r[|r| - 1] == now
  {
    var s := q + [now];
    var popped := EvictShape(s, now - window);
    assert s[|q|] == now;
    assert popped <= |q|;
  }

  /** The entries of `q` at or after `cutoff`, in order: the reference the trim is compared with. */
  function AtOrAfter(q: seq<int>, cutoff: int): seq<int>
  {
    if q == [] then []
    else
      var last := q[|q| - 1];
      AtOrAfter(q[..|q| - 1], cutoff) + (if cutoff <= last then [last] else [])
  }

  /** The queue after a series of arrivals, each trimmed in turn. */
  function ArriveAll(q: seq<int>, arrivals: seq<int>, window: nat): seq<int>
    decreases |arrivals|
  {
    if arrivals == [] then q
    else ArriveAll(Arrive(q, arrivals[0], window), arrivals[1..], window)
  }

  /** With a monotonic clock the trimmed queue stays ordered and lies within [now - window, now]. */
  lemma {:induction false} ArriveWithinWindow(q: seq<int>, now: int, window: nat)
    requires Sorted(q)
    requires forall i :: 0 <= i < |q| ==> q[i] <= now
    ensures Sorted(Arrive(q, now, window))
    ensures forall i :: 0 <= i < |Arrive(q, now, window)| ==>
              now - window <= Arrive(q, now, window)[i] <= now
  {
    var s := q + [now];
    var r := Arrive(q, now, window);
    var popped := EvictShape(s, now - window);
    ArriveRetainsNow(q, now, window);
    assert Sorted(s);
    forall i | 0 <= i < |r|
      ensures r[i] == s[popped + i] && now - window <= s[popped] <= s[popped + i]
    {
    }
  }

  lemma {:induction false} AtOrAfterConcat(a: seq<int>, b: seq<int>, cutoff: int)
    ensures AtOrAfter(a + b, cutoff) == AtOrAfter(a, cutoff) + AtOrAfter(b, cutoff)
  {
    if b != [] {
      var n := |b| - 1;
      assert (a + b)[..|a + b| - 1] == a + b[..n];
      AtOrAfterConcat(a, b[..n], cutoff);
    } else {
      assert a + b == a;
    }
  }

  lemma {:induction false} AtOrAfterAll(q: seq<int>, cutoff: int)
    requires forall i :: 0 <= i < |q| ==> cutoff <= q[i]
    ensures AtOrAfter(q, cutoff) == q
  {
    if q != [] {
      AtOrAfterAll(q[..|q| - 1], cutoff);
    }
  }

  lemma {:induction false} AtOrAfterNone(q: seq<int>, cutoff: int)
    requires forall i :: 0 <= i < |q| ==> q[i] < cutoff
    ensures AtOrAfter(q, cutoff) == []
  {
    if q != [] {
      AtOrAfterNone(q[..|q| - 1], cutoff);
    }
  }

  /** On an ordered queue the trim keeps exactly the entries at or after the cutoff. */
  lemma {:induction false} EvictSorted(q: seq<int>, cutoff: int)
    requires Sorted(q)
    ensures Evict(q, cutoff) == AtOrAfter(q, cutoff)
  {
    var k := EvictShape(q, cutoff);
    var dropped, kept := q[..k], q[k..];
    assert q == dropped + kept;
    forall i | 0 <= i < |dropped|
      ensures dropped[i] < cutoff
    {
      assert dropped[i] == q[i];
    }
    forall i | 0 <= i < |kept|
      ensures cutoff <= kept[i]
    {
      assert kept[i] == q[k + i] && q[k] <= q[k + i];
    }
    AtOrAfterConcat(dropped, kept, cutoff);
    AtOrAfterNone(dropped, cutoff);
    AtOrAfterAll(kept, cutoff);
  }

  /** Entries below the cutoff at the front can be dropped before trimming. */
  lemma {:induction false} EvictSkip(s: seq<int>, k: nat, cutoff: int)
    requires k <= |s|
    requires forall i :: 0 <= i < k ==> s[i] < cutoff
    ensures Evict(s, cutoff) == Evict(s[k..], cutoff)
  {
    if k > 0 {
      assert s[1..][k - 1..] == s[k..];
      EvictSkip(s[1..], k - 1, cutoff);
    }
  }

  /** One arrival's trim is subsumed by a later trim with a cutoff at least as late. */
  lemma {:induction false} ArriveThenEvict(q: seq<int>, t: int, rest: seq<int>, cutoff: int, window: nat)
    requires t - window <= cutoff
    ensures Evict(Arrive(q, t, window) + rest, cutoff) == Evict(q + [t] + rest, cutoff)
  {
    var head := q + [t];
    var k := EvictShape(head, t - window);
    var s := head + rest;
    assert s[k..] == head[k..] + rest;
    forall i | 0 <= i < k
      ensures s[i] < cutoff
    {
      assert s[i] == head[i];
    }
    EvictSkip(s, k, cutoff);
  }

  /** For non-decreasing arrivals, trimming after each one is the same as a
      single trim of everything against the last arrival's cutoff. */
  lemma {:induction false} ArriveAllEvicts(q: seq<int>, arrivals: seq<int>, window: nat)
    requires arrivals != []
    requires Sorted(arrivals)
    ensures ArriveAll(q, arrivals, window) == Evict(q + arrivals, arrivals[|arrivals| - 1] - window)
    decreases |arrivals|
  {
    var t := arrivals[0];
    var rest := arrivals[1..];
    var q' := Arrive(q, t, window);
    assert ArriveAll(q, arrivals, window) == ArriveAll(q', rest, window);
    assert arrivals == [t] + rest;
    if rest == [] {
      assert ArriveAll(q', rest, window) == q';
      assert q + arrivals == q + [t];
      assert ArriveAll(q, arrivals, window) == Evict(q + arrivals, arrivals[|arrivals| - 1] - window);
    } else {
      var last := arrivals[|arrivals| - 1];
      assert rest[|rest| - 1] == last;
      assert t <= last;
      calc {
        ArriveAll(q, arrivals, window);
        ArriveAll(q', rest, window);
        { ArriveAllEvicts(q', rest, window); }
        Evict(q' + rest, last - window);
        { ArriveThenEvict(q, t, rest, last - window, window); }
        Evict(q + [t] + rest, last - window);
        { assert q + arrivals == q + [t] + rest; }
        Evict(q + arrivals, last - window);
      }
    }
  }

  /** Starting from an empty queue, non-decreasing arrivals leave exactly those
      at or after `last - window`. */
  lemma {:induction false} WindowAfterArrivals(arrivals: seq<int>, window: nat)
    requires arrivals != []
    requires Sorted(arrivals)
    ensures ArriveAll([], arrivals, window) == AtOrAfter(arrivals, arrivals[|arrivals| - 1] - window)
  {
    var c := arrivals[|arrivals| - 1] - window;
    ArriveAllEvicts([], arrivals, window);
    assert [] + arrivals == arrivals;
    EvictSorted(arrivals, c);
    assert Evict(arrivals, c) == AtOrAfter(arrivals, c);
  }

  /** `n` arrivals `spacing` apart, the last one at `last`. */
  function Ticks(last: int, spacing: nat, n: nat): seq<int>
    decreases n
  {
    if n == 0 then [] else Ticks(last - spacing, spacing, n - 1) + [last]
  }

  /** The number of multiples of `spacing` in [0, window]. */
  function Fit(window: nat, spacing: nat): nat
    requires spacing > 0
    decreases window
  {
    if window < spacing then 1 else 1 + Fit(window - spacing, spacing)
  }

  /** Fit(window, spacing) is window / spacing + 1: the largest k with (k - 1) * spacing <= window. */
  lemma {:induction false} FitBounds(window: nat, spacing: nat)
    requires spacing > 0
    ensures (Fit(window, spacing) - 1) * spacing <= window < Fit(window, spacing) * spacing
    decreases window
  {
    if window >= spacing {
      var k := Fit(window - spacing, spacing);
      FitBounds(window - spacing, spacing);
      assert (k + 1) * spacing == k * spacing + spacing;
      assert k * spacing == (k - 1) * spacing + spacing;
    }
  }

  lemma {:induction false} TicksShape(last: int, spacing: nat, n: nat)
    ensures |Ticks(last, spacing, n)| == n
    ensures Sorted(Ticks(last, spacing, n))
    ensures forall i :: 0 <= i < n ==> Ticks(last, spacing, n)[i] <= last
    decreases n
  {
    if n > 0 {
      TicksShape(last - spacing, spacing, n - 1);
    }
  }

  /** `n` evenly spaced arrivals leave min(n, window / spacing + 1) entries: the
      newest and every earlier one no more than `window` older. */
  lemma {:induction false} UniformArrivalsCount(last: int, spacing: nat, n: nat, window: nat)
    requires spacing > 0
    ensures |AtOrAfter(Ticks(last, spacing, n), last - window)| ==
              if n < Fit(window, spacing) then n else Fit(window, spacing)
    decreases n
  {
    if n > 0 {
      var prev := Ticks(last - spacing, spacing, n - 1);
      assert Ticks(last, spacing, n) == prev + [last];
      AtOrAfterConcat(prev, [last], last - window);
      assert AtOrAfter([last], last - window) == [last] by {
        assert [last][..0] == [];
      }
      if window < spacing {
        TicksShape(last - spacing, spacing, n - 1);
        AtOrAfterNone(prev, last - window);
      } else {
        UniformArrivalsCount(last - spacing, spacing, n - 1, window - spacing);
      }
    }
  }

  /** `n` arrivals every `spacing` nanoseconds, starting from an empty window, leave
      min(n, k) timestamps in it, where k - 1 is the number of whole spacings in the
      window, i.e. k == window / spacing + 1. */
  lemma UniformWindowCount(last: int, spacing: nat, n: nat, window: nat) returns (k: nat)
    requires spacing > 0
    requires n > 0
    ensures (k - 1) * spacing <= window < k * spacing
    ensures |ArriveAll([], Ticks(last, spacing, n), window)| == if n < k then n else k
  {
    k := Fit(window, spacing);
    var ts := Ticks(last, spacing, n);
    TicksShape(last, spacing, n);
    assert ts[n - 1] == last;
    WindowAfterArrivals(ts, window);
    UniformArrivalsCount(last, spacing, n, window);
    FitBounds(window, spacing);
  }

  /** Frames every half second over a two-second window: at 2.5 s the queue
      holds the arrivals at 0.5, 1.0, 1.5, 2.0 and 2.5 s. */
  lemma {:induction false} HalfSecondFrames()
    ensures |ArriveAll([], Ticks(2_500_000_000, 500_000_000, 6), FpsWindow)| == 5
  {
    var ts := Ticks(2_500_000_000, 500_000_000, 6);
    TicksShape(2_500_000_000, 500_000_000, 6);
    WindowAfterArrivals(ts, FpsWindow);
    UniformArrivalsCount(2_500_000_000, 500_000_000, 6, FpsWindow);
    var d := 500_000_000;
    assert Fit(0, d) == 1;
    assert Fit(d, d) == 2;
    assert Fit(2 * d, d) == 3;
    assert Fit(3 * d, d) == 4;
    assert Fit(4 * d, d) == 5;
  }
}
