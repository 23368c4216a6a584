/** Samples taken once a second, kept on three rings: full rings of seconds feed
    the ring of minutes with their mean, and full rings of minutes the ring of
    hours. What a query answers is stated against the whole history of samples. */
module RrdBuffer {

  const SECONDS: nat := 60
  const MINUTES: nat := 60
  const HOURS: nat := 24
  const SPAN: nat := 86400

  // ---- means ---------------------------------------------------------------------------

  function Sum(s: seq<real>): real {
    if s == [] then 0.0 else s[0] + Sum(s[1..])
  }

  function Mean(s: seq<real>): real
    requires s != []
  {
    Sum(s) / (|s| as real)
  }

  lemma {:induction false} SumConcat(a: seq<real>, b: seq<real>)
    ensures Sum(a + b) == Sum(a) + Sum(b)
    decreases |a|
  {
    if a == [] {
      assert a + b == b;
    } else {
      assert (a + b)[1..] == a[1..] + b;
      SumConcat(a[1..], b);
    }
  }

  // ---- means of consecutive blocks --------------------------------------------------------

  /** The means of the complete blocks of `b` samples, oldest first. */
  function BlockMeans(h: seq<real>, b: nat): seq<real>
    requires b > 0
    decreases |h|
  {
    if |h| < b then [] else [Mean(h[..b])] + BlockMeans(h[b..], b)
  }

  lemma {:induction false} BlockCount(h: seq<real>, b: nat, k: nat)
    requires b > 0 && b * k <= |h| < b * k + b
    ensures |BlockMeans(h, b)| == k
    decreases k
  {
    if k == 0 {
      assert b * k == 0;
    } else {
      assert b * k == b + b * (k - 1);
      BlockCount(h[b..], b, k - 1);
    }
  }

  /** Dropping blocks drops their samples. */
  lemma {:induction false} BlockDrop(h: seq<real>, b: nat, k: nat)
    requires b > 0 && b * k <= |h|
    ensures k <= |BlockMeans(h, b)|
    ensures BlockMeans(h, b)[k..] == BlockMeans(h[b * k..], b)
    decreases k
  {
    if k == 0 {
      assert h[b * 0..] == h;
    } else {
      assert b * k == b + b * (k - 1);
      BlockDrop(h[b..], b, k - 1);
      assert h[b..][b * (k - 1)..] == h[b * k..];
      assert BlockMeans(h, b)[1..] == BlockMeans(h[b..], b);
    }
  }

  /** Samples past the last complete block do not matter. */
  lemma {:induction false} BlockTrim(h: seq<real>, b: nat, k: nat)
    requires b > 0 && b * k <= |h| < b * k + b
    ensures BlockMeans(h[..b * k], b) == BlockMeans(h, b)
    decreases k
  {
    if k > 0 {
      assert b * k == b + b * (k - 1);
      var g := h[..b * k];
      BlockTrim(h[b..], b, k - 1);
      assert g[..b] == h[..b] && g[b..] == h[b..][..b * (k - 1)];
    } else {
      assert b * k == 0;
    }
  }

  lemma MeanTimes(s: seq<real>)
    requires s != []
    ensures Mean(s) * (|s| as real) == Sum(s)
  {
  }

  lemma Distribute(a: real, b: real, m: real)
    ensures (a + b) * m == a * m + b * m
  {
  }

  /** The mean of equal block means is the mean of all the samples. */
  lemma {:induction false} SumOfMeans(h: seq<real>, b: nat, k: nat)
    requires b > 0 && |h| == b * k
    ensures |BlockMeans(h, b)| == k
    ensures Sum(h) == Sum(BlockMeans(h, b)) * (b as real)
    decreases k
  {
    hide Mean, Sum, BlockMeans;
    if k > 0 {
      Times(b, k);
      SumOfMeans(h[b..], b, k - 1);
      FirstBlock(h, b);
      Distribute(Mean(h[..b]), Sum(BlockMeans(h[b..], b)), b as real);
    } else {
      NoBlock(b);
    }
  }

  lemma Times(b: nat, k: nat)
    requires k > 0
    ensures b * k == b + b * (k - 1)
  {
  }

  lemma NoBlock(b: nat)
    requires b > 0
    ensures b * 0 == 0 && BlockMeans([], b) == [] && Sum([]) == 0.0
  {
  }

  lemma FirstBlock(h: seq<real>, b: nat)
    requires 0 < b <= |h|
    ensures |BlockMeans(h, b)| == 1 + |BlockMeans(h[b..], b)|
    ensures Sum(BlockMeans(h, b)) == Mean(h[..b]) + Sum(BlockMeans(h[b..], b))
    ensures Sum(h) == Mean(h[..b]) * (b as real) + Sum(h[b..])
  {
    hide Mean, Sum;
    assert h == h[..b] + h[b..];
    SumConcat(h[..b], h[b..]);
    MeanTimes(h[..b]);
    SumCons(Mean(h[..b]), BlockMeans(h[b..], b));
  }

  lemma SumCons(x: real, s: seq<real>)
    ensures Sum([x] + s) == x + Sum(s)
  {
    assert ([x] + s)[1..] == s;
  }

  lemma {:induction false} MeanOfMeans(h: seq<real>, b: nat, k: nat)
    requires b > 0 && k > 0 && |h| == b * k
    ensures |BlockMeans(h, b)| == k && h != []
    ensures Mean(BlockMeans(h, b)) == Mean(h)
  {
    hide BlockMeans, Sum;
    SumOfMeans(h, b, k);
    Product(b, k);
    Ratio(Sum(BlockMeans(h, b)), b as real, k as real, Sum(h), |h| as real);
  }

  lemma Product(b: nat, k: nat)
    requires b > 0 && k > 0
    ensures b * k > 0 && (b * k) as real == (b as real) * (k as real)
  {
  }

  lemma Ratio(x: real, m: real, n: real, y: real, total: real)
    requires m > 0.0 && n > 0.0 && total == m * n && y == x * m
    ensures total != 0.0 && y / total == x / n
  {
    assert (x / n) * n == x;
    assert (x / n) * total == y;
  }

  /** A sample that completes a block adds that block's mean; any other adds nothing. */
  lemma {:induction false} BlockPush(h: seq<real>, v: real, b: nat, k: nat)
    requires b > 0 && b * k <= |h| < b * k + b
    ensures BlockMeans(h + [v], b) ==
            BlockMeans(h, b) + if |h| + 1 == b * k + b then [Mean((h + [v])[b * k..])] else []
    decreases k
  {
    var g := h + [v];
    if k == 0 {
      assert b * k == 0;
      if |g| == b {
        assert g[..b] == g && g[b..] == [] && g[0..] == g;
        assert BlockMeans(g, b) == [Mean(g)] + BlockMeans([], b);
      }
    } else {
      assert b * k == b + b * (k - 1);
      BlockPush(h[b..], v, b, k - 1);
      assert g[..b] == h[..b] && g[b..] == h[b..] + [v];
      assert g[b * k..] == g[b..][b * (k - 1)..];
      assert BlockMeans(h, b) == [Mean(h[..b])] + BlockMeans(h[b..], b);
      assert BlockMeans(g, b) == [Mean(g[..b])] + BlockMeans(g[b..], b);
    }
  }

  // ---- rings -----------------------------------------------------------------------------------

  function Zeros(n: nat): (z: seq<real>)
    ensures |z| == n
  {
    seq(n, i => 0.0)
  }

  /** A ring of fixed capacity, created full of zeros, after receiving `items`. */
  function Ring(capacity: nat, items: seq<real>): (r: seq<real>)
    ensures |r| == capacity
  {
    (Zeros(capacity) + items)[|items|..]
  }

  lemma RingPush(capacity: nat, items: seq<real>, v: real)
    requires capacity > 0
    ensures Ring(capacity, items)[1..] + [v] == Ring(capacity, items + [v])
  {
    assert Zeros(capacity) + (items + [v]) == Zeros(capacity) + items + [v];
  }

  lemma RingTail(capacity: nat, items: seq<real>, n: nat)
    requires n <= capacity && n <= |items|
    ensures Ring(capacity, items)[capacity - n..] == items[|items| - n..]
  {
    assert (Zeros(capacity) + items)[|items|..][capacity - n..] == items[|items| - n..];
  }

  // ---- what an average means -------------------------------------------------------------------------

  datatype Outcome = Average(value: real) | TooLong

  /** The samples an accepted window averages: the last `w`, or the last whole
      minutes, or the last whole hours that fit into it. */
  function Window(h: seq<real>, w: nat): (r: seq<real>)
    requires 0 < w <= |h|
    ensures r != []
  {
    if w <= SECONDS then h[|h| - w..]
    else if w / 60 <= MINUTES then h[60 * (|h| / 60 - w / 60)..60 * (|h| / 60)]
    else h[3600 * (|h| / 3600 - w / 3600)..3600 * (|h| / 3600)]
  }

  /** The answer to a query, from the whole push history. */
  function Answer(h: seq<real>, time: int): Outcome {
    var asked := if time == 0 then 1 else time;
    if time < 0 then Average(0.0)
    else if asked >= SPAN then TooLong
    else if h == [] then Average(0.0)
    else Average(Mean(Window(h, if asked > |h| then |h| else asked)))
  }

  function BlockSize(w: nat): nat {
    if w <= SECONDS then 1 else if w / 60 <= MINUTES then 60 else 3600
  }

  /** What is averaged is almost what was asked for: short of the window by less
      than one block, and behind the newest sample by less than one block. */
  lemma WindowFits(h: seq<real>, w: nat, end: nat)
    requires 0 < w <= |h| && end == BlockSize(w) * (|h| / BlockSize(w))
    ensures |h| - BlockSize(w) < end <= |h|
    ensures w - BlockSize(w) < |Window(h, w)| <= w && |Window(h, w)| <= end
    ensures Window(h, w) == h[end - |Window(h, w)|..end]
  {
    Division(|h|, w);
  }

  function Least(a: int, b: int): int {
    if a < b then a else b
  }

  /** `r` is the mean of the samples from `lo` to `hi`. */
  ghost predicate IsMeanOf(r: Outcome, h: seq<real>, lo: int, hi: int) {
    0 <= lo < hi <= |h| && r == Average(Mean(h[lo..hi]))
  }

  /** Every query below a day, once there is a sample: the mean of a block of the history, as
      long as what was asked for (at least one sample) or all there is, short of it by less than
      one block, and ending less than one block before the newest sample. */
  lemma {:induction false} AnswerIs(h: seq<real>, time: int)
    requires h != [] && 0 <= time < 86400
    ensures var w := Least(|h|, if time < 1 then 1 else time);
            exists lo, hi :: IsMeanOf(Answer(h, time), h, lo, hi) &&
              w - BlockSize(w) < hi - lo <= w && |h| - BlockSize(w) < hi
  {
    hide Mean;
    var w := Least(|h|, if time < 1 then 1 else time);
    var end := BlockSize(w) * (|h| / BlockSize(w));
    WindowFits(h, w, end);
    assert IsMeanOf(Answer(h, time), h, end - |Window(h, w)|, end);
  }

  /** A block is one sample up to a minute, 60 up to an hour and a minute, 3600 beyond. */
  lemma BlockSizeIs(w: nat)
    ensures BlockSize(w) == 1 <==> w <= 60
    ensures BlockSize(w) == 60 <==> 61 <= w < 3660
    ensures BlockSize(w) == 3600 <==> w >= 3660
  {
  }

  /** A day or more is refused, with samples or without; what is not asked for, or not there to
      be averaged, is zero. */
  lemma AnswerLimits(h: seq<real>, time: int)
    ensures Answer(h, time).TooLong? <==> time >= 86400
    ensures time < 0 || (h == [] && time < 86400) ==> Answer(h, time) == Average(0.0)
  {
  }

  lemma Division(n: nat, w: nat)
    requires w <= n
    ensures w / 60 <= n / 60 && 60 * (n / 60) <= n < 60 * (n / 60) + 60 && w - 60 < 60 * (w / 60) <= w
    ensures w / 3600 <= n / 3600 && 3600 * (n / 3600) <= n < 3600 * (n / 3600) + 3600
    ensures w - 3600 < 3600 * (w / 3600) <= w
  {
  }

  // ---- the buffer ------------------------------------------------------------------------------------------

  method CalculateAvg(buffer: seq<real>) returns (avg: real)
    requires buffer != []
    ensures avg == Mean(buffer)
  {
    var total := 0.0;
    for i := 0 to |buffer|
      invariant total + Sum(buffer[i..]) == Sum(buffer)
    {
      assert buffer[i..][1..] == buffer[i + 1..];
      total := total + buffer[i];
    }
    assert buffer[|buffer|..] == [];
    return total / (|buffer| as real);
  }

  /** The mean of the last `m` blocks on a ring is the mean of the samples they cover. */
  lemma {:induction false} TailMean(h: seq<real>, b: nat, k: nat, m: nat, capacity: nat, lo: nat, hi: nat)
    requires b > 0 && hi == b * k <= |h| < b * k + b && lo == b * (k - m) && hi - lo == b * m
    requires 0 < m <= k && m <= capacity && lo < hi
    ensures Mean(Ring(capacity, BlockMeans(h, b))[capacity - m..]) == Mean(h[lo..hi])
  {
    hide Mean, Ring, BlockMeans;
    BlockCount(h, b, k);
    RingTail(capacity, BlockMeans(h, b), m);
    BlockTrim(h, b, k);
    BlockDrop(h[..hi], b, k - m);
    assert h[..hi][lo..] == h[lo..hi];
    MeanOfMeans(h[lo..hi], b, m);
  }

  lemma {:induction false} MinutesTail(h: seq<real>, m: nat)
    requires 0 < m <= |h| / 60 && m <= MINUTES
    ensures Mean(Ring(MINUTES, BlockMeans(h, 60))[MINUTES - m..]) == Mean(h[60 * (|h| / 60 - m)..60 * (|h| / 60)])
  {
    TailMean(h, 60, |h| / 60, m, MINUTES, 60 * (|h| / 60 - m), 60 * (|h| / 60));
  }

  lemma {:induction false} HoursTail(h: seq<real>, m: nat)
    requires 0 < m <= |h| / 3600 && m <= HOURS
    ensures Mean(Ring(HOURS, BlockMeans(h, 3600))[HOURS - m..]) == Mean(h[3600 * (|h| / 3600 - m)..3600 * (|h| / 3600)])
  {
    TailMean(h, 3600, |h| / 3600, m, HOURS, 3600 * (|h| / 3600 - m), 3600 * (|h| / 3600));
  }

  /** How the two counters follow the number of samples. */
  lemma CounterStep(n: nat)
    ensures n % 60 + 1 > 59 <==> (n + 1) % 60 == 0
    ensures n % 60 + 1 > 59 ==> (n + 1) / 60 == n / 60 + 1
    ensures n % 60 + 1 > 59 ==> (n / 60 % 60 + 1 > 59 <==> (n + 1) % 3600 == 0)
    ensures n % 60 + 1 > 59 && n / 60 % 60 + 1 > 59 ==> (n + 1) / 60 % 60 == 0
    ensures n % 60 + 1 > 59 && n / 60 % 60 + 1 <= 59 ==> (n + 1) / 60 % 60 == n / 60 % 60 + 1
    ensures n % 60 + 1 <= 59 ==> (n + 1) % 60 == n % 60 + 1 && (n + 1) / 60 == n / 60 && (n + 1) % 3600 != 0
  {
    CounterUp(n);
    CounterUp(n / 60);
    HourOfMinutes(n + 1);
  }

  lemma CounterUp(n: nat)
    ensures (n + 1) % 60 == if n % 60 == 59 then 0 else n % 60 + 1
    ensures (n + 1) / 60 == if n % 60 == 59 then n / 60 + 1 else n / 60
  {
  }

  lemma HourOfMinutes(n: nat)
    ensures n % 3600 == 0 <==> n % 60 == 0 && n / 60 % 60 == 0
  {
  }

  lemma {:induction false} SecondsPush(h: seq<real>, v: real)
    ensures Ring(SECONDS, h)[1..] + [v] == Ring(SECONDS, h + [v])
    ensures (|h| + 1) % 60 != 0 ==> BlockMeans(h + [v], 60) == BlockMeans(h, 60)
    ensures (|h| + 1) % 3600 != 0 ==> BlockMeans(h + [v], 3600) == BlockMeans(h, 3600)
  {
    hide Ring, BlockMeans, Mean;
    RingPush(SECONDS, h, v);
    MinutesKept(h, v);
    HoursKept(h, v);
  }

  lemma {:induction false} MinutesKept(h: seq<real>, v: real)
    ensures (|h| + 1) % 60 != 0 ==> BlockMeans(h + [v], 60) == BlockMeans(h, 60)
  {
    hide BlockMeans, Mean;
    var k := |h| / 60;
    assert (|h| + 1) % 60 != 0 ==> |h| + 1 != 60 * k + 60;
    BlockPush(h, v, 60, k);
    assert BlockMeans(h, 60) + [] == BlockMeans(h, 60);
  }

  lemma {:induction false} HoursKept(h: seq<real>, v: real)
    ensures (|h| + 1) % 3600 != 0 ==> BlockMeans(h + [v], 3600) == BlockMeans(h, 3600)
  {
    hide BlockMeans, Mean;
    var k := |h| / 3600;
    assert (|h| + 1) % 3600 != 0 ==> |h| + 1 != 3600 * k + 3600;
    BlockPush(h, v, 3600, k);
    assert BlockMeans(h, 3600) + [] == BlockMeans(h, 3600);
  }

  /** A full minute on the seconds ring is the block it completes. */
  lemma {:induction false} MinutesPush(h: seq<real>, v: real, minute: real)
    requires (|h| + 1) % 60 == 0 && minute == Mean(Ring(SECONDS, h + [v]))
    ensures Ring(MINUTES, BlockMeans(h, 60))[1..] + [minute] == Ring(MINUTES, BlockMeans(h + [v], 60))
  {
    hide Ring, BlockMeans, Mean;
    var g := h + [v];
    var k := |h| / 60;
    assert |g| == 60 * k + 60;
    RingTail(SECONDS, g, 60);
    assert Ring(SECONDS, g)[0..] == Ring(SECONDS, g);
    assert g[|g| - 60..] == g[60 * k..];
    BlockPush(h, v, 60, k);
    RingPush(MINUTES, BlockMeans(h, 60), minute);
  }

  lemma FullHour(n: nat, k: nat)
    requires n > 0 && n % 3600 == 0 && k == (n - 1) / 3600
    ensures n == 3600 * k + 3600 && n / 60 >= 60 && 60 * (n / 60) == n && 60 * (n / 60 - 60) == 3600 * k
  {
    var m := n / 3600;
    assert n == 60 * (60 * m) && m > 0;
    assert n / 60 == 60 * m;
  }

  /** A full hour on the minutes ring averages to the mean of its 3600 samples. */
  lemma {:induction false} HoursPush(h: seq<real>, v: real, hour: real)
    requires (|h| + 1) % 3600 == 0 && hour == Mean(Ring(MINUTES, BlockMeans(h + [v], 60)))
    ensures Ring(HOURS, BlockMeans(h, 3600))[1..] + [hour] == Ring(HOURS, BlockMeans(h + [v], 3600))
  {
    hide Ring, BlockMeans, Mean;
    var g := h + [v];
    var k := |h| / 3600;
    FullHour(|g|, k);
    MinutesTail(g, 60);
    var ring := Ring(MINUTES, BlockMeans(g, 60));
    assert ring[0..] == ring;
    assert g[60 * (|g| / 60 - 60)..60 * (|g| / 60)] == g[3600 * k..];
    BlockPush(h, v, 3600, k);
    RingPush(HOURS, BlockMeans(h, 3600), hour);
  }

  class Buffer {
    var seconds: seq<real>
    var minutes: seq<real>
    var hours: seq<real>
    var secondCounter: nat
    var minuteCounter: nat
    var sampleCount: nat

    /** Every sample ever pushed, oldest first. */
    ghost var history: seq<real>

    ghost predicate Valid()
      reads this
    {
      && seconds == Ring(SECONDS, history)
      && minutes == Ring(MINUTES, BlockMeans(history, 60))
      && hours == Ring(HOURS, BlockMeans(history, 3600))
      && secondCounter == |history| % 60
      && minuteCounter == |history| / 60 % 60
      && sampleCount == (if |history| < SPAN then |history| else SPAN)
    }

    constructor ()
      ensures Valid() && history == []
    {
      seconds, minutes, hours := Zeros(SECONDS), Zeros(MINUTES), Zeros(HOURS);
      secondCounter, minuteCounter, sampleCount := 0, 0, 0;
      history := [];
    }

    method Push(value: real)
      requires Valid()
      modifies this
      ensures Valid() && history == old(history) + [value]
    {
      hide Ring, BlockMeans, Mean;
      ghost var h := history;
      ghost var g := h + [value];
      CounterStep(|h|);
      SecondsPush(h, value);
      history := g;
      if sampleCount < HOURS * 60 * 60 {
        sampleCount := sampleCount + 1;
      }
      seconds := seconds[1..] + [value];
      secondCounter := secondCounter + 1;
      if secondCounter > 59 {
        secondCounter := 0;
        var minute := CalculateAvg(seconds);
        MinutesPush(h, value, minute);
        minutes := minutes[1..] + [minute];
        minuteCounter := minuteCounter + 1;
        if minuteCounter > 59 {
          minuteCounter := 0;
          var hour := CalculateAvg(minutes);
          HoursPush(h, value, hour);
          hours := hours[1..] + [hour];
        }
      }
    }

    /** The mean of the last `n` slots of a ring. */
    method AverageTail(ring: seq<real>, n: nat) returns (avg: real)
      requires 0 < n <= |ring|
      ensures avg == Mean(ring[|ring| - n..])
    {
      avg := CalculateAvg(ring[|ring| - n..]);
    }

    /** Exactly the mean of a block of the push history, never of an unsampled slot. */
    method GetAverage(time: int) returns (r: Outcome)
      requires Valid()
      ensures r == Answer(history, time)
    {
      hide Ring, BlockMeans, Mean;
      if time < 0 {
        return Average(0.0);
      }
      var w := if time == 0 then 1 else time;
      if w >= HOURS * 60 * 60 {
        return TooLong;
      }
      if sampleCount == 0 {
        return Average(0.0);
      }
      if w > sampleCount {
        w := sampleCount;
      }
      if w <= SECONDS {
        RingTail(SECONDS, history, w);
        var avg := AverageTail(seconds, w);
        return Average(avg);
      }
      var avg := AverageBlocks(w);
      return Average(avg);
    }

    /** Windows longer than a minute: whole minutes, or whole hours. */
    method AverageBlocks(w: nat) returns (avg: real)
      requires Valid() && SECONDS < w <= |history| && w < SPAN
      ensures avg == Mean(Window(history, w))
    {
      hide Ring, BlockMeans, Mean;
      var m := w / 60;
      if m <= MINUTES {
        MinutesTail(history, m);
        avg := AverageTail(minutes, m);
      } else {
        assert m / 60 == w / 3600 && w / 3600 <= |history| / 3600 && w / 3600 < HOURS;
        HoursTail(history, m / 60);
        avg := AverageTail(hours, m / 60);
      }
    }
  }
}
