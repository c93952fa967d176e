/** The averaging sub-samplers of subsample.hh for integer samples:
  * `SubSample`, which emits the average of every `n` consecutive inputs,
  * and `FracSubSampleBase`, which counts inputs in units of 2^16 and emits
  * once the count reaches its period. Both carry a partial sum and count
  * from one buffer to the next.
  *
  * Sums are unbounded integers; the quotient truncates toward zero as C++
  * integer division does. */
module SubSampling {
  import opened Common
  import opened NodeConfig

  /** Sum of a sequence, by its last element. */
  function Sum(s: seq<int>): int
  {
    if s == [] then 0 else Sum(s[..|s| - 1]) + s[|s| - 1]
  }

  /** The partial sum and the number of inputs in it (`_last`, `_left`). */
  datatype Acc = Acc(sum: int, count: nat)

  /** The outputs of a run and the accumulator it leaves. */
  datatype Run = Run(outs: seq<int>, acc: Acc)

  /** One input of `SubSample::_process`: add it, and when `n` inputs have
    * been collected emit their sum divided by `n` and start over. */
  function Step(n: nat, a: Acc, x: int): Run
    requires n >= 1
  {
    var s := a.sum + x;
    if n <= a.count + 1 then Run([TruncDiv(s, n)], Acc(0, 0)) else Run([], Acc(s, a.count + 1))
  }

  /** The outputs and the final accumulator for a run over `xs`. */
  function Feed(n: nat, a: Acc, xs: seq<int>): (r: Run)
    requires n >= 1
    ensures |r.outs| <= |xs|
    decreases |xs|
  {
    if xs == [] then Run([], a)
    else
      var first := Step(n, a, xs[0]);
      var rest := Feed(n, first.acc, xs[1..]);
      Run(first.outs + rest.outs, rest.acc)
  }

  /** `Feed` from position `i` is one step followed by the rest. */
  lemma FeedStep(n: nat, a: Acc, xs: seq<int>, i: nat)
    requires n >= 1 && i < |xs|
    ensures var first := Step(n, a, xs[i]);
      var rest := Feed(n, first.acc, xs[i + 1..]);
      Feed(n, a, xs[i..]) == Run(first.outs + rest.outs, rest.acc)
  {
    assert xs[i..][1..] == xs[i + 1..];
  }

  /** The reference: the averages of the consecutive blocks of `n` inputs,
    * and the incomplete block at the end. */
  function BlockAverages(n: nat, ys: seq<int>): seq<int>
    requires n >= 1
    decreases |ys|
  {
    if |ys| < n then [] else [TruncDiv(Sum(ys[..n]), n)] + BlockAverages(n, ys[n..])
  }

  function Leftover(n: nat, ys: seq<int>): seq<int>
    requires n >= 1
    decreases |ys|
  {
    if |ys| < n then ys else Leftover(n, ys[n..])
  }

  lemma {:induction false} BlockCounts(n: nat, ys: seq<int>)
    requires n >= 1
    ensures |BlockAverages(n, ys)| == |ys| / n && |Leftover(n, ys)| == |ys| % n
    decreases |ys|
  {
    if |ys| < n {
      DivUnique(0, |ys|, n, |ys|);
    } else {
      BlockCounts(n, ys[n..]);
      DivStep(|ys|, n);
    }
  }

  lemma SumSnoc(p: seq<int>, x: int)
    ensures Sum(p + [x]) == Sum(p) + x
  {
    assert (p + [x])[..|p|] == p;
  }

  /** A whole block at the front is averaged first. */
  lemma BlockPeel(n: nat, q: seq<int>, ys: seq<int>)
    requires n >= 1 && |q| == n
    ensures BlockAverages(n, q + ys) == [TruncDiv(Sum(q), n)] + BlockAverages(n, ys)
    ensures Leftover(n, q + ys) == Leftover(n, ys)
  {
    assert (q + ys)[..n] == q && (q + ys)[n..] == ys;
  }

  /** A run from a partial block `p` averages exactly the blocks of `p`
    * followed by the inputs, and leaves the incomplete last block in the
    * accumulator: carrying the sum and count between buffers is the same
    * as sub-sampling the concatenated stream. */
  lemma {:induction false} FeedIsBlockAverage(n: nat, p: seq<int>, xs: seq<int>)
    requires n >= 1 && |p| < n
    ensures Feed(n, Acc(Sum(p), |p|), xs).outs == BlockAverages(n, p + xs)
    ensures Feed(n, Acc(Sum(p), |p|), xs).acc == Acc(Sum(Leftover(n, p + xs)), |Leftover(n, p + xs)|)
    decreases |xs|
  {
    if xs == [] {
      assert p + xs == p;
    } else {
      var x := xs[0];
      var st := Step(n, Acc(Sum(p), |p|), x);
      var rest := Feed(n, st.acc, xs[1..]);
      assert Feed(n, Acc(Sum(p), |p|), xs) == Run(st.outs + rest.outs, rest.acc);
      SumSnoc(p, x);
      var q := p + [x];
      assert p + xs == q + xs[1..];
      if n <= |p| + 1 {
        assert st == Run([TruncDiv(Sum(q), n)], Acc(0, 0));
        BlockPeel(n, q, xs[1..]);
        FeedIsBlockAverage(n, [], xs[1..]);
        assert [] + xs[1..] == xs[1..];
      } else {
        assert st == Run([], Acc(Sum(q), |q|));
        FeedIsBlockAverage(n, q, xs[1..]);
      }
    }
  }

  /** Starting below `n` the accumulator stays below `n`, and a run emits
    * one output per completed block. */
  lemma {:induction false} FeedCounts(n: nat, a: Acc, xs: seq<int>)
    requires n >= 1 && a.count < n
    ensures |Feed(n, a, xs).outs| == (a.count + |xs|) / n
    ensures Feed(n, a, xs).acc.count == (a.count + |xs|) % n < n
    decreases |xs|
  {
    if xs == [] {
      DivUnique(0, a.count, n, a.count);
    } else {
      var b := Step(n, a, xs[0]).acc;
      FeedCounts(n, b, xs[1..]);
      if n <= a.count + 1 {
        DivStep(a.count + |xs|, n);
      }
    }
  }

  /** `ceil(size / n)` as `config` computes it: the quotient, plus one when
    * the division leaves a remainder. */
  function CeilDiv(size: nat, n: nat): nat
    requires n >= 1
  {
    size / n + (if size % n != 0 then 1 else 0)
  }

  /** A run over at most `size` inputs, started with fewer than `n` carried,
    * emits at most `ceil(size / n)` outputs: the buffer `config` allocates
    * is large enough. */
  lemma OutputFits(n: nat, a: Acc, xs: seq<int>, size: nat)
    requires n >= 1 && a.count < n && |xs| <= size
    ensures |Feed(n, a, xs).outs| <= CeilDiv(size, n)
  {
    FeedCounts(n, a, xs);
    CeilBound(a.count + |xs|, size, n);
  }

  lemma CeilBound(t: nat, size: nat, n: nat)
    requires n >= 1 && t <= size + n - 1
    ensures t / n <= CeilDiv(size, n)
  {
    var k := CeilDiv(size, n);
    var q, r := size / n, size % n;
    assert size == q * n + r;
    MulSucc(q, n);
    if r == 0 {
      assert t < (k + 1) * n;
    } else {
      MulSucc(k, n);
      assert t < (k + 1) * n;
    }
    DivBelow(t, n, k);
  }

  /** The average of `n` values of a range lies in that range, so every
    * output fits the sample type. */
  lemma AverageInRange(block: seq<int>, lo: int, hi: int)
    requires |block| >= 1
    requires forall i :: 0 <= i < |block| ==> lo <= block[i] <= hi
    ensures lo <= TruncDiv(Sum(block), |block|) <= hi
  {
    SumBounds(block, lo, hi);
    var n, s := |block|, Sum(block);
    if s >= 0 {
      FloorBetween(s, n, lo, hi);
      assert TruncDiv(s, n) == s / n;
    } else {
      assert n * -hi == -(n * hi) && n * -lo == -(n * lo);
      FloorBetween(-s, n, -hi, -lo);
      assert TruncDiv(s, n) == -((-s) / n);
    }
  }

  lemma FloorBetween(s: int, n: int, lo: int, hi: int)
    requires n >= 1 && n * lo <= s <= n * hi
    ensures lo <= s / n <= hi
  {
    var q := s / n;
    assert q * n <= s < q * n + n;
    assert (q - hi) * n < n by {
      assert (q - hi) * n == q * n - hi * n;
    }
    ProductBelow(q - hi, n);
    assert (lo - q) * n < n by {
      assert (lo - q) * n == lo * n - q * n;
    }
    ProductBelow(lo - q, n);
  }

  lemma ProductBelow(x: int, n: int)
    requires n >= 1 && x * n < n
    ensures x <= 0
  {
    if x >= 1 {
      MulMono(1, x, n);
    }
  }

  lemma {:induction false} SumBounds(s: seq<int>, lo: int, hi: int)
    requires forall i :: 0 <= i < |s| ==> lo <= s[i] <= hi
    ensures |s| * lo <= Sum(s) <= |s| * hi
  {
    if s != [] {
      var init := s[..|s| - 1];
      SumBounds(init, lo, hi);
      assert Sum(s) == Sum(init) + s[|s| - 1];
      assert |s| * lo == |init| * lo + lo && |s| * hi == |init| * hi + hi;
    }
  }

  class SubSample {
    /** The sample type the node is instantiated with. */
    const scalar: Scalar
    /** `_oFs`, the target rate; 0 when the node was built with a factor. */
    const targetRate: real
    /** `_n`, the sub-sampling factor. */
    var n: nat
    /** `_last` and `_left`. */
    var acc: Acc
    /** `_buffer`, the output buffer. */
    var buffer: array<int>

    ghost predicate Valid()
      reads this
    {
      n >= 1
    }

    /** `SubSample(size_t n)`. */
    constructor ByFactor(scalar: Scalar, n: nat)
      requires n >= 1
      ensures Valid() && this.scalar == scalar && targetRate == 0.0
      ensures this.n == n && acc == Acc(0, 0) && fresh(buffer) && buffer.Length == 0
    {
      this.scalar := scalar;
      targetRate := 0.0;
      this.n := n;
      acc := Acc(0, 0);
      buffer := new int[0];
    }

    /** `SubSample(double Fs)`. */
    constructor ByRate(scalar: Scalar, rate: real)
      ensures Valid() && this.scalar == scalar && targetRate == rate
      ensures n == 1 && acc == Acc(0, 0) && fresh(buffer) && buffer.Length == 0
    {
      this.scalar := scalar;
      targetRate := rate;
      n := 1;
      acc := Acc(0, 0);
      buffer := new int[0];
    }

    /** The factor `config` derives from a source rate: the rate ratio
      * truncated, and at least 1. */
    static function Factor(rate: real, target: real): (f: nat)
      requires target > 0.0
      ensures f >= 1
      ensures rate / target >= 1.0 ==> f as real <= rate / target < f as real + 1.0
    {
      if rate / target >= 1.0 then (rate / target).Floor else 1
    }

    /** `config`: ignored without type or buffer size; a type other than
      * the node's is a `ConfigError`. With a target rate the factor follows
      * the source rate. The output buffer holds `ceil(bufferSize / n)`
      * samples, and the node publishes the rate divided by `n` with that
      * buffer size and one buffer. The accumulator is kept. */
    method Configure(c: Config) returns (r: Result<Option<Config>>)
      requires Valid()
      modifies this`n, this`buffer
      ensures Valid()
      ensures !c.HasType() || !c.HasBufferSize() ==>
        r == Ok(None) && n == old(n) && buffer == old(buffer)
      ensures c.HasType() && c.HasBufferSize() && c.sampleType != TypeId(scalar) ==>
        r == Err(ConfigError) && n == old(n) && buffer == old(buffer)
      ensures c.HasType() && c.HasBufferSize() && c.sampleType == TypeId(scalar) ==>
        n == (if targetRate > 0.0 then Factor(c.sampleRate, targetRate) else old(n))
        && fresh(buffer) && buffer.Length == CeilDiv(c.bufferSize, n)
        && r == Ok(Some(Config(c.sampleType, c.sampleRate / (n as real), buffer.Length, 1)))
    {
      if c.sampleType == Undefined || c.bufferSize == 0 {
        return Ok(None);
      }
      if TypeId(scalar) != c.sampleType {
        return Err(ConfigError);
      }
      if targetRate > 0.0 {
        n := Factor(c.sampleRate, targetRate);
      }
      var outSize := c.bufferSize / n;
      if c.bufferSize % n != 0 {
        outSize := outSize + 1;
      }
      buffer := new int[outSize];
      r := Ok(Some(Config(c.sampleType, c.sampleRate / (n as real), outSize, 1)));
    }

    /** One input of `_process`: it is added to the partial sum, and when
      * `n` inputs are in it their average is written at `j`. Stated as the
      * step from the run over `xs[i..]` to the run over `xs[i + 1..]`. */
    method Push(x: int, out: array<int>, j: nat, ghost xs: seq<int>, ghost i: nat, ghost total: Run)
      returns (next: nat)
      requires Valid() && i < |xs| && x == xs[i]
      requires j + |Feed(n, acc, xs[i..]).outs| == |total.outs| <= out.Length
      requires out[..j] + Feed(n, acc, xs[i..]).outs == total.outs
      requires Feed(n, acc, xs[i..]).acc == total.acc
      modifies this`acc, out
      ensures Valid() && next <= j + 1
      ensures next + |Feed(n, acc, xs[i + 1..]).outs| == |total.outs|
      ensures out[..next] + Feed(n, acc, xs[i + 1..]).outs == total.outs
      ensures Feed(n, acc, xs[i + 1..]).acc == total.acc
      ensures forall k :: 0 <= k < out.Length && k != j ==> out[k] == old(out[k])
    {
      FeedStep(n, acc, xs, i);
      ghost var o := Step(n, acc, x);
      ghost var done := out[..j];
      acc := Acc(acc.sum + x, acc.count + 1);
      next := j;
      if n <= acc.count {
        out[j] := TruncDiv(acc.sum, n);
        next := j + 1;
        acc := Acc(0, 0);
        assert out[..next] == done + [out[j]];
      }
      assert out[..next] == done + o.outs && acc == o.acc;
    }

    /** `_process`: the outputs of the run go to the front of `out`, which
      * may be the input itself; the accumulator carries over. */
    method Run(input: array<int>, out: array<int>) returns (sent: seq<int>)
      requires Valid()
      requires |Feed(n, acc, input[..]).outs| <= out.Length
      modifies this`acc, out
      ensures Valid()
      ensures sent == Feed(n, old(acc), old(input[..])).outs
      ensures acc == Feed(n, old(acc), old(input[..])).acc
      ensures out[..|sent|] == sent
    {
      ghost var xs := input[..];
      ghost var total := Feed(n, acc, xs);
      var j := 0;
      var i := 0;
      while i < input.Length
        invariant Valid()
        invariant 0 <= j <= i <= input.Length == |xs|
        invariant forall k :: i <= k < |xs| ==> input[k] == xs[k]
        invariant j + |Feed(n, acc, xs[i..]).outs| == |total.outs| <= out.Length
        invariant out[..j] + Feed(n, acc, xs[i..]).outs == total.outs
        invariant Feed(n, acc, xs[i..]).acc == total.acc
      {
        j := Push(input[i], out, j, xs, i, total);
        i := i + 1;
      }
      assert xs[i..] == [];
      sent := out[..j];
    }

    /** `process`: in place when allowed, into the node's buffer when it is
      * unused, otherwise the input is dropped and nothing changes. */
    method Process(input: array<int>, allow: bool, ownUnused: bool) returns (sent: Option<seq<int>>)
      requires Valid()
      requires !allow && ownUnused ==> |Feed(n, acc, input[..]).outs| <= buffer.Length
      modifies this`acc, input, buffer
      ensures Valid()
      ensures !allow && !ownUnused ==> sent == None && acc == old(acc) && unchanged(input, buffer)
      ensures allow || ownUnused ==>
        (sent == Some(Feed(n, old(acc), old(input[..])).outs)
         && acc == Feed(n, old(acc), old(input[..])).acc)
    {
      if allow {
        var s := Run(input, input);
        sent := Some(s);
      } else if ownUnused {
        var s := Run(input, buffer);
        sent := Some(s);
      } else {
        sent := None;
      }
    }
  }

  /** `FracSubSampleBase`: the period is the fraction times 2^16, and the
    * count grows by 2^16 per input. */
  class FracSubSample {
    /** `_avg`, `_sample_count` and `_period`. */
    var avg: int
    var count: nat
    var period: nat

    ghost predicate Valid()
      reads this
    {
      period >= 0x1_0000 && count % 0x1_0000 == 0 && count < period
    }

    /** The period for a fraction, or a `ConfigError` below 1. */
    static function PeriodOf(frac: real): (r: Result<nat>)
      ensures r.Ok? <==> frac >= 1.0
      ensures r.Ok? ==>
        (r.value >= 0x1_0000 && r.value as real <= frac * 65536.0 < r.value as real + 1.0)
    {
      if frac < 1.0 then Err(ConfigError) else Ok((frac * 65536.0).Floor)
    }

    constructor (period: nat)
      requires period >= 0x1_0000
      ensures Valid() && this.period == period && avg == 0 && count == 0
    {
      avg := 0;
      count := 0;
      this.period := period;
    }

    /** `setFrac`: a fraction below 1 is a `ConfigError` and changes
      * nothing; otherwise the period is replaced and the sum reset. */
    method SetFrac(frac: real) returns (r: Result<nat>)
      requires Valid()
      modifies this
      ensures Valid() && r == PeriodOf(frac)
      ensures r.Err? ==> avg == old(avg) && count == old(count) && period == old(period)
      ensures r.Ok? ==> period == r.value && avg == 0 && count == 0
    {
      r := PeriodOf(frac);
      if r.Ok? {
        period := r.value;
        count := 0;
        avg := 0;
      }
    }

    /** `frac()`. */
    function Frac(): (f: real)
      requires Valid()
      reads this
      ensures f >= 1.0
      ensures f * 65536.0 == period as real
    {
      period as real / 65536.0
    }

    /** `reset`. */
    method Reset()
      requires Valid()
      modifies this`avg, this`count
      ensures Valid() && avg == 0 && count == 0
    {
      avg := 0;
      count := 0;
    }

    /** One input of `subsample`: it is added to the sum, and an output is
      * written at `j` once the count reaches the period. Stated as the step
      * from the run over `xs[i..]` to the run over `xs[i + 1..]`. */
    method Push(x: int, out: array<int>, j: nat, ghost xs: seq<int>, ghost i: nat, ghost total: Run)
      returns (next: nat)
      requires Valid() && i < |xs| && x == xs[i]
      requires j + |FracFeed(period, Acc(avg, count), xs[i..]).outs| == |total.outs| <= out.Length
      requires out[..j] + FracFeed(period, Acc(avg, count), xs[i..]).outs == total.outs
      requires FracFeed(period, Acc(avg, count), xs[i..]).acc == total.acc
      modifies this`avg, this`count, out
      ensures Valid() && next <= j + 1
      ensures next + |FracFeed(period, Acc(avg, count), xs[i + 1..]).outs| == |total.outs|
      ensures out[..next] + FracFeed(period, Acc(avg, count), xs[i + 1..]).outs == total.outs
      ensures FracFeed(period, Acc(avg, count), xs[i + 1..]).acc == total.acc
      ensures forall k :: 0 <= k < out.Length && k != j ==> out[k] == old(out[k])
    {
      FracFeedStep(period, Acc(avg, count), xs, i);
      ghost var o := FracStep(period, Acc(avg, count), x);
      ghost var done := out[..j];
      avg := avg + x;
      count := count + 0x1_0000;
      next := j;
      if count >= period {
        out[j] := TruncDiv(avg, count / 0x1_0000);
        next := j + 1;
        count := 0;
        avg := 0;
        assert out[..next] == done + [out[j]];
      }
      assert out[..next] == done + o.outs && Acc(avg, count) == o.acc;
    }

    /** `subsample`: the outputs go to the front of `out`, which may be the
      * input itself. */
    method Subsample(input: array<int>, out: array<int>) returns (sent: seq<int>)
      requires Valid()
      requires |FracFeed(period, Acc(avg, count), input[..]).outs| <= out.Length
      modifies this`avg, this`count, out
      ensures Valid()
      ensures sent == FracFeed(period, Acc(old(avg), old(count)), old(input[..])).outs
      ensures Acc(avg, count) == FracFeed(period, Acc(old(avg), old(count)), old(input[..])).acc
      ensures out[..|sent|] == sent
    {
      ghost var xs := input[..];
      ghost var total := FracFeed(period, Acc(avg, count), xs);
      var j := 0;
      var i := 0;
      while i < input.Length
        invariant Valid()
        invariant 0 <= j <= i <= input.Length == |xs|
        invariant forall k :: i <= k < |xs| ==> input[k] == xs[k]
        invariant j + |FracFeed(period, Acc(avg, count), xs[i..]).outs| == |total.outs| <= out.Length
        invariant out[..j] + FracFeed(period, Acc(avg, count), xs[i..]).outs == total.outs
        invariant FracFeed(period, Acc(avg, count), xs[i..]).acc == total.acc
      {
        j := Push(input[i], out, j, xs, i, total);
        i := i + 1;
      }
      assert xs[i..] == [];
      sent := out[..j];
    }
  }

  /** The throwing constructor `FracSubSampleBase(frac)`. */
  method NewFracSubSample(frac: real) returns (r: Result<FracSubSample>)
    ensures r.Err? <==> frac < 1.0
    ensures r.Err? ==> r.error == ConfigError
    ensures r.Ok? ==>
      (fresh(r.value) && r.value.Valid() && r.value.period == FracSubSample.PeriodOf(frac).value
       && r.value.avg == 0 && r.value.count == 0)
  {
    var p := FracSubSample.PeriodOf(frac);
    if p.Err? {
      return Err(ConfigError);
    }
    var f := new FracSubSample(p.value);
    r := Ok(f);
  }

  /** The fractional run: the count grows by 2^16 per input, and once it
    * reaches the period the sum is divided by the number of inputs in it. */
  function FracStep(period: nat, a: Acc, x: int): Run
  {
    var s := a.sum + x;
    var c := a.count + 0x1_0000;
    if c >= period then Run([TruncDiv(s, c / 0x1_0000)], Acc(0, 0)) else Run([], Acc(s, c))
  }

  function FracFeed(period: nat, a: Acc, xs: seq<int>): (r: Run)
    ensures |r.outs| <= |xs|
    decreases |xs|
  {
    if xs == [] then Run([], a)
    else
      var first := FracStep(period, a, xs[0]);
      var rest := FracFeed(period, first.acc, xs[1..]);
      Run(first.outs + rest.outs, rest.acc)
  }

  /** One input of the fractional run. */
  lemma FracFeedStep(period: nat, a: Acc, xs: seq<int>, i: nat)
    requires i < |xs|
    ensures var first := FracStep(period, a, xs[i]);
      var rest := FracFeed(period, first.acc, xs[i + 1..]);
      FracFeed(period, a, xs[i..]) == Run(first.outs + rest.outs, rest.acc)
  {
    assert xs[i..][1..] == xs[i + 1..];
  }

  /** Because the count only ever grows in whole units of 2^16, the
    * fractional sub-sampler is the averaging sub-sampler with factor
    * `ceil(period / 2^16)`: the fractional part of the period is lost. */
  lemma {:induction false} FracIsBlockAverage(period: nat, a: Acc, xs: seq<int>)
    requires period >= 1 && a.count % 0x1_0000 == 0 && a.count / 0x1_0000 < CeilDiv(period, 0x1_0000)
    ensures var f := Feed(CeilDiv(period, 0x1_0000), Acc(a.sum, a.count / 0x1_0000), xs);
      FracFeed(period, a, xs) == Run(f.outs, Acc(f.acc.sum, f.acc.count * 0x1_0000))
    decreases |xs|
  {
    var k := CeilDiv(period, 0x1_0000);
    if xs != [] {
      var c := a.count / 0x1_0000 + 1;
      assert a.count + 0x1_0000 == c * 0x1_0000 && (a.count + 0x1_0000) / 0x1_0000 == c;
      CeilReached(period, c);
      var fs := FracStep(period, a, xs[0]);
      var st := Step(k, Acc(a.sum, a.count / 0x1_0000), xs[0]);
      assert FracFeed(period, a, xs) == Run(fs.outs + FracFeed(period, fs.acc, xs[1..]).outs,
                                            FracFeed(period, fs.acc, xs[1..]).acc);
      assert Feed(k, Acc(a.sum, a.count / 0x1_0000), xs) == Run(st.outs + Feed(k, st.acc, xs[1..]).outs,
                                                                Feed(k, st.acc, xs[1..]).acc);
      if c * 0x1_0000 >= period {
        assert fs == Run([TruncDiv(a.sum + xs[0], c)], Acc(0, 0)) && st == fs;
        FracIsBlockAverage(period, Acc(0, 0), xs[1..]);
      } else {
        assert fs == Run([], Acc(a.sum + xs[0], c * 0x1_0000));
        assert st == Run([], Acc(a.sum + xs[0], c));
        FracIsBlockAverage(period, fs.acc, xs[1..]);
      }
    }
  }

  /** `c · 2^16 >= period` exactly when `c >= ceil(period / 2^16)`. */
  lemma CeilReached(period: nat, c: nat)
    requires period >= 1
    ensures CeilDiv(period, 0x1_0000) >= 1
    ensures c * 0x1_0000 >= period <==> c >= CeilDiv(period, 0x1_0000)
  {
  }

  /** Sub-sampling by 2 over [1, 3, 5] emits the average of 1 and 3 and
    * carries the 5. */
  lemma FirstRun(xs: seq<int>)
    requires xs == [1, 3, 5]
    ensures Feed(2, Acc(0, 0), xs) == Run([2], Acc(5, 1))
  {
    assert [5][1..] == [] && [3, 5][1..] == [5] && [1, 3, 5][1..] == [3, 5];
    assert Feed(2, Acc(0, 0), [5]) == Run([], Acc(5, 1));
    assert Feed(2, Acc(1, 1), [3, 5]) == Run([2], Acc(5, 1));
  }

  /** With the 5 carried, [-12, 6, 8] gives -7 / 2, truncated to -3, and 7. */
  lemma SecondRun(xs: seq<int>)
    requires xs == [-12, 6, 8]
    ensures Feed(2, Acc(5, 1), xs) == Run([-3, 7], Acc(0, 0))
  {
    assert [8][1..] == [] && [6, 8][1..] == [8] && [-12, 6, 8][1..] == [6, 8];
    assert Feed(2, Acc(6, 1), [8]) == Run([7], Acc(0, 0));
    assert Feed(2, Acc(0, 0), [6, 8]) == Run([7], Acc(0, 0));
    assert TruncDiv(-7, 2) == -3;
  }

  /** An int16 node sub-sampling by 2 in place, after its first buffer. */
  method FirstBuffer() returns (node: SubSample, first: Option<seq<int>>)
    ensures fresh(node) && fresh(node.buffer) && node.Valid()
    ensures node.n == 2 && node.acc == Acc(5, 1) && first == Some([2])
  {
    node := new SubSample.ByFactor(ScalarInt16, 2);
    var a := new int[3];
    a[0], a[1], a[2] := 1, 3, 5;
    FirstRun(a[..]);
    var out := node.Run(a, a);
    first := Some(out);
  }

  /** The same node over its second buffer. */
  method CarryScenario() returns (first: Option<seq<int>>, second: Option<seq<int>>)
    ensures first == Some([2]) && second == Some([-3, 7])
  {
    var node;
    node, first := FirstBuffer();
    var b := new int[3];
    b[0], b[1], b[2] := -12, 6, 8;
    SecondRun(b[..]);
    var out := node.Run(b, b);
    second := Some(out);
  }
}
