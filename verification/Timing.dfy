/** Timestamp unwrapping and exact frame deadlines. */
module Timing {
  import opened Wire

  // ---------------------------------------------------------------- 32-bit timestamps

  datatype Unwrapper = Unwrapper(last: Option<U32>, unwrapped: int)

  const FRESH := Unwrapper(None, 0)

  /** Signed distance between two 32-bit timestamps. */
  function TickDelta(a: U32, b: U32): (d: int)
    ensures -0x8000_0000 <= d < 0x8000_0000 && (b + d) % 0x1_0000_0000 == a
  {
    var raw := (a - b) % 0x1_0000_0000;
    if raw <= 0x7fff_ffff then raw else raw - 0x1_0000_0000
  }

  function Unwrapped(u: Unwrapper, v: U32): Unwrapper {
    match u.last
    case None => Unwrapper(Some(v), v)
    case Some(last) => Unwrapper(Some(v), u.unwrapped + TickDelta(v, last))
  }

  class TimestampUnwrapper32 {
    var last: Option<U32>
    var unwrapped: int

    function Snapshot(): Unwrapper
      reads this
    {
      Unwrapper(last, unwrapped)
    }

    constructor ()
      ensures Snapshot() == FRESH
    {
      last, unwrapped := None, 0;
    }

    method Unwrap(v: U32) returns (r: int)
      modifies this
      ensures Snapshot() == Unwrapped(old(Snapshot()), v) && r == Snapshot().unwrapped
    {
      if last.None? {
        unwrapped := v;
      } else {
        unwrapped := unwrapped + TickDelta(v, last.value);
      }
      last := Some(v);
      r := unwrapped;
    }

    method Reset()
      modifies this
      ensures Snapshot() == FRESH
    {
      last, unwrapped := None, 0;
    }
  }

  function UnwrapAll(ts: seq<int>): Unwrapper {
    if ts == [] then FRESH else Unwrapped(UnwrapAll(ts[..|ts| - 1]), ts[|ts| - 1] % 0x1_0000_0000)
  }

  /** Consecutive times less than 2^31 ticks apart, in either direction. */
  ghost predicate Steady(ts: seq<int>) {
    forall i :: 0 < i < |ts| ==> -0x8000_0000 <= ts[i] - ts[i - 1] < 0x8000_0000
  }

  /** Unwrapping the low 32 bits of steady times gives the times back, up to the multiple of 2^32 in the first. */
  lemma {:induction false} UnwrapTracks(ts: seq<int>)
    requires ts != [] && Steady(ts)
    ensures UnwrapAll(ts).last == Some(ts[|ts| - 1] % 0x1_0000_0000)
    ensures UnwrapAll(ts).unwrapped == ts[|ts| - 1] - (ts[0] - ts[0] % 0x1_0000_0000)
  {
    if |ts| > 1 {
      var init := ts[..|ts| - 1];
      UnwrapTracks(init);
      DeltaOfTimes(ts[|ts| - 1], init[|init| - 1]);
    } else {
      assert ts[..0] == [];
    }
  }

  lemma DeltaOfTimes(a: int, b: int)
    requires -0x8000_0000 <= a - b < 0x8000_0000
    ensures TickDelta(a % 0x1_0000_0000, b % 0x1_0000_0000) == a - b
  {
  }

  // ---------------------------------------------------------------- ticks to microseconds

  const I64_MAX: int := 0x7fff_ffff_ffff_ffff
  const I64_MIN: int := -0x8000_0000_0000_0000
  const MICRO: int := 1_000_000

  /** None for a zero rate, or when the time does not fit 64 bits. */
  function TicksToMicroseconds(ticks: int, rate: U32): Option<int> {
    if rate == 0 then None
    else
      var whole := TruncDiv(ticks, rate);
      var remainder := ticks - whole * rate;
      if whole > TruncDiv(I64_MAX, MICRO) || whole < TruncDiv(I64_MIN, MICRO) then None
      else
        var a, b := whole * MICRO, TruncDiv(remainder * MICRO, rate);
        if (b > 0 && a > I64_MAX - b) || (b < 0 && a < I64_MIN - b) then None else Some(a + b)
  }

  lemma TruncSplit(ticks: int, rate: int)
    requires rate > 0
    ensures var whole := TruncDiv(ticks, rate);
            var b := TruncDiv((ticks - whole * rate) * MICRO, rate);
            && TruncDiv(ticks * MICRO, rate) == whole * MICRO + b
            && (ticks >= 0 ==> whole >= 0 && b >= 0) && (ticks <= 0 ==> whole <= 0 && b <= 0)
  {
    var n := if ticks >= 0 then ticks else -ticks;
    PositiveSplit(n, rate);
    RemainderIs(n, rate);
    var q := n / rate;
    if ticks < 0 { assert TruncDiv(ticks, rate) == -q && ticks - -q * rate == -(n - q * rate); }
  }

  lemma RemainderIs(n: nat, rate: int)
    requires rate > 0
    ensures n / rate >= 0 && 0 <= n - n / rate * rate < rate
    ensures (n - n / rate * rate) * MICRO / rate >= 0
  {
    assert n == n / rate * rate + n % rate;
  }

  lemma PositiveSplit(n: nat, rate: int)
    requires rate > 0
    ensures n * MICRO / rate == n / rate * MICRO + (n - n / rate * rate) * MICRO / rate
  {
    var q := n / rate;
    var rest := (n - q * rate) * MICRO;
    var k := rest / rate;
    assert rest == k * rate + rest % rate;
    assert (q * MICRO + k) * rate == q * rate * MICRO + k * rate;
    Quotient(q * MICRO + k, rest % rate, rate, n * MICRO);
  }

  /** Splitting off whole seconds loses nothing: the result is the product over the rate, rounded towards zero, and the
      conversion fails exactly when that does not fit 64 bits. */
  lemma ConversionIsExact(ticks: int, rate: U32)
    requires rate > 0
    ensures var exact := TruncDiv(ticks * MICRO, rate);
            TicksToMicroseconds(ticks, rate) == if I64_MIN <= exact <= I64_MAX then Some(exact) else None
  {
    hide TruncDiv;
    TruncSplit(ticks, rate);
    WholeLimits();
  }

  lemma WholeLimits()
    ensures TruncDiv(I64_MAX, MICRO) == 9_223_372_036_854 && TruncDiv(I64_MIN, MICRO) == -9_223_372_036_854
  {
  }

  // ---------------------------------------------------------------- frame deadlines

  const U64_MAX: int := 0xffff_ffff_ffff_ffff
  const NS_PER_S: int := 1_000_000_000

  predicate AcceptedRate(numerator: int, denominator: int) {
    0 < numerator <= 1_000_000 && 0 < denominator <= 1_000_000
  }

  /** The deadline of frame `i`. */
  function Deadline(epoch: int, numerator: int, denominator: int, i: nat): int
    requires AcceptedRate(numerator, denominator)
  {
    epoch + (i * (NS_PER_S * denominator)) / numerator
  }

  class RationalPacer {
    const numerator: int
    ghost const denominator: int
    ghost const epoch: int
    var deadline: int
    var whole: int
    var fraction: int
    var remainder: int

    /** The state after `i` deadlines were handed out. */
    ghost predicate Valid(i: nat)
      reads this
    {
      && AcceptedRate(numerator, denominator)
      && 0 <= remainder < numerator && 0 <= fraction < numerator
      && whole * numerator + fraction == NS_PER_S * denominator
      && (deadline - epoch) * numerator + remainder == i * (NS_PER_S * denominator)
    }

    constructor (numerator: int, denominator: int, epochNs: int)
      requires AcceptedRate(numerator, denominator)
      ensures Valid(0) && epoch == epochNs
      ensures this.numerator == numerator && this.denominator == denominator
    {
      this.numerator, this.denominator, this.epoch := numerator, denominator, epochNs;
      deadline := epochNs;
      var period := NS_PER_S * denominator;
      whole, fraction, remainder := period / numerator, period % numerator, 0;
    }

    /** None when the rate is not accepted. */
    static method Make(numerator: int, denominator: int, epochNs: int) returns (r: Option<RationalPacer>)
      ensures r.Some? <==> AcceptedRate(numerator, denominator)
      ensures r.Some? ==> fresh(r.value) && r.value.Valid(0) && r.value.epoch == epochNs
                          && r.value.numerator == numerator && r.value.denominator == denominator
    {
      if !AcceptedRate(numerator, denominator) { return None; }
      var p := new RationalPacer(numerator, denominator, epochNs);
      return Some(p);
    }

    /** None when the following deadline would not fit 64 bits; nothing changes then. */
    method Next(ghost i: nat) returns (r: Option<int>)
      requires Valid(i)
      modifies this
      ensures r.Some? <==> Deadline(epoch, numerator, denominator, i + 1) <= U64_MAX
      ensures r.Some? ==> r.value == Deadline(epoch, numerator, denominator, i) && Valid(i + 1)
      ensures r.None? ==> Valid(i)
    {
      var sum := remainder + fraction;
      var step := whole + sum / numerator;
      Quotient(deadline - epoch, remainder, numerator, i * (NS_PER_S * denominator));
      NextSum(i, numerator, denominator, deadline - epoch, remainder, whole, fraction);
      if deadline > U64_MAX - step { return None; }
      r := Some(deadline);
      deadline := deadline + step;
      remainder := sum % numerator;
    }
  }

  lemma Quotient(q: int, r: int, d: int, n: int)
    requires 0 <= r < d && q * d + r == n
    ensures n / d == q && n % d == r
  {
    var k := n / d - q;
    assert k * d == r - n % d;
    assert k >= 1 ==> k * d >= d;
    assert k <= -1 ==> k * d <= -d;
  }

  /** One step of the running division: quotient and remainder of the next multiple of the period. */
  lemma NextSum(i: nat, n: int, m: int, q: int, r: int, whole: int, fraction: int)
    requires AcceptedRate(n, m) && 0 <= r < n && 0 <= fraction < n
    requires whole * n + fraction == NS_PER_S * m && q * n + r == i * (NS_PER_S * m)
    ensures var sum := r + fraction;
            && (q + whole + sum / n) * n + sum % n == (i + 1) * (NS_PER_S * m)
            && ((i + 1) * (NS_PER_S * m)) / n == q + whole + sum / n
  {
    var sum, period := r + fraction, NS_PER_S * m;
    var a := sum / n;
    assert a * n + sum % n == sum;
    assert (q + whole + a) * n == q * n + whole * n + a * n;
    assert (i + 1) * period == i * period + period;
    Quotient(q + whole + a, sum % n, n, (i + 1) * period);
  }
}
