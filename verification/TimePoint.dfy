/**
 TimePoint (src/time/TimePoint.cpp) with 64-bit seconds. A time span is a 64-bit number of nanoseconds.
 */
module TimePoints {

  const NSEC_PER_SEC: int := 1_000_000_000
  const INT64_MAX: int := 0x7FFF_FFFF_FFFF_FFFF
  const INT64_MIN: int := -0x8000_0000_0000_0000

  predicate Int64(v: int) { INT64_MIN <= v <= INT64_MAX }

  datatype Timespec = Timespec(sec: int, nsec: int)

  predicate Normal(t: Timespec) { Int64(t.sec) && 0 <= t.nsec < NSEC_PER_SEC }

  /** Nanoseconds since the epoch. */
  function Total(t: Timespec): int { t.sec * NSEC_PER_SEC + t.nsec }

  /** Whether a number of nanoseconds can be represented as a normalised time. */
  predicate Representable(total: int)
  {
    INT64_MIN * NSEC_PER_SEC <= total < (INT64_MAX + 1) * NSEC_PER_SEC
  }

  lemma NormalTotal(t: Timespec)
    requires Normal(t)
    ensures Representable(Total(t))
  {
  }

  lemma TotalInjective(a: Timespec, b: Timespec)
    requires 0 <= a.nsec < NSEC_PER_SEC && 0 <= b.nsec < NSEC_PER_SEC && Total(a) == Total(b)
    ensures a == b
  {
  }

  // ---------------------------------------------------------------- C++ operators

  /** Division and remainder truncate towards zero. */
  function Quot(a: int, b: int): int
    requires b > 0
  {
    if a >= 0 then a / b else -((-a) / b)
  }

  function Rem(a: int, b: int): int
    requires b > 0
  {
    a - Quot(a, b) * b
  }

  lemma QuotRem(v: int)
    ensures var s, n := Quot(v, NSEC_PER_SEC), Rem(v, NSEC_PER_SEC);
            && v == s * NSEC_PER_SEC + n
            && (v >= 0 ==> s >= 0 && 0 <= n < NSEC_PER_SEC)
            && (v < 0 ==> s <= 0 && -NSEC_PER_SEC < n <= 0)
  {
  }

  datatype Sum = Fits(value: int) | Overflow

  function OverflowAwareAdd(a: int, b: int): Sum { if Int64(a + b) then Fits(a + b) else Overflow }

  function OverflowAwareSub(a: int, b: int): Sum { if Int64(a - b) then Fits(a - b) else Overflow }

  // ---------------------------------------------------------------- normalisation

  datatype Result = Ok(ts: Timespec) | OverflowError

  /** NormalizeTimespec; `left` is what an exception leaves behind. */
  method NormalizeTimespec(ts: Timespec) returns (r: Result, left: Timespec)
    requires Int64(ts.sec) && Int64(ts.nsec)
    ensures r.Ok? <==> Representable(Total(ts))
    ensures r.Ok? ==> Normal(r.ts) && Total(r.ts) == Total(ts) && left == r.ts
    ensures Normal(left)
  {
    var sec, nsec := ts.sec, ts.nsec;
    if nsec < 0 {
      while nsec < 0
        invariant Int64(sec) && nsec < NSEC_PER_SEC && Total(Timespec(sec, nsec)) == Total(ts)
        decreases -nsec
      {
        nsec := nsec + NSEC_PER_SEC;
        if sec == INT64_MIN {
          // what is left behind must still be normalised
          return OverflowError, Timespec(sec, 0);
        }
        sec := sec - 1;
      }
    } else {
      while nsec >= NSEC_PER_SEC
        invariant Int64(sec) && nsec >= 0 && Total(Timespec(sec, nsec)) == Total(ts)
        decreases nsec
      {
        nsec := nsec - NSEC_PER_SEC;
        if sec == INT64_MAX {
          // what is left behind must still be normalised
          return OverflowError, Timespec(sec, 0);
        }
        sec := sec + 1;
      }
    }
    r := Ok(Timespec(sec, nsec));
    left := Timespec(sec, nsec);
    NormalTotal(left);
  }

  class TimePoint {
    var ts: Timespec

    ghost predicate Valid()
      reads this
    {
      Normal(ts)
    }

    constructor ()
      ensures Valid() && Total(ts) == 0
    {
      ts := Timespec(0, 0);
    }

    /** Set, and the constructors and assignments that take seconds and nanoseconds. */
    method Set(sec: int, nsec: int) returns (r: Result)
      requires Valid() && Int64(sec) && Int64(nsec)
      modifies this
      ensures Valid()
      ensures r.Ok? <==> Representable(Total(Timespec(sec, nsec)))
      ensures if r.Ok? then Total(ts) == Total(Timespec(sec, nsec)) else ts == old(ts)
    {
      var left;
      r, left := NormalizeTimespec(Timespec(sec, nsec));
      if r.Ok? { ts := r.ts; }
    }

    /** operator+. */
    method Plus(span: int) returns (r: Result)
      requires Valid() && Int64(span)
      ensures r.Ok? <==> Representable(Total(ts) + span)
      ensures r.Ok? ==> Normal(r.ts) && Total(r.ts) == Total(ts) + span
    {
      QuotRem(span);
      var span_sec, span_nsec := Quot(span, NSEC_PER_SEC), Rem(span, NSEC_PER_SEC);
      var s := OverflowAwareAdd(ts.sec, span_sec);
      if s.Overflow? { return OverflowError; }
      var left;
      r, left := NormalizeTimespec(Timespec(s.value, ts.nsec + span_nsec));
    }

    /** operator- for a time span. */
    method Minus(span: int) returns (r: Result)
      requires Valid() && Int64(span)
      ensures r.Ok? <==> Representable(Total(ts) - span)
      ensures r.Ok? ==> Normal(r.ts) && Total(r.ts) == Total(ts) - span
    {
      QuotRem(span);
      var span_sec, span_nsec := Quot(span, NSEC_PER_SEC), Rem(span, NSEC_PER_SEC);
      var s := OverflowAwareSub(ts.sec, span_sec);
      if s.Overflow? { return OverflowError; }
      var left;
      r, left := NormalizeTimespec(Timespec(s.value, ts.nsec - span_nsec));
    }

    /** operator+=. */
    method AddAssign(span: int) returns (r: Result)
      requires Valid() && Int64(span)
      modifies this
      ensures Valid()
      ensures r.Ok? <==> Representable(old(Total(ts)) + span)
      ensures if r.Ok? then Total(ts) == old(Total(ts)) + span else ts == old(ts)
    {
      QuotRem(span);
      var span_sec, span_nsec := Quot(span, NSEC_PER_SEC), Rem(span, NSEC_PER_SEC);
      var s := OverflowAwareAdd(ts.sec, span_sec);
      if s.Overflow? { return OverflowError; }
      var left;
      r, left := NormalizeTimespec(Timespec(s.value, ts.nsec + span_nsec));
      if r.Ok? { ts := r.ts; }
    }

    /** operator-=. */
    method SubAssign(span: int) returns (r: Result)
      requires Valid() && Int64(span)
      modifies this
      ensures Valid()
      ensures r.Ok? <==> Representable(old(Total(ts)) - span)
      ensures if r.Ok? then Total(ts) == old(Total(ts)) - span else ts == old(ts)
    {
      QuotRem(span);
      var span_sec, span_nsec := Quot(span, NSEC_PER_SEC), Rem(span, NSEC_PER_SEC);
      var s := OverflowAwareSub(ts.sec, span_sec);
      if s.Overflow? { return OverflowError; }
      var left;
      r, left := NormalizeTimespec(Timespec(s.value, ts.nsec - span_nsec));
      if r.Ok? { ts := r.ts; }
    }

    /** operator- for a time point: exact where it returns; it returns if the seconds differ by at most MAX_DSEC. */
    method Difference(rhv: TimePoint) returns (d: Sum)
      requires Valid() && rhv.Valid()
      ensures d.Fits? <==> -MAX_DSEC <= ts.sec - rhv.ts.sec <= MAX_DSEC
      ensures d.Fits? ==> Int64(d.value) && d.value == Total(ts) - Total(rhv.ts)
    {
      var s := OverflowAwareSub(ts.sec, rhv.ts.sec);
      if s.Overflow? { return Overflow; }
      var dsec := s.value;
      // refuses a little too much
      if dsec > Quot(INT64_MAX, NSEC_PER_SEC) - 1 || dsec < Quot(INT64_MIN, NSEC_PER_SEC) + 1 { return Overflow; }
      var dnsec := ts.nsec - rhv.ts.nsec;
      return Fits(dsec * NSEC_PER_SEC + dnsec);
    }

    /** The comparisons order by total nanoseconds. */
    method Compare(rhv: TimePoint) returns (lt: bool, le: bool, gt: bool, ge: bool, eq: bool, ne: bool)
      requires Valid() && rhv.Valid()
      ensures lt == (Total(ts) < Total(rhv.ts)) && le == (Total(ts) <= Total(rhv.ts))
      ensures gt == (Total(ts) > Total(rhv.ts)) && ge == (Total(ts) >= Total(rhv.ts))
      ensures eq == (Total(ts) == Total(rhv.ts)) && ne == (Total(ts) != Total(rhv.ts))
    {
      lt := ts.sec < rhv.ts.sec || (ts.sec == rhv.ts.sec && ts.nsec < rhv.ts.nsec);
      le := ts.sec < rhv.ts.sec || (ts.sec == rhv.ts.sec && ts.nsec <= rhv.ts.nsec);
      gt := ts.sec > rhv.ts.sec || (ts.sec == rhv.ts.sec && ts.nsec > rhv.ts.nsec);
      ge := ts.sec > rhv.ts.sec || (ts.sec == rhv.ts.sec && ts.nsec >= rhv.ts.nsec);
      eq := ts.sec == rhv.ts.sec && ts.nsec == rhv.ts.nsec;
      ne := ts.sec != rhv.ts.sec || ts.nsec != rhv.ts.nsec;
    }
  }

  const MAX_DSEC: int := 9_223_372_035

  /** A difference that is refused although a time span could hold it: just over MAX_DSEC seconds. */
  lemma RefusedDifference()
    ensures var a, b := Timespec(MAX_DSEC + 1, 0), Timespec(0, 0);
            Normal(a) && Normal(b) && Int64(Total(a) - Total(b)) && a.sec - b.sec > MAX_DSEC
  {
  }

  /** b + (a - b) is a, for every difference that is returned. */
  method Roundtrip(a: TimePoint, b: TimePoint) returns (d: Sum, r: Result)
    requires a.Valid() && b.Valid()
    ensures d.Fits? <==> -MAX_DSEC <= a.ts.sec - b.ts.sec <= MAX_DSEC
    ensures d.Fits? ==> r == Ok(a.ts)
  {
    r := OverflowError;
    d := a.Difference(b);
    if d.Fits? {
      r := b.Plus(d.value);
      NormalTotal(a.ts);
      TotalInjective(r.ts, a.ts);
    }
  }

  /** Adding a span and subtracting it again leads back, whenever the sum exists. */
  method ThereAndBack(t: TimePoint, span: int) returns (r1: Result, r2: Result)
    requires t.Valid() && Int64(span)
    modifies t
    ensures t.Valid() && t.ts == old(t.ts)
    ensures r1.Ok? <==> Representable(Total(t.ts) + span)
    ensures r1.Ok? ==> r2.Ok?
  {
    r2 := OverflowError;
    NormalTotal(t.ts);
    r1 := t.AddAssign(span);
    if r1.Ok? {
      r2 := t.SubAssign(span);
      TotalInjective(t.ts, old(t.ts));
    }
  }
}
