/** durationpb's conversions between protobuf durations and Go's int64 nanoseconds. */
module Durations {
  import opened Basics
  import opened Proto

  const SECOND: int := 1_000_000_000

  predicate IsInt64(x: int) {
    -TWO_63 <= x < TWO_63
  }

  function Saturate(x: int): (r: int)
    ensures IsInt64(r) && (IsInt64(x) ==> r == x)
  {
    if x < -TWO_63 then -TWO_63 else if x >= TWO_63 then TWO_63 - 1 else x
  }

  /** (*durationpb.Duration).AsDuration: absent is zero, overflow saturates toward the seconds' sign. */
  function AsDuration(d: Option<Duration>): (r: int)
    ensures IsInt64(r)
  {
    match d
    case None => 0
    case Some(Duration(s, n)) => Saturate(Saturate(s * SECOND) + if IsInt64(s * SECOND) then n else 0)
  }

  /** durationpb.New */
  function NewDuration(ns: int): Duration {
    var s := QuoTrunc(ns, SECOND);
    Duration(s, ns - s * SECOND)
  }

  /** The form durationpb.New produces: sub-second nanos of the seconds' sign, total within int64. */
  predicate Normalised(d: Duration) {
    && -SECOND < d.nanos < SECOND
    && (d.seconds > 0 ==> d.nanos >= 0) && (d.seconds < 0 ==> d.nanos <= 0)
    && IsInt64(d.seconds * SECOND + d.nanos)
  }

  /** Nanoseconds: what a wire duration stands for, and which end of int64 an overflow goes to. */
  lemma AsDurationExactly(d: Duration)
    requires -1_000_000_000 < d.nanos < 1_000_000_000
    ensures var ns, limit := d.seconds * 1_000_000_000 + d.nanos, 0x8000_0000_0000_0000;
      && (-limit <= ns < limit && -limit <= d.seconds * 1_000_000_000 < limit ==> AsDuration(Some(d)) == ns)
      && (d.seconds * 1_000_000_000 >= limit || (ns >= limit && d.seconds > 0) ==> AsDuration(Some(d)) == limit - 1)
      && (d.seconds * 1_000_000_000 < -limit || (ns < -limit && d.seconds < 0) ==> AsDuration(Some(d)) == -limit)
  {
  }

  lemma DurationRoundTrip(ns: int)
    requires IsInt64(ns)
    ensures Normalised(NewDuration(ns)) && AsDuration(Some(NewDuration(ns))) == ns
  {
    var d := NewDuration(ns);
    assert d.seconds * SECOND + d.nanos == ns;
    assert IsInt64(d.seconds * SECOND);
  }

  lemma ProtoRoundTrip(d: Duration)
    requires Normalised(d)
    ensures NewDuration(AsDuration(Some(d))) == d
  {
    var ns := d.seconds * SECOND + d.nanos;
    assert IsInt64(d.seconds * SECOND);
    assert AsDuration(Some(d)) == ns;
    var q := QuoTrunc(ns, SECOND);
    assert (d.seconds - q) * SECOND < SECOND && (d.seconds - q) * SECOND > -SECOND;
  }
}
