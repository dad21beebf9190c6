/** internal/daemon/supervisor.go:267-307: waiting for a tunnel to become healthy. */
module Waiting {
  import opened Basics
  import opened Proto
  import opened Durations
  import opened Processes

  const DEFAULT_WAIT_TIMEOUT: int := 30 * SECOND
  const TICK: int := SECOND / 2

  /** What one tick of the loop observes: the clock and the tunnel's status. */
  datatype Tick = Tick(now: int, status: Status)

  datatype Outcome = NotFound | Healthy | TunnelFailed | TimedOut(status: Status) | StillWaiting

  function Deadline(start: int, timeout: int): int {
    start + if timeout == 0 then DEFAULT_WAIT_TIMEOUT else timeout
  }

  /** The tick ends the wait, one way or another. */
  predicate Ends(spec: TunnelSpec, deadline: int, t: Tick) {
    t.status.Running? || (t.status.Failed? && NeverRestarts(spec)) || t.now > deadline
  }

  /** The first tick that ends the wait, if any. */
  ghost predicate EndsFirstAt(spec: TunnelSpec, deadline: int, ticks: seq<Tick>, i: nat) {
    i < |ticks| && Ends(spec, deadline, ticks[i]) && forall j :: 0 <= j < i ==> !Ends(spec, deadline, ticks[j])
  }

  /**
   * WaitHealthy without cancellation, over the ticks that occur; `used` counts the ticks consumed and
   * StillWaiting means that none of them ended the wait.
   */
  method WaitHealthy(p: Option<Proc>, timeout: int, start: int, ticks: seq<Tick>) returns (r: Outcome, used: nat)
    ensures r.NotFound? <==> p.None?
    ensures used <= |ticks|
    ensures r.Healthy? <==>
      p.Some? && (p.value.status.Running? || (used > 0 && ticks[used - 1].status.Running?))
    ensures p.Some? && p.value.status.Running? ==> used == 0
    ensures p.Some? && !p.value.status.Running? ==>
      if r.StillWaiting?
      then used == |ticks| && forall j :: 0 <= j < |ticks| ==> !Ends(p.value.spec, Deadline(start, timeout), ticks[j])
      else used > 0 && EndsFirstAt(p.value.spec, Deadline(start, timeout), ticks, used - 1)
    ensures p.Some? && !p.value.status.Running? ==>
      var deadline := start + if timeout == 0 then 30_000_000_000 else timeout;
      var hopeless := p.value.spec.restart.None? || p.value.spec.restart.value.policy == "never";
      && (r.TunnelFailed? <==> used > 0 && ticks[used - 1].status.Failed? && hopeless)
      && (r.TimedOut? ==> ticks[used - 1].now > deadline)
      && forall j :: 0 <= j < used - (if r.StillWaiting? then 0 else 1) ==>
           !ticks[j].status.Running? && !(ticks[j].status.Failed? && hopeless) && ticks[j].now <= deadline
    ensures r.TunnelFailed? ==> used > 0 && ticks[used - 1].status.Failed? && NeverRestarts(p.value.spec)
    ensures r.TimedOut? ==>
      used > 0 && r.status == ticks[used - 1].status && ticks[used - 1].now > Deadline(start, timeout)
      && !(r.status.Failed? && NeverRestarts(p.value.spec))
  {
    used := 0;
    if p.None? {
      return NotFound, 0;
    }
    if p.value.status.Running? {
      return Healthy, 0;
    }
    var t := timeout;
    if t == 0 {
      t := DEFAULT_WAIT_TIMEOUT;
    }
    var deadline := start + t;
    while used < |ticks|
      invariant used <= |ticks|
      invariant forall j :: 0 <= j < used ==> !Ends(p.value.spec, deadline, ticks[j])
    {
      var tick := ticks[used];
      used := used + 1;
      if tick.status.Running? {
        return Healthy, used;
      }
      if tick.status.Failed? {
        var policy := p.value.spec.restart;
        if policy.None? || policy.value.policy == "never" {
          return TunnelFailed, used;
        }
      }
      if tick.now > deadline {
        return TimedOut(tick.status), used;
      }
    }
    r := StillWaiting;
  }

  /** The number of ticks after which a wait must have ended. */
  function TickLimit(timeout: int): (n: nat) {
    var t := if timeout == 0 then DEFAULT_WAIT_TIMEOUT else timeout;
    if t < 0 then 1 else t / TICK + 1
  }

  /** In seconds: sixty-one ticks by default, two a second and one more otherwise. */
  lemma TickLimitExactly(timeout: int)
    ensures TickLimit(timeout) ==
      if timeout == 0 then 61 else if timeout < 0 then 1 else timeout / 500_000_000 + 1
  {
  }

  function ClockBefore(start: int, ticks: seq<Tick>, j: nat): int
    requires j < |ticks|
  {
    if j == 0 then start else ticks[j - 1].now
  }

  /** Ticks come at least half a second after one another and after the start. */
  ghost predicate Spaced(start: int, ticks: seq<Tick>) {
    forall j :: 0 <= j < |ticks| ==> ticks[j].now >= ClockBefore(start, ticks, j) + TICK
  }

  /** With ticks at least half a second apart, the wait ends within TickLimit ticks. */
  lemma EndsInTime(spec: TunnelSpec, timeout: int, start: int, ticks: seq<Tick>) returns (i: nat)
    requires Spaced(start, ticks)
    requires |ticks| >= TickLimit(timeout)
    ensures i < TickLimit(timeout) && EndsFirstAt(spec, Deadline(start, timeout), ticks, i)
  {
    var deadline := Deadline(start, timeout);
    var last := TickLimit(timeout) - 1;
    ClockAdvances(start, ticks, last);
    assert Ends(spec, deadline, ticks[last]);
    i := 0;
    while !Ends(spec, deadline, ticks[i])
      invariant i <= last && forall j :: 0 <= j < i ==> !Ends(spec, deadline, ticks[j])
      decreases last - i
    {
      i := i + 1;
    }
  }

  lemma {:induction false} ClockAdvances(start: int, ticks: seq<Tick>, k: nat)
    requires k < |ticks|
    requires Spaced(start, ticks)
    ensures ticks[k].now >= start + TICK * (k + 1)
  {
    assert ticks[k].now >= ClockBefore(start, ticks, k) + TICK;
    if k > 0 { ClockAdvances(start, ticks, k - 1); }
  }

  /** Which outcome a wait has is decided by its first ending tick alone, a Running one counting before the deadline. */
  lemma RunningWins(spec: TunnelSpec, deadline: int, ticks: seq<Tick>, i: nat, k: nat)
    requires EndsFirstAt(spec, deadline, ticks, i)
    requires k < |ticks| && ticks[k].status.Running? && forall j :: 0 <= j < k ==> ticks[j].now <= deadline
    requires !NeverRestarts(spec)
    ensures ticks[i].status.Running? && i <= k
  {
    assert Ends(spec, deadline, ticks[k]);
  }
}
