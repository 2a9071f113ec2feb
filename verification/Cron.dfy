/** Maintenance windows (internal/controller/cron.go). The cron library is an oracle over a set of ticks. */
module Cron {
  import opened Basics
  import opened PolicyTypes

  const REQUEUE_JITTER := 5

  datatype WindowResult = WindowResult(inWindow: bool, nextOpen: Time, windowEnd: Time)

  datatype Evaluation = Evaluated(window: WindowResult) | InvalidCron | NoNextTick

  function WindowSeconds(timeoutMinutes: int): int {
    timeoutMinutes * 60
  }

  /** Where the window stands at `now`, from the oracle's two answers. */
  function Evaluate(cronValid: bool, prevTick: Option<Time>, nextTick: Option<Time>,
                    timeoutMinutes: int, now: Time): Evaluation
  {
    var duration := WindowSeconds(timeoutMinutes);
    if !cronValid then InvalidCron
    else if prevTick.Some? && now < prevTick.value + duration then
      Evaluated(WindowResult(true, prevTick.value, prevTick.value + duration))
    else if nextTick.None? then NoNextTick
    else Evaluated(WindowResult(false, nextTick.value, nextTick.value + duration))
  }

  /** Seconds to the next wake-up. */
  function RequeueAfter(result: WindowResult, now: Time): int {
    var remaining := if result.inWindow then result.windowEnd - now else result.nextOpen - now;
    if remaining < 0 then REQUEUE_JITTER else remaining + REQUEUE_JITTER
  }

  // ---------------------------------------------------------------- the oracle

  ghost predicate IsLatestTick(ticks: iset<Time>, p: Time, now: Time) {
    && p in ticks && p <= now
    && forall t :: t in ticks && t <= now ==> t <= p
  }

  ghost predicate IsNextTick(ticks: iset<Time>, n: Time, now: Time) {
    && n in ticks && now < n
    && forall t :: t in ticks && now < t ==> n <= t
  }

  /** The oracle may fail, but an answer it gives is right. */
  ghost predicate SoundAnswers(ticks: iset<Time>, now: Time, prevTick: Option<Time>, nextTick: Option<Time>) {
    && (prevTick.Some? ==> IsLatestTick(ticks, prevTick.value, now))
    && (nextTick.Some? ==> IsNextTick(ticks, nextTick.value, now))
  }

  /** The oracle answers, rightly, whenever there is an answer. */
  ghost predicate ExactAnswers(ticks: iset<Time>, now: Time, prevTick: Option<Time>, nextTick: Option<Time>) {
    && SoundAnswers(ticks, now, prevTick, nextTick)
    && (prevTick.None? ==> forall t :: t in ticks ==> now < t)
    && (nextTick.None? ==> forall t :: t in ticks ==> t <= now)
  }

  /** Time `now` is inside the opening that tick `p` starts. */
  ghost predicate InOpening(p: Time, timeoutMinutes: int, now: Time) {
    p <= now < p + 60 * timeoutMinutes
  }

  /** Two times belong to the same opening: no tick falls between them. */
  ghost predicate SameOpening(ticks: iset<Time>, a: Time, b: Time) {
    a <= b && forall t :: t in ticks ==> !(a < t <= b)
  }

  /** Looking at the latest tick alone decides membership in any opening, overlapping ones included. */
  lemma EvaluateIsExact(ticks: iset<Time>, prevTick: Option<Time>, nextTick: Option<Time>, timeoutMinutes: int,
                        now: Time)
    requires ExactAnswers(ticks, now, prevTick, nextTick)
    ensures var e := Evaluate(true, prevTick, nextTick, timeoutMinutes, now);
            && ((e.Evaluated? && e.window.inWindow) <==> exists p :: p in ticks && InOpening(p, timeoutMinutes, now))
            && (e.Evaluated? && e.window.inWindow ==> IsLatestTick(ticks, e.window.nextOpen, now))
            && (e.Evaluated? && !e.window.inWindow ==> IsNextTick(ticks, e.window.nextOpen, now))
            && (e.Evaluated? ==> e.window.windowEnd == e.window.nextOpen + 60 * timeoutMinutes)
            && (!e.Evaluated? <==> forall p :: p in ticks ==> p <= now && !InOpening(p, timeoutMinutes, now))
  {
    if p :| p in ticks && InOpening(p, timeoutMinutes, now) {
      assert prevTick.Some? && p <= prevTick.value;
    }
    if nextTick.Some? {
      assert nextTick.value in ticks;
    }
  }

  lemma SameOpeningIffSameTick(ticks: iset<Time>, a: Time, b: Time, p: Time, q: Time)
    requires a <= b && IsLatestTick(ticks, p, a) && IsLatestTick(ticks, q, b)
    ensures SameOpening(ticks, a, b) <==> p == q
  {
    if p == q {
      forall t | t in ticks ensures !(a < t <= b) {}
    } else {
      assert q in ticks && a < q <= b;
    }
  }

  // ---------------------------------------------------------------- the wake-up chain

  /** An idle controller that evaluates the window at `t` wakes up again at `u`. */
  ghost predicate Wakes(ticks: iset<Time>, timeoutMinutes: int, t: Time, u: Time) {
    exists prevTick, nextTick ::
      && ExactAnswers(ticks, t, prevTick, nextTick)
      && Evaluate(true, prevTick, nextTick, timeoutMinutes, t).Evaluated?
      && u == t + RequeueAfter(Evaluate(true, prevTick, nextTick, timeoutMinutes, t).window, t)
  }

  ghost predicate IsWakeUpChain(ticks: iset<Time>, timeoutMinutes: int, chain: seq<Time>) {
    forall i :: 0 <= i < |chain| - 1 ==> Wakes(ticks, timeoutMinutes, chain[i], chain[i + 1])
  }

  /** Openings may overlap; they only have to start more than `gap` seconds apart. Ticks of a
      five-field cron expression are at least a minute apart. */
  ghost predicate Spaced(ticks: iset<Time>, gap: int) {
    forall s, t :: s in ticks && t in ticks && s < t ==> s + gap < t
  }

  lemma WakeUpAdvances(ticks: iset<Time>, timeoutMinutes: int, t: Time, u: Time)
    requires Wakes(ticks, timeoutMinutes, t, u)
    ensures t + REQUEUE_JITTER <= u
  {
  }

  /** A wake-up computed before an opening, even one that comes `delay` seconds late, is never past the
      end of that opening. */
  lemma RequeueDoesNotOvershoot(ticks: iset<Time>, timeoutMinutes: int, now: Time,
                                prevTick: Option<Time>, nextTick: Option<Time>, q: Time, delay: nat)
    requires SoundAnswers(ticks, now, prevTick, nextTick) && Spaced(ticks, REQUEUE_JITTER + delay)
    requires Evaluate(true, prevTick, nextTick, timeoutMinutes, now).Evaluated?
    requires WindowSeconds(timeoutMinutes) > REQUEUE_JITTER + delay
    requires q in ticks && now < q
    ensures now + RequeueAfter(Evaluate(true, prevTick, nextTick, timeoutMinutes, now).window, now) + delay
            < q + WindowSeconds(timeoutMinutes)
  {
    if Evaluate(true, prevTick, nextTick, timeoutMinutes, now).window.inWindow {
      assert prevTick.value in ticks && prevTick.value < q;
    }
  }

  /** A wake-up from before an opening never jumps past the end of that opening. */
  lemma WakeUpDoesNotOvershoot(ticks: iset<Time>, timeoutMinutes: int, t: Time, u: Time, q: Time)
    requires Wakes(ticks, timeoutMinutes, t, u) && Spaced(ticks, REQUEUE_JITTER)
    requires WindowSeconds(timeoutMinutes) > REQUEUE_JITTER
    requires q in ticks && t < q
    ensures u < q + WindowSeconds(timeoutMinutes)
  {
    var prevTick, nextTick :|
      && ExactAnswers(ticks, t, prevTick, nextTick)
      && Evaluate(true, prevTick, nextTick, timeoutMinutes, t).Evaluated?
      && u == t + RequeueAfter(Evaluate(true, prevTick, nextTick, timeoutMinutes, t).window, t);
    RequeueDoesNotOvershoot(ticks, timeoutMinutes, t, prevTick, nextTick, q, 0);
  }

  /** No opening is slept through: any chain of on-time wake-ups that is long enough to get
      past the start of an opening has a wake-up inside it. */
  lemma {:induction false} EveryOpeningIsVisited(ticks: iset<Time>, timeoutMinutes: int, chain: seq<Time>,
                                                 q: Time) returns (n: nat)
    requires IsWakeUpChain(ticks, timeoutMinutes, chain) && Spaced(ticks, REQUEUE_JITTER)
    requires WindowSeconds(timeoutMinutes) > REQUEUE_JITTER
    requires q in ticks && |chain| > 0 && chain[0] < q
    requires chain[0] + REQUEUE_JITTER * (|chain| - 1) >= q
    ensures n < |chain| && InOpening(q, timeoutMinutes, chain[n])
  {
    assert Wakes(ticks, timeoutMinutes, chain[0], chain[1]);
    WakeUpDoesNotOvershoot(ticks, timeoutMinutes, chain[0], chain[1], q);
    if q <= chain[1] {
      n := 1;
    } else {
      WakeUpAdvances(ticks, timeoutMinutes, chain[0], chain[1]);
      forall i | 0 <= i < |chain[1..]| - 1
        ensures Wakes(ticks, timeoutMinutes, chain[1..][i], chain[1..][i + 1])
      {
        assert Wakes(ticks, timeoutMinutes, chain[i + 1], chain[i + 2]);
      }
      var m := EveryOpeningIsVisited(ticks, timeoutMinutes, chain[1..], q);
      n := m + 1;
    }
  }

  /** The least tick after `now`, found by searching down from a known later one. */
  lemma {:induction false} NextTickExists(ticks: iset<Time>, now: Time, q: Time) returns (n: Time)
    requires q in ticks && now < q
    ensures IsNextTick(ticks, n, now)
    decreases q - now
  {
    if earlier :| earlier in ticks && now < earlier < q {
      n := NextTickExists(ticks, now, earlier);
    } else {
      n := q;
    }
  }

  lemma {:induction false} LatestTickExists(ticks: iset<Time>, now: Time, p: Time) returns (latest: Time)
    requires p in ticks && p <= now
    ensures IsLatestTick(ticks, latest, now)
    decreases now - p
  {
    if later :| later in ticks && p < later <= now {
      latest := LatestTickExists(ticks, now, later);
    } else {
      latest := p;
    }
  }

  /** Before an opening the chain can always be continued. */
  lemma WakeUpExists(ticks: iset<Time>, timeoutMinutes: int, t: Time, q: Time) returns (u: Time)
    requires q in ticks && t < q
    ensures Wakes(ticks, timeoutMinutes, t, u)
  {
    var n := NextTickExists(ticks, t, q);
    var prevTick: Option<Time> := None;
    if p :| p in ticks && p <= t {
      var latest := LatestTickExists(ticks, t, p);
      prevTick := Some(latest);
    }
    assert ExactAnswers(ticks, t, prevTick, Some(n));
    u := t + RequeueAfter(Evaluate(true, prevTick, Some(n), timeoutMinutes, t).window, t);
  }

  /** The jitter decides: the first wake-up aimed at an opening lands in it exactly when the
      opening is longer than the jitter. */
  lemma AimedWakeUpLandsIffLongEnough(ticks: iset<Time>, timeoutMinutes: int, t: Time, u: Time, q: Time)
    requires Wakes(ticks, timeoutMinutes, t, u) && IsNextTick(ticks, q, t)
    requires forall p :: p in ticks ==> !InOpening(p, timeoutMinutes, t)
    ensures InOpening(q, timeoutMinutes, u) <==> WindowSeconds(timeoutMinutes) > REQUEUE_JITTER
  {
    var prevTick, nextTick :|
      && ExactAnswers(ticks, t, prevTick, nextTick)
      && Evaluate(true, prevTick, nextTick, timeoutMinutes, t).Evaluated?
      && u == t + RequeueAfter(Evaluate(true, prevTick, nextTick, timeoutMinutes, t).window, t);
    EvaluateIsExact(ticks, prevTick, nextTick, timeoutMinutes, t);
    assert nextTick.value == q;
  }
}
