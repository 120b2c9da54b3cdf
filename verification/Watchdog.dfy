/** The two timers of `client.go`, with time as whole nanoseconds and the clock read once per tick. */
module Watchdog {
  import opened Wrappers

  const MILLISECOND := 1_000_000
  const SECOND := 1_000_000_000

  /** How often the counter is looked at. */
  function Check(idle: int): int
    requires idle > 0
  {
    var c := if idle / 10 > 10 * MILLISECOND then idle / 10 else 10 * MILLISECOND;
    if c < 30 * SECOND then c else 30 * SECOND
  }

  /** The ticks are in order and at most `check` apart. */
  predicate Ticking(times: seq<int>, check: int) {
    && times != []
    && (forall i, j | 0 <= i < j < |times| :: times[i] < times[j])
    && (forall i | 0 < i < |times| :: times[i] <= times[i - 1] + check)
  }

  ghost predicate Monotone(progress: int -> int) {
    forall t, u | t <= u :: progress(t) <= progress(u)
  }

  /** The counter has the value it has at `t` from `s` until `t`. */
  ghost predicate Unchanged(progress: int -> int, s: int, t: int) {
    forall u | s <= u <= t :: progress(u) == progress(t)
  }

  /**
    watchProgress: `times[0]` is when it starts, the rest are its ticks until it is stopped. It reports
    a stall once at most, at the tick that is returned; the counter has then been the same for `idle`.
    And if the counter stops at `p` while it watches, the report is made within idle + 2 * check of `p`,
    unless it is stopped before.
   */
  method WatchProgress(progress: int -> int, times: seq<int>, idle: int) returns (stalled: Option<nat>)
    requires idle > 0 && Monotone(progress) && Ticking(times, Check(idle))
    ensures stalled.Some? ==> 0 < stalled.value < |times|
                              && Unchanged(progress, times[stalled.value] - idle, times[stalled.value])
                              && times[0] <= times[stalled.value] - idle
    ensures forall p {:trigger Unchanged(progress, p, times[|times| - 1])} | times[0] <= p
            && Unchanged(progress, p, times[|times| - 1]) ::
              if stalled.Some? then times[stalled.value] <= p + idle + 2 * Check(idle)
              else times[|times| - 1] < p + idle + 2 * Check(idle)
  {
    var last, since := progress(times[0]), times[0];
    ghost var at := 0;
    var i := 1;
    while i < |times|
      invariant 1 <= i <= |times|
      invariant 0 <= at < i && since == times[at] && last == progress(since)
      invariant progress(times[i - 1]) == last
      invariant times[i - 1] - since < idle
      invariant at > 0 ==> progress(times[at - 1]) < last
    {
      var n := progress(times[i]);
      if n != last {
        last, since := n, times[i];
        at := i;
      } else if times[i] - since >= idle {
        forall p {:trigger Unchanged(progress, p, times[|times| - 1])}
          | times[0] <= p && Unchanged(progress, p, times[|times| - 1])
        {
          ReportedInTime(progress, times, idle, at, i, p);
        }
        ConstantBetween(progress, times[i] - idle, since, times[i]);
        return Some(i);
      }
      i := i + 1;
    }
    forall p {:trigger Unchanged(progress, p, times[|times| - 1])}
      | times[0] <= p && Unchanged(progress, p, times[|times| - 1])
    {
      ReportedInTime(progress, times, idle, at, i - 1, p);
    }
    return None;
  }

  /** A counter that only grows and is the same at two times is the same between them. */
  lemma ConstantBetween(progress: int -> int, s: int, since: int, t: int)
    requires Monotone(progress) && since <= s <= t && progress(since) == progress(t)
    ensures Unchanged(progress, s, t)
  {
    forall u | s <= u <= t ensures progress(u) == progress(t) {
      assert progress(since) <= progress(u) <= progress(t);
    }
  }

  /** The counter changed between the ticks at - 1 and at, so it cannot have stopped before. */
  lemma ReportedInTime(progress: int -> int, times: seq<int>, idle: int, at: nat, i: nat, p: int)
    requires idle > 0 && Ticking(times, Check(idle)) && at <= i < |times|
    requires at > 0 ==> progress(times[at - 1]) < progress(times[at])
    requires at < i ==> times[i - 1] - times[at] < idle
    requires times[0] <= p && Unchanged(progress, p, times[|times| - 1])
    ensures times[i] < p + idle + 2 * Check(idle)
  {
    if at > 0 {
      ChangedBefore(progress, p, times[at - 1], times[at], times[|times| - 1]);
    }
  }

  lemma ChangedBefore(progress: int -> int, p: int, s: int, u: int, end: int)
    requires Unchanged(progress, p, end) && s < u <= end && progress(s) < progress(u)
    ensures s < p
  {
  }

  /** The bound in terms of `idle` alone: a fifth late at most, or 20 ms. */
  lemma CheckBound(idle: int)
    requires idle > 0
    ensures 10 * MILLISECOND <= Check(idle) <= 30 * SECOND
    ensures 2 * Check(idle) <= if idle >= 100 * MILLISECOND then idle / 5 else 20 * MILLISECOND
    ensures 100 * MILLISECOND <= idle <= 300 * SECOND ==> 10 * Check(idle) <= idle < 10 * Check(idle) + 10
    ensures idle > 300 * SECOND ==> Check(idle) == 30 * SECOND
  {
  }

  /* ---- keepalive ---- */

  /** What one keepalive request comes to within an interval. */
  datatype Reply = Answered | Failed | Silent

  /** The number of silent intervals at the end of `replies`. */
  function SilentRun(replies: seq<Reply>): nat {
    if replies == [] || !replies[|replies| - 1].Silent? then 0 else 1 + SilentRun(replies[..|replies| - 1])
  }

  /** The connection is given up on after these replies, and not before. */
  predicate Dead(replies: seq<Reply>, misses: nat) {
    replies != [] && (replies[|replies| - 1].Failed? || (replies[|replies| - 1].Silent?
        && SilentRun(replies) >= misses))
  }

  /** It would be given up on at reply k. */
  predicate DeadAt(replies: seq<Reply>, k: nat, misses: nat)
    requires k < |replies|
  {
    Dead(replies[..k + 1], misses)
  }

  /** onDead is called at the first reply that is an error or completes a run of `misses` silent intervals. */
  method Keepalive(replies: seq<Reply>, misses: nat) returns (dead: Option<nat>)
    requires misses > 0
    ensures dead.Some? ==> dead.value < |replies| && DeadAt(replies, dead.value, misses)
                           && forall k | 0 <= k < dead.value :: !DeadAt(replies, k, misses)
    ensures dead.None? ==> forall k | 0 <= k < |replies| :: !DeadAt(replies, k, misses)
  {
    var missed := 0;
    var i := 0;
    while i < |replies|
      invariant 0 <= i <= |replies| && missed == SilentRun(replies[..i]) < misses
      invariant forall k | 0 <= k < i :: !DeadAt(replies, k, misses)
    {
      assert replies[..i + 1][..i] == replies[..i];
      match replies[i] {
        case Answered => missed := 0;
        case Failed => missed := misses;
        case Silent => missed := missed + 1;
      }
      if missed >= misses {
        return Some(i);
      }
      i := i + 1;
    }
    return None;
  }
}
