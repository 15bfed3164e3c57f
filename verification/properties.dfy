/**
 * Properties of the session state machine over whole runs of events: the
 * invariant every reachable session keeps, the terminal Completed state,
 * how a session of due scheduler ticks runs to completion, and the fact that
 * rescheduling from the firing time lets shots drift late but never early.
 */
module Properties {
  import opened Sizing
  import opened Scheduler

  /** No sequence of events breaks the session invariant. */
  lemma {:induction false} RunPreservesValid(s: Session, es: seq<Event>)
    requires Valid(s)
    ensures Valid(Run(s, es))
    decreases |es|
  {
    if es != [] {
      RunPreservesValid(Apply(s, es[0]), es[1..]);
    }
  }

  /**
   * Whatever happens after boot, the session is never Paused and its shot
   * counter never passes its shot total.
   */
  lemma ReachableSessions(es: seq<Event>)
    ensures Run(Initial(), es).state != Paused
    ensures Run(Initial(), es).currentShot <= Run(Initial(), es).totalShots
    ensures Run(Initial(), es).state == Running ==> Run(Initial(), es).currentShot < Run(Initial(), es).totalShots
  {
    RunPreservesValid(Initial(), es);
  }

  /**
   * Completed is terminal: no tick, command or query changes a completed
   * session, so in particular no new session can ever be started.
   */
  lemma {:induction false} CompletedIsTerminal(s: Session, es: seq<Event>)
    requires s.state == Completed
    ensures Run(s, es) == s
    decreases |es|
  {
    if es != [] {
      assert Apply(s, es[0]) == s;
      CompletedIsTerminal(s, es[1..]);
    }
  }

  /**
   * A run of due ticks from a running session: each fires one shot and
   * advances the counter by one; the session completes exactly when the
   * counter reaches the total, and no more due ticks than shots left exist.
   */
  lemma {:induction false} DueRunAdvances(s: Session, es: seq<Event>)
    requires Valid(s) && s.state == Running
    requires AllDue(s, es)
    ensures |es| <= (s.totalShots - s.currentShot) as int
    ensures Run(s, es).currentShot as int == s.currentShot as int + |es|
    ensures Run(s, es).totalShots == s.totalShots && Run(s, es).intervalMs == s.intervalMs
    ensures Run(s, es).totalMinutes == s.totalMinutes
    ensures Run(s, es).state == (if s.currentShot as int + |es| == s.totalShots as int then Completed else Running)
    ensures ShotsFired(s, es) == |es|
    decreases |es|
  {
    if es != [] {
      var t := Apply(s, es[0]);
      if t.state == Running {
        DueRunAdvances(t, es[1..]);
      } else {
        assert |es| == 1;
      }
    }
  }

  /**
   * Shots drift late, never early: because every shot reschedules from the
   * clock reading taken after it, the k-th due tick of a run happens no
   * earlier than k intervals after the first scheduled time.
   */
  lemma {:induction false} ScheduleNeverEarly(s: Session, es: seq<Event>, k: nat)
    requires AllDue(s, es)
    requires k < |es|
    ensures es[k].Poll? && es[k].now >= s.nextShotTime + k * s.intervalMs as int
    decreases k
  {
    if k > 0 {
      var t := Apply(s, es[0]);
      ScheduleNeverEarly(t, es[1..], k - 1);
      assert t.nextShotTime >= s.nextShotTime + s.intervalMs as int;
    }
  }

  /**
   * Each shot is scheduled from the moment the previous one finished, not
   * from the session start: in a run of due ticks, every tick after the first
   * comes at least one interval after the previous tick's post-shot reading,
   * so any lateness carries over to all later shots.
   */
  lemma {:induction false} DriftCarries(s: Session, es: seq<Event>, k: nat)
    requires AllDue(s, es)
    requires 0 < k < |es|
    ensures es[k].Poll? && es[k - 1].Poll?
    ensures es[k].now >= es[k - 1].after + s.intervalMs as int
    decreases k
  {
    var t := Apply(s, es[0]);
    if k > 1 {
      DriftCarries(t, es[1..], k - 1);
      assert es[1..][k - 1] == es[k] && es[1..][k - 2] == es[k - 1];
    }
  }

  /**
   * A session started with a valid duration of m minutes at time t takes at
   * most 6*m scheduled shots; after exactly 6*m due ticks it is Completed
   * with all 6*m shots taken; and the k-th shot is no earlier than
   * t + 5000 + 10000*k milliseconds.
   */
  lemma FullSession(s: Session, minutes: u16, t: nat, es: seq<Event>)
    requires Valid(s) && s.state == Idle && ValidMinutes(minutes)
    requires AllDue(Start(s, minutes, t).session, es)
    ensures |es| <= 6 * minutes as int
    ensures ShotsFired(Start(s, minutes, t).session, es) == |es|
    ensures |es| == 6 * minutes as int ==>
              var done := Run(Start(s, minutes, t).session, es);
              done.state == Completed && done.currentShot as int == done.totalShots as int == 6 * minutes as int
    ensures forall k :: 0 <= k < |es| ==> es[k].Poll? && es[k].now >= t + FirstShotDelayMs + k * ShotIntervalMs as int
  {
    var started := Start(s, minutes, t).session;
    DueRunAdvances(started, es);
    forall k | 0 <= k < |es|
      ensures es[k].Poll? && es[k].now >= t + FirstShotDelayMs + k * ShotIntervalMs as int
    {
      ScheduleNeverEarly(started, es, k);
    }
  }

  /**
   * A one-minute session started at boot time t, polled exactly when each
   * shot is due, completes after six shots.
   */
  lemma OneMinuteSession(t: nat)
    ensures var started := Start(Initial(), 1, t).session;
            var done := Run(started, OnTimePolls(t));
            done.state == Completed && done.currentShot == 6 && ShotsFired(started, OnTimePolls(t)) == 6
  {
    var started := Start(Initial(), 1, t).session;
    var polls := OnTimePolls(t);
    AllDueOnTime(started, polls);
    FullSession(Initial(), 1, t, polls);
  }

  /** Six polls, each at the moment a one-minute session started at t schedules a shot. */
  function OnTimePolls(t: nat): seq<Event> {
    [Poll(t + 5000, t + 5000), Poll(t + 15000, t + 15000), Poll(t + 25000, t + 25000),
     Poll(t + 35000, t + 35000), Poll(t + 45000, t + 45000), Poll(t + 55000, t + 55000)]
  }

  /** Polls that each arrive exactly when the next shot is scheduled are all due. */
  lemma {:induction false} AllDueOnTime(s: Session, es: seq<Event>)
    requires Valid(s) && s.state == Running
    requires |es| <= (s.totalShots - s.currentShot) as int
    requires forall k :: 0 <= k < |es| ==>
               es[k] == Poll(s.nextShotTime + k * s.intervalMs as int, s.nextShotTime + k * s.intervalMs as int)
    ensures AllDue(s, es)
    decreases |es|
  {
    if es != [] {
      var t := Apply(s, es[0]);
      if |es| > 1 {
        forall k | 0 <= k < |es[1..]|
          ensures es[1..][k] == Poll(t.nextShotTime + k * t.intervalMs as int, t.nextShotTime + k * t.intervalMs as int)
        {
          assert es[1..][k] == es[k + 1];
          assert (k + 1) * s.intervalMs as int == s.intervalMs as int + k * s.intervalMs as int;
        }
        AllDueOnTime(t, es[1..]);
      }
    }
  }
}
