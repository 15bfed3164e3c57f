/**
 * The controller as the firmware runs it: one session record whose fields the
 * scheduler tick and the command handlers update in place. Every method is
 * proved against the matching function of module Scheduler. The infrared
 * transmission is an abstract event counted by the ghost field shotsFired.
 */
module Firmware {
  import opened Sizing
  import opened Scheduler

  class Controller {
    var state: SessionState
    var totalMinutes: u16
    var totalShots: u16
    var currentShot: u16
    var sessionStartTime: nat
    var nextShotTime: nat
    var intervalMs: u32

    /** Number of infrared shots sent since boot. */
    ghost var shotsFired: nat

    /** The session record as a value. */
    function Snapshot(): Session
      reads this
    {
      Session(state, totalMinutes, totalShots, currentShot, sessionStartTime, nextShotTime, intervalMs)
    }

    ghost predicate Valid()
      reads this
    {
      Scheduler.Valid(Snapshot())
    }

    /** The record as initialised at boot: idle, no shots, a one-minute default interval. */
    constructor ()
      ensures Snapshot() == Initial() && Valid()
      ensures shotsFired == 0
    {
      state := Idle;
      totalMinutes := 0;
      totalShots := 0;
      currentShot := 0;
      sessionStartTime := 0;
      nextShotTime := 0;
      intervalMs := DefaultIntervalMs;
      shotsFired := 0;
    }

    /** Sends one infrared shutter command; the session itself is untouched. */
    method ExecuteShot()
      modifies this`shotsFired
      ensures shotsFired == old(shotsFired) + 1
    {
      shotsFired := shotsFired + 1;
    }

    /**
     * The scheduler tick: `now` is the clock reading at the start of the
     * tick, `after` the reading once the shot has gone out.
     */
    method UpdateSession(now: nat, after: nat)
      modifies this
      ensures Snapshot() == Advance(old(Snapshot()), now, after)
      ensures shotsFired == old(shotsFired) + Fired(old(Snapshot()), Poll(now, after))
      ensures old(Valid()) ==> Valid()
    {
      if state != Running {
        return;
      }
      if now >= nextShotTime {
        ExecuteShot();
        currentShot := ((currentShot as int + 1) % 0x1_0000) as u16;
        nextShotTime := after + intervalMs as int;
        if currentShot >= totalShots {
          state := Completed;
        }
      }
    }

    /** The start command, with `minutes` already decoded from the request body. */
    method HandleStart(minutes: u16, now: nat) returns (reply: Reply)
      modifies this
      ensures Outcome(Snapshot(), reply) == Start(old(Snapshot()), minutes, now)
      ensures shotsFired == old(shotsFired)
      ensures old(Valid()) ==> Valid()
    {
      if state != Idle {
        return AlreadyRunning;
      }
      if minutes < 1 || minutes > MaxSessionMinutes {
        return InvalidDuration;
      }
      totalMinutes := minutes;
      totalShots := TotalShots(minutes);
      intervalMs := IntervalMs(minutes);
      currentShot := 0;
      sessionStartTime := now;
      nextShotTime := now + FirstShotDelayMs;
      state := Running;
      reply := Success;
    }

    /** The stop command. */
    method HandleStop() returns (reply: Reply)
      modifies this
      ensures Outcome(Snapshot(), reply) == Stop(old(Snapshot()))
      ensures shotsFired == old(shotsFired)
      ensures old(Valid()) ==> Valid()
    {
      if state == Running {
        state := Idle;
      }
      reply := Success;
    }

    /** Fires one shot immediately, whatever the session is doing. */
    method HandleSingleShot() returns (reply: Reply)
      modifies this`shotsFired
      ensures Snapshot() == Apply(old(Snapshot()), SingleShotRequest)
      ensures shotsFired == old(shotsFired) + Fired(old(Snapshot()), SingleShotRequest)
      ensures reply == Success
    {
      ExecuteShot();
      reply := Success;
    }

    /** Fires a burst of ten shots, one after the other, whatever the session is doing. */
    method HandleBurstShot() returns (reply: Reply)
      modifies this`shotsFired
      ensures Snapshot() == Apply(old(Snapshot()), BurstRequest)
      ensures shotsFired == old(shotsFired) + Fired(old(Snapshot()), BurstRequest)
      ensures reply == Success
    {
      for i := 0 to BurstLength
        invariant shotsFired == old(shotsFired) + i
      {
        ExecuteShot();
      }
      reply := Success;
    }

    /** The status endpoint; it reads the session and changes nothing. */
    method HandleApi() returns (report: StatusReport)
      ensures report == StatusOf(Snapshot())
      ensures report.state == state.Code() && report.current == currentShot && report.total == totalShots
      ensures state != Running ==> report.remaining == 0
      ensures Valid() && state == Running ==>
                report.remaining == (totalShots - currentShot) as int / 6 && report.remaining <= totalMinutes as int
    {
      var remaining := 0;
      if state == Running && totalShots > 0 {
        var remainingShots := ((totalShots as int - currentShot as int) % 0x1_0000) as u16;
        remaining := ((remainingShots as int * intervalMs as int) % 0x1_0000_0000) / 60000;
      }
      report := StatusReport(state.Code(), currentShot, totalShots, remaining);
    }
  }

  /**
   * A client of the controller: a one-minute session polled on time completes
   * after six shots, and a second start is then refused as if still running.
   */
  method OneMinuteThenRestart(t: nat) returns (first: Reply, second: Reply, counter: u16, ghost fired: nat)
    ensures first == Success && first.Status() == 200
    ensures counter == 6 && fired == 6
    ensures second == AlreadyRunning && second.Status() == 400
  {
    var c := new Controller();
    first := c.HandleStart(1, t);
    var k := 0;
    while k < 6
      invariant 0 <= k <= 6
      invariant c.Valid() && c.shotsFired == k && c.currentShot as int == k
      invariant c.totalShots == 6
      invariant k < 6 ==> c.state == Running && c.nextShotTime == t + 5000 + 10000 * k
      invariant k == 6 ==> c.state == Completed
    {
      c.UpdateSession(t + 5000 + 10000 * k, t + 5000 + 10000 * k);
      k := k + 1;
    }
    counter := c.currentShot;
    fired := c.shotsFired;
    second := c.HandleStart(1, t + 60000);
  }
}
