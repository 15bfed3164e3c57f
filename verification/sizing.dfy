/**
 * Fixed-width integers, constants and the pure sizing arithmetic of the
 * shot scheduler: how many shots a session of a given length takes, how far
 * apart they are, and how many minutes a running session has left.
 *
 * The firmware stores the session counters as 16-bit and the interval as a
 * 32-bit unsigned integer; every place where C++ would truncate or wrap is
 * written out with an explicit modulus.
 */
module Sizing {

  newtype u16 = x: int | 0 <= x < 0x1_0000
  newtype u32 = x: int | 0 <= x < 0x1_0000_0000

  /** Longest session a start request may ask for, in minutes. */
  const MaxSessionMinutes: u16 := 480

  /** Interval a session record holds before any session was ever started. */
  const DefaultIntervalMs: u32 := 60000

  /** Fixed spacing of scheduled shots. */
  const ShotIntervalMs: u32 := 10000

  /** Grace period between a successful start and the first shot. */
  const FirstShotDelayMs: nat := 5000

  /** Number of shots one burst request fires. */
  const BurstLength: nat := 10

  const MsPerMinute: nat := 60000

  /** A duration the start request accepts. */
  predicate ValidMinutes(minutes: u16) {
    1 <= minutes <= MaxSessionMinutes
  }

  /**
   * Shots in a session of `minutes` minutes: one every ten seconds. The
   * product is computed in `int` and the quotient truncated to 16 bits on
   * return; the truncation never bites below 10923 minutes.
   */
  function TotalShots(minutes: u16): (r: u16)
    ensures minutes as int * 6 < 0x1_0000 ==> r as int == 6 * minutes as int
    ensures ValidMinutes(minutes) ==> 6 <= r <= 2880
  {
    (((minutes as int * 60) / 10) % 0x1_0000) as u16
  }

  /** Interval between scheduled shots; the requested duration does not influence it. */
  function IntervalMs(minutes: u16): (r: u32)
    ensures r as int * 6 == MsPerMinute
  {
    ShotIntervalMs
  }

  /**
   * Minutes left in a session, as the status endpoint reports it: the shot
   * difference truncated to 16 bits, multiplied by the interval with 32-bit
   * unsigned wrap-around, then divided by 60000.
   */
  function RemainingMinutes(totalShots: u16, currentShot: u16, intervalMs: u32): (r: nat)
    ensures currentShot <= totalShots && intervalMs == ShotIntervalMs ==>
              r == (totalShots - currentShot) as int / 6
    ensures currentShot <= totalShots && intervalMs == ShotIntervalMs ==>
              r * 6 <= (totalShots - currentShot) as int < (r + 1) * 6
  {
    var remainingShots := (totalShots as int - currentShot as int) % 0x1_0000;
    var r := ((remainingShots * intervalMs as int) % 0x1_0000_0000) / 60000;
    if currentShot <= totalShots && intervalMs == ShotIntervalMs then
      ScaledQuotient(remainingShots);
      r
    else
      r
  }

  /** Ten-second steps counted in minutes: no 32-bit wrap, and the quotient is a sixth. */
  lemma ScaledQuotient(x: nat)
    requires x < 0x1_0000
    ensures (x * 10000) % 0x1_0000_0000 == x * 10000
    ensures (x * 10000) % 0x1_0000_0000 / 60000 == x / 6
  {
  }

  /**
   * A valid session's shots, laid end to end at the fixed interval, span
   * exactly the requested duration.
   */
  lemma ShotsCoverDuration(minutes: u16)
    requires ValidMinutes(minutes)
    ensures TotalShots(minutes) as int * IntervalMs(minutes) as int == minutes as int * MsPerMinute
    ensures RemainingMinutes(TotalShots(minutes), 0, IntervalMs(minutes)) == minutes as int
  {
  }
}
