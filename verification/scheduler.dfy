/**
 * The shot session as a value, and each transition of the firmware's session
 * state machine as a function on it: the scheduler tick, the start and stop
 * commands, and the status report. These functions are the specifications
 * the imperative controller in module Firmware is proved against.
 */
module Scheduler {
  import opened Sizing

  /** The firmware's session states. Paused is declared, but nothing ever enters it. */
  datatype SessionState = Idle | Running | Paused | Completed {
    /** Numeric value of the state, as the status endpoint reports it. */
    function Code(): nat {
      match this
      case Idle => 0
      case Running => 1
      case Paused => 2
      case Completed => 3
    }
  }

  /** The single session record: times are clock readings in milliseconds. */
  datatype Session = Session(
    state: SessionState,
    totalMinutes: u16,
    totalShots: u16,
    currentShot: u16,
    sessionStartTime: nat,
    nextShotTime: nat,
    intervalMs: u32)

  /** Answer of a command handler; its HTTP status is 200 or 400. */
  datatype Reply = Success | AlreadyRunning | InvalidDuration {
    function Status(): nat {
      if Success? then 200 else 400
    }
  }

  /** The session after a command, and the command's reply. */
  datatype Outcome = Outcome(session: Session, reply: Reply)

  /** What the status endpoint reports. */
  datatype StatusReport = StatusReport(state: nat, current: u16, total: u16, remaining: nat)

  /** The session record as the firmware initialises it at boot. */
  function Initial(): (s: Session)
    ensures Valid(s) && s.state == Idle && s.currentShot == 0 && s.totalShots == 0
  {
    Session(Idle, 0, 0, 0, 0, 0, DefaultIntervalMs)
  }

  /**
   * The invariant every reachable session satisfies: never paused; the shot
   * count and the interval are the ones computed from the stored duration
   * (or the boot defaults if no session ever started); the shot counter never
   * passes the total; a running session has shots left; a completed one
   * has taken all of them.
   */
  predicate Valid(s: Session) {
    && s.state != Paused
    && s.totalMinutes <= MaxSessionMinutes
    && s.totalShots == TotalShots(s.totalMinutes)
    && s.intervalMs == (if s.totalMinutes == 0 then DefaultIntervalMs else IntervalMs(s.totalMinutes))
    && s.currentShot <= s.totalShots
    && (s.state == Running ==> s.currentShot < s.totalShots)
    && (s.state == Completed ==> 0 < s.totalShots == s.currentShot)
  }

  /** A scheduler tick at clock reading `now` fires a shot. */
  predicate Due(s: Session, now: nat) {
    s.state == Running && now >= s.nextShotTime
  }

  /**
   * One scheduler tick. `now` is the clock reading that decides whether a shot
   * is due; `after` is the reading taken once the shot has been sent, from
   * which the next shot is scheduled. The 16-bit counter increment wraps.
   */
  function Advance(s: Session, now: nat, after: nat): (r: Session)
    ensures !Due(s, now) ==> r == s
    ensures Due(s, now) ==>
              && r.totalMinutes == s.totalMinutes && r.totalShots == s.totalShots
              && r.intervalMs == s.intervalMs && r.sessionStartTime == s.sessionStartTime
              && r.nextShotTime == after + s.intervalMs as int
    ensures r.state != s.state ==> s.state == Running && r.state == Completed
    ensures Valid(s) ==> Valid(r)
    ensures Valid(s) && Due(s, now) ==>
              && r.currentShot as int == s.currentShot as int + 1
              && (r.state == Completed <==> r.currentShot == r.totalShots)
              && (r.state == Running <==> r.currentShot < r.totalShots)
  {
    if !Due(s, now) then s
    else
      var shot := ((s.currentShot as int + 1) % 0x1_0000) as u16;
      s.(currentShot := shot,
         nextShotTime := after + s.intervalMs as int,
         state := if shot >= s.totalShots then Completed else s.state)
  }

  /**
   * The start command. Any state other than Idle is refused first, then a
   * duration outside 1..480 minutes; a refused request changes nothing.
   */
  function Start(s: Session, minutes: u16, now: nat): (o: Outcome)
    ensures o.reply == Success <==> s.state == Idle && ValidMinutes(minutes)
    ensures s.state != Idle ==> o.reply == AlreadyRunning
    ensures s.state == Idle && !ValidMinutes(minutes) ==> o.reply == InvalidDuration
    ensures o.reply.Status() == (if o.reply == Success then 200 else 400)
    ensures o.reply != Success ==> o.session == s
    ensures o.reply == Success ==>
              && o.session.state == Running
              && o.session.totalMinutes == minutes
              && o.session.totalShots as int == 6 * minutes as int
              && o.session.intervalMs == ShotIntervalMs
              && o.session.currentShot == 0
              && o.session.sessionStartTime == now
              && o.session.nextShotTime == now + FirstShotDelayMs
    ensures Valid(s) ==> Valid(o.session)
  {
    if s.state != Idle then Outcome(s, AlreadyRunning)
    else if minutes < 1 || minutes > MaxSessionMinutes then Outcome(s, InvalidDuration)
    else
      var started := Session(Running, minutes, TotalShots(minutes), 0, now, now + FirstShotDelayMs, IntervalMs(minutes));
      Outcome(started, Success)
  }

  /** The stop command: a running session goes back to Idle; it always succeeds. */
  function Stop(s: Session): (o: Outcome)
    ensures o.reply == Success && o.reply.Status() == 200
    ensures o.session.state == (if s.state == Running then Idle else s.state)
    ensures o.session.(state := s.state) == s
    ensures o.session.state != Running
    ensures Valid(s) ==> Valid(o.session)
  {
    Outcome(if s.state == Running then s.(state := Idle) else s, Success)
  }

  /** The status report; remaining minutes are reported only for a running session. */
  function StatusOf(s: Session): (r: StatusReport)
    ensures r.state == s.state.Code() && r.current == s.currentShot && r.total == s.totalShots
    ensures s.state != Running ==> r.remaining == 0
    ensures Valid(s) && s.state == Running ==>
              && r.remaining == (s.totalShots - s.currentShot) as int / 6
              && r.remaining <= s.totalMinutes as int
  {
    var remaining :=
      if s.state == Running && s.totalShots > 0
      then RemainingMinutes(s.totalShots, s.currentShot, s.intervalMs)
      else 0;
    StatusReport(s.state.Code(), s.currentShot, s.totalShots, remaining)
  }

  /** Everything that can happen to the controller between two observations. */
  datatype Event =
    | Poll(now: nat, after: nat)
    | StartRequest(minutes: u16, at: nat)
    | StopRequest
    | SingleShotRequest
    | BurstRequest
    | StatusRequest

  /** The session after one event. Shot and status requests leave it as it is. */
  function Apply(s: Session, e: Event): Session {
    match e
    case Poll(now, after) => Advance(s, now, after)
    case StartRequest(minutes, at) => Start(s, minutes, at).session
    case StopRequest => Stop(s).session
    case SingleShotRequest => s
    case BurstRequest => s
    case StatusRequest => s
  }

  /** Number of infrared shots an event fires. */
  function Fired(s: Session, e: Event): nat {
    match e
    case Poll(now, _) => if Due(s, now) then 1 else 0
    case SingleShotRequest => 1
    case BurstRequest => BurstLength
    case _ => 0
  }

  /** The session after a sequence of events, in order. */
  function Run(s: Session, es: seq<Event>): Session
    decreases |es|
  {
    if es == [] then s else Run(Apply(s, es[0]), es[1..])
  }

  /** Number of infrared shots a sequence of events fires. */
  function ShotsFired(s: Session, es: seq<Event>): nat
    decreases |es|
  {
    if es == [] then 0 else Fired(s, es[0]) + ShotsFired(Apply(s, es[0]), es[1..])
  }

  /**
   * Every event is a scheduler tick that fires a shot, with its second clock
   * reading no earlier than its first.
   */
  predicate AllDue(s: Session, es: seq<Event>)
    decreases |es|
  {
    es == [] ||
    (es[0].Poll? && Due(s, es[0].now) && es[0].now <= es[0].after && AllDue(Apply(s, es[0]), es[1..]))
  }
}
