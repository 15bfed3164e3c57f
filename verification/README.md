# Shot-session scheduler of the AstroController firmware

The AstroController firmware (an ESP32 program) triggers a camera by infrared
on a fixed schedule. A user asks for a session of N minutes over HTTP. The
firmware then fires one shot every ten seconds, starting five seconds after
the request, until 6·N shots are taken. It also accepts stop, single-shot,
ten-shot-burst and status requests.

This project models that session state machine. The files are:

- `sizing.dfy` (module `Sizing`) holds the fixed-width integer types, the
  constants (480-minute limit, 10 s interval, 5 s first-shot delay, 10-shot
  burst) and the pure arithmetic. This arithmetic computes the shot total,
  the interval and the remaining minutes. Each 16-bit truncation and each
  32-bit wrap-around in that arithmetic is written out explicitly. Clock
  readings are unbounded; see "Left out".
- `scheduler.dfy` (module `Scheduler`) defines the session record as a value.
  Each transition is a function on it: `Advance` (the scheduler tick),
  `Start`, `Stop` and `StatusOf`. It also defines the `Valid` invariant and
  the events and runs the lemmas quantify over.
- `properties.dfy` (module `Properties`) holds the lemmas about whole runs.
  Validity is kept by every event sequence. Paused is never reached.
  Completed is terminal. A session of due ticks completes after exactly its
  shot total. Shots drift late and never early.
- `firmware.dfy` (module `Firmware`) holds the class `Controller`. Its fields
  are the session record, and the tick and the handlers update them in place.
  Each method is proved against its `Scheduler` function. The infrared send
  is an abstract event that increments the ghost counter `shotsFired`.

The clock is a parameter. `UpdateSession` reads the clock twice: once to
decide whether a shot is due (`now`), and once after the shot has been sent
to reschedule (`after`). The second reading comes after the IR send and its
100 ms pause, so the model keeps the two readings apart. That gap is why the
schedule drifts: each shot is scheduled from when the previous one finished,
not from the session start.

Three behaviours of the code are stated as proved properties:

- Completed is terminal. `Start` refuses every non-Idle state, and `Stop`
  only acts on Running. So after one completed session no new session can
  start until a reboot (`CompletedIsTerminal`, `OneMinuteThenRestart`).
- Paused is declared but never entered (`ReachableSessions`).
- Rescheduling is relative to the firing time. `Advance` schedules the next
  shot at the post-shot clock reading plus the interval. `DriftCarries` proves
  that each due tick comes at least one interval after the previous tick's
  post-shot reading, so any lateness carries over to every later shot.

## Model

| member | source | states |
|---|---|---|
| Sizing.TotalShots | src/main.cpp:264-267 | shot total is 6·minutes whenever the 16-bit result cannot truncate; for a valid duration (1..480) it lies in 6..2880 |
| Sizing.RemainingMinutes | src/main.cpp:322-327 | with the counter not past the total and the 10 s interval, no 16- or 32-bit wrap occurs and the value is the remaining shots divided by six, rounded down |
| Sizing.IntervalMs | src/main.cpp:269-272 | the interval is a fixed tenth of a minute whatever duration is requested: six shots per minute |
| Sizing.ShotsCoverDuration | src/main.cpp:264-272 | for a valid duration, shot total × interval is exactly the requested minutes in milliseconds, and a fresh session reports exactly that many minutes remaining |
| Scheduler.Initial | src/main.cpp:41-50 | the boot record is Idle with no shots and satisfies the session invariant |
| Scheduler.Advance | src/main.cpp:235-251 | not Running or not yet due: nothing changes. Due: the totals, interval and start time are kept and the next shot is scheduled at the post-shot reading plus the interval. On a valid session the counter grows by exactly one, and the state becomes Completed iff the counter reaches the total (else stays Running). The only state change is Running→Completed, and validity is preserved |
| Scheduler.Start | src/main.cpp:336-363 | succeeds iff the state is Idle and minutes are in 1..480. Any non-Idle state is refused as AlreadyRunning (400); from Idle, a duration outside 1..480 is refused as InvalidDuration (400). A refusal changes nothing. Success sets Running, 6·minutes shots, 10 s interval, counter 0, start time now, first shot at now+5000, and answers 200. Validity is preserved |
| Scheduler.Stop | src/main.cpp:365-372 | always answers 200. Running becomes Idle, any other state stays, every counter is unchanged, the result is never Running, and validity is preserved |
| Scheduler.StatusOf | src/main.cpp:316-334 | reports the state code, counter and total. Remaining minutes is 0 unless Running; on a valid running session it equals the remaining shots divided by six and never exceeds the requested minutes |
| Properties.RunPreservesValid | src/main.cpp:235-251 | no sequence of ticks and commands breaks the session invariant (counter ≤ total, never Paused, totals tied to the duration) |
| Properties.ReachableSessions | src/main.cpp:33-38 | from the boot record, every run reaches only sessions that are not Paused, whose counter does not pass the total, and which have shots left while Running |
| Properties.CompletedIsTerminal | src/main.cpp:336-340 | every event sequence leaves a Completed session exactly as it is, so no new session can start |
| Properties.DueRunAdvances | src/main.cpp:239-249 | from a valid running session, a run of due ticks has at most (total − counter) ticks and fires one shot per tick. The counter grows by the run's length and the totals are kept. The session is Completed exactly when the counter reaches the total, and Running otherwise |
| Properties.ScheduleNeverEarly | src/main.cpp:243 | in a run of due ticks, the k-th tick is no earlier than the first scheduled time plus k intervals |
| Properties.DriftCarries | src/main.cpp:243 | in a run of due ticks, every tick after the first is at least one interval after the previous tick's post-shot clock reading, so the schedule is anchored to firing times, not to the session start |
| Properties.FullSession | src/main.cpp:352-358 | a session started at t with m valid minutes takes at most 6·m scheduled shots, is Completed with 6·m shots after exactly 6·m due ticks, and its k-th shot is no earlier than t + 5000 + 10000·k |
| Properties.OneMinuteSession | src/main.cpp:352-357 | a one-minute session polled on time completes after six shots |
| Firmware.Controller.constructor | src/main.cpp:41-50 | the record starts as the boot record with no shots fired |
| Firmware.Controller.ExecuteShot | src/main.cpp:253-262 | fires exactly one shot and touches no session field |
| Firmware.Controller.UpdateSession | src/main.cpp:235-251 | the new record is `Advance` of the old one, exactly one shot is fired iff the tick is due, and validity is preserved |
| Firmware.Controller.HandleStart | src/main.cpp:336-363 | the new record and the reply are those of `Start`, no shot is fired, and validity is preserved |
| Firmware.Controller.HandleStop | src/main.cpp:365-372 | the new record and the reply are those of `Stop`, no shot is fired, and validity is preserved |
| Firmware.Controller.HandleSingleShot | src/main.cpp:374-378 | fires exactly one shot, answers 200 and leaves every session field unchanged |
| Firmware.Controller.HandleBurstShot | src/main.cpp:380-394 | fires exactly ten shots, answers 200 and leaves every session field unchanged |
| Firmware.Controller.HandleApi | src/main.cpp:316-334 | changes nothing and returns `StatusOf` of the record: 0 minutes unless Running, and on a valid running session the remaining shots divided by six, at most the requested minutes |
| Firmware.OneMinuteThenRestart | src/main.cpp:336-340 | a one-minute start succeeds (200), six on-time ticks fire six shots and bring the counter to six, and a second start is then refused with 400 |

## Left out

- WiFi station and access-point bootstrap, NTP/SNTP setup and its callback, `setup` and the `loop` wiring with its 100 ms pause: hardware and network I/O. The model's events stand for the loop's passes and the HTTP requests.
- HTTP routing and the HTML pages of `handleRoot` and `handleSystemOverview`: transport and UI templating with no session logic.
- JSON decoding of the start request and the coercion of `minutes` to a 16-bit value: library behaviour. `HandleStart` takes `minutes` already decoded as a `u16`. The JSON bodies of the replies are reduced to the `Reply` kind and its status code.
- The IR library call, the Serial logging and the `delay` calls in `executeShot` and in the burst loop: hardware side effects and timing. Each shot is one increment of the ghost counter `shotsFired`.
- `lastTemperature` and the temperature field of the status report: a floating-point value that is never updated after boot.
- `millis()` wrap-around: clock readings and `nextShotTime` are unbounded naturals, so the 32-bit overflow of `now + intervalMs` after about 49 days of uptime is not modelled.
- Scheduler.Start: the two back-to-back clock reads for the start time and the first shot time are treated as a single reading `now`.
- Firmware.Controller.HandleStart: the two back-to-back clock reads for the start time and the first shot time are treated as a single reading `now`.
- include/config.h and src/secrets_template.h are not part of this model. They define constants only, and config.h is not included by the firmware's main file.
