# Task reminder: anger and Wi-Fi cooldown state machine

The task reminder nags its user, through desktop notifications, to switch
tasks. An `anger` counter goes up with every ignored reminder. Once it
reaches `ANGER_THRESHOLD`, the user is marked as punished (`anger = -1`) and
Wi-Fi is disabled for a cooldown. A tray menu lets the user add cooldown time
by hand. A second loop polls the cooldown deadline and re-enables Wi-Fi once
it has passed.

This project models that state machine in Dafny. The state is `anger` plus
an optional deadline `until`. Every operation is a pure transition that takes
the current time `now` and returns the new state and the side effect it asks
for: `Disable`, `Enable` or `NoEffect`, standing for the two `netsh` calls.
The application holds one lock while it extends or expires the deadline.
The model treats every operation as one atomic step, including the two
writes to `anger`, which take no lock (see "## Left out"). Module `Trace`
runs any sequence of such steps.

- `state.dfy` (`CooldownState`): the state, the constants, the effect tags and
  the predicate `Active` (a deadline is set and `now` is not past it).
- `presentation.dfy` (`Presentation`): the reminder text, and the extra
  pause the reminder loop takes after a reminder.
- `response.dfy` (`Response`): the notification-activation callback.
- `cooldown.dfy` (`Cooldown`): extending a cooldown, the expiry poll and the
  two tray triggers.
- `reminder.dfy` (`ReminderLoop`): the escalation check and one reminder
  iteration.
- `trace.dfy` (`Trace`): events, runs, and properties that hold for every
  interleaving.

Behaviours of the code worth knowing:

- Nothing in the code resets `anger` once it is `-1` (switch.py:93-104,
  126-127). After the punitive cooldown expires, Wi-Fi comes back but
  `anger` stays `-1` for the rest of the process. The user then always sees
  the angered text and is never punished automatically again.
  `Trace.AngerOutlivesCooldown` and `Trace.NoSecondPunishment` state this.
- `add_disable_time` accepts any number of seconds (switch.py:106-113), so
  `Cooldown.AddDisableTime` takes any integer and states the "strictly in
  the future" properties only for positive values.
- `dynamic_duration` (switch.py:74-82) is only passed to `time.sleep` after
  the fixed reminder interval (switch.py:132-133). It is an extra pause in
  seconds before the next reminder, although its constants are annotated as
  milliseconds (switch.py:28-30). The notification itself always uses the
  long toast duration (switch.py:119).
- The expiry poll tests the deadline for truth before comparing it. A
  deadline of exactly `0` is therefore never cleared. `Cooldown.Expired`
  keeps this test. `Cooldown.CheckExpiry` shows that for positive deadlines
  the poll fires exactly when the deadline is no longer active.
- The callback reads the text-box input by key, and it does so whenever the
  action tag is `submit`. When the key is missing, the lookup fails and the
  callback aborts with `anger` unchanged, whatever the anger level is. This
  is modelled as `Response.MissingInput`.

## Model

| member | source | states |
|---|---|---|
| `Presentation.Text` | switch.py:64-72 | the neutral text exactly at anger 0, the urgent text exactly for positive anger, the angered text exactly for negative anger |
| `Presentation.Duration` | switch.py:74-82 | the extra pause before the next reminder is 1200 exactly at anger 0, 0 exactly for positive anger, 2400 exactly for negative anger |
| `Presentation.TextAndDurationAgree` | switch.py:64-82 | two anger levels get the same text iff they get the same extra pause; the pause is longest for a punished user; no extra pause iff the urgent text |
| `Response.Respond` | switch.py:88-104 | the callback fails iff the tag is `submit` and the input is missing; otherwise a non-negative level goes to 0 iff the user complied, else up by one; a negative level is kept; the sign never flips |
| `Response.ComplianceResets` | switch.py:93-94 | compliance from any level k >= 0 yields exactly 0 |
| `Cooldown.AddDisableTime` | switch.py:106-114 | with no running cooldown the deadline becomes now + seconds and Wi-Fi is disabled; a running one (now equal to the deadline included) is lengthened with no effect; anger is untouched; for positive seconds the deadline ends up strictly after now and strictly after the old deadline |
| `Cooldown.CheckExpiry` | switch.py:138-141 | past a (truthy) deadline the deadline is cleared and Wi-Fi enabled; otherwise nothing changes; for a positive deadline it fires iff the cooldown is no longer active; anger is untouched |
| `Cooldown.DisableTemp` | switch.py:174-176 | adds DURATION_ON_MANUAL through the accumulation rule, leaves a running cooldown, disables iff none was running and fires nothing otherwise, never changes anger |
| `Cooldown.DisableTempLong` | switch.py:178-180 | the same with three times DURATION_ON_MANUAL |
| `Cooldown.ExtensionsAccumulate` | switch.py:109-113 | a second extension issued before the first deadline adds to that deadline and fires no second disable |
| `Cooldown.LongIsThreeShort` | switch.py:174-180 | one long manual trigger gives the same deadline and the same single effect as three short ones in a row |
| `Cooldown.ExpiryFiresOnce` | switch.py:138-141 | the poll is idempotent at a fixed time, and once it has fired no later poll fires until a new cooldown starts |
| `Cooldown.ExpiryThenFreshCooldown` | switch.py:106-141 | after an expiry the next extension starts a fresh cooldown from its own time and disables Wi-Fi again |
| `ReminderLoop.Escalate` | switch.py:126-128 | at or above the threshold anger becomes -1 and the punitive duration is added through the accumulation rule; with no deadline set this means a deadline of now + DURATION_ON_ANGER and one disable; below the threshold nothing changes |
| `ReminderLoop.ReminderCycle` | switch.py:123-131 | a reminder is shown iff no deadline is set, and its text reflects the level after escalation; with a deadline set the iteration changes nothing |
| `ReminderLoop.PunishedUserNeverEscalates` | switch.py:124-131 | with negative anger an iteration fires nothing, changes nothing and shows the angered text |
| `Trace.Step` | switch.py:88-180 | only activations and reminder iterations change anger; a negative level is never changed and -1 is a floor; an enable clears a set deadline; a disable leaves a deadline set and comes from a tray click or from a level at the threshold |
| `Trace.Run` | switch.py:106-141 | every step fires at most one side effect |
| `Trace.SentinelAbsorbing` | switch.py:93-128 | in any interleaving, a negative anger level (in particular -1) is never changed again |
| `Trace.AngerAtLeastSentinel` | switch.py:93-128 | in any interleaving, anger never drops below -1 |
| `Trace.EnablesFollowDisables` | switch.py:106-141 | in any interleaving, Wi-Fi enables never outnumber disables, counting a deadline already set at the start as one disable |
| `Trace.NoSecondPunishment` | switch.py:124-128 | once the user is punished, every further disable comes from a tray click |
| `Trace.IgnoredRemindersCount` | switch.py:97-99 | n ignored reminders raise a non-negative level by exactly n, with no side effect |
| `Trace.ClicksWhileActive` | switch.py:106-180 | tray clicks issued at any times not past the deadline set when they start add the sum of their durations to that deadline, with no effect and no change to anger |
| `Trace.ClickBurst` | switch.py:106-180 | a burst of tray clicks with no cooldown running disables Wi-Fi exactly once and sets the deadline to now plus the sum of their durations |
| `Trace.TwoShortClicks` | switch.py:174-176 | two short clicks in a row give now + 2 x DURATION_ON_MANUAL and one disable, with anger unchanged |
| `Trace.EscalationScenario` | switch.py:93-128 | from start-up, ANGER_THRESHOLD ignored reminders and one loop iteration give anger -1, deadline now + DURATION_ON_ANGER, and exactly one disable |
| `Trace.AngerOutlivesCooldown` | switch.py:124-141 | after the punitive cooldown expires, Wi-Fi is re-enabled but anger stays -1, and the next reminder shows the angered text |

## Left out

- Notification and tray UI are not modelled: toast construction, `show_toast`, the tray menu and icon, and the icon bitmap. They are library calls. Only the text handed to the notification is modelled.
- The `netsh` calls and their error reporting are not modelled. They appear only as the returned `Disable`/`Enable` tags, because a failed call never rolls back state.
- Elevation to administrator (`run_as_admin`) is not modelled. It is operating-system plumbing.
- Threads, the `running` flag, `on_exit` and all `time.sleep` timing are not modelled. This covers the reminder pause of `REMINDER_INTERVAL` plus the extra pause `Presentation.Duration`, the 5-second poll interval, and the fact that the reminder loop spins without sleeping while a cooldown is set. Each operation is one atomic step, and an interleaving is any sequence of steps.
- The race between the reminder loop's check that no deadline is set and its call to extend the cooldown is not modelled separately. `ReminderLoop.Escalate` is stated for any deadline, so a tray click that lands in between is covered by the accumulation rule.
- Races on `anger` are not modelled. The callback (switch.py:93-99) runs on the notification runtime's thread, and the escalation write (switch.py:126-127) runs on the reminder thread; neither holds the lock. The model treats each as one atomic step. Without that, a callback that has read `anger >= 0` can write 0 or `-1 + 1` after the escalation set -1, while the punitive cooldown runs. `Trace.SentinelAbsorbing`, `Trace.AngerAtLeastSentinel` and `Trace.NoSecondPunishment` hold only under this atomicity assumption.
- Time is whole seconds, not floating point. The log lines that print the deadline as a clock time are not modelled.
- A missing action tag (no argument) is modelled as any tag other than `submit`.
