/**
  The state shared by the reminder loop, the Wi-Fi manager loop and the tray
  menu of the task reminder, together with the tunable constants of the
  application and the vocabulary of transitions.

  Timestamps are whole seconds since the epoch; the application reads them
  from the wall clock, here every operation receives the current time `now`
  as an argument.
 */
module CooldownState {

  /** An optional value: `None` stands for the application's `None`. */
  datatype Option<+T> = None | Some(value: T)

  /** Extra pauses of the reminder loop after a reminder, indexed by mood. */
  const NOTIFICATION_DURATION_NEUTRAL: int := 1200
  const NOTIFICATION_DURATION_ANGRY: int := 0
  const NOTIFICATION_DURATION_DISABLED: int := 2400

  /** Ignored reminders tolerated before the punitive cooldown. */
  const ANGER_THRESHOLD: int := 10
  /** Length, in seconds, of the punitive cooldown (40 minutes). */
  const DURATION_ON_ANGER: int := 40 * 60
  /** Length, in seconds, of the short manual cooldown (20 minutes). */
  const DURATION_ON_MANUAL: int := 20 * 60

  /**
    `anger` counts ignored reminders; -1 is the sentinel of a punished user.
    `until` is the instant at which Wi-Fi is due to be re-enabled, or `None`
    while Wi-Fi is (believed to be) on.
   */
  datatype State = State(anger: int, until: Option<int>)

  /** The state at process start. */
  const Initial := State(0, None)

  /** The side effect a transition asks for: a `netsh` call, or nothing. */
  datatype Effect = NoEffect | Disable | Enable

  /** A new state together with the side effect fired on the way. */
  datatype Transition = Transition(state: State, effect: Effect)

  /**
    A cooldown is running at `now` when a deadline is set and has not yet
    been passed; being exactly at the deadline still counts as running.
   */
  predicate Active(s: State, now: int)
  {
    s.until.Some? && now <= s.until.value
  }
}
