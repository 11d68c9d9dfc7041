/**
  The top of one iteration of the reminder loop: while no cooldown is set,
  escalate if the user has ignored enough reminders, then show a reminder
  whose text reflects the (possibly new) anger level. While a cooldown is
  set the iteration does nothing.
 */
module ReminderLoop {
  import opened CooldownState
  import Presentation
  import Cooldown

  /**
    The escalation check: at or above the threshold the user is marked as
    punished and a punitive cooldown is added; below it nothing changes.
   */
  function Escalate(s: State, now: int): (t: Transition)
    ensures s.anger >= ANGER_THRESHOLD ==>
              && t.state.anger == -1
              && t.state.until == Cooldown.AddDisableTime(s, now, DURATION_ON_ANGER).state.until
              && t.effect == Cooldown.AddDisableTime(s, now, DURATION_ON_ANGER).effect
    ensures s.anger < ANGER_THRESHOLD ==> t == Transition(s, NoEffect)
    ensures s.anger >= ANGER_THRESHOLD && s.until.None? ==>
              t == Transition(State(-1, Some(now + DURATION_ON_ANGER)), Disable)
  {
    if s.anger >= ANGER_THRESHOLD then
      Cooldown.AddDisableTime(s.(anger := -1), now, DURATION_ON_ANGER)
    else
      Transition(s, NoEffect)
  }

  /** The outcome of one reminder iteration, with the reminder text shown, if any. */
  datatype Cycle = Cycle(state: State, effect: Effect, shown: Option<string>)

  function ReminderCycle(s: State, now: int): (c: Cycle)
    ensures c.shown.Some? <==> s.until.None?
    ensures s.until.Some? ==> c.state == s && c.effect == NoEffect
    ensures s.until.None? && s.anger >= ANGER_THRESHOLD ==>
              && c.state == State(-1, Some(now + DURATION_ON_ANGER))
              && c.effect == Disable
              && c.shown == Some(Presentation.AngeredText)
    ensures s.until.None? && s.anger < ANGER_THRESHOLD ==>
              && c.state == s
              && c.effect == NoEffect
              && c.shown == Some(Presentation.Text(s.anger))
  {
    if s.until.Some? then Cycle(s, NoEffect, None)
    else
      var t := Escalate(s, now);
      Cycle(t.state, t.effect, Some(Presentation.Text(t.state.anger)))
  }

  /**
    The reminder loop never escalates a punished user: with a negative anger
    level an iteration shows the angered text and fires nothing.
   */
  lemma PunishedUserNeverEscalates(s: State, now: int)
    requires s.anger < 0
    ensures var c := ReminderCycle(s, now);
            c.state == s && c.effect == NoEffect
            && (s.until.None? ==> c.shown == Some(Presentation.AngeredText))
  {
  }
}
