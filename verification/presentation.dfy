/**
  What a reminder says, and how long the reminder loop pauses after it on
  top of the fixed reminder interval: both are decided by the anger level
  alone. The pause constants are annotated as milliseconds in the source
  but are passed to a sleep that counts seconds; the model keeps the
  numbers as they are.
 */
module Presentation {
  import opened CooldownState

  const NeutralText := "Time to Switch!"
  const UrgentText := "Please do not ignore me!"
  const AngeredText := "You have angered me! Internet disabled temporarily."

  /** The reminder's text. */
  function Text(anger: int): (t: string)
    ensures t == NeutralText <==> anger == 0
    ensures t == UrgentText <==> anger > 0
    ensures t == AngeredText <==> anger < 0
  {
    if anger == 0 then NeutralText
    else if anger > 0 then UrgentText
    else AngeredText
  }

  /** The extra pause, in the sleep's units, before the next reminder. */
  function Duration(anger: int): (d: int)
    ensures d == NOTIFICATION_DURATION_NEUTRAL <==> anger == 0
    ensures d == NOTIFICATION_DURATION_ANGRY <==> anger > 0
    ensures d == NOTIFICATION_DURATION_DISABLED <==> anger < 0
  {
    if anger == 0 then NOTIFICATION_DURATION_NEUTRAL
    else if anger > 0 then NOTIFICATION_DURATION_ANGRY
    else NOTIFICATION_DURATION_DISABLED
  }

  /**
    Text and pause split the anger levels the same way: two levels get the
    same text exactly when they get the same pause. The pause is longest
    for a punished user, and there is no extra pause exactly while the
    urgent text is shown.
   */
  lemma TextAndDurationAgree(a: int, b: int)
    ensures Text(a) == Text(b) <==> Duration(a) == Duration(b)
    ensures a < 0 ==> Duration(a) > Duration(0) > Duration(1)
    ensures Duration(a) == 0 <==> Text(a) == UrgentText
  {
  }
}
