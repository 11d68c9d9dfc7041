/**
  The reaction to the user interacting with a reminder: compliance resets
  the anger level, anything else raises it, and a punished user (negative
  anger) is left alone.
 */
module Response {

  /** The action tag of the "Okay" button. */
  const SubmitTag := "submit"
  /** The id of the reminder's text box. */
  const InputField := "thing"

  /** An activation of a reminder: its action tag and its input fields. */
  datatype Activation = Activation(arguments: string, inputs: map<string, string>)

  /**
    The callback either settles on a new anger level, or fails on the lookup
    of the text box, which happens when the "Okay" tag arrives without the
    input field; the failure aborts the callback and changes nothing.
   */
  datatype Outcome = Updated(anger: int) | MissingInput

  /** The user pressed "Okay" having typed something in the text box. */
  predicate Complied(a: Activation)
  {
    a.arguments == SubmitTag && InputField in a.inputs && a.inputs[InputField] != ""
  }

  /** The activation makes the callback fail before it changes anything. */
  predicate Malformed(a: Activation)
  {
    a.arguments == SubmitTag && InputField !in a.inputs
  }

  /** The activation counts as an ignored reminder. */
  predicate Ignored(a: Activation)
  {
    !Complied(a) && !Malformed(a)
  }

  function Respond(anger: int, a: Activation): (o: Outcome)
    ensures o.MissingInput? <==> Malformed(a)
    ensures o.Updated? && anger < 0 ==> o.anger == anger
    ensures o.Updated? && anger >= 0 ==> (o.anger == 0 <==> Complied(a))
    ensures o.Updated? && anger >= 0 && !Complied(a) ==> o.anger == anger + 1
    ensures o.Updated? ==> (o.anger < 0 <==> anger < 0)
  {
    if a.arguments == SubmitTag && InputField !in a.inputs then MissingInput
    else if a.arguments == SubmitTag && a.inputs[InputField] != "" && anger >= 0 then Updated(0)
    else if anger >= 0 then Updated(anger + 1)
    else Updated(anger)
  }

  /** Compliance forgives everything: the previous positive level does not matter. */
  lemma ComplianceResets(k: int, a: Activation)
    requires k >= 0 && Complied(a)
    ensures Respond(k, a) == Updated(0)
  {
  }
}
