/**
  The whole application as a sequence of atomic steps: reminder activations,
  reminder-loop iterations, Wi-Fi manager polls and tray-menu clicks, in any
  interleaving. Properties that hold of every interleaving are stated here.
 */
module Trace {
  import opened CooldownState
  import Presentation
  import Response
  import Cooldown
  import ReminderLoop

  /** One atomic step; those that read the clock carry the time they ran at. */
  datatype Event =
    | Activated(activation: Response.Activation)
    | ReminderTop(now: int)
    | WifiPoll(now: int)
    | TrayShort(now: int)
    | TrayLong(now: int)

  function Step(s: State, e: Event): (t: Transition)
    ensures !e.Activated? && !e.ReminderTop? ==> t.state.anger == s.anger
    ensures s.anger < 0 ==> t.state.anger == s.anger
    ensures s.anger >= -1 ==> t.state.anger >= -1
    ensures t.effect == Enable ==> s.until.Some? && t.state.until.None?
    ensures t.effect == Disable ==> t.state.until.Some?
    ensures t.effect == NoEffect ==> (t.state.until.None? <==> s.until.None?)
    ensures t.effect == Disable ==> e.TrayShort? || e.TrayLong? || s.anger >= ANGER_THRESHOLD
  {
    match e
    case Activated(a) =>
      (match Response.Respond(s.anger, a)
       case Updated(k) => Transition(s.(anger := k), NoEffect)
       case MissingInput => Transition(s, NoEffect))
    case ReminderTop(now) =>
      var c := ReminderLoop.ReminderCycle(s, now);
      Transition(c.state, c.effect)
    case WifiPoll(now) => Cooldown.CheckExpiry(s, now)
    case TrayShort(now) => Cooldown.DisableTemp(s, now)
    case TrayLong(now) => Cooldown.DisableTempLong(s, now)
  }

  /** The final state of a run and the side effects it fired, in order. */
  datatype Outcome = Outcome(state: State, effects: seq<Effect>)

  function Emitted(e: Effect): seq<Effect>
  {
    if e == NoEffect then [] else [e]
  }

  /** Runs the events in order; every event fires at most one side effect. */
  function Run(s: State, es: seq<Event>): (r: Outcome)
    ensures |r.effects| <= |es|
    ensures NoEffect !in r.effects
    decreases |es|
  {
    if es == [] then Outcome(s, [])
    else
      var t := Step(s, es[0]);
      var rest := Run(t.state, es[1..]);
      Outcome(rest.state, Emitted(t.effect) + rest.effects)
  }

  /** Running two batches one after the other is running them together. */
  lemma {:induction false} RunAppend(s: State, xs: seq<Event>, ys: seq<Event>)
    ensures Run(s, xs + ys).state == Run(Run(s, xs).state, ys).state
    ensures Run(s, xs + ys).effects == Run(s, xs).effects + Run(Run(s, xs).state, ys).effects
    decreases |xs|
  {
    if xs == [] {
      assert xs + ys == ys;
    } else {
      var t := Step(s, xs[0]);
      assert (xs + ys)[0] == xs[0];
      assert (xs + ys)[1..] == xs[1..] + ys;
      RunAppend(t.state, xs[1..], ys);
    }
  }

  /** A negative anger level, the punished sentinel -1 above all, is never changed again. */
  lemma {:induction false} SentinelAbsorbing(s: State, es: seq<Event>)
    requires s.anger < 0
    ensures Run(s, es).state.anger == s.anger
    decreases |es|
  {
    if es != [] {
      SentinelAbsorbing(Step(s, es[0]).state, es[1..]);
    }
  }

  /** The anger level never drops below the sentinel. */
  lemma {:induction false} AngerAtLeastSentinel(s: State, es: seq<Event>)
    requires s.anger >= -1
    ensures Run(s, es).state.anger >= -1
    decreases |es|
  {
    if es != [] {
      AngerAtLeastSentinel(Step(s, es[0]).state, es[1..]);
    }
  }

  /**
    Wi-Fi is only re-enabled after it was disabled: the enables fired never
    outnumber the disables, counting a cooldown already set at the start as
    one disable.
   */
  lemma {:induction false} EnablesFollowDisables(s: State, es: seq<Event>)
    ensures multiset(Run(s, es).effects)[Enable]
            <= multiset(Run(s, es).effects)[Disable] + (if s.until.Some? then 1 else 0)
    decreases |es|
  {
    if es != [] {
      var t := Step(s, es[0]);
      EnablesFollowDisables(t.state, es[1..]);
      assert Run(s, es).effects == Emitted(t.effect) + Run(t.state, es[1..]).effects;
    }
  }

  /** Number of tray-menu clicks among the events. */
  function TrayClicks(es: seq<Event>): (n: nat)
    ensures n <= |es|
  {
    if es == [] then 0
    else (if es[0].TrayShort? || es[0].TrayLong? then 1 else 0) + TrayClicks(es[1..])
  }

  /**
    Punishment happens at most once: once the user is punished, every
    disable comes from a tray-menu click.
   */
  lemma {:induction false} NoSecondPunishment(s: State, es: seq<Event>)
    requires s.anger < 0
    ensures multiset(Run(s, es).effects)[Disable] <= TrayClicks(es)
    decreases |es|
  {
    if es != [] {
      var t := Step(s, es[0]);
      NoSecondPunishment(t.state, es[1..]);
      assert Run(s, es).effects == Emitted(t.effect) + Run(t.state, es[1..]).effects;
    }
  }

  /** Each ignored reminder raises a non-negative anger level by one. */
  lemma {:induction false} IgnoredRemindersCount(s: State, ws: seq<Response.Activation>)
    requires s.anger >= 0
    requires forall i :: 0 <= i < |ws| ==> Response.Ignored(ws[i])
    ensures Run(s, Activations(ws)) == Outcome(State(s.anger + |ws|, s.until), [])
    decreases |ws|
  {
    if ws != [] {
      assert Activations(ws)[1..] == Activations(ws[1..]);
      IgnoredRemindersCount(State(s.anger + 1, s.until), ws[1..]);
    }
  }

  /** The activation events of a sequence of reminder activations. */
  function Activations(ws: seq<Response.Activation>): seq<Event>
  {
    seq(|ws|, i requires 0 <= i < |ws| => Activated(ws[i]))
  }

  /** Total seconds added by a sequence of tray-menu clicks. */
  function ManualSeconds(es: seq<Event>): (n: int)
    requires forall i :: 0 <= i < |es| ==> es[i].TrayShort? || es[i].TrayLong?
    ensures n >= DURATION_ON_MANUAL * |es|
  {
    if es == [] then 0
    else (if es[0].TrayShort? then DURATION_ON_MANUAL else 3 * DURATION_ON_MANUAL) + ManualSeconds(es[1..])
  }

  /** Tray-menu clicks all issued at the one instant `now`. */
  predicate ClicksAt(es: seq<Event>, now: int)
  {
    forall i :: 0 <= i < |es| ==> (es[i].TrayShort? || es[i].TrayLong?) && es[i].now == now
  }

  /** Tray-menu clicks, each issued no later than `deadline`. */
  predicate ClicksBy(es: seq<Event>, deadline: int)
  {
    forall i :: 0 <= i < |es| ==> (es[i].TrayShort? || es[i].TrayLong?) && es[i].now <= deadline
  }

  /**
    Clicks that land, at whatever times, while a cooldown runs only push its
    deadline further, by the sum of their durations, without any side effect
    or anger change. Since each click moves the deadline later, a click that
    is not past the original deadline is never past the current one.
   */
  lemma {:induction false} ClicksWhileActive(s: State, es: seq<Event>)
    requires s.until.Some?
    requires ClicksBy(es, s.until.value)
    ensures Run(s, es) == Outcome(State(s.anger, Some(s.until.value + ManualSeconds(es))), [])
    decreases |es|
  {
    if es != [] {
      var t := Step(s, es[0]);
      assert t.state.until.value >= s.until.value;
      ClicksWhileActive(t.state, es[1..]);
    }
  }

  /**
    A burst of tray-menu clicks with no cooldown running disables Wi-Fi
    exactly once and sets the deadline to `now` plus all their durations.
   */
  lemma ClickBurst(s: State, now: int, es: seq<Event>)
    requires !Active(s, now)
    requires ClicksAt(es, now) && es != []
    ensures Run(s, es) == Outcome(State(s.anger, Some(now + ManualSeconds(es))), [Disable])
  {
    var t := Step(s, es[0]);
    assert ClicksBy(es[1..], t.state.until.value);
    ClicksWhileActive(t.state, es[1..]);
  }

  /** Two short clicks in quick succession: forty minutes, one disable, anger untouched. */
  lemma TwoShortClicks(s: State, now: int)
    requires !Active(s, now)
    ensures Run(s, [TrayShort(now), TrayShort(now)])
            == Outcome(State(s.anger, Some(now + 2 * DURATION_ON_MANUAL)), [Disable])
  {
    var es := [TrayShort(now), TrayShort(now)];
    ClickBurst(s, now, es);
    assert es[1..] == [TrayShort(now)] && es[1..][1..] == [];
    assert ManualSeconds(es[1..]) == DURATION_ON_MANUAL;
  }

  /**
    From start-up, ANGER_THRESHOLD ignored reminders followed by the top of
    the reminder loop punish the user: anger becomes -1, Wi-Fi is disabled
    once, until `now` plus the punitive duration.
   */
  lemma EscalationScenario(ws: seq<Response.Activation>, now: int)
    requires |ws| == ANGER_THRESHOLD
    requires forall i :: 0 <= i < |ws| ==> Response.Ignored(ws[i])
    ensures Run(Initial, Activations(ws) + [ReminderTop(now)])
            == Outcome(State(-1, Some(now + DURATION_ON_ANGER)), [Disable])
  {
    IgnoredRemindersCount(Initial, ws);
    RunAppend(Initial, Activations(ws), [ReminderTop(now)]);
  }

  /**
    The punished sentinel outlives the cooldown: once the punitive cooldown
    has expired, Wi-Fi is back on but anger is still -1, and the next
    reminder shows the angered text.
   */
  lemma AngerOutlivesCooldown(s: State, now: int, later: int)
    requires s.until.None? && s.anger >= ANGER_THRESHOLD
    requires later > now + DURATION_ON_ANGER && now + DURATION_ON_ANGER != 0
    ensures Run(s, [ReminderTop(now), WifiPoll(later)]) == Outcome(State(-1, None), [Disable, Enable])
    ensures ReminderLoop.ReminderCycle(State(-1, None), later).shown == Some(Presentation.AngeredText)
  {
    var es := [ReminderTop(now), WifiPoll(later)];
    var punished := State(-1, Some(now + DURATION_ON_ANGER));
    assert Step(s, es[0]) == Transition(punished, Disable);
    assert Step(punished, es[1]) == Transition(State(-1, None), Enable);
    assert es[1..] == [WifiPoll(later)] && es[1..][1..] == [];
    assert Run(punished, es[1..]) == Outcome(State(-1, None), [Enable]);
  }
}
