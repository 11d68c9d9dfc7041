/**
  The cooldown manager: extending the Wi-Fi cooldown (shared by the
  punitive and the manual paths), the periodic expiry check, and the two
  tray-menu triggers. Each operation runs under the application's lock and
  is modelled as one atomic transition.
 */
module Cooldown {
  import opened CooldownState

  /**
    Adds `seconds` of cooldown at time `now`. A running cooldown is
    lengthened; otherwise a fresh one starts at `now` and Wi-Fi is disabled.
   */
  function AddDisableTime(s: State, now: int, seconds: int): (t: Transition)
    ensures t.state.anger == s.anger
    ensures !Active(s, now) ==> t.state.until == Some(now + seconds) && t.effect == Disable
    ensures Active(s, now) ==> t.state.until == Some(s.until.value + seconds) && t.effect == NoEffect
    ensures t.effect != Enable
    ensures seconds > 0 ==> Active(t.state, now) && t.state.until.value > now
    ensures seconds > 0 && s.until.Some? ==> t.state.until.value > s.until.value
  {
    if s.until.None? || now > s.until.value then
      Transition(State(s.anger, Some(now + seconds)), Disable)
    else
      Transition(State(s.anger, Some(s.until.value + seconds)), NoEffect)
  }

  /**
    The deadline test of the Wi-Fi manager loop. The deadline is tested for
    truth before it is compared, so a deadline of exactly 0 never fires.
   */
  predicate Expired(s: State, now: int)
  {
    s.until.Some? && s.until.value != 0 && now > s.until.value
  }

  /**
    One iteration of the Wi-Fi manager loop: once the deadline has passed,
    Wi-Fi is re-enabled and the deadline cleared; otherwise nothing happens.
   */
  function CheckExpiry(s: State, now: int): (t: Transition)
    ensures t.state.anger == s.anger
    ensures Expired(s, now) ==> t.state.until.None? && t.effect == Enable
    ensures !Expired(s, now) ==> t.state == s && t.effect == NoEffect
    ensures s.until.Some? && s.until.value > 0 ==> (t.effect == Enable <==> !Active(s, now))
  {
    if Expired(s, now) then Transition(State(s.anger, None), Enable)
    else Transition(s, NoEffect)
  }

  /** Tray menu "Disable Wifi (+20 min)". */
  function DisableTemp(s: State, now: int): (t: Transition)
    ensures t.state.anger == s.anger
    ensures Active(t.state, now)
    ensures Active(s, now) ==> t.state.until.value == s.until.value + DURATION_ON_MANUAL
    ensures !Active(s, now) ==> t.state.until.value == now + DURATION_ON_MANUAL
    ensures t.effect == Disable <==> !Active(s, now)
    ensures Active(s, now) ==> t.effect == NoEffect
  {
    AddDisableTime(s, now, DURATION_ON_MANUAL)
  }

  /** Tray menu "Disable Wifi (+1 hour)": three times the short duration. */
  function DisableTempLong(s: State, now: int): (t: Transition)
    ensures t.state.anger == s.anger
    ensures Active(t.state, now)
    ensures Active(s, now) ==> t.state.until.value == s.until.value + 3 * DURATION_ON_MANUAL
    ensures !Active(s, now) ==> t.state.until.value == now + 3 * DURATION_ON_MANUAL
    ensures t.effect == Disable <==> !Active(s, now)
    ensures Active(s, now) ==> t.effect == NoEffect
  {
    AddDisableTime(s, now, DURATION_ON_MANUAL * 3)
  }

  /**
    Cooldowns accumulate: a second extension issued while the first is still
    running adds to the deadline the first one set, and only the first one
    disables Wi-Fi.
   */
  lemma ExtensionsAccumulate(s: State, now1: int, s1: int, now2: int, s2: int)
    requires s1 > 0
    requires now2 <= AddDisableTime(s, now1, s1).state.until.value
    ensures var first := AddDisableTime(s, now1, s1);
            var second := AddDisableTime(first.state, now2, s2);
            && second.state.until == Some(first.state.until.value + s2)
            && second.effect == NoEffect
            && (!Active(s, now1) ==> first.effect == Disable)
  {
  }

  /**
    The long manual trigger is the short one pressed three times in a row:
    same deadline, and the same single disable when no cooldown was running.
   */
  lemma LongIsThreeShort(s: State, now: int)
    ensures var a := DisableTemp(s, now);
            var b := DisableTemp(a.state, now);
            var c := DisableTemp(b.state, now);
            var l := DisableTempLong(s, now);
            && c.state == l.state
            && b.effect == NoEffect && c.effect == NoEffect
            && a.effect == l.effect
  {
  }

  /**
    The expiry check is idempotent at a fixed time, and once it has fired no
    later check fires again until a new cooldown starts.
   */
  lemma ExpiryFiresOnce(s: State, now: int, later: int)
    ensures var e := CheckExpiry(s, now);
            CheckExpiry(e.state, now) == Transition(e.state, NoEffect)
    ensures var e := CheckExpiry(s, now);
            e.effect == Enable ==> CheckExpiry(e.state, later) == Transition(e.state, NoEffect)
  {
  }

  /**
    Clearing the deadline hands over to a fresh cooldown: after an expiry,
    the next extension starts from `now` and disables Wi-Fi again.
   */
  lemma ExpiryThenFreshCooldown(s: State, now: int, later: int, seconds: int)
    requires Expired(s, now)
    ensures var e := CheckExpiry(s, now);
            var t := AddDisableTime(e.state, later, seconds);
            t.state.until == Some(later + seconds) && t.effect == Disable
  {
  }
}
