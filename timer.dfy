/**
  The cooldown timer engine: a ranked ultimate timer, a single-value summoner
  spell timer, and the manager that keys them by slot and tells its observers
  after every change. Wall-clock reads are the `now` argument of each method.
*/
module Timer {
  import opened Wrappers

  /** The running state both timer kinds share: when the countdown began, and whether it runs. */
  datatype Clock = Clock(startTime: Option<real>, isActive: bool)

  const Idle: Clock := Clock(None, false)

  /** The timers' invariant: a timer is active exactly when it has a start time. */
  predicate Consistent(c: Clock) {
    c.isActive <==> c.startTime.Some?
  }

  /** Seconds left of a `cooldown` started at `start`, seen at `now`; 0 once the deadline has passed. */
  function Remaining(cooldown: real, start: real, now: real): real {
    var left := cooldown - (now - start);
    if left <= 0.0 then 0.0 else left
  }

  /**
    One `get_remaining_time` call: the value returned and the clock afterwards.
    An expired countdown is noticed here, lazily, and the clock is reset.
  */
  function Query(c: Clock, cooldown: real, now: real): (real, Clock) {
    if !c.isActive || c.startTime.None? then (0.0, c)
    else
      var left := Remaining(cooldown, c.startTime.value, now);
      if left == 0.0 then (0.0, Idle) else (left, c)
  }

  lemma RemainingBounds(cooldown: real, start: real, now: real)
    requires start <= now
    ensures 0.0 <= Remaining(cooldown, start, now)
    ensures cooldown >= 0.0 ==> Remaining(cooldown, start, now) <= cooldown
    ensures Remaining(cooldown, start, now) == 0.0 <==> start + cooldown <= now
  {
  }

  /** The countdown runs at wall-clock speed until it reaches 0, and never goes back up. */
  lemma RemainingCountsDown(cooldown: real, start: real, t1: real, t2: real)
    requires t1 <= t2
    ensures Remaining(cooldown, start, t2) <= Remaining(cooldown, start, t1)
    ensures Remaining(cooldown, start, t2) > 0.0 ==>
      Remaining(cooldown, start, t1) - Remaining(cooldown, start, t2) == t2 - t1
  {
  }

  lemma QueryKeepsConsistent(c: Clock, cooldown: real, now: real)
    requires Consistent(c)
    ensures Consistent(Query(c, cooldown, now).1)
  {
  }

  /** What a query returns tells whether the clock is still running afterwards, which is what `is_ready` answers. */
  lemma QueryZeroIffStopped(c: Clock, cooldown: real, now: real)
    requires Consistent(c)
    ensures Query(c, cooldown, now).0 == 0.0 <==> !Query(c, cooldown, now).1.isActive
    ensures Query(c, cooldown, now).0 >= 0.0
  {
  }

  /** An active clock queried at or after its start: either it still runs, with 0 < left <= cooldown, or it has been reset. */
  lemma QueryActive(start: real, cooldown: real, now: real)
    requires start <= now
    ensures var (left, after) := Query(Clock(Some(start), true), cooldown, now);
      && (after == Idle || after == Clock(Some(start), true))
      && (after == Idle <==> start + cooldown <= now)
      && (after == Idle ==> left == 0.0)
      && (after != Idle ==> 0.0 < left <= cooldown && left == start + cooldown - now)
  {
  }

  /** Queried at the very moment it started, a clock shows the full cooldown (a zero cooldown is reset at once). */
  lemma QueryAtStart(t: real, cooldown: real)
    ensures cooldown > 0.0 ==> Query(Clock(Some(t), true), cooldown, t) == (cooldown, Clock(Some(t), true))
    ensures cooldown <= 0.0 ==> Query(Clock(Some(t), true), cooldown, t) == (0.0, Idle)
  {
  }

  /** Once the deadline is reached the query resets the clock, and every later query sees an idle clock. */
  lemma QueryAfterDeadline(start: real, cooldown: real, now: real, later: real)
    requires start + cooldown <= now
    ensures Query(Clock(Some(start), true), cooldown, now) == (0.0, Idle)
    ensures Query(Idle, cooldown, later) == (0.0, Idle)
  {
  }

  /** `min(a, b)` */
  function Min(a: int, b: int): int {
    if a <= b then a else b
  }

  /** `(level + 1) % min(3, n)`: the rank tier after one click, for a timer with `n > 0` cooldown entries. */
  function NextLevel(level: nat, n: nat): (next: nat)
    requires n > 0
    ensures next < Min(3, n) && next < n
    ensures level + 1 < Min(3, n) ==> next == level + 1
  {
    (level + 1) % Min(3, n)
  }

  /** Ranks cycle 0 -> 1 -> 2 -> 0 with three or more entries, 0 -> 1 -> 0 with two, and stay at 0 with one. */
  lemma NextLevelCycles(n: nat)
    requires n > 0
    ensures n >= 3 ==> NextLevel(0, n) == 1 && NextLevel(1, n) == 2 && NextLevel(2, n) == 0
    ensures n == 2 ==> NextLevel(0, n) == 1 && NextLevel(1, n) == 0
    ensures n == 1 ==> NextLevel(0, n) == 0
  {
  }

  /** The ultimate cooldown timer of one champion: base cooldowns by rank tier, the current tier, and the clock. */
  class CooldownTimer {
    const champion: string
    const cooldowns: seq<real>
    var level: nat
    var startTime: Option<real>
    var isActive: bool

    ghost predicate Valid()
      reads this
    {
      Consistent(State())
    }

    function State(): Clock
      reads this
    {
      Clock(startTime, isActive)
    }

    constructor (champion: string, cooldowns: seq<real>, level: nat)
      ensures Valid()
      ensures this.champion == champion && this.cooldowns == cooldowns && this.level == level
      ensures State() == Idle
    {
      this.champion := champion;
      this.cooldowns := cooldowns;
      this.level := level;
      startTime := None;
      isActive := false;
    }

    /** Starts the countdown at `now` unless it already runs or there is no cooldown to count. */
    method Start(now: real)
      requires Valid()
      modifies this`startTime, this`isActive
      ensures Valid()
      ensures State() == if !old(isActive) && |cooldowns| > 0 then Clock(Some(now), true) else old(State())
    {
      if !isActive && |cooldowns| > 0 {
        startTime := Some(now);
        isActive := true;
      }
    }

    method Reset()
      modifies this`startTime, this`isActive
      ensures Valid() && State() == Idle
    {
      startTime := None;
      isActive := false;
    }

    /** The base cooldown of the current rank tier; 0 when the tier has no entry. */
    function CurrentCooldown(): (cooldown: real)
      reads this
      ensures level < |cooldowns| ==> cooldown == cooldowns[level]
      ensures level >= |cooldowns| ==> cooldown == 0.0
      ensures cooldown == 0.0 || cooldown in cooldowns
    {
      if |cooldowns| == 0 || level >= |cooldowns| then 0.0 else cooldowns[level]
    }

    /** The seconds left at `now`; an expired countdown is reset by this call. */
    method GetRemainingTime(now: real) returns (remaining: real)
      requires Valid()
      modifies this`startTime, this`isActive
      ensures Valid()
      ensures (remaining, State()) == Query(old(State()), CurrentCooldown(), now)
    {
      if !isActive || startTime.None? {
        return 0.0;
      }
      var elapsed := now - startTime.value;
      var cooldown := CurrentCooldown();
      remaining := cooldown - elapsed;
      if remaining <= 0.0 {
        Reset();
        return 0.0;
      }
    }

    /** Whether the ability is up at `now`; the lazy expiry of GetRemainingTime happens here too. */
    method IsReady(now: real) returns (ready: bool)
      requires Valid()
      modifies this`startTime, this`isActive
      ensures Valid()
      ensures State() == Query(old(State()), CurrentCooldown(), now).1
      ensures ready <==> !isActive
    {
      if !isActive {
        return true;
      }
      var remaining := GetRemainingTime(now);
      QueryZeroIffStopped(old(State()), CurrentCooldown(), now);
      ready := remaining <= 0.0;
    }

    /** Chooses a rank tier; a tier without a cooldown entry is ignored. */
    method SetLevel(newLevel: int)
      modifies this`level
      ensures level == if 0 <= newLevel < |cooldowns| then newLevel else old(level)
    {
      if 0 <= newLevel < |cooldowns| {
        level := newLevel;
      }
    }

    /**
      Moves to the next rank tier, cycling among at most three. With no cooldown
      entries the source divides by zero: `raised` reports that, and nothing changes.
    */
    method IncrementLevel() returns (raised: bool)
      modifies this`level
      ensures raised <==> |cooldowns| == 0
      ensures level == if raised then old(level) else NextLevel(old(level), |cooldowns|)
    {
      if |cooldowns| == 0 {
        return true;
      }
      level := (level + 1) % Min(3, |cooldowns|);
      raised := false;
    }
  }

  /** The cooldown timer of one summoner spell: a single cooldown and the clock. */
  class SummonerSpellTimer {
    const spell: string
    const cooldown: real
    var startTime: Option<real>
    var isActive: bool

    ghost predicate Valid()
      reads this
    {
      Consistent(State())
    }

    function State(): Clock
      reads this
    {
      Clock(startTime, isActive)
    }

    constructor (spell: string, cooldown: real)
      ensures Valid()
      ensures this.spell == spell && this.cooldown == cooldown
      ensures State() == Idle
    {
      this.spell := spell;
      this.cooldown := cooldown;
      startTime := None;
      isActive := false;
    }

    /** Starts the countdown at `now` unless it already runs; there is no guard on the cooldown value. */
    method Start(now: real)
      requires Valid()
      modifies this`startTime, this`isActive
      ensures Valid()
      ensures State() == if !old(isActive) then Clock(Some(now), true) else old(State())
    {
      if !isActive {
        startTime := Some(now);
        isActive := true;
      }
    }

    method Reset()
      modifies this`startTime, this`isActive
      ensures Valid() && State() == Idle
    {
      startTime := None;
      isActive := false;
    }

    method GetRemainingTime(now: real) returns (remaining: real)
      requires Valid()
      modifies this`startTime, this`isActive
      ensures Valid()
      ensures (remaining, State()) == Query(old(State()), cooldown, now)
    {
      if !isActive || startTime.None? {
        return 0.0;
      }
      var elapsed := now - startTime.value;
      remaining := cooldown - elapsed;
      if remaining <= 0.0 {
        Reset();
        return 0.0;
      }
    }

    method IsReady(now: real) returns (ready: bool)
      requires Valid()
      modifies this`startTime, this`isActive
      ensures Valid()
      ensures State() == Query(old(State()), cooldown, now).1
      ensures ready <==> !isActive
    {
      if !isActive {
        return true;
      }
      var remaining := GetRemainingTime(now);
      QueryZeroIffStopped(old(State()), cooldown, now);
      ready := remaining <= 0.0;
    }
  }

  /** An observer registered with the manager, known by an identifier. */
  type Callback = nat

  /**
    The timers of the overlay: ultimate timers by slot, summoner spell timers by
    (slot, spell slot), and the observers to call after each change. `invocations`
    records every observer call, in order.
  */
  class TimerManager {
    var timers: map<int, CooldownTimer>
    var spellTimers: map<(int, int), SummonerSpellTimer>
    var callbacks: seq<Callback>
    var invocations: seq<Callback>

    /** Every timer keeps its own invariant, and no timer object sits under two keys. */
    ghost predicate Valid()
      reads this`timers, this`spellTimers, timers.Values, spellTimers.Values
    {
      && (forall s :: s in timers ==> timers[s].Valid())
      && (forall s, t :: s in timers && t in timers && s != t ==> timers[s] != timers[t])
      && (forall k :: k in spellTimers ==> spellTimers[k].Valid())
      && (forall k, l :: k in spellTimers && l in spellTimers && k != l ==> spellTimers[k] != spellTimers[l])
    }

    constructor ()
      ensures Valid()
      ensures timers == map[] && spellTimers == map[] && callbacks == [] && invocations == []
    {
      timers := map[];
      spellTimers := map[];
      callbacks := [];
      invocations := [];
    }

    /** Calls every registered observer once, in registration order. */
    method NotifyUpdate()
      modifies this`invocations
      ensures invocations == old(invocations) + callbacks
    {
      for i := 0 to |callbacks|
        invariant invocations == old(invocations) + callbacks[..i]
      {
        invocations := invocations + [callbacks[i]];
      }
      assert callbacks[..|callbacks|] == callbacks;
    }

    method RegisterUpdateCallback(callback: Callback)
      modifies this`callbacks
      ensures callbacks == old(callbacks) + [callback]
    {
      callbacks := callbacks + [callback];
    }

    /** An explicit refresh request: the observers are called unconditionally. */
    method Update()
      modifies this`invocations
      ensures invocations == old(invocations) + callbacks
    {
      NotifyUpdate();
    }

    /** Puts a fresh, idle timer in `slot`, replacing whatever was there. */
    method CreateTimer(slot: int, champion: string, cooldowns: seq<real>, level: nat)
      requires Valid()
      modifies this`timers
      ensures Valid()
      ensures slot in timers && fresh(timers[slot])
      ensures timers == old(timers)[slot := timers[slot]]
      ensures timers[slot].champion == champion && timers[slot].cooldowns == cooldowns
      ensures timers[slot].level == level && timers[slot].State() == Idle
    {
      var timer := new CooldownTimer(champion, cooldowns, level);
      timers := timers[slot := timer];
    }

    /** Drops the timer of `slot`, if any. */
    method RemoveTimer(slot: int)
      requires Valid()
      modifies this`timers
      ensures Valid()
      ensures timers == old(timers) - {slot}
    {
      if slot in timers {
        timers := timers - {slot};
      }
    }

    function GetTimer(slot: int): (timer: Option<CooldownTimer>)
      reads this`timers
      ensures timer.Some? <==> slot in timers
      ensures timer.Some? ==> timer.value == timers[slot]
    {
      if slot in timers then Some(timers[slot]) else None
    }

    method StartTimer(slot: int, now: real)
      requires Valid()
      modifies this`invocations, if slot in timers then {timers[slot]} else {}
      ensures Valid()
      ensures slot !in timers ==> invocations == old(invocations)
      ensures slot in timers ==> invocations == old(invocations) + callbacks
      ensures slot in timers ==>
        var t := timers[slot];
        && t.level == old(t.level)
        && t.State() == if !old(t.isActive) && |t.cooldowns| > 0 then Clock(Some(now), true) else old(t.State())
    {
      var timer := GetTimer(slot);
      if timer.Some? {
        timer.value.Start(now);
        NotifyUpdate();
      }
    }

    method ResetTimer(slot: int)
      requires Valid()
      modifies this`invocations, if slot in timers then {timers[slot]} else {}
      ensures Valid()
      ensures slot !in timers ==> invocations == old(invocations)
      ensures slot in timers ==> invocations == old(invocations) + callbacks
      ensures slot in timers ==> timers[slot].level == old(timers[slot].level) && timers[slot].State() == Idle
    {
      var timer := GetTimer(slot);
      if timer.Some? {
        timer.value.Reset();
        NotifyUpdate();
      }
    }

    method SetLevel(slot: int, level: int)
      requires Valid()
      modifies this`invocations, if slot in timers then {timers[slot]} else {}
      ensures Valid()
      ensures slot !in timers ==> invocations == old(invocations)
      ensures slot in timers ==> invocations == old(invocations) + callbacks
      ensures slot in timers ==>
        var t := timers[slot];
        && t.State() == old(t.State())
        && t.level == if 0 <= level < |t.cooldowns| then level else old(t.level)
    {
      var timer := GetTimer(slot);
      if timer.Some? {
        timer.value.SetLevel(level);
        NotifyUpdate();
      }
    }

    /** Advances the rank of `slot`'s timer; `raised` is the division by zero of a timer without cooldowns, after which nobody is notified. */
    method IncrementLevel(slot: int) returns (raised: bool)
      requires Valid()
      modifies this`invocations, if slot in timers then {timers[slot]} else {}
      ensures Valid()
      ensures raised <==> slot in timers && |timers[slot].cooldowns| == 0
      ensures invocations == if slot in timers && !raised then old(invocations) + callbacks else old(invocations)
      ensures slot in timers ==>
        var t := timers[slot];
        && t.State() == old(t.State())
        && t.level == if raised then old(t.level) else NextLevel(old(t.level), |t.cooldowns|)
    {
      var timer := GetTimer(slot);
      raised := false;
      if timer.Some? {
        raised := timer.value.IncrementLevel();
        if !raised {
          NotifyUpdate();
        }
      }
    }

    /** Puts a fresh, idle spell timer under (slot, spellSlot), replacing whatever was there. */
    method CreateSummonerSpellTimer(slot: int, spellSlot: int, spell: string, cooldown: real)
      requires Valid()
      modifies this`spellTimers
      ensures Valid()
      ensures (slot, spellSlot) in spellTimers && fresh(spellTimers[(slot, spellSlot)])
      ensures spellTimers == old(spellTimers)[(slot, spellSlot) := spellTimers[(slot, spellSlot)]]
      ensures spellTimers[(slot, spellSlot)].spell == spell && spellTimers[(slot, spellSlot)].cooldown == cooldown
      ensures spellTimers[(slot, spellSlot)].State() == Idle
    {
      var timer := new SummonerSpellTimer(spell, cooldown);
      spellTimers := spellTimers[(slot, spellSlot) := timer];
    }

    method RemoveSummonerSpellTimer(slot: int, spellSlot: int)
      requires Valid()
      modifies this`spellTimers
      ensures Valid()
      ensures spellTimers == old(spellTimers) - {(slot, spellSlot)}
    {
      var key := (slot, spellSlot);
      if key in spellTimers {
        spellTimers := spellTimers - {key};
      }
    }

    function GetSummonerSpellTimer(slot: int, spellSlot: int): (timer: Option<SummonerSpellTimer>)
      reads this`spellTimers
      ensures timer.Some? <==> (slot, spellSlot) in spellTimers
      ensures timer.Some? ==> timer.value == spellTimers[(slot, spellSlot)]
    {
      if (slot, spellSlot) in spellTimers then Some(spellTimers[(slot, spellSlot)]) else None
    }

    method StartSummonerSpellTimer(slot: int, spellSlot: int, now: real)
      requires Valid()
      modifies this`invocations, if (slot, spellSlot) in spellTimers then {spellTimers[(slot, spellSlot)]} else {}
      ensures Valid()
      ensures (slot, spellSlot) !in spellTimers ==> invocations == old(invocations)
      ensures (slot, spellSlot) in spellTimers ==> invocations == old(invocations) + callbacks
      ensures (slot, spellSlot) in spellTimers ==>
        var t := spellTimers[(slot, spellSlot)];
        t.State() == if !old(t.isActive) then Clock(Some(now), true) else old(t.State())
    {
      var timer := GetSummonerSpellTimer(slot, spellSlot);
      if timer.Some? {
        timer.value.Start(now);
        NotifyUpdate();
      }
    }

    method ResetSummonerSpellTimer(slot: int, spellSlot: int)
      requires Valid()
      modifies this`invocations, if (slot, spellSlot) in spellTimers then {spellTimers[(slot, spellSlot)]} else {}
      ensures Valid()
      ensures (slot, spellSlot) !in spellTimers ==> invocations == old(invocations)
      ensures (slot, spellSlot) in spellTimers ==> invocations == old(invocations) + callbacks
      ensures (slot, spellSlot) in spellTimers ==> spellTimers[(slot, spellSlot)].State() == Idle
    {
      var timer := GetSummonerSpellTimer(slot, spellSlot);
      if timer.Some? {
        timer.value.Reset();
        NotifyUpdate();
      }
    }
  }
}
