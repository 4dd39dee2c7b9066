/** The live-latency controller of the player: how close to live it plays and how fast it catches up. */
module Latency {
  import opened Text

  const HARD_JUMP_SEC := 8.0
  const TARGET_SLACK_SEC := 1.5
  const STABLE_UPGRADE_MS := 30000.0
  const STALL_DOWNGRADE_THRESHOLD := 3
  const FETCH_RATIO_CAP := 1.35
  const MODE_TRANSITION_COOLDOWN_MS := 4000.0

  /** From the fastest to the slowest. */
  datatype Mode = Instant | Fast | Stable

  function Index(m: Mode): nat {
    match m
    case Instant => 0
    case Fast => 1
    case Stable => 2
  }

  function Slower(m: Mode): Mode {
    match m
    case Instant => Fast
    case _ => Stable
  }

  function Faster(m: Mode): Mode {
    match m
    case Stable => Fast
    case _ => Instant
  }

  function Target(m: Mode, llHls: bool): real {
    match m
    case Instant => if llHls then 1.5 else 2.5
    case Fast => if llHls then 2.5 else 4.0
    case Stable => if llHls then 4.0 else 6.0
  }

  function CatchUpRate(m: Mode): real {
    match m
    case Instant => 1.3
    case Fast => 1.2
    case Stable => 1.05
  }

  datatype Input = Input(
    now: real, behindLive: Option<real>, bufferSize: Option<real>, stalls: int,
    fetchRatio: Option<real>, levelCount: int, currentLevel: int)

  datatype Output = Output(
    effectiveMode: Mode, maxLiveSyncPlaybackRate: real, shouldJumpLive: bool,
    playbackRate: real, levelCap: Option<int>)

  datatype Settings = Settings(userMode: Mode, llHls: bool)

  /** A `stableSince` of zero means not stable. */
  datatype State = State(
    effective: Mode, stableSince: real, lastModeChangeAt: real, lastStallCount: int, levelCap: Option<int>)

  function Or(x: Option<real>, d: real): real {
    match x
    case Some(v) => v
    case None => d
  }

  function Min(a: real, b: real): real {
    if a <= b then a else b
  }

  function ResetTo(mode: Mode): State {
    State(mode, 0.0, -MODE_TRANSITION_COOLDOWN_MS, 0, None)
  }

  function Behind(i: Input): real {
    Or(i.behindLive, 0.0)
  }

  function StallDelta(s: State, i: Input): int {
    if i.stalls - s.lastStallCount > 0 then i.stalls - s.lastStallCount else 0
  }

  function Rate(c: Settings, s: State, i: Input): real {
    var target := Target(s.effective, c.llHls);
    if Behind(i) > HARD_JUMP_SEC then 1.0
    else if Behind(i) > target + TARGET_SLACK_SEC then
      Min(CatchUpRate(s.effective), 1.0 + Min(0.3, (Behind(i) - target) / 10.0))
    else 1.0
  }

  /** The start of the stable stretch as the position behind live leaves it. */
  function Steady(c: Settings, s: State, i: Input): real {
    if Behind(i) > HARD_JUMP_SEC || Behind(i) > Target(s.effective, c.llHls) then 0.0
    else if s.stableSince == 0.0 then i.now
    else s.stableSince
  }

  predicate Pressure(i: Input) {
    i.fetchRatio.Some? && i.fetchRatio.value >= FETCH_RATIO_CAP
  }

  predicate LongSteady(since: real, now: real) {
    since > 0.0 && now - since >= STABLE_UPGRADE_MS
  }

  function Cap(c: Settings, s: State, i: Input): Option<int> {
    if Pressure(i) && i.levelCount > 1 && i.currentLevel > 0 then Some(i.currentLevel - 1)
    else if !Pressure(i) && s.levelCap.Some? && LongSteady(Steady(c, s, i), i.now) then None
    else s.levelCap
  }

  predicate CanChange(s: State, i: Input) {
    i.now - s.lastModeChangeAt >= MODE_TRANSITION_COOLDOWN_MS
  }

  /** Three stalls or more since the last tick make the player fall back, once the last change is old enough. */
  predicate Downgrades(s: State, i: Input) {
    CanChange(s, i) && StallDelta(s, i) >= STALL_DOWNGRADE_THRESHOLD && s.effective != Stable
  }

  /** A long steady stretch with enough in the buffer asks for a step back up, unless that only reaches the user's mode. */
  predicate Recovers(c: Settings, s: State, i: Input) {
    && !Downgrades(s, i) && CanChange(s, i)
    && s.effective != c.userMode
    && LongSteady(Steady(c, s, i), i.now)
    && Or(i.bufferSize, 0.0) >= Target(s.effective, c.llHls)
    && StallDelta(s, i) == 0
    && Index(Faster(s.effective)) < Index(c.userMode)
  }

  function Shift(c: Settings, s: State, i: Input): State {
    var t := s.(stableSince := Steady(c, s, i), lastStallCount := i.stalls, levelCap := Cap(c, s, i));
    if Downgrades(s, i) then t.(effective := Slower(s.effective), lastModeChangeAt := i.now, stableSince := 0.0)
    else if Recovers(c, s, i) then t.(effective := Faster(s.effective), lastModeChangeAt := i.now, stableSince := 0.0)
    else t
  }

  function Ticked(c: Settings, s: State, i: Input): State {
    var t := Shift(c, s, i);
    if Index(t.effective) < Index(c.userMode) then t.(effective := c.userMode) else t
  }

  // ---------------------------------------------------------------- single ticks

  /** A tick falls back by at most one mode, never past the user's choice towards live: recovery leaves no trace on it. */
  lemma RecoveryNeverSpeedsUp(c: Settings, s: State, i: Input)
    ensures
      var kept := if Downgrades(s, i) then Slower(s.effective) else s.effective;
      Ticked(c, s, i).effective == if Index(kept) < Index(c.userMode) then c.userMode else kept
    ensures Index(Ticked(c, s, i).effective) >= Index(c.userMode)
    ensures Index(Ticked(c, s, i).effective) >= Index(s.effective)
  {
  }

  /** The recovery branch runs only while a reset holds a mode faster than the user's, which no tick leaves standing. */
  lemma RecoveryNeedsAFasterReset(c: Settings, s: State, i: Input, next: Input)
    ensures Recovers(c, s, i) ==> Index(s.effective) < Index(c.userMode)
    ensures !Recovers(c, Ticked(c, s, i), next)
  {
  }

  /** The speed stays between real time and what the mode before the tick allows, and rises only within reach of live. */
  lemma RateIsBounded(c: Settings, s: State, i: Input)
    ensures 1.0 <= Rate(c, s, i) <= CatchUpRate(s.effective)
    ensures Rate(c, s, i) > 1.0 <==> Target(s.effective, c.llHls) + TARGET_SLACK_SEC < Behind(i) <= HARD_JUMP_SEC
  {
  }

  /**
   The speed is chosen before the mode: it exceeds the new mode's limit exactly when
   falling back, or going back to the user's mode after a reset to a faster one,
   lowers the limit below it.
   */
  lemma RateMayOutrunTheNewMode(c: Settings, s: State, i: Input)
    ensures Rate(c, s, i) > CatchUpRate(Ticked(c, s, i).effective) <==>
      || (Downgrades(s, i) && Rate(c, s, i) > CatchUpRate(Slower(s.effective)))
      || (Index(s.effective) < Index(c.userMode) && Rate(c, s, i) > CatchUpRate(c.userMode))
  {
    RateIsBounded(c, s, i);
    RecoveryNeverSpeedsUp(c, s, i);
    hide Ticked, Rate, Downgrades;
  }

  /** Without any stall: the first tick after a reset to a mode faster than the user's. */
  lemma RateOutrunsAfterAFasterReset(i: Input)
    requires i.behindLive == Some(5.0) && i.stalls == 0
    ensures
      var c, s := Settings(Stable, false), ResetTo(Instant);
      !Downgrades(s, i) && Ticked(c, s, i).effective == Stable && Rate(c, s, i) == 1.25 && CatchUpRate(Stable) == 1.05
  {
  }

  // ---------------------------------------------------------------- runs between resets

  /** The state before tick `n` of a run that starts at `s`. */
  function At(c: Settings, s: State, ticks: seq<Input>, n: nat): State
    requires n <= |ticks|
  {
    if n == 0 then s else Ticked(c, At(c, s, ticks, n - 1), ticks[n - 1])
  }

  ghost predicate Ordered(ticks: seq<Input>) {
    forall i, j :: 0 <= i < j < |ticks| ==> ticks[i].now <= ticks[j].now
  }

  /** How many of the first `n` ticks fall back. */
  function FallBacks(c: Settings, s: State, ticks: seq<Input>, n: nat): nat
    requires n <= |ticks|
  {
    if n == 0 then 0
    else FallBacks(c, s, ticks, n - 1) + if Downgrades(At(c, s, ticks, n - 1), ticks[n - 1]) then 1 else 0
  }

  /** Each fall-back costs a mode for good, so between resets there are two at most. */
  lemma {:induction false} FallBacksAreFinal(c: Settings, s: State, ticks: seq<Input>, n: nat)
    requires n <= |ticks|
    ensures Index(s.effective) + FallBacks(c, s, ticks, n) <= Index(At(c, s, ticks, n).effective) <= 2
  {
    if n > 0 {
      FallBacksAreFinal(c, s, ticks, n - 1);
      RecoveryNeverSpeedsUp(c, At(c, s, ticks, n - 1), ticks[n - 1]);
      hide Ticked;
    }
  }

  lemma {:induction false} ChangesAreRemembered(c: Settings, s: State, ticks: seq<Input>, i: nat, n: nat)
    requires Ordered(ticks) && i < n <= |ticks| && Downgrades(At(c, s, ticks, i), ticks[i])
    ensures ticks[i].now <= At(c, s, ticks, n).lastModeChangeAt
    decreases n - i
  {
    if n > i + 1 {
      ChangesAreRemembered(c, s, ticks, i, n - 1);
    }
  }

  /** Between resets two fall-backs are at least four seconds apart. */
  lemma FallBacksAreSpaced(c: Settings, s: State, ticks: seq<Input>, i: nat, j: nat)
    requires Ordered(ticks) && i < j < |ticks|
    requires Downgrades(At(c, s, ticks, i), ticks[i]) && Downgrades(At(c, s, ticks, j), ticks[j])
    ensures ticks[j].now - ticks[i].now >= MODE_TRANSITION_COOLDOWN_MS
  {
    ChangesAreRemembered(c, s, ticks, i, j);
  }

  /** From tick `k` up to tick `n` the player was never further behind live than its mode allows. */
  ghost predicate KeptUp(c: Settings, s: State, ticks: seq<Input>, k: nat, n: nat)
    requires k <= n <= |ticks|
  {
    forall j: nat :: k <= j < n ==> Behind(ticks[j]) <= Target(At(c, s, ticks, j).effective, c.llHls)
  }

  lemma {:induction false} StableSinceIsKeptUp(c: Settings, s: State, ticks: seq<Input>, n: nat) returns (k: nat)
    requires n <= |ticks| && s.stableSince == 0.0 && At(c, s, ticks, n).stableSince != 0.0
    ensures k < n && ticks[k].now == At(c, s, ticks, n).stableSince && KeptUp(c, s, ticks, k, n)
  {
    var before := At(c, s, ticks, n - 1);
    hide Downgrades, Recovers, Cap;
    if before.stableSince == 0.0 {
      k := n - 1;
    } else {
      k := StableSinceIsKeptUp(c, s, ticks, n - 1);
    }
  }

  /** The limit on quality is lifted only after thirty seconds of keeping up, by a tick without fetch pressure. */
  lemma CapIsLiftedLate(c: Settings, s: State, ticks: seq<Input>, n: nat) returns (k: nat)
    requires n < |ticks| && s.stableSince == 0.0
    requires At(c, s, ticks, n).levelCap.Some? && At(c, s, ticks, n + 1).levelCap.None?
    ensures k <= n && !Pressure(ticks[n])
    ensures ticks[n].now - ticks[k].now >= STABLE_UPGRADE_MS && KeptUp(c, s, ticks, k, n + 1)
  {
    var before := At(c, s, ticks, n);
    assert Cap(c, before, ticks[n]).None?;
    if before.stableSince == 0.0 {
      k := n;
    } else {
      k := StableSinceIsKeptUp(c, s, ticks, n);
    }
  }

  // ---------------------------------------------------------------- the controller

  class Controller {
    const settings: Settings
    var effectiveMode: Mode
    var stableSince: real
    var lastModeChangeAt: real
    var lastStallCount: int
    var levelCap: Option<int>

    constructor (userMode: Mode, llHls: bool)
      ensures settings == Settings(userMode, llHls) && View() == ResetTo(userMode)
    {
      settings := Settings(userMode, llHls);
      effectiveMode, stableSince, lastStallCount, levelCap := userMode, 0.0, 0, None;
      lastModeChangeAt := -MODE_TRANSITION_COOLDOWN_MS;
    }

    function View(): State
      reads this
    {
      State(effectiveMode, stableSince, lastModeChangeAt, lastStallCount, levelCap)
    }

    method Tick(input: Input) returns (o: Output)
      modifies this
      ensures View() == Ticked(settings, old(View()), input)
      ensures o == Output(View().effective, CatchUpRate(View().effective), Behind(input) > HARD_JUMP_SEC,
                          Rate(settings, old(View()), input), View().levelCap)
    {
      hide Target, CatchUpRate, Slower, Faster, Index, Or, Min;
      ghost var before := View();
      var now := input.now;
      var target := Target(effectiveMode, settings.llHls);
      var behind := Or(input.behindLive, 0.0);
      var stallDelta := if input.stalls - lastStallCount > 0 then input.stalls - lastStallCount else 0;
      lastStallCount := input.stalls;

      var shouldJumpLive, playbackRate := false, 1.0;
      if behind > HARD_JUMP_SEC {
        shouldJumpLive := true;
        stableSince := 0.0;
      } else if behind > target + TARGET_SLACK_SEC {
        playbackRate := Min(CatchUpRate(effectiveMode), 1.0 + Min(0.3, (behind - target) / 10.0));
        stableSince := 0.0;
      } else if behind <= target {
        if stableSince == 0.0 {
          stableSince := now;
        }
      } else {
        stableSince := 0.0;
      }
      assert stableSince == Steady(settings, before, input);
      assert playbackRate == Rate(settings, before, input);

      var fetchPressure := input.fetchRatio.Some? && input.fetchRatio.value >= FETCH_RATIO_CAP;
      if fetchPressure && input.levelCount > 1 && input.currentLevel > 0 {
        levelCap := Some(if input.currentLevel - 1 > 0 then input.currentLevel - 1 else 0);
      } else if !fetchPressure && levelCap.Some? && stableSince > 0.0 && now - stableSince >= STABLE_UPGRADE_MS {
        levelCap := None;
      }

      assert levelCap == Cap(settings, before, input);

      var canChangeMode := now - lastModeChangeAt >= MODE_TRANSITION_COOLDOWN_MS;
      assert stallDelta == StallDelta(before, input);
      hide Cap, Rate, Steady, StallDelta;
      if canChangeMode && stallDelta >= STALL_DOWNGRADE_THRESHOLD && effectiveMode != Stable {
        effectiveMode := Slower(effectiveMode);
        lastModeChangeAt := now;
        stableSince := 0.0;
      } else if
        && canChangeMode
        && effectiveMode != settings.userMode
        && stableSince > 0.0
        && now - stableSince >= STABLE_UPGRADE_MS
        && Or(input.bufferSize, 0.0) >= target
        && stallDelta == 0
      {
        var next := Faster(effectiveMode);
        if Index(next) < Index(settings.userMode) {
          effectiveMode := next;
          lastModeChangeAt := now;
          stableSince := 0.0;
        }
      }

      if Index(effectiveMode) < Index(settings.userMode) {
        effectiveMode := settings.userMode;
      }

      o := Output(effectiveMode, CatchUpRate(effectiveMode), shouldJumpLive, playbackRate, levelCap);
    }

    /** Starts over in the given mode; what the user chose at first stays the limit. */
    method Reset(mode: Mode)
      modifies this
      ensures View() == ResetTo(mode)
    {
      effectiveMode := mode;
      stableSince := 0.0;
      lastModeChangeAt := -MODE_TRANSITION_COOLDOWN_MS;
      lastStallCount := 0;
      levelCap := None;
    }
  }
}
