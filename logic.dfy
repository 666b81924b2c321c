/** Scoring, levels, drop timing, the firewall challenge and system
    corruption (src/game/GameLogic.js). */
module Logic {
  import opened Board

  const START_DELAY := 60
  const MIN_DELAY := 3
  const FIREWALL_MIN_DELAY: real := 10.0
  const FIREWALL_DURATION := 600
  const MAX_CORRUPTION: real := 100.0
  const DECAY: real := 0.1
  const PURGE_RELIEF: real := 20.0

  function RMax(a: real, b: real): real { if a >= b then a else b }
  function RMin(a: real, b: real): real { if a <= b then a else b }

  /** Points for clearing n lines at level 1. */
  function Multiplier(n: int): int
    requires 1 <= n <= 4
  {
    if n == 1 then 40 else if n == 2 then 100 else if n == 3 then 300 else 1200
  }

  function Pow(b: real, n: nat): real {
    if n == 0 then 1.0 else b * Pow(b, n - 1)
  }

  /** Math.floor(lines / 10) + 1; Dafny's division floors for a positive divisor. */
  function LevelFor(lines: int): int {
    lines / 10 + 1
  }

  /** max(3, floor(60 * 0.8^(level - 1))), with 0.8 an exact rational. */
  function BaseDelayFor(level: int): int
    requires level >= 1
  {
    var v := (START_DELAY as real * Pow(0.8, level - 1)).Floor;
    if v >= MIN_DELAY then v else MIN_DELAY
  }

  /** The firewall test: a positive multiple of 10. */
  predicate IsFirewallLevel(level: int) {
    level % 10 == 0 && level > 0
  }

  /** All fields of a GameLogic object. */
  datatype LogicState = LogicState(
    score: int, lines: int, level: int,
    dropTimer: int, dropDelay: real, baseDropDelay: int,
    firewallMode: bool, firewallTimer: int,
    corruption: real, glitch: real)

  function Initial(): LogicState {
    LogicState(0, 0, 1, 0, START_DELAY as real, START_DELAY, false, 0, 0.0, 0.0)
  }

  /** The drop delay never falls below 3 ticks, nor below 10 while the
      firewall throttles the drop. */
  predicate DelayFloor(s: LogicState) {
    s.dropDelay >= MIN_DELAY as real && (s.firewallMode ==> s.dropDelay >= FIREWALL_MIN_DELAY)
  }

  /** What every reachable state satisfies. */
  predicate Consistent(s: LogicState) {
    s.score >= 0 && s.lines >= 0 && s.level >= 1 && s.dropTimer >= 0 && DelayFloor(s)
    && s.baseDropDelay == BaseDelayFor(s.level)
    && 0 <= s.firewallTimer < FIREWALL_DURATION && (!s.firewallMode ==> s.firewallTimer == 0)
  }

  /** Corruption lies in [0, 100] and the glitch intensity in [0, 1]. */
  predicate CorruptionInRange(s: LogicState) {
    0.0 <= s.corruption <= MAX_CORRUPTION && 0.0 <= s.glitch <= 1.0
  }

  // ---------------------------------------------------------------------
  // Transitions, one per method

  function DropTicked(s: LogicState): LogicState {
    s.(dropTimer := s.dropTimer + 1)
  }

  predicate DropDue(s: LogicState) {
    s.dropTimer as real >= s.dropDelay
  }

  function DropChecked(s: LogicState): LogicState {
    if DropDue(s) then s.(dropTimer := 0) else s
  }

  function FirewallActivated(s: LogicState): LogicState {
    s.(firewallMode := true, firewallTimer := 0, dropDelay := RMax(FIREWALL_MIN_DELAY, s.dropDelay / 3.0))
  }

  function FirewallDeactivated(s: LogicState): LogicState {
    s.(firewallMode := false, firewallTimer := 0, dropDelay := s.baseDropDelay as real)
  }

  function FirewallTicked(s: LogicState): LogicState {
    var a := if IsFirewallLevel(s.level) && !s.firewallMode then FirewallActivated(s) else s;
    if a.firewallMode then
      var b := a.(firewallTimer := a.firewallTimer + 1);
      if b.firewallTimer >= FIREWALL_DURATION then FirewallDeactivated(b) else b
    else a
  }

  function CorruptionDecayed(s: LogicState): LogicState {
    var c := if s.corruption > 0.0 then RMax(0.0, s.corruption - DECAY) else s.corruption;
    s.(corruption := c, glitch := c / MAX_CORRUPTION)
  }

  function DropSpeedUpdated(s: LogicState): LogicState
    requires s.level >= 1
  {
    var b := BaseDelayFor(s.level);
    s.(baseDropDelay := b, dropDelay := if s.firewallMode then s.dropDelay else b as real)
  }

  function LevelUpdated(s: LogicState): LogicState
    requires s.lines >= 0
  {
    var newLevel := LevelFor(s.lines);
    if newLevel != s.level then DropSpeedUpdated(s.(level := newLevel)) else s
  }

  function Ticked(s: LogicState): LogicState
    requires s.lines >= 0
  {
    LevelUpdated(CorruptionDecayed(FirewallTicked(DropTicked(s))))
  }

  function ScoreAdded(s: LogicState, n: int): LogicState {
    if 0 < n <= 4 then
      var points := Multiplier(n) * s.level;
      var bonus := if s.firewallMode then points * 2 else points;
      s.(score := s.score + bonus, lines := s.lines + n,
         corruption := RMax(0.0, s.corruption - (n * 5) as real))
    else s
  }

  function VirusCorruptionAdded(s: LogicState, amount: real): LogicState {
    s.(corruption := RMin(MAX_CORRUPTION, s.corruption + amount))
  }

  function DataFragmentActivated(s: LogicState): LogicState {
    s.(dropDelay := s.dropDelay * 2.0)
  }

  /** The delay the data fragment's timer restores as the source writes it:
      a third of the base delay under the firewall, without the firewall's
      floor of 10. */
  function DataFragmentRestoredAsWritten(s: LogicState): LogicState {
    s.(dropDelay := if s.firewallMode then s.baseDropDelay as real / 3.0 else s.baseDropDelay as real)
  }

  /** The delay the data fragment's timer restores, read when it fires: the
      base delay, or under the firewall the throttled value max(10, base / 3)
      that activating the firewall gives. */
  function DataFragmentRestored(s: LogicState): LogicState {
    s.(dropDelay := if s.firewallMode then RMax(FIREWALL_MIN_DELAY, s.baseDropDelay as real / 3.0)
                    else s.baseDropDelay as real)
  }

  function VirusBlocksCleared(s: LogicState): LogicState {
    s.(corruption := RMax(0.0, s.corruption - PURGE_RELIEF))
  }

  // ---------------------------------------------------------------------
  // Every public operation as an event

  datatype Event =
    | Tick | Drop | Firewall | Decay | Level | DropSpeed | Activate | Deactivate
    | DropCheck | Score(n: int) | VirusCorruption(amount: real) | DataFragment | Restore | VirusPurge

  function Step(s: LogicState, e: Event): LogicState
    requires Consistent(s)
  {
    match e
    case Tick => Ticked(s)
    case Drop => DropTicked(s)
    case Firewall => FirewallTicked(s)
    case Decay => CorruptionDecayed(s)
    case Level => LevelUpdated(s)
    case DropSpeed => DropSpeedUpdated(s)
    case Activate => FirewallActivated(s)
    case Deactivate => FirewallDeactivated(s)
    case DropCheck => DropChecked(s)
    case Score(n) => ScoreAdded(s, n)
    case VirusCorruption(a) => VirusCorruptionAdded(s, a)
    case DataFragment => DataFragmentActivated(s)
    case Restore => DataFragmentRestored(s)
    case VirusPurge => VirusBlocksCleared(s)
  }

  /** Some non-negative amount of corruption is added, or none. */
  predicate NonNegative(e: Event) {
    e.VirusCorruption? ==> e.amount >= 0.0
  }

  lemma MinDelayFloor(level: int)
    requires level >= 1
    ensures BaseDelayFor(level) >= MIN_DELAY
  {
  }

  lemma PowPositive(n: nat)
    ensures Pow(0.8, n) > 0.0
  {
  }

  lemma FirewallTickedConsistent(s: LogicState)
    requires Consistent(s)
    ensures Consistent(FirewallTicked(s))
    ensures FirewallTicked(s).score == s.score && FirewallTicked(s).lines == s.lines
  {
    MinDelayFloor(s.level);
  }

  /** Every operation keeps a consistent state consistent. */
  lemma StepConsistent(s: LogicState, e: Event)
    requires Consistent(s)
    ensures Consistent(Step(s, e))
  {
    MinDelayFloor(s.level);
    match e
    case Tick =>
      FirewallTickedConsistent(DropTicked(s));
      var t := CorruptionDecayed(FirewallTicked(DropTicked(s)));
      LevelUpdatedConsistent(t);
    case Firewall =>
      FirewallTickedConsistent(s);
    case Level =>
      LevelUpdatedConsistent(s);
    case _ =>
  }

  lemma LevelUpdatedConsistent(s: LogicState)
    requires Consistent(s)
    ensures Consistent(LevelUpdated(s))
  {
    MinDelayFloor(LevelFor(s.lines));
  }

  /** Score and lines never decrease, and only adding a score changes them. */
  lemma StepScoreMonotone(s: LogicState, e: Event)
    requires Consistent(s)
    ensures Step(s, e).score >= s.score && Step(s, e).lines >= s.lines
    ensures !e.Score? ==> Step(s, e).score == s.score && Step(s, e).lines == s.lines
  {
    FirewallTickedConsistent(DropTicked(s));
  }

  /** Corruption stays in [0, 100] and the glitch intensity in [0, 1]
      unless a negative amount of corruption is added. */
  lemma StepCorruptionInRange(s: LogicState, e: Event)
    requires Consistent(s) && CorruptionInRange(s) && NonNegative(e)
    ensures CorruptionInRange(Step(s, e))
  {
  }

  /** A sequence of operations. */
  function Run(s: LogicState, events: seq<Event>): (r: LogicState)
    requires Consistent(s)
    ensures Consistent(r)
    decreases |events|
  {
    if events == [] then s
    else
      StepConsistent(s, events[0]);
      Run(Step(s, events[0]), events[1..])
  }

  /** Over any run, the score and line count never decrease; corruption
      stays in range when no negative amount is added. */
  lemma {:induction false} RunInvariants(s: LogicState, events: seq<Event>)
    requires Consistent(s) && CorruptionInRange(s)
    requires forall i :: 0 <= i < |events| ==> NonNegative(events[i])
    ensures Run(s, events).score >= s.score && Run(s, events).lines >= s.lines
    ensures CorruptionInRange(Run(s, events))
    decreases |events|
  {
    if events != [] {
      StepConsistent(s, events[0]);
      StepScoreMonotone(s, events[0]);
      StepCorruptionInRange(s, events[0]);
      RunInvariants(Step(s, events[0]), events[1..]);
    }
  }

  /** The initial state is consistent, with corruption in range. */
  lemma InitialConsistent()
    ensures Consistent(Initial()) && CorruptionInRange(Initial())
  {
    assert BaseDelayFor(1) == 60;
  }

  // ---------------------------------------------------------------------
  // Level and drop speed

  /** After the level update the level is floor(lines / 10) + 1, the base
      delay matches it, and the drop delay is the base delay when the
      firewall is off. */
  lemma LevelUpdatedEffect(s: LogicState)
    requires Consistent(s)
    ensures var t := LevelUpdated(s);
      t.level == LevelFor(s.lines) && t.level >= 1 && t.baseDropDelay == BaseDelayFor(t.level)
      && (t.level != s.level && !s.firewallMode ==> t.dropDelay == t.baseDropDelay as real)
      && (s.firewallMode ==> t.dropDelay == s.dropDelay)
  {
    if LevelFor(s.lines) == s.level {
      assert LevelUpdated(s) == s;
    }
  }

  lemma {:induction false} PowDecreasing(n: nat)
    ensures Pow(0.8, n + 1) <= Pow(0.8, n)
  {
    PowPositive(n);
  }

  /** The base delay never grows as the level rises. */
  lemma {:induction false} BaseDelayNonIncreasing(l1: int, l2: int)
    requires 1 <= l1 <= l2
    ensures BaseDelayFor(l2) <= BaseDelayFor(l1)
    decreases l2 - l1
  {
    if l1 < l2 {
      BaseDelayNonIncreasing(l1, l2 - 1);
      PowDecreasing(l2 - 2);
      var a, b := START_DELAY as real * Pow(0.8, l2 - 1), START_DELAY as real * Pow(0.8, l2 - 2);
      assert a <= b;
      assert a.Floor <= b.Floor;
    }
  }

  /** The delay at the first levels: 60, 48, 38, 30, 24, 19, 15, 12, 10, 8,
      6, 5, 4, and 3 from level 14 on. */
  lemma BaseDelayTable(level: int)
    requires level >= 1
    ensures level == 1 ==> BaseDelayFor(level) == 60
    ensures level == 2 ==> BaseDelayFor(level) == 48
    ensures level == 5 ==> BaseDelayFor(level) == 24
    ensures level == 9 ==> BaseDelayFor(level) == 10
    ensures level == 10 ==> BaseDelayFor(level) == 8
    ensures level == 13 ==> BaseDelayFor(level) == 4
    ensures level >= 14 ==> BaseDelayFor(level) == 3
    ensures level >= 10 ==> BaseDelayFor(level) <= 8
  {
    var p := [1.0, 0.8, 0.64, 0.512, 0.4096, 0.32768, 0.262144, 0.2097152, 0.16777216,
              0.134217728, 0.1073741824, 0.08589934592, 0.068719476736, 0.0549755813888];
    assert Pow(0.8, 0) == p[0];
    assert Pow(0.8, 1) == p[1];
    assert Pow(0.8, 2) == p[2];
    assert Pow(0.8, 3) == p[3];
    assert Pow(0.8, 4) == p[4];
    assert Pow(0.8, 5) == p[5];
    assert Pow(0.8, 6) == p[6];
    assert Pow(0.8, 7) == p[7];
    assert Pow(0.8, 8) == p[8];
    assert Pow(0.8, 9) == p[9];
    assert Pow(0.8, 10) == p[10];
    assert Pow(0.8, 11) == p[11];
    assert Pow(0.8, 12) == p[12];
    assert Pow(0.8, 13) == p[13];
    assert BaseDelayFor(14) == 3;
    assert BaseDelayFor(10) == 8;
    if level >= 14 {
      BaseDelayNonIncreasing(14, level);
    }
    if level >= 10 {
      BaseDelayNonIncreasing(10, level);
    }
  }

  // ---------------------------------------------------------------------
  // Drop timing

  /** The drop check fires exactly when the timer has reached the delay and
      then restarts the timer; otherwise nothing changes. */
  lemma DropCheckedEffect(s: LogicState)
    ensures DropChecked(s).dropTimer == (if s.dropTimer as real >= s.dropDelay then 0 else s.dropTimer)
    ensures DropChecked(s).(dropTimer := s.dropTimer) == s
  {
  }

  // ---------------------------------------------------------------------
  // The firewall challenge

  function TickN(s: LogicState, n: nat): (r: LogicState)
    requires Consistent(s)
    ensures Consistent(r)
    decreases n
  {
    if n == 0 then s
    else
      StepConsistent(s, Tick);
      TickN(Ticked(s), n - 1)
  }

  /** On a firewall level with the firewall off, the next tick switches it
      on, counts one tick and sets the drop delay to max(10, delay / 3). */
  lemma FirewallStarts(s: LogicState)
    requires Consistent(s) && !s.firewallMode && IsFirewallLevel(s.level)
    ensures var t := FirewallTicked(DropTicked(s));
      t.firewallMode && t.firewallTimer == 1 && t.dropDelay == RMax(FIREWALL_MIN_DELAY, s.dropDelay / 3.0)
    ensures Ticked(s).firewallMode && Ticked(s).firewallTimer == 1
  {
  }

  /** The firewall starts only on a firewall level: off the multiples of 10
      a tick never switches it on. */
  lemma FirewallStartsOnlyThere(s: LogicState)
    requires Consistent(s) && !s.firewallMode
    ensures FirewallTicked(s).firewallMode <==> IsFirewallLevel(s.level)
    ensures Ticked(s).firewallMode <==> IsFirewallLevel(s.level)
  {
  }

  /** While its timer is below 600 the firewall stays on, counting one per tick. */
  lemma {:induction false} FirewallRuns(s: LogicState, k: nat)
    requires Consistent(s) && s.firewallMode && k < FIREWALL_DURATION - s.firewallTimer
    ensures TickN(s, k).firewallMode && TickN(s, k).firewallTimer == s.firewallTimer + k
  {
    if k > 0 {
      FirewallRuns(s, k - 1);
      var t := TickN(s, k - 1);
      TickNStep(s, k);
      assert TickN(s, k) == Ticked(t);
    }
  }

  lemma {:induction false} TickNStep(s: LogicState, k: nat)
    requires Consistent(s) && k > 0
    ensures TickN(s, k) == Ticked(TickN(s, k - 1))
    decreases k
  {
    if k > 1 {
      StepConsistent(s, Tick);
      TickNStep(Ticked(s), k - 1);
    }
  }

  /** An active firewall ends on the tick its timer reaches 600, and the
      drop delay returns to the base delay. */
  lemma FirewallEnds(s: LogicState)
    requires Consistent(s) && s.firewallMode
    ensures var t := TickN(s, FIREWALL_DURATION - s.firewallTimer);
      !t.firewallMode && t.firewallTimer == 0 && t.dropDelay == t.baseDropDelay as real
  {
    var k := FIREWALL_DURATION - s.firewallTimer;
    FirewallRuns(s, k - 1);
    TickNStep(s, k);
  }

  /** On a firewall level the challenge makes drops slower, not faster: the
      base delay is at most 8 there, below the floor of 10. */
  lemma FirewallSlowsDrop(s: LogicState)
    requires Consistent(s) && !s.firewallMode && IsFirewallLevel(s.level) && s.dropDelay == s.baseDropDelay as real
    ensures FirewallActivated(s).dropDelay == FIREWALL_MIN_DELAY > s.dropDelay
  {
    BaseDelayTable(s.level);
  }

  // ---------------------------------------------------------------------
  // Scoring and corruption

  /** Four lines at level 3 score 3600, or 7200 in firewall mode. */
  lemma ScoreExample(s: LogicState)
    requires s.level == 3
    ensures ScoreAdded(s, 4).score == s.score + (if s.firewallMode then 7200 else 3600)
    ensures ScoreAdded(s, 4).lines == s.lines + 4
  {
  }

  /** Outside 1..4 lines adding a score changes nothing; inside, the score
      grows by multiplier times level (doubled under the firewall), the
      lines by n, and corruption falls by 5 per line down to 0. */
  lemma ScoreAddedEffect(s: LogicState, n: int)
    requires Consistent(s)
    ensures !(1 <= n <= 4) ==> ScoreAdded(s, n) == s
    ensures 1 <= n <= 4 ==>
      var t := ScoreAdded(s, n);
      t.score - s.score == Multiplier(n) * s.level * (if s.firewallMode then 2 else 1) > 0
      && t.lines == s.lines + n
      && (s.corruption >= 5.0 * n as real ==> t.corruption == s.corruption - 5.0 * n as real)
      && (s.corruption < 5.0 * n as real ==> t.corruption == 0.0)
      && t.(score := s.score, lines := s.lines, corruption := s.corruption) == s
  {
  }

  /** Adding corruption caps it at 100 and reports reaching the maximum. */
  lemma VirusCorruptionAddedEffect(s: LogicState, amount: real)
    requires CorruptionInRange(s) && amount >= 0.0
    ensures var t := VirusCorruptionAdded(s, amount);
      s.corruption <= t.corruption <= MAX_CORRUPTION
      && (t.corruption == MAX_CORRUPTION <==> s.corruption + amount >= MAX_CORRUPTION)
  {
  }

  /** The decay lowers positive corruption by 0.1 down to 0 and sets the
      glitch intensity to corruption / 100. */
  lemma CorruptionDecayedEffect(s: LogicState)
    requires CorruptionInRange(s)
    ensures var t := CorruptionDecayed(s);
      t.glitch * MAX_CORRUPTION == t.corruption && 0.0 <= t.corruption <= s.corruption
      && (s.corruption >= DECAY ==> t.corruption == s.corruption - DECAY)
      && (s.corruption < DECAY ==> t.corruption == 0.0)
  {
  }

  /** The data fragment doubles the delay; restoring it while the firewall
      has stayed off and nothing else changed gives back the state before. */
  lemma DataFragmentRoundTrip(s: LogicState)
    requires !s.firewallMode && s.dropDelay == s.baseDropDelay as real
    ensures DataFragmentActivated(s).dropDelay == 2.0 * s.dropDelay
    ensures DataFragmentRestored(DataFragmentActivated(s)) == s
  {
  }

  /** Restoring under the firewall gives the throttled delay max(10, base / 3),
      which is 10 whenever the base delay is at most 30. */
  lemma DataFragmentRestoredFirewall(s: LogicState)
    requires s.firewallMode
    ensures DataFragmentRestored(s).dropDelay >= FIREWALL_MIN_DELAY
    ensures 3.0 * DataFragmentRestored(s).dropDelay >= s.baseDropDelay as real
    ensures s.baseDropDelay <= 30 ==> DataFragmentRestored(s).dropDelay == FIREWALL_MIN_DELAY
    ensures s.baseDropDelay > 30 ==> 3.0 * DataFragmentRestored(s).dropDelay == s.baseDropDelay as real
  {
  }

  /** The restore as written breaks the drop-delay floor: at level 10 under
      the firewall it sets the delay to 8 / 3, below the firewall's 10 and
      below the general floor of 3. */
  lemma RestoreAsWrittenBreaksFloor()
    ensures var s := LogicState(0, 100, 10, 0, 10.0, 8, true, 5, 0.0, 0.0);
      Consistent(s) && !DelayFloor(DataFragmentRestoredAsWritten(s))
      && DataFragmentRestoredAsWritten(s).dropDelay == 8.0 / 3.0
  {
    var s := LogicState(0, 100, 10, 0, 10.0, 8, true, 5, 0.0, 0.0);
    BaseDelayTable(10);
  }

  /** Away from the firewall the corrected restore agrees with the source. */
  lemma RestoreAgreesOffFirewall(s: LogicState)
    requires !s.firewallMode
    ensures DataFragmentRestored(s) == DataFragmentRestoredAsWritten(s)
  {
  }

  // ---------------------------------------------------------------------
  // The object

  class GameLogic {
    var score: int
    var lines: int
    var level: int
    var dropTimer: int
    var dropDelay: real
    var baseDropDelay: int
    var firewallMode: bool
    var firewallTimer: int
    var systemCorruption: real
    var glitchIntensity: real

    function Model(): LogicState
      reads this
    {
      LogicState(score, lines, level, dropTimer, dropDelay, baseDropDelay,
                 firewallMode, firewallTimer, systemCorruption, glitchIntensity)
    }

    ghost predicate Valid()
      reads this
    {
      Consistent(Model())
    }

    /** A fresh game: score 0, level 1, delay 60, no firewall, no corruption. */
    constructor ()
      ensures Model() == Initial() && Valid() && CorruptionInRange(Model())
    {
      score, lines, level := 0, 0, 1;
      dropTimer, dropDelay, baseDropDelay := 0, START_DELAY as real, START_DELAY;
      firewallMode, firewallTimer := false, 0;
      systemCorruption, glitchIntensity := 0.0, 0.0;
      InitialConsistent();
    }

    /** One tick: drop timer, firewall, corruption decay, level. */
    method Update()
      requires Valid()
      modifies this
      ensures Valid() && Model() == Ticked(old(Model()))
      ensures old(CorruptionInRange(Model())) ==> CorruptionInRange(Model())
    {
      ghost var s0 := Model();
      if CorruptionInRange(s0) {
        StepCorruptionInRange(s0, Tick);
      }
      StepConsistent(Model(), Drop);
      UpdateDrop();
      StepConsistent(Model(), Firewall);
      UpdateFirewall();
      StepConsistent(Model(), Decay);
      UpdateSystemCorruption();
      UpdateLevel();
      StepConsistent(old(Model()), Tick);
    }

    method UpdateDrop()
      modifies this
      ensures Model() == DropTicked(old(Model()))
    {
      dropTimer := dropTimer + 1;
    }

    /** Whether a drop is due; a due drop restarts the timer. */
    method ShouldDropPiece() returns (due: bool)
      modifies this
      ensures due == DropDue(old(Model())) && Model() == DropChecked(old(Model()))
      ensures old(CorruptionInRange(Model())) ==> CorruptionInRange(Model())
      ensures old(Valid()) ==> Valid()
    {
      if Valid() {
        StepConsistent(Model(), DropCheck);
      }
      if dropTimer as real >= dropDelay {
        dropTimer := 0;
        return true;
      }
      return false;
    }

    method UpdateFirewall()
      modifies this
      ensures Model() == FirewallTicked(old(Model()))
    {
      if level % 10 == 0 && level > 0 && !firewallMode {
        ActivateFirewall();
      }
      if firewallMode {
        firewallTimer := firewallTimer + 1;
        if firewallTimer >= FIREWALL_DURATION {
          DeactivateFirewall();
        }
      }
    }

    method ActivateFirewall()
      modifies this
      ensures Model() == FirewallActivated(old(Model()))
    {
      firewallMode := true;
      firewallTimer := 0;
      dropDelay := RMax(FIREWALL_MIN_DELAY, dropDelay / 3.0);
    }

    method DeactivateFirewall()
      modifies this
      ensures Model() == FirewallDeactivated(old(Model()))
    {
      firewallMode := false;
      firewallTimer := 0;
      dropDelay := baseDropDelay as real;
    }

    method UpdateSystemCorruption()
      modifies this
      ensures Model() == CorruptionDecayed(old(Model()))
      ensures old(CorruptionInRange(Model())) ==> CorruptionInRange(Model())
    {
      if systemCorruption > 0.0 {
        systemCorruption := RMax(0.0, systemCorruption - DECAY);
      }
      glitchIntensity := systemCorruption / MAX_CORRUPTION;
    }

    method UpdateLevel()
      requires lines >= 0
      modifies this
      ensures Model() == LevelUpdated(old(Model()))
    {
      var newLevel := lines / 10 + 1;
      if newLevel != level {
        level := newLevel;
        UpdateDropSpeed();
      }
    }

    method UpdateDropSpeed()
      requires level >= 1
      modifies this
      ensures Model() == DropSpeedUpdated(old(Model()))
    {
      baseDropDelay := BaseDelayFor(level);
      if !firewallMode {
        dropDelay := baseDropDelay as real;
      }
    }

    method AddScore(linesCleared: int)
      modifies this
      ensures Model() == ScoreAdded(old(Model()), linesCleared)
      ensures old(CorruptionInRange(Model())) ==> CorruptionInRange(Model())
    {
      if linesCleared > 0 && linesCleared <= 4 {
        var points := Multiplier(linesCleared) * level;
        if firewallMode {
          points := points * 2;
        }
        score := score + points;
        lines := lines + linesCleared;
        systemCorruption := RMax(0.0, systemCorruption - (linesCleared * 5) as real);
      }
    }

    /** Adds corruption, capped at 100; the result says whether the cap is
        reached, where the system failure would be reported. */
    method AddVirusCorruption(amount: real) returns (failure: bool)
      modifies this
      ensures Model() == VirusCorruptionAdded(old(Model()), amount)
      ensures failure <==> systemCorruption >= MAX_CORRUPTION
      ensures amount >= 0.0 && old(CorruptionInRange(Model())) ==> CorruptionInRange(Model())
    {
      systemCorruption := RMin(MAX_CORRUPTION, systemCorruption + amount);
      failure := systemCorruption >= MAX_CORRUPTION;
    }

    method ActivateDataFragment()
      modifies this
      ensures Model() == DataFragmentActivated(old(Model()))
      ensures old(CorruptionInRange(Model())) ==> CorruptionInRange(Model())
      ensures old(Valid()) ==> Valid()
    {
      dropDelay := dropDelay * 2.0;
    }

    /** The body of the data fragment's 3-second timer, called by the caller. */
    method RestoreDropDelay()
      modifies this
      ensures Model() == DataFragmentRestored(old(Model()))
      ensures old(CorruptionInRange(Model())) ==> CorruptionInRange(Model())
      ensures old(Valid()) ==> Valid()
    {
      ghost var s0 := Model();
      if Valid() {
        StepConsistent(s0, Restore);
      }
      dropDelay := if firewallMode then RMax(FIREWALL_MIN_DELAY, baseDropDelay as real / 3.0) else baseDropDelay as real;
    }

    /** Empties and disinfects every infected cell of the grid, and lowers
        corruption by 20 down to 0. */
    method ClearVirusBlocks(grid: Grid)
      requires grid.Valid()
      modifies this, grid
      ensures grid.Valid() && grid.virusSpreadTimer == old(grid.virusSpreadTimer)
      ensures grid.cells == PurgedCells(old(grid.cells), old(grid.virusCells), grid.width, grid.height)
      ensures grid.virusCells == Repeat(grid.height, CleanRow(grid.width))
      ensures Model() == VirusBlocksCleared(old(Model()))
      ensures old(CorruptionInRange(Model())) ==> CorruptionInRange(Model())
    {
      ghost var c0, f0 := grid.cells, grid.virusCells;
      PurgeStart(c0, f0, grid.width, grid.height);
      for y := 0 to grid.height
        invariant grid.Valid() && grid.virusSpreadTimer == old(grid.virusSpreadTimer) && Model() == old(Model())
        invariant PurgedSoFar(c0, f0, grid.cells, grid.virusCells, grid.width, grid.height, y, 0)
      {
        for x := 0 to grid.width
          invariant grid.Valid() && grid.virusSpreadTimer == old(grid.virusSpreadTimer) && Model() == old(Model())
          invariant PurgedSoFar(c0, f0, grid.cells, grid.virusCells, grid.width, grid.height, y, x)
        {
          ghost var cb, fb := grid.cells, grid.virusCells;
          if grid.virusCells[y][x] {
            grid.cells := grid.cells[y := grid.cells[y][x := EMPTY]];
            grid.virusCells := grid.virusCells[y := grid.virusCells[y][x := false]];
          }
          PurgeStep(c0, f0, cb, fb, grid.cells, grid.virusCells, grid.width, grid.height, y, x);
        }
        PurgeNextRow(c0, f0, grid.cells, grid.virusCells, grid.width, grid.height, y);
      }
      PurgeDone(c0, f0, grid.cells, grid.virusCells, grid.width, grid.height);
      systemCorruption := RMax(0.0, systemCorruption - PURGE_RELIEF);
    }

    function GetScore(): (r: int)
      reads this
      requires Valid()
      ensures r >= 0
    {
      score
    }

    function GetLevel(): (r: int)
      reads this
      requires Valid()
      ensures r >= 1
    {
      level
    }

    function GetLines(): (r: int)
      reads this
      requires Valid()
      ensures r >= 0
    {
      lines
    }

    function GetSystemCorruption(): (r: real)
      reads this
      requires CorruptionInRange(Model())
      ensures 0.0 <= r <= MAX_CORRUPTION
    {
      systemCorruption
    }

    function IsFirewallActive(): (r: bool)
      reads this
      requires Valid()
      ensures !r ==> firewallTimer == 0
    {
      firewallMode
    }

    function GetGlitchIntensity(): (r: real)
      reads this
      requires CorruptionInRange(Model())
      ensures 0.0 <= r <= 1.0
    {
      glitchIntensity
    }
  }
}
