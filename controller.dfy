/**
 * The decision logic of the three-phase controller of botoverturns.c: each
 * cycle reads one sensor snapshot, runs the line-following PID law, and then
 * searches for a box (pick it when it is close and coloured), carries it
 * (turn at a junction according to its drop zone, stop when the colour
 * sensor reads the picked colour again) or drops it.
 *
 * The loop variables of `control_loop` are the `Memory` value; `Step` is the
 * pure reference for one cycle and `Run` for the whole loop. Commands are
 * values: what `set_motor`, `pick_box` and `drop_box` would send.
 */
module Controller {
  import opened Telemetry

  datatype Phase = Searching | Navigating | Dropping

  datatype Command = Motor(left: real, right: real) | Pick | Drop

  const Kp: real := 1.2
  const Ki: real := 0.0
  const Kd: real := 0.5
  const BaseSpeed: real := 2.6
  /** Added to the base speed while a box is carried. */
  const LoadedBoost: real := 1.6
  /** A box is near when the proximity reading is below this. */
  const ProximityThreshold: real := 1.0
  /** A colour channel above this means something coloured is in front of the sensor. */
  const ColourPresence: real := 0.1
  /** Arrival: every channel within this of the picked colour. */
  const ColourTolerance: real := 0.1
  /** A line sensor below this sees the line, for the junction test. */
  const NodeThreshold: real := 0.4
  /** A line sensor below this sees the line, inside a turn. */
  const TurnThreshold: real := 0.5
  /** The outer wheel's speed during a turn. */
  const OuterTurnSpeed: real := 0.6

  // ---------------------------------------------------------------------
  // Line-following law

  /** The weight of sensor `i`: -2, -1, 0, 1, 2 from the left corner to the right corner. */
  function Weight(i: int): real
  {
    (i - 2) as real
  }

  /** The weighted blackness of the first `n` sensors: the sum of `w[i] * (1 - ir[i])`. */
  function WeightedSum(ir: Sensors, n: nat): real
    requires n <= 5
  {
    if n == 0 then 0.0 else WeightedSum(ir, n - 1) + Weight(n - 1) * (1.0 - ir[n - 1])
  }

  /** The total blackness of the first `n` sensors: the sum of `1 - ir[i]`. */
  function Blackness(ir: Sensors, n: nat): real
    requires n <= 5
  {
    if n == 0 then 0.0 else Blackness(ir, n - 1) + (1.0 - ir[n - 1])
  }

  /** The line error: the blackness-weighted mean position, and 0 when the total blackness is not positive. */
  function LineError(ir: Sensors): real
  {
    var sum := Blackness(ir, 5);
    if sum > 0.0 then WeightedSum(ir, 5) / sum else 0.0
  }

  /** The `for` loop that sums `ws` and `sum`, then the guarded division. */
  method ComputeLineError(ir: Sensors) returns (error: real)
    ensures error == LineError(ir)
  {
    var ws, sum := 0.0, 0.0;
    for i := 0 to 5
      invariant ws == WeightedSum(ir, i)
      invariant sum == Blackness(ir, i)
    {
      var v := 1.0 - ir[i];
      ws := ws + Weight(i) * v;
      sum := sum + v;
    }
    error := if sum > 0.0 then ws / sum else 0.0;
  }

  /** The readings seen from the other side: right corner first. */
  function Mirror(ir: Sensors): Sensors
  {
    [ir[4], ir[3], ir[2], ir[1], ir[0]]
  }

  /** The two sums written out over the five sensors. */
  lemma SumsExpanded(ir: Sensors)
    ensures Blackness(ir, 5)
         == (1.0 - ir[0]) + (1.0 - ir[1]) + (1.0 - ir[2]) + (1.0 - ir[3]) + (1.0 - ir[4])
    ensures WeightedSum(ir, 5)
         == -2.0 * (1.0 - ir[0]) - (1.0 - ir[1]) + (1.0 - ir[3]) + 2.0 * (1.0 - ir[4])
  {
    assert Blackness(ir, 1) == 1.0 - ir[0];
    assert Blackness(ir, 2) == (1.0 - ir[0]) + (1.0 - ir[1]);
    assert Blackness(ir, 3) == Blackness(ir, 2) + (1.0 - ir[2]);
    assert Blackness(ir, 4) == Blackness(ir, 3) + (1.0 - ir[3]);
    assert WeightedSum(ir, 1) == -2.0 * (1.0 - ir[0]);
    assert WeightedSum(ir, 2) == -2.0 * (1.0 - ir[0]) - (1.0 - ir[1]);
    assert WeightedSum(ir, 3) == WeightedSum(ir, 2);
    assert WeightedSum(ir, 4) == WeightedSum(ir, 3) + (1.0 - ir[3]);
  }

  /** The error is antisymmetric: a line seen mirrored gives the opposite error. */
  lemma MirrorNegatesError(ir: Sensors)
    ensures LineError(Mirror(ir)) == -LineError(ir)
  {
    var m := Mirror(ir);
    SumsExpanded(ir);
    SumsExpanded(m);
    var sum := Blackness(ir, 5);
    if sum > 0.0 {
      assert WeightedSum(m, 5) / sum == -(WeightedSum(ir, 5) / sum);
    }
  }

  /** A quotient whose numerator is within `bound` times its positive denominator is within `bound`. */
  lemma QuotientBounded(ws: real, sum: real, bound: real)
    requires sum > 0.0 && -bound * sum <= ws <= bound * sum
    ensures -bound <= ws / sum <= bound
  {
    var q := ws / sum;
    assert q * sum == ws;
  }

  /** With every reading in [0, 1] the error is a mean of the weights, so it lies in [-2, 2]. */
  lemma ErrorBounded(ir: Sensors)
    requires forall i :: 0 <= i < 5 ==> 0.0 <= ir[i] <= 1.0
    ensures -2.0 <= LineError(ir) <= 2.0
  {
    SumsExpanded(ir);
    var ws, sum := WeightedSum(ir, 5), Blackness(ir, 5);
    if sum > 0.0 {
      QuotientBounded(ws, sum, 2.0);
    }
  }

  /** Only the middle sensor on the line: no error. The two left sensors on the line: a negative error. */
  lemma ErrorExamples()
    ensures LineError([1.0, 1.0, 0.0, 1.0, 1.0]) == 0.0
    ensures LineError([0.0, 0.0, 1.0, 1.0, 1.0]) < 0.0
    ensures LineError([1.0, 1.0, 1.0, 1.0, 1.0]) == 0.0
  {
    assert Blackness([0.0, 0.0, 1.0, 1.0, 1.0], 5) == 2.0;
    assert WeightedSum([0.0, 0.0, 1.0, 1.0, 1.0], 5) == -3.0;
  }

  /** `if (x > 1) x = 1; if (x < 0) x = 0;` */
  function Clamp(x: real): (y: real)
    ensures 0.0 <= y <= 1.0
    ensures 0.0 <= x <= 1.0 ==> y == x
    ensures x > 1.0 ==> y == 1.0
    ensures x < 0.0 ==> y == 0.0
  {
    var y := if x > 1.0 then 1.0 else x;
    if y < 0.0 then 0.0 else y
  }

  // ---------------------------------------------------------------------
  // Decisions

  /** A box is close and something coloured is in front of the colour sensor. */
  predicate PickTrigger(prox: real, r: real, g: real, b: real)
  {
    prox < ProximityThreshold && (r > ColourPresence || g > ColourPresence || b > ColourPresence)
  }

  /**
   * The drop zone for a picked colour: 1 when red is the unique largest
   * channel, 2 when blue is, 3 otherwise, that is when green is a largest
   * channel or red and blue tie for largest.
   */
  function Zone(r: real, g: real, b: real): (z: int)
    ensures z == 1 || z == 2 || z == 3
    ensures z == 1 <==> r > g && r > b
    ensures z == 2 <==> b > r && b > g
    ensures z == 3 <==> (g >= r && g >= b) || (r == b && r >= g)
  {
    if r > g && r > b then 1
    else if b > r && b > g then 2
    else 3
  }

  /** The junction test: left, middle and right sensors all on the line; the corner sensors are not consulted. */
  predicate AtNode(ir: Sensors)
  {
    ir[1] < NodeThreshold && ir[2] < NodeThreshold && ir[3] < NodeThreshold
  }

  function Abs(x: real): real
  {
    if x < 0.0 then -x else x
  }

  /** Arrival: every channel within the tolerance of the picked colour. */
  predicate ColourMatch(r: real, g: real, b: real, pr: real, pg: real, pb: real)
  {
    Abs(r - pr) < ColourTolerance && Abs(g - pg) < ColourTolerance && Abs(b - pb) < ColourTolerance
  }

  // ---------------------------------------------------------------------
  // Turning at a junction

  datatype Direction = TurnLeft | TurnRight

  /**
   * The inner wheel's speed in a turn: the sensor nearest the middle that
   * sees the line decides (middle 0.5, side 0.4, corner 0.3; none 0.1).
   */
  function InnerSpeed(dir: Direction, s: Sensors): (speed: real)
    ensures 0.1 <= speed <= 0.5
    ensures speed == 0.5 <==> s[2] < TurnThreshold
  {
    var side, corner := if dir == TurnLeft then 1 else 3, if dir == TurnLeft then 0 else 4;
    if s[2] < TurnThreshold then 0.5
    else if s[side] < TurnThreshold then 0.4
    else if s[corner] < TurnThreshold then 0.3
    else 0.1
  }

  /** The command of one turn iteration: the outer wheel at 0.6, the inner wheel at `InnerSpeed`. */
  function TurnCommand(dir: Direction, s: Sensors): Command
  {
    match dir
    case TurnLeft => Motor(InnerSpeed(dir, s), OuterTurnSpeed)
    case TurnRight => Motor(OuterTurnSpeed, InnerSpeed(dir, s))
  }

  /** The middle sensor sees the line: the turn is over. */
  predicate Centred(s: Sensors)
  {
    s[2] < TurnThreshold
  }

  /** The commands a turn sends and whether the client is still running when it ends. */
  datatype TurnOutcome = TurnOutcome(cmds: seq<Command>, running: bool)

  /**
   * The blocking turn loop from reading `i` on, over the readings it sees
   * while `running` holds: one command per reading, up to and including the
   * first centred one. When the readings run out first, `running` has become
   * false.
   */
  function TurnFrom(dir: Direction, readings: seq<Sensors>, i: nat): TurnOutcome
    requires i <= |readings|
    decreases |readings| - i
  {
    if i == |readings| then TurnOutcome([], false)
    else if Centred(readings[i]) then TurnOutcome([TurnCommand(dir, readings[i])], true)
    else
      var rest := TurnFrom(dir, readings, i + 1);
      TurnOutcome([TurnCommand(dir, readings[i])] + rest.cmds, rest.running)
  }

  /** A whole turn. */
  function Turn(dir: Direction, readings: seq<Sensors>): TurnOutcome
  {
    TurnFrom(dir, readings, 0)
  }

  /** The turn commands for readings `lo` up to, not including, `hi`: one per reading, in order. */
  function TurnCommands(dir: Direction, readings: seq<Sensors>, lo: nat, hi: nat): (cmds: seq<Command>)
    requires lo <= hi <= |readings|
    ensures |cmds| == hi - lo
    ensures forall j :: 0 <= j < hi - lo ==> cmds[j] == TurnCommand(dir, readings[lo + j])
    decreases hi - lo
  {
    if lo == hi then [] else [TurnCommand(dir, readings[lo])] + TurnCommands(dir, readings, lo + 1, hi)
  }

  /** From reading `i` on, the turn ends right after the first centred reading `k`. */
  lemma {:induction false} TurnFromEndsAt(dir: Direction, readings: seq<Sensors>, i: nat, k: nat)
    requires i <= k < |readings| && Centred(readings[k])
    requires forall j :: i <= j < k ==> !Centred(readings[j])
    ensures TurnFrom(dir, readings, i) == TurnOutcome(TurnCommands(dir, readings, i, k + 1), true)
    decreases k - i
  {
    if i < k {
      TurnFromEndsAt(dir, readings, i + 1, k);
    }
  }

  /** The turn ends right after the first centred reading, with one command for each reading up to it. */
  lemma TurnEndsAtFirstCentred(dir: Direction, readings: seq<Sensors>, k: nat)
    requires k < |readings| && Centred(readings[k])
    requires forall j :: 0 <= j < k ==> !Centred(readings[j])
    ensures Turn(dir, readings) == TurnOutcome(TurnCommands(dir, readings, 0, k + 1), true)
  {
    TurnFromEndsAt(dir, readings, 0, k);
  }

  /** From reading `i` on, a turn that never centres answers every remaining reading and stops. */
  lemma {:induction false} TurnFromUntilStopped(dir: Direction, readings: seq<Sensors>, i: nat)
    requires i <= |readings|
    requires forall j :: i <= j < |readings| ==> !Centred(readings[j])
    ensures TurnFrom(dir, readings, i) == TurnOutcome(TurnCommands(dir, readings, i, |readings|), false)
    decreases |readings| - i
  {
    if i < |readings| {
      TurnFromUntilStopped(dir, readings, i + 1);
    }
  }

  /** A turn that never centres answers every reading and ends because `running` became false. */
  lemma TurnUntilStopped(dir: Direction, readings: seq<Sensors>)
    requires forall j :: 0 <= j < |readings| ==> !Centred(readings[j])
    ensures Turn(dir, readings) == TurnOutcome(TurnCommands(dir, readings, 0, |readings|), false)
  {
    TurnFromUntilStopped(dir, readings, 0);
  }

  /** One turn iteration as written: start from 0.1 and let corner, side and middle override in that order. */
  method TurnSpeeds(dir: Direction, s: Sensors) returns (cmd: Command)
    ensures cmd == TurnCommand(dir, s)
  {
    var side, corner := if dir == TurnLeft then 1 else 3, if dir == TurnLeft then 0 else 4;
    var inner := 0.1;
    if s[corner] < TurnThreshold { inner := 0.3; }
    if s[side] < TurnThreshold { inner := 0.4; }
    if s[2] < TurnThreshold { inner := 0.5; }
    cmd := if dir == TurnLeft then Motor(inner, OuterTurnSpeed) else Motor(OuterTurnSpeed, inner);
  }

  /** The turn loop as written: three overriding `if`s choose the inner speed. */
  method TurnLoop(dir: Direction, readings: seq<Sensors>) returns (cmds: seq<Command>, running: bool)
    ensures TurnOutcome(cmds, running) == Turn(dir, readings)
  {
    ghost var whole := Turn(dir, readings);
    cmds := [];
    var i := 0;
    while i < |readings|
      invariant 0 <= i <= |readings|
      invariant whole.cmds == cmds + TurnFrom(dir, readings, i).cmds
      invariant whole.running == TurnFrom(dir, readings, i).running
    {
      var cmd := TurnSpeeds(dir, readings[i]);
      if Centred(readings[i]) {
        return cmds + [cmd], true;
      }
      assert cmds + ([cmd] + TurnFrom(dir, readings, i + 1).cmds) == (cmds + [cmd]) + TurnFrom(dir, readings, i + 1).cmds;
      cmds := cmds + [cmd];
      i := i + 1;
    }
    assert cmds + [] == cmds;
    return cmds, false;
  }

  // ---------------------------------------------------------------------
  // One cycle

  /** The variables `control_loop` keeps across cycles. */
  datatype Memory = Memory(
    phase: Phase,
    prevError: real,
    integral: real,
    dropZone: int,
    pickedR: real,
    pickedG: real,
    pickedB: real)

  /** Their initial values. */
  const Start: Memory := Memory(Searching, 0.0, 0.0, 0, 0.0, 0.0, 0.0)

  /** What one cycle leaves: the new memory, the commands sent, and whether `running` still holds. */
  datatype CycleOutcome = CycleOutcome(mem: Memory, cmds: seq<Command>, running: bool)

  /** The PID correction for this cycle's error, given the memory before it. */
  function Correction(m: Memory, error: real): real
  {
    Kp * error + Ki * (m.integral + error) + Kd * (error - m.prevError)
  }

  /** The line-following command: base speed (raised while carrying) plus and minus the correction, clamped. */
  function Drive(m: Memory, error: real): Command
  {
    var base := if m.phase == Searching then BaseSpeed else BaseSpeed + LoadedBoost;
    var corr := Correction(m, error);
    Motor(Clamp(base + corr), Clamp(base - corr))
  }

  /**
   * The base speed exceeds the clamp limit: the drive command is full speed
   * on both wheels exactly when the correction is within base - 1, which is
   * 1.6 while searching and 3.2 while a box is carried.
   */
  lemma DriveSaturates(m: Memory, error: real)
    ensures m.phase == Searching ==>
              (Drive(m, error) == Motor(1.0, 1.0) <==> -1.6 <= Correction(m, error) <= 1.6)
    ensures m.phase != Searching ==>
              (Drive(m, error) == Motor(1.0, 1.0) <==> -3.2 <= Correction(m, error) <= 3.2)
  {
  }

  /**
   * One pass of the control loop on snapshot `snap`; `turn` holds the line
   * readings a blocking turn would see, if this cycle starts one.
   */
  function Step(m: Memory, snap: Snapshot, turn: seq<Sensors>): CycleOutcome
  {
    var error := LineError(snap.line);
    var drive := Drive(m, error);
    var pid := m.(prevError := error, integral := m.integral + error);
    match m.phase
    case Searching =>
      if PickTrigger(snap.proximity, snap.r, snap.g, snap.b) then
        CycleOutcome(
          pid.(phase := Navigating, dropZone := Zone(snap.r, snap.g, snap.b),
               pickedR := snap.r, pickedG := snap.g, pickedB := snap.b),
          [drive, Motor(0.0, 0.0), Pick], true)
      else
        CycleOutcome(pid, [drive], true)
    case Navigating =>
      var t :=
        if AtNode(snap.line) && m.dropZone == 3 then Turn(TurnLeft, turn)
        else if AtNode(snap.line) && m.dropZone == 1 then Turn(TurnRight, turn)
        else TurnOutcome([], true);
      var arrived := ColourMatch(snap.r, snap.g, snap.b, m.pickedR, m.pickedG, m.pickedB);
      CycleOutcome(pid.(phase := if arrived then Dropping else Navigating), t.cmds + [drive], t.running)
    case Dropping =>
      CycleOutcome(pid.(phase := Searching), [Motor(0.0, 0.0), Drop], true)
  }

  /** The body of the control loop as written. */
  method Cycle(m: Memory, snap: Snapshot, turn: seq<Sensors>) returns (next: Memory, cmds: seq<Command>, running: bool)
    ensures CycleOutcome(next, cmds, running) == Step(m, snap, turn)
  {
    var ir := snap.line;
    var prox, r, g, b := snap.proximity, snap.r, snap.g, snap.b;

    var error := ComputeLineError(ir);
    var integral := m.integral + error;
    var derivative := error - m.prevError;
    var corr := Kp * error + Ki * integral + Kd * derivative;

    var base := BaseSpeed;
    if m.phase == Navigating || m.phase == Dropping {
      base := base + LoadedBoost;
    }
    var left := Clamp(base + corr);
    var right := Clamp(base - corr);

    next := m.(prevError := error, integral := integral);
    running := true;
    match m.phase
    case Searching =>
      cmds := [Motor(left, right)];
      if prox < ProximityThreshold && (r > ColourPresence || g > ColourPresence || b > ColourPresence) {
        cmds := cmds + [Motor(0.0, 0.0), Pick];
        var zone := if r > g && r > b then 1 else if b > r && b > g then 2 else 3;
        next := next.(phase := Navigating, dropZone := zone, pickedR := r, pickedG := g, pickedB := b);
      }
    case Navigating =>
      cmds := [];
      if ir[1] < NodeThreshold && ir[2] < NodeThreshold && ir[3] < NodeThreshold {
        if m.dropZone == 3 {
          cmds, running := TurnLoop(TurnLeft, turn);
        } else if m.dropZone == 1 {
          cmds, running := TurnLoop(TurnRight, turn);
        }
      }
      cmds := cmds + [Motor(left, right)];
      if Abs(r - m.pickedR) < ColourTolerance && Abs(g - m.pickedG) < ColourTolerance
         && Abs(b - m.pickedB) < ColourTolerance {
        next := next.(phase := Dropping);
      }
    case Dropping =>
      cmds := [Motor(0.0, 0.0), Drop];
      next := next.(phase := Searching);
  }

  // ---------------------------------------------------------------------
  // The whole loop

  /** What the environment supplies for one cycle: the snapshot, and the readings a turn would see. */
  datatype CycleInput = CycleInput(snap: Snapshot, turn: seq<Sensors>)

  /**
   * The control loop from input `i` on, over the cycles run while `running`
   * holds: it stops after the inputs or after a cycle whose turn saw
   * `running` become false.
   */
  function RunFrom(m: Memory, inputs: seq<CycleInput>, i: nat): CycleOutcome
    requires i <= |inputs|
    decreases |inputs| - i
  {
    if i == |inputs| then CycleOutcome(m, [], true)
    else
      var o := Step(m, inputs[i].snap, inputs[i].turn);
      if !o.running then o
      else
        var rest := RunFrom(o.mem, inputs, i + 1);
        CycleOutcome(rest.mem, o.cmds + rest.cmds, rest.running)
  }

  /** A whole run of the loop from memory `m`. */
  function Run(m: Memory, inputs: seq<CycleInput>): CycleOutcome
  {
    RunFrom(m, inputs, 0)
  }

  /**
   * One cycle of the run from input `i`: a cycle that stops ends the run
   * with its own outcome; one that keeps running prefixes its commands to
   * the run from the next input.
   */
  lemma RunFromStep(m: Memory, inputs: seq<CycleInput>, i: nat, sent: seq<Command>)
    requires i < |inputs|
    ensures var o := Step(m, inputs[i].snap, inputs[i].turn);
            && (!o.running ==> RunFrom(m, inputs, i) == o)
            && (o.running ==> RunFrom(m, inputs, i).mem == RunFrom(o.mem, inputs, i + 1).mem
                              && sent + RunFrom(m, inputs, i).cmds == (sent + o.cmds) + RunFrom(o.mem, inputs, i + 1).cmds)
  {
    var o := Step(m, inputs[i].snap, inputs[i].turn);
    if o.running {
      var rest := RunFrom(o.mem, inputs, i + 1).cmds;
      assert sent + (o.cmds + rest) == (sent + o.cmds) + rest;
    }
  }

  /** `control_loop`: start from the initial memory and cycle while running. */
  method ControlLoop(inputs: seq<CycleInput>) returns (cmds: seq<Command>, last: Memory)
    ensures cmds == Run(Start, inputs).cmds && last == Run(Start, inputs).mem
  {
    ghost var whole := Run(Start, inputs);
    var m := Start;
    cmds := [];
    var i := 0;
    while i < |inputs|
      invariant 0 <= i <= |inputs|
      invariant whole.mem == RunFrom(m, inputs, i).mem && whole.cmds == cmds + RunFrom(m, inputs, i).cmds
    {
      RunFromStep(m, inputs, i, cmds);
      var next, out, running := Cycle(m, inputs[i].snap, inputs[i].turn);
      if !running {
        return cmds + out, next;
      }
      cmds := cmds + out;
      m := next;
      i := i + 1;
    }
    assert cmds + [] == cmds;
    last := m;
  }

  // ---------------------------------------------------------------------
  // Properties

  /** Every motor command asks for wheel speeds in [0, 1]. */
  predicate SpeedsInRange(cmds: seq<Command>)
  {
    forall i :: 0 <= i < |cmds| && cmds[i].Motor? ==>
      0.0 <= cmds[i].left <= 1.0 && 0.0 <= cmds[i].right <= 1.0
  }

  lemma {:induction false} TurnSpeedsInRange(dir: Direction, readings: seq<Sensors>, i: nat)
    requires i <= |readings|
    ensures SpeedsInRange(TurnFrom(dir, readings, i).cmds)
    decreases |readings| - i
  {
    if i < |readings| && !Centred(readings[i]) {
      TurnSpeedsInRange(dir, readings, i + 1);
    }
  }

  /** Every cycle, whatever the snapshot, commands wheel speeds in [0, 1]. */
  lemma StepSpeedsInRange(m: Memory, snap: Snapshot, turn: seq<Sensors>)
    ensures SpeedsInRange(Step(m, snap, turn).cmds)
  {
    TurnSpeedsInRange(TurnLeft, turn, 0);
    TurnSpeedsInRange(TurnRight, turn, 0);
  }

  /** ... and so does the whole loop. */
  lemma {:induction false} RunSpeedsInRange(m: Memory, inputs: seq<CycleInput>, i: nat)
    requires i <= |inputs|
    ensures SpeedsInRange(RunFrom(m, inputs, i).cmds)
    decreases |inputs| - i
  {
    if i < |inputs| {
      var o := Step(m, inputs[i].snap, inputs[i].turn);
      StepSpeedsInRange(m, inputs[i].snap, inputs[i].turn);
      if o.running {
        RunSpeedsInRange(o.mem, inputs, i + 1);
      }
    }
  }

  /**
   * Searching: the pick fires exactly when the box is close and coloured; it
   * sends the drive command, a stop and PICK, records the colour and its zone,
   * and moves on whatever the pick's own result.
   */
  lemma SearchingStep(m: Memory, snap: Snapshot, turn: seq<Sensors>)
    requires m.phase == Searching
    ensures var o := Step(m, snap, turn);
            && o.running
            && (o.mem.phase == Navigating <==> PickTrigger(snap.proximity, snap.r, snap.g, snap.b))
            && (o.mem.phase == Navigating ==>
                  && o.cmds == [Drive(m, LineError(snap.line)), Motor(0.0, 0.0), Pick]
                  && o.mem.dropZone == Zone(snap.r, snap.g, snap.b)
                  && (o.mem.pickedR, o.mem.pickedG, o.mem.pickedB) == (snap.r, snap.g, snap.b))
            && (o.mem.phase == Searching ==> o.cmds == [Drive(m, LineError(snap.line))] && o.mem.dropZone == m.dropZone)
  {
  }

  /**
   * Navigating: the phase becomes Dropping exactly when every channel is
   * within the tolerance of the picked colour; the carried colour and zone
   * are kept; a turn happens only at a junction for zones 3 (left) and 1
   * (right); the cycle ends with the drive command.
   */
  lemma NavigatingStep(m: Memory, snap: Snapshot, turn: seq<Sensors>)
    requires m.phase == Navigating
    ensures var o := Step(m, snap, turn);
            && (o.mem.phase == Dropping <==> ColourMatch(snap.r, snap.g, snap.b, m.pickedR, m.pickedG, m.pickedB))
            && o.mem.phase != Searching
            && (o.mem.dropZone, o.mem.pickedR, o.mem.pickedG, o.mem.pickedB) == (m.dropZone, m.pickedR, m.pickedG, m.pickedB)
            && o.cmds[|o.cmds| - 1] == Drive(m, LineError(snap.line))
            && (!AtNode(snap.line) || m.dropZone == 2 ==> o.cmds == [Drive(m, LineError(snap.line))] && o.running)
            && (AtNode(snap.line) && m.dropZone == 3 ==> o.cmds == Turn(TurnLeft, turn).cmds + [Drive(m, LineError(snap.line))])
            && (AtNode(snap.line) && m.dropZone == 1 ==> o.cmds == Turn(TurnRight, turn).cmds + [Drive(m, LineError(snap.line))])
  {
  }

  /** Dropping: always a stop and DROP, then back to Searching; the drop zone is not cleared. */
  lemma DroppingStep(m: Memory, snap: Snapshot, turn: seq<Sensors>)
    requires m.phase == Dropping
    ensures var o := Step(m, snap, turn);
            o.mem.phase == Searching && o.cmds == [Motor(0.0, 0.0), Drop] && o.running
            && o.mem.dropZone == m.dropZone
  {
  }

  /** The colour sensor reading the picked colour again counts as arrival at once. */
  lemma UnchangedColourArrives(m: Memory, snap: Snapshot, turn: seq<Sensors>)
    requires m.phase == Navigating
    requires (snap.r, snap.g, snap.b) == (m.pickedR, m.pickedG, m.pickedB)
    ensures Step(m, snap, turn).mem.phase == Dropping
  {
  }

  /** A box is being carried. */
  predicate Carrying(m: Memory)
  {
    m.phase != Searching
  }

  /** While a box is carried its drop zone is one of the three zones. */
  predicate ZoneKnown(m: Memory)
  {
    Carrying(m) ==> 1 <= m.dropZone <= 3
  }

  lemma {:induction false} RunKeepsZoneKnown(m: Memory, inputs: seq<CycleInput>, i: nat)
    requires i <= |inputs| && ZoneKnown(m)
    ensures ZoneKnown(RunFrom(m, inputs, i).mem)
    decreases |inputs| - i
  {
    if i < |inputs| {
      var o := Step(m, inputs[i].snap, inputs[i].turn);
      if o.running {
        RunKeepsZoneKnown(o.mem, inputs, i + 1);
      }
    }
  }

  /** The PICK and DROP commands among `cmds`, in order. */
  function Actions(cmds: seq<Command>): seq<Command>
    decreases |cmds|
  {
    if cmds == [] then []
    else (if cmds[0].Motor? then [] else [cmds[0]]) + Actions(cmds[1..])
  }

  lemma {:induction false} ActionsAppend(a: seq<Command>, b: seq<Command>)
    ensures Actions(a + b) == Actions(a) + Actions(b)
    decreases |a|
  {
    if a == [] {
      assert a + b == b;
    } else {
      assert (a + b)[0] == a[0];
      assert (a + b)[1..] == a[1..] + b;
      ActionsAppend(a[1..], b);
    }
  }

  lemma {:induction false} TurnHasNoActions(dir: Direction, readings: seq<Sensors>, i: nat)
    requires i <= |readings|
    ensures Actions(TurnFrom(dir, readings, i).cmds) == []
    decreases |readings| - i
  {
    if i < |readings| {
      var c := TurnCommand(dir, readings[i]);
      if Centred(readings[i]) {
        ActionsAppend([c], []);
      } else {
        TurnHasNoActions(dir, readings, i + 1);
        ActionsAppend([c], TurnFrom(dir, readings, i + 1).cmds);
      }
    }
  }

  /** `acts` alternates PICK and DROP, starting with DROP when a box is carried and with PICK otherwise. */
  predicate Alternating(acts: seq<Command>, carrying: bool)
    decreases |acts|
  {
    acts == [] || (acts[0] == (if carrying then Drop else Pick) && Alternating(acts[1..], !carrying))
  }

  /** No action keeps the carrying state; the one expected action flips it. */
  lemma AlternatingPrepend(acts: seq<Command>, rest: seq<Command>, carrying: bool, after: bool)
    requires acts == (if after == carrying then [] else if carrying then [Drop] else [Pick])
    requires Alternating(rest, after)
    ensures Alternating(acts + rest, carrying)
  {
    if acts == [] {
      assert acts + rest == rest;
    } else {
      assert (acts + rest)[0] == acts[0] && (acts + rest)[1..] == rest;
    }
  }

  /** A cycle sends PICK exactly when it starts carrying, DROP exactly when it stops, and nothing else. */
  lemma StepActions(m: Memory, snap: Snapshot, turn: seq<Sensors>)
    ensures var o := Step(m, snap, turn);
            Actions(o.cmds) == (if Carrying(o.mem) == Carrying(m) then []
                                else if Carrying(m) then [Drop] else [Pick])
  {
    var o := Step(m, snap, turn);
    var error := LineError(snap.line);
    var drive := Drive(m, error);
    match m.phase
    case Searching =>
      if PickTrigger(snap.proximity, snap.r, snap.g, snap.b) {
        assert Actions(o.cmds) == Actions([drive, Motor(0.0, 0.0), Pick]);
        assert Actions([Pick]) == [Pick];
        assert Actions([Motor(0.0, 0.0), Pick]) == Actions([Pick]);
      } else {
        assert Actions([drive]) == [];
      }
    case Navigating =>
      TurnHasNoActions(TurnLeft, turn, 0);
      TurnHasNoActions(TurnRight, turn, 0);
      assert Actions([drive]) == [];
      if AtNode(snap.line) && m.dropZone == 3 {
        ActionsAppend(Turn(TurnLeft, turn).cmds, [drive]);
      } else if AtNode(snap.line) && m.dropZone == 1 {
        ActionsAppend(Turn(TurnRight, turn).cmds, [drive]);
      } else {
        assert o.cmds == [] + [drive];
      }
    case Dropping =>
      assert Actions([Drop]) == [Drop];
      assert Actions(o.cmds) == Actions([Drop]);
  }

  /**
   * PICK and DROP strictly alternate over any run of the loop: from the
   * initial memory the first is a PICK, and no box is picked twice without a
   * drop in between, nor dropped twice.
   */
  lemma {:induction false} RunAlternates(m: Memory, inputs: seq<CycleInput>, i: nat)
    requires i <= |inputs|
    ensures Alternating(Actions(RunFrom(m, inputs, i).cmds), Carrying(m))
    decreases |inputs| - i
  {
    if i < |inputs| {
      var o := Step(m, inputs[i].snap, inputs[i].turn);
      StepActions(m, inputs[i].snap, inputs[i].turn);
      if o.running {
        var rest := RunFrom(o.mem, inputs, i + 1);
        RunAlternates(o.mem, inputs, i + 1);
        ActionsAppend(o.cmds, rest.cmds);
        AlternatingPrepend(Actions(o.cmds), Actions(rest.cmds), Carrying(m), Carrying(o.mem));
      }
    }
  }

  /**
   * A whole delivery from the initial memory: a cycle that sees a close,
   * coloured box picks it; a later cycle (away from a junction) that reads the
   * same colour arrives; the next cycle drops it and the loop searches again,
   * remembering the zone of the box it delivered.
   */
  lemma Delivery(pickSnap: Snapshot, arriveSnap: Snapshot, dropSnap: Snapshot, t1: seq<Sensors>, t2: seq<Sensors>, t3: seq<Sensors>)
    requires PickTrigger(pickSnap.proximity, pickSnap.r, pickSnap.g, pickSnap.b)
    requires !AtNode(arriveSnap.line)
    requires (arriveSnap.r, arriveSnap.g, arriveSnap.b) == (pickSnap.r, pickSnap.g, pickSnap.b)
    ensures var o := Run(Start, [CycleInput(pickSnap, t1), CycleInput(arriveSnap, t2), CycleInput(dropSnap, t3)]);
            && o.running && o.mem.phase == Searching
            && o.mem.dropZone == Zone(pickSnap.r, pickSnap.g, pickSnap.b)
            && Actions(o.cmds) == [Pick, Drop]
  {
    var inputs := [CycleInput(pickSnap, t1), CycleInput(arriveSnap, t2), CycleInput(dropSnap, t3)];
    var o1 := Step(Start, pickSnap, t1);
    var o2 := Step(o1.mem, arriveSnap, t2);
    var o3 := Step(o2.mem, dropSnap, t3);
    assert o1.mem.phase == Navigating && o1.running;
    UnchangedColourArrives(o1.mem, arriveSnap, t2);
    assert o2.mem.phase == Dropping && o2.running;
    assert o3.mem.phase == Searching && o3.running;
    assert RunFrom(o3.mem, inputs, 3) == CycleOutcome(o3.mem, [], true);
    assert RunFrom(o2.mem, inputs, 2) == CycleOutcome(o3.mem, o3.cmds, true);
    assert RunFrom(o1.mem, inputs, 1) == CycleOutcome(o3.mem, o2.cmds + o3.cmds, true);
    assert RunFrom(Start, inputs, 0) == CycleOutcome(o3.mem, o1.cmds + (o2.cmds + o3.cmds), true);
    StepActions(Start, pickSnap, t1);
    StepActions(o1.mem, arriveSnap, t2);
    StepActions(o2.mem, dropSnap, t3);
    ActionsAppend(o2.cmds, o3.cmds);
    ActionsAppend(o1.cmds, o2.cmds + o3.cmds);
  }
}
