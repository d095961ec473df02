/** The older interpreter at the root of the repository: vm.py with
    instructions.py. Four handlers (delay, msclk, msmv, msmvcb), no
    registers, no labels and no jumps; the loop moves its local pc on by
    one after every line it dispatches, so a run ends after at most one
    pass over the script.

    Each handler object parses its line into its `args` field and then
    executes; what it does outside is returned as an `Effect`, and the
    draws come from the same `Rng` as the newer instruction set. The
    handlers never read their context, so the model gives them none (the
    loop in vm.py builds them with no argument at all). */
module LegacyVm {
  import opened Wrappers
  import opened Strings
  import opened Geometry
  import opened Instructions

  datatype Op = Delay | MouseClick | MouseMove | MouseMoveClickBox

  /** The instruction type each handler passes to `Instruction.__init__`. */
  function OpName(op: Op): string
  {
    match op
    case Delay => "delay"
    case MouseClick => "msclk"
    case MouseMove => "msmv"
    case MouseMoveClickBox => "msmvcb"
  }

  /** The argument count each handler declares. */
  function OpArity(op: Op): nat
  {
    match op
    case Delay => 2
    case MouseClick => 1
    case MouseMove => 4
    case MouseMoveClickBox => 10
  }

  /** The if/elif chain of the loop; any other type raises. */
  function DecodeOp(itype: string): Option<Op>
  {
    if itype == "delay" then Some(Op.Delay)
    else if itype == "msclk" then Some(Op.MouseClick)
    else if itype == "msmv" then Some(Op.MouseMove)
    else if itype == "msmvcb" then Some(Op.MouseMoveClickBox)
    else None
  }

  /** The instruction type of a line: the first token of `raw.split(" ")`. */
  function LineType(raw: string): string
  {
    Split(raw, ' ')[0]
  }

  /** `randint(low, high)` for the draw r: one of the high - low + 1
      integers from low on, each for an equal share of the draws. */
  function RandInt(low: int, high: int, r: Draw): int
    requires low <= high
  {
    low + (r * (high - low + 1) as real).Floor
  }

  /** A handler's outcome and the number of draws used so far. */
  datatype Done = Done(outcome: Result<Effect, Error>, next: nat)

  /** delay min max: sleep for `randint(min, max)` whole seconds. */
  function SleepSpec(args: seq<string>, draw: nat -> Draw, next: nat): Done
    requires |args| == 2
  {
    match ParseInt(args[0])
    case None => Done(Err(NotANumber(args[0])), next)
    case Some(low) =>
      match ParseInt(args[1])
      case None => Done(Err(NotANumber(args[1])), next)
      case Some(high) =>
        if low > high then Done(Err(EmptyRange(low, high)), next)
        else
          var seconds := RandInt(low, high, draw(next));
          if seconds < 0 then Done(Err(NegativeSleep), next + 1)
          else Done(Ok(Sleep(seconds as real)), next + 1)
  }

  /** msclk button: a left or a right click. */
  function ClickSpec(args: seq<string>): Result<Effect, Error>
    requires |args| == 1
  {
    if args[0] != "left" && args[0] != "right" then Err(UnknownButton(args[0]))
    else Ok(Click(args[0]))
  }

  /** msmv x y spd_min spd_max: a human-like move to (x, y) at a speed
      multiplier of `uniform(spd_min, spd_max)`. */
  function HumanMoveSpec(args: seq<string>, draw: nat -> Draw, next: nat): Done
    requires |args| == 4
  {
    match ParseInt(args[0])
    case None => Done(Err(NotANumber(args[0])), next)
    case Some(x) =>
      match ParseInt(args[1])
      case None => Done(Err(NotANumber(args[1])), next)
      case Some(y) =>
        match ParseFloat(args[2])
        case None => Done(Err(NotANumber(args[2])), next)
        case Some(low) =>
          match ParseFloat(args[3])
          case None => Done(Err(NotANumber(args[3])), next)
          case Some(high) => Done(Ok(HumanMove(x as real, y as real, Uniform(low, high, draw(next)))), next + 1)
  }

  /** msmvcb x0 y0 .. x3 y3 spd_min spd_max: the four corners, the random
      point (coin, then the two triangle draws), then the speed range and
      the multiplier draw. */
  function ClickBoxMoveSpec(args: seq<string>, draw: nat -> Draw, next: nat): Done
    requires |args| == 10
  {
    match Corners(args[..8])
    case Err(e) => Done(Err(e), next)
    case Ok(box) =>
      var p := GetRandPoint(box, draw(next), draw(next + 1), draw(next + 2));
      match ParseFloat(args[8])
      case None => Done(Err(NotANumber(args[8])), next + 3)
      case Some(low) =>
        match ParseFloat(args[9])
        case None => Done(Err(NotANumber(args[9])), next + 3)
        case Some(high) => Done(Ok(HumanMove(p.x, p.y, Uniform(low, high, draw(next + 3)))), next + 4)
  }

  /** `execute()` of the handler for `op`, after a successful `parse`. */
  function ExecuteOp(op: Op, args: seq<string>, draw: nat -> Draw, next: nat): Done
    requires |args| == OpArity(op)
  {
    match op
    case Delay => SleepSpec(args, draw, next)
    case MouseClick => Done(ClickSpec(args), next)
    case MouseMove => HumanMoveSpec(args, draw, next)
    case MouseMoveClickBox => ClickBoxMoveSpec(args, draw, next)
  }

  /** One pass of the loop on the line `raw`: decode, parse, execute. */
  function LineSpec(raw: string, draw: nat -> Draw, next: nat): Done
  {
    var itype := LineType(raw);
    match DecodeOp(itype)
    case None => Done(Err(UnknownInstruction(itype)), next)
    case Some(op) =>
      match ParseArgs(OpName(op), OpArity(op), raw)
      case Err(e) => Done(Err(e), next)
      case Ok(args) => ExecuteOp(op, args, draw, next)
  }

  /** The effect a handler that completes produces. */
  predicate Performs(op: Op, e: Effect)
  {
    match op
    case Delay => e.Sleep? && e.seconds >= 0.0
    case MouseClick => e == Click("left") || e == Click("right")
    case MouseMove => e.HumanMove?
    case MouseMoveClickBox => e.HumanMove?
  }

  // ---------------------------------------------------------------------
  // the run

  /** How a run ends: no error, or the error and the pc of the line that
      raised; what was done outside, in order; the draws used. */
  datatype Outcome = Outcome(result: Result<(), Error>, pc: nat, effects: seq<Effect>, next: nat)

  /** One pass of the loop as a function of the line and the draws used. */
  type LinePass = (string, nat) -> Done

  function LinePassOf(draw: nat -> Draw): LinePass
  {
    (raw: string, next: nat) => LineSpec(raw, draw, next)
  }

  /** `pass` is `LineSpec` for the draws `draw`. */
  ghost predicate LineTakes(pass: LinePass, draw: nat -> Draw)
  {
    forall raw: string, next: nat {:trigger LineSpec(raw, draw, next)} :: pass(raw, next) == LineSpec(raw, draw, next)
  }

  /** The loop from line pc on, after `effects`. */
  function Run(pass: LinePass, instructions: seq<string>, pc: nat, next: nat, effects: seq<Effect>): Outcome
    decreases |instructions| - pc
  {
    if pc >= |instructions| then Outcome(Ok(()), pc, effects, next)
    else
      var d := pass(instructions[pc], next);
      match d.outcome
      case Err(e) => Outcome(Err(e), pc, effects, d.next)
      case Ok(effect) => Run(pass, instructions, pc + 1, d.next, effects + [effect])
  }

  /** `_execute_instructions(instructions)` of vm.py. */
  method ExecuteInstructions(instructions: seq<string>, rng: Rng)
    returns (result: Result<(), Error>, pc: nat, effects: seq<Effect>)
    modifies rng
    ensures Run(LinePassOf(rng.draw), instructions, 0, old(rng.count), [])
            == Outcome(result, pc, effects, rng.count)
  {
    result, pc, effects := RunLoop(instructions, LinePassOf(rng.draw), rng, []);
  }

  /** The `while` loop, appending to the effects `emitted` so far. */
  method RunLoop(instructions: seq<string>, ghost pass: LinePass, rng: Rng, emitted: seq<Effect>)
    returns (result: Result<(), Error>, pc: nat, effects: seq<Effect>)
    requires LineTakes(pass, rng.draw)
    modifies rng
    ensures Run(pass, instructions, 0, old(rng.count), emitted) == Outcome(result, pc, effects, rng.count)
  {
    pc, effects := 0, emitted;
    ghost var goal := Run(pass, instructions, pc, rng.count, effects);
    while pc < |instructions|
      invariant pc <= |instructions|
      invariant Run(pass, instructions, pc, rng.count, effects) == goal
      decreases |instructions| - pc
    {
      var r := ExecuteLine(instructions[pc], pass, rng);
      if r.Err? {
        return Err(r.error), pc, effects;
      }
      effects := effects + [r.value];
      pc := pc + 1;
    }
    result := Ok(());
  }

  /** The body of the loop for the line `raw`: the if/elif chain and the
      nested `execute` (a new handler object parses, then executes). */
  method ExecuteLine(raw: string, ghost pass: LinePass, rng: Rng) returns (r: Result<Effect, Error>)
    requires LineTakes(pass, rng.draw)
    modifies rng
    ensures var d := pass(raw, old(rng.count)); r == d.outcome && rng.count == d.next
  {
    assert pass(raw, rng.count) == LineSpec(raw, rng.draw, rng.count);
    var itype := Split(raw, ' ')[0];
    var op: Op;
    if itype == "delay" {
      op := Op.Delay;
    } else if itype == "msclk" {
      op := Op.MouseClick;
    } else if itype == "msmv" {
      op := Op.MouseMove;
    } else if itype == "msmvcb" {
      op := Op.MouseMoveClickBox;
    } else {
      return Err(UnknownInstruction(itype));
    }
    var obj := new LegacyInstruction(op);
    var parsed := obj.Parse(raw);
    if parsed.Err? {
      return Err(parsed.error);
    }
    r := obj.Execute(rng);
  }

  // ---------------------------------------------------------------------
  // properties

  /** Each handler's type name selects that handler, and only those four
      names select one. */
  lemma DecodeOpNames(op: Op, itype: string)
    ensures DecodeOp(OpName(op)) == Some(op)
    ensures DecodeOp(itype).Some? ==> OpName(DecodeOp(itype).value) == itype
  {
  }

  /** `randint(low, high)` lies between low and high. */
  lemma RandIntBetween(low: int, high: int, r: Draw)
    requires low <= high
    ensures low <= RandInt(low, high, r) <= high
  {
    var n := (high - low + 1) as real;
    ProductNonNegative(r, n);
    ProductNonNegative(1.0 - r, n - 1.0);
    assert (1.0 - r) * (n - 1.0) == n - r * n - (1.0 - r);
    assert r * n < n;
  }

  /** delay raises for a non-integer bound, and for min > max before any
      draw; otherwise it uses one draw and sleeps for a whole number of
      seconds between min and max, raising only when that is negative. */
  lemma SleepOutcome(args: seq<string>, draw: nat -> Draw, next: nat)
    requires |args| == 2
    ensures var s := SleepSpec(args, draw, next);
      && (ParseInt(args[0]).None? ==> s == Done(Err(NotANumber(args[0])), next))
      && (ParseInt(args[0]).Some? && ParseInt(args[1]).None? ==> s == Done(Err(NotANumber(args[1])), next))
      && (ParseInt(args[0]).Some? && ParseInt(args[1]).Some? ==>
            var low, high := ParseInt(args[0]).value, ParseInt(args[1]).value;
            && (low > high ==> s == Done(Err(EmptyRange(low, high)), next))
            && (0 <= low <= high ==>
                  s.next == next + 1 && s.outcome.Ok? && s.outcome.value.Sleep?
                  && low as real <= s.outcome.value.seconds <= high as real
                  && s.outcome.value.seconds == s.outcome.value.seconds.Floor as real))
  {
    if ParseInt(args[0]).Some? && ParseInt(args[1]).Some? {
      var low, high := ParseInt(args[0]).value, ParseInt(args[1]).value;
      if low <= high {
        RandIntBetween(low, high, draw(next));
      }
    }
  }

  /** msclk raises exactly for buttons other than left and right, and
      otherwise clicks with that button. */
  lemma ClickOutcome(args: seq<string>)
    requires |args| == 1
    ensures ClickSpec(args).Err? <==> args[0] != "left" && args[0] != "right"
    ensures ClickSpec(args).Err? ==> ClickSpec(args).error == UnknownButton(args[0])
    ensures ClickSpec(args).Ok? ==> ClickSpec(args).value == Click(args[0])
  {
  }

  /** msmv moves to (x, y) with a multiplier between the bounds, using one
      draw, exactly when all four arguments parse. */
  lemma HumanMoveOutcome(args: seq<string>, draw: nat -> Draw, next: nat)
    requires |args| == 4
    ensures var s := HumanMoveSpec(args, draw, next);
      && (s.outcome.Ok? <==> ParseInt(args[0]).Some? && ParseInt(args[1]).Some?
                             && ParseFloat(args[2]).Some? && ParseFloat(args[3]).Some?)
      && (s.outcome.Ok? ==>
            var low, high := ParseFloat(args[2]).value, ParseFloat(args[3]).value;
            && s.next == next + 1
            && s.outcome.value.HumanMove?
            && s.outcome.value.x == ParseInt(args[0]).value as real
            && s.outcome.value.y == ParseInt(args[1]).value as real
            && (low <= high ==> low <= s.outcome.value.multiplier <= high))
      && (s.outcome.Err? ==> s.next == next)
  {
    if HumanMoveSpec(args, draw, next).outcome.Ok? {
      var low, high := ParseFloat(args[2]).value, ParseFloat(args[3]).value;
      if low <= high {
        UniformBetween(low, high, draw(next));
      }
    }
  }

  /** msmvcb builds its four corners from arguments 0 to 7 taken pairwise,
      and moves to a point of the bounding box of those corners, with a
      multiplier between the bounds given by arguments 8 and 9. It raises
      exactly when a corner coordinate or a bound does not parse, using no
      draw for a bad corner and the three point draws for a bad bound. */
  lemma ClickBoxMoveOutcome(args: seq<string>, draw: nat -> Draw, next: nat)
    requires |args| == 10
    ensures var s := ClickBoxMoveSpec(args, draw, next);
      && (s.outcome.Ok? <==> (forall i :: 0 <= i < 8 ==> ParseInt(args[i]).Some?)
                             && ParseFloat(args[8]).Some? && ParseFloat(args[9]).Some?)
      && (Corners(args[..8]).Err? ==> s == Done(Err(Corners(args[..8]).error), next))
      && (Corners(args[..8]).Ok? ==> s.next == next + 3 || s.next == next + 4)
      && (s.outcome.Ok? ==>
            var box := Corners(args[..8]).value;
            var low, high := ParseFloat(args[8]).value, ParseFloat(args[9]).value;
            && |box| == 4
            && (forall j :: 0 <= j < 4 ==> box[j] == Vertex(ParseInt(args[2 * j]).value, ParseInt(args[2 * j + 1]).value))
            && var p := GetRandPoint(box, draw(next), draw(next + 1), draw(next + 2));
            && s.next == next + 4
            && s.outcome.value == HumanMove(p.x, p.y, Uniform(low, high, draw(next + 3)))
            && InBoundingBox(p, box)
            && (low <= high ==> low <= s.outcome.value.multiplier <= high))
  {
    var tokens := args[..8];
    CornersShape(tokens);
    assert forall i :: 0 <= i < 8 ==> tokens[i] == args[i];
    var s := ClickBoxMoveSpec(args, draw, next);
    if s.outcome.Ok? {
      var box := Corners(tokens).value;
      RandPointInClickBox(box, draw(next), draw(next + 1), draw(next + 2));
      var low, high := ParseFloat(args[8]).value, ParseFloat(args[9]).value;
      if low <= high {
        UniformBetween(low, high, draw(next + 3));
      }
    }
  }

  /** A line that completes was of one of the four types and produced that
      handler's effect; a line of any other type raises. No line gives
      back draws. */
  lemma LineOutcome(raw: string, draw: nat -> Draw, next: nat)
    ensures var d := LineSpec(raw, draw, next);
      && (d.outcome.Ok? ==> DecodeOp(LineType(raw)).Some? && Performs(DecodeOp(LineType(raw)).value, d.outcome.value))
      && (DecodeOp(LineType(raw)).None? ==> d == Done(Err(UnknownInstruction(LineType(raw))), next))
      && next <= d.next
  {
    var itype := LineType(raw);
    if DecodeOp(itype).Some? {
      var op := DecodeOp(itype).value;
      var parsed := ParseArgs(OpName(op), OpArity(op), raw);
      if parsed.Ok? {
        var args := parsed.value;
        match op
        case Delay => SleepOutcome(args, draw, next);
        case MouseClick =>
        case MouseMove => HumanMoveOutcome(args, draw, next);
        case MouseMoveClickBox => ClickBoxMoveOutcome(args, draw, next);
      }
    }
  }

  /** What `LineOutcome` says of every line, for a pass of the loop. */
  ghost predicate Dispatches(pass: LinePass)
  {
    forall raw: string, next: nat {:trigger pass(raw, next)} ::
      var d := pass(raw, next);
      && (d.outcome.Ok? ==> DecodeOp(LineType(raw)).Some? && Performs(DecodeOp(LineType(raw)).value, d.outcome.value))
      && (DecodeOp(LineType(raw)).None? ==> d == Done(Err(UnknownInstruction(LineType(raw))), next))
      && next <= d.next
  }

  lemma LinePassDispatches(draw: nat -> Draw)
    ensures Dispatches(LinePassOf(draw))
  {
    forall raw: string, next: nat
      ensures var d := LinePassOf(draw)(raw, next);
        && (d.outcome.Ok? ==> DecodeOp(LineType(raw)).Some? && Performs(DecodeOp(LineType(raw)).value, d.outcome.value))
        && (DecodeOp(LineType(raw)).None? ==> d == Done(Err(UnknownInstruction(LineType(raw))), next))
        && next <= d.next
    {
      LineOutcome(raw, draw, next);
    }
  }

  /** From line pc on, a run dispatches the lines in order, one effect per
      line, each of one of the four types and of its handler's kind; it
      completes exactly when it gets past the last line, and otherwise stops
      on the line that raised. */
  lemma {:induction false} RunShape(pass: LinePass, instructions: seq<string>, pc: nat, next: nat, effects: seq<Effect>)
    requires Dispatches(pass)
    requires pc <= |instructions| && |effects| == pc
    ensures var o := Run(pass, instructions, pc, next, effects);
      && effects <= o.effects && pc <= o.pc <= |instructions| && |o.effects| == o.pc && next <= o.next
      && (o.result.Ok? <==> o.pc == |instructions|)
      && (forall i :: pc <= i < o.pc ==>
            DecodeOp(LineType(instructions[i])).Some? && Performs(DecodeOp(LineType(instructions[i])).value, o.effects[i]))
      && (forall i :: pc <= i < |instructions| && DecodeOp(LineType(instructions[i])).None? ==> o.pc <= i)
    decreases |instructions| - pc
  {
    if pc < |instructions| {
      var d := pass(instructions[pc], next);
      if d.outcome.Ok? {
        var effects' := effects + [d.outcome.value];
        RunShape(pass, instructions, pc + 1, d.next, effects');
        var o := Run(pass, instructions, pc + 1, d.next, effects');
        assert o.effects[pc] == effects'[pc];
      }
    }
  }

  /** A run of a script completes exactly when it dispatches every line, in
      order, each line producing its handler's effect; and a line of an
      unknown type makes the run raise at that line or before. */
  lemma ExecutionShape(instructions: seq<string>, draw: nat -> Draw, next: nat)
    ensures var o := Run(LinePassOf(draw), instructions, 0, next, []);
      && (o.result.Ok? <==> o.pc == |instructions|)
      && |o.effects| == o.pc
      && (o.result.Ok? ==> forall i :: 0 <= i < |instructions| ==>
            DecodeOp(LineType(instructions[i])).Some? && Performs(DecodeOp(LineType(instructions[i])).value, o.effects[i]))
      && (forall i :: 0 <= i < |instructions| && DecodeOp(LineType(instructions[i])).None? ==>
            o.result.Err? && o.pc <= i)
  {
    LinePassDispatches(draw);
    RunShape(LinePassOf(draw), instructions, 0, next, []);
  }

  // ---------------------------------------------------------------------
  // the instruction objects

  class LegacyInstruction {
    const op: Op
    const nargs: nat
    var args: seq<string>

    constructor (op: Op)
      ensures this.op == op && nargs == OpArity(op) && args == []
    {
      this.op := op;
      nargs := OpArity(op);
      args := [];
    }

    /** `parse(raw_inst)`: stores the arguments only when their count is
        right, and otherwise raises with `args` unchanged. */
    method Parse(raw: string) returns (r: Result<(), Error>)
      modifies this
      ensures ParseArgs(OpName(op), nargs, raw).Ok? ==> r.Ok? && args == ParseArgs(OpName(op), nargs, raw).value
      ensures ParseArgs(OpName(op), nargs, raw).Err? ==> r == Err(ParseArgs(OpName(op), nargs, raw).error) && args == old(args)
    {
      var components := Split(raw, ' ')[1..];
      if |components| != nargs {
        return Err(ArgCount(OpName(op), nargs, |components|));
      }
      args := components;
      return Ok(());
    }

    /** `execute()` of the handler for `op`. */
    method Execute(rng: Rng) returns (r: Result<Effect, Error>)
      requires |args| == OpArity(op)
      modifies rng
      ensures var d := ExecuteOp(op, args, rng.draw, old(rng.count)); r == d.outcome && rng.count == d.next
    {
      match op
      case Delay => r := ExecuteDelay(rng);
      case MouseClick => r := ClickSpec(args);
      case MouseMove => r := ExecuteMouseMove(rng);
      case MouseMoveClickBox => r := ExecuteMouseMoveClickBox(rng);
    }

    method ExecuteDelay(rng: Rng) returns (r: Result<Effect, Error>)
      requires |args| == 2
      modifies rng
      ensures var d := SleepSpec(args, rng.draw, old(rng.count)); r == d.outcome && rng.count == d.next
    {
      var low := ParseInt(args[0]);
      if low.None? {
        return Err(NotANumber(args[0]));
      }
      var high := ParseInt(args[1]);
      if high.None? {
        return Err(NotANumber(args[1]));
      }
      if low.value > high.value {
        return Err(EmptyRange(low.value, high.value));
      }
      var x := rng.Random();
      var seconds := RandInt(low.value, high.value, x);
      if seconds < 0 {
        return Err(NegativeSleep);
      }
      return Ok(Sleep(seconds as real));
    }

    method ExecuteMouseMove(rng: Rng) returns (r: Result<Effect, Error>)
      requires |args| == 4
      modifies rng
      ensures var d := HumanMoveSpec(args, rng.draw, old(rng.count)); r == d.outcome && rng.count == d.next
    {
      var x := ParseInt(args[0]);
      if x.None? {
        return Err(NotANumber(args[0]));
      }
      var y := ParseInt(args[1]);
      if y.None? {
        return Err(NotANumber(args[1]));
      }
      var low := ParseFloat(args[2]);
      if low.None? {
        return Err(NotANumber(args[2]));
      }
      var high := ParseFloat(args[3]);
      if high.None? {
        return Err(NotANumber(args[3]));
      }
      var multiplier := rng.Random();
      return Ok(HumanMove(x.value as real, y.value as real, Uniform(low.value, high.value, multiplier)));
    }

    /** The click-box loop, `range(0, len(args) - 2, 2)`: one corner per
        pair of arguments before the speed range. */
    method BuildClickBox() returns (r: Result<seq<Vertex>, Error>)
      requires |args| == 10
      ensures r == Corners(args[..8])
    {
      var clickbox: seq<Vertex> := [];
      var i := 0;
      PrependNil(Corners(args[..8]));
      while i < |args| - 2
        invariant 0 <= i <= 8 && i % 2 == 0
        invariant Corners(args[..8]) == Prepend(clickbox, Corners(args[i..8]))
      {
        var x := ParseInt(args[i]);
        if x.None? {
          return Err(NotANumber(args[i]));
        }
        var y := ParseInt(args[i + 1]);
        if y.None? {
          return Err(NotANumber(args[i + 1]));
        }
        assert args[i..8][2..] == args[i + 2..8];
        PrependAppend(clickbox, [Vertex(x.value, y.value)], Corners(args[i + 2..8]));
        clickbox := clickbox + [Vertex(x.value, y.value)];
        i := i + 2;
      }
      assert args[i..8] == [];
      assert clickbox + [] == clickbox;
      return Ok(clickbox);
    }

    method ExecuteMouseMoveClickBox(rng: Rng) returns (r: Result<Effect, Error>)
      requires |args| == 10
      modifies rng
      ensures var d := ClickBoxMoveSpec(args, rng.draw, old(rng.count)); r == d.outcome && rng.count == d.next
    {
      var clickbox := BuildClickBox();
      if clickbox.Err? {
        return Err(clickbox.error);
      }
      var pos := Instruction.DrawPoint(clickbox.value, rng);
      var low := ParseFloat(args[8]);
      if low.None? {
        return Err(NotANumber(args[8]));
      }
      var high := ParseFloat(args[9]);
      if high.None? {
        return Err(NotANumber(args[9]));
      }
      var multiplier := rng.Random();
      return Ok(HumanMove(pos.x, pos.y, Uniform(low.value, high.value, multiplier)));
    }
  }
}
