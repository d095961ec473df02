/** The instruction set of src/instructions.py. The shared execution context
    is a `Context` object whose fields the handlers update in place; one
    `Instruction` object per dispatched line parses its arguments into its
    `args` field and then executes. Each handler is proved against a
    function on the context's value (`Machine`), and the properties the
    instruction set promises are lemmas about those functions.

    What the handlers do to the outside world (sleeping, clicking, moving
    the mouse, pressing keys) is returned as an `Effect` value. The
    `random()` draws come from an `Rng` object that hands out the values of
    a function `draw` in order, and the screenshot is an input value: a
    width, a height and a function from coordinates to pixels. */
module Instructions {
  import opened Wrappers
  import opened Strings
  import opened Geometry
  import opened Cluster

  /** A value `random()` can return. */
  type Draw = r: real | 0.0 <= r < 1.0

  /** Why a handler (or the dispatch loop) raises. */
  datatype Error =
    | ArgCount(itype: string, expected: nat, received: nat)  // `parse`
    | NotANumber(token: string)              // `int(...)` / `float(...)` fails
    | UnknownButton(button: string)          // msclk
    | NegativeSleep                          // `sleep` of a negative length
    | UnsupportedKey(key: string)            // pkey: not "space" nor one character
    | KeyHeld(key: string)                   // pkey: `sleep` of a negative length after the
                                             // press, so the key is never released
    | ClusterNotFound                        // msmvcolor: no cluster large enough
    | EmptyClusterMean                       // msmvcolor: mean of an empty cluster
    | UnknownRegister(register: string)      // sub, store (and jne's read of R0)
    | UnknownLabel(jumpLabel: string)            // taken jne
    | UnknownInstruction(itype: string)      // dispatch
    | UndefinedHandler(itype: string)        // dispatch of msmvtext
    | EmptyRange(low: int, high: int)        // `randint` with low > high (older instruction set)

  /** What a handler does outside the interpreter. */
  datatype Effect =
    | Sleep(seconds: real)
    | Click(button: string)
    | MoveTo(x: real, y: real, duration: real)            // pyautogui.moveTo
    | Press(key: string, seconds: real)                  // press, hold, release
    | HumanMove(x: real, y: real, multiplier: real)       // pyHM mouse.move

  datatype Opcode =
    | Delay | MouseClick | MouseMove | MouseMoveClickBox | MouseMoveColor
    | PressKey | Subtract | Store | JumpNotEqual

  /** The instruction type each handler passes to `Instruction.__init__`. */
  function Name(op: Opcode): string
  {
    match op
    case Delay => "delay"
    case MouseClick => "msclk"
    case MouseMove => "msmv"
    case MouseMoveClickBox => "msmvcb"
    case MouseMoveColor => "msmvcolor"
    case PressKey => "pkey"
    case Subtract => "sub"
    case Store => "store"
    case JumpNotEqual => "jne"
  }

  /** The argument count each handler passes to `Instruction.__init__`. */
  function Arity(op: Opcode): nat
  {
    match op
    case Delay => 2
    case MouseClick => 1
    case MouseMove => 3
    case MouseMoveClickBox => 9
    case MouseMoveColor => 6
    case PressKey => 2
    case Subtract => 2
    case Store => 2
    case JumpNotEqual => 1
  }

  /** The value of the execution context. */
  datatype Machine = Machine(pc: int, registers: map<string, int>, labels: map<string, int>)

  /** The `Context` dataclass: program counter, register file, label table. */
  class Context {
    var pc: int
    var registers: map<string, int>
    var labels: map<string, int>

    constructor (pc: int, registers: map<string, int>, labels: map<string, int>)
      ensures this.pc == pc && this.registers == registers && this.labels == labels
    {
      this.pc := pc;
      this.registers := registers;
      this.labels := labels;
    }

    function View(): Machine
      reads this
    {
      Machine(pc, registers, labels)
    }
  }

  /** The module-level `random()`: the n-th call returns `draw(n)`. */
  class Rng {
    const draw: nat -> Draw
    var count: nat

    constructor (draw: nat -> Draw)
      ensures this.draw == draw && count == 0
    {
      this.draw := draw;
      count := 0;
    }

    method Random() returns (r: Draw)
      modifies this
      ensures r == draw(old(count)) && count == old(count) + 1
    {
      r := draw(count);
      count := count + 1;
    }
  }

  // ---------------------------------------------------------------------
  // specification of parsing and of the handlers

  /** `Instruction.parse`: the tokens after the first of `raw.split(" ")`,
      when there are exactly `nargs` of them. */
  function ParseArgs(itype: string, nargs: nat, raw: string): (r: Result<seq<string>, Error>)
    ensures r.Ok? <==> |Split(raw, ' ')| == nargs + 1
    ensures r.Ok? ==> |r.value| == nargs && [Split(raw, ' ')[0]] + r.value == Split(raw, ' ')
    ensures r.Err? ==> r.error == ArgCount(itype, nargs, |Split(raw, ' ')| - 1)
  {
    var components := Split(raw, ' ')[1..];
    if |components| != nargs then Err(ArgCount(itype, nargs, |components|)) else Ok(components)
  }

  /** `int(...)` of every token, in order; the first that does not parse
      raises. */
  function ParseInts(tokens: seq<string>): (r: Result<seq<int>, Error>)
    ensures r.Ok? ==> |r.value| == |tokens|
  {
    if tokens == [] then Ok([])
    else match ParseInt(tokens[0])
      case None => Err(NotANumber(tokens[0]))
      case Some(v) =>
        Prepend([v], ParseInts(tokens[1..]))
  }

  /** The click box built from x, y pairs of tokens, in order. */
  function Corners(tokens: seq<string>): (r: Result<seq<Vertex>, Error>)
    requires |tokens| % 2 == 0
    ensures r.Ok? ==> |r.value| == |tokens| / 2
  {
    if tokens == [] then Ok([])
    else match ParseInt(tokens[0])
      case None => Err(NotANumber(tokens[0]))
      case Some(x) =>
        match ParseInt(tokens[1])
        case None => Err(NotANumber(tokens[1]))
        case Some(y) => Prepend([Vertex(x, y)], Corners(tokens[2..]))
  }

  /** The values `vs` followed by those of `r`, or `r`'s error. */
  function Prepend<T>(vs: seq<T>, r: Result<seq<T>, Error>): (p: Result<seq<T>, Error>)
    ensures p.Ok? <==> r.Ok?
    ensures p.Ok? ==> p.value == vs + r.value
    ensures p.Err? ==> p.error == r.error
  {
    match r
    case Err(e) => Err(e)
    case Ok(ws) => Ok(vs + ws)
  }

  lemma PrependNil<T>(r: Result<seq<T>, Error>)
    ensures Prepend([], r) == r
  {
    if r.Ok? {
      assert [] + r.value == r.value;
    }
  }

  lemma PrependAppend<T>(us: seq<T>, vs: seq<T>, r: Result<seq<T>, Error>)
    ensures Prepend(us, Prepend(vs, r)) == Prepend(us + vs, r)
  {
    if r.Ok? {
      assert us + (vs + r.value) == (us + vs) + r.value;
    }
  }

  /** `uniform(a, b)` for the draw r. */
  function Uniform(a: real, b: real, r: Draw): real
  {
    a + (b - a) * r
  }

  function Advance(m: Machine): Machine
  {
    m.(pc := m.pc + 1)
  }

  /** The new context and what happened outside, for a handler that
      completes. */
  datatype Transition = Transition(machine: Machine, effect: Option<Effect>)

  /** A handler's outcome, with the number of `random()` calls made so far. */
  datatype Step = Step(outcome: Result<Transition, Error>, next: nat)

  /** delay min max: sleep for uniform(min, max) seconds. */
  function DelaySpec(args: seq<string>, m: Machine, draw: nat -> Draw, next: nat): Step
    requires |args| == 2
  {
    match ParseFloat(args[0])
    case None => Step(Err(NotANumber(args[0])), next)
    case Some(lo) =>
      match ParseFloat(args[1])
      case None => Step(Err(NotANumber(args[1])), next)
      case Some(hi) =>
        var seconds := Uniform(lo, hi, draw(next));
        if seconds < 0.0 then Step(Err(NegativeSleep), next + 1)
        else Step(Ok(Transition(Advance(m), Some(Sleep(seconds)))), next + 1)
  }

  /** msclk button: click with the left or right button. */
  function MouseClickSpec(args: seq<string>, m: Machine): Result<Transition, Error>
    requires |args| == 1
  {
    var button := args[0];
    if button != "left" && button != "right" then Err(UnknownButton(button))
    else Ok(Transition(Advance(m), Some(Click(button))))
  }

  /** msmv x y duration. */
  function MouseMoveSpec(args: seq<string>, m: Machine): Result<Transition, Error>
    requires |args| == 3
  {
    match ParseInt(args[0])
    case None => Err(NotANumber(args[0]))
    case Some(x) =>
      match ParseInt(args[1])
      case None => Err(NotANumber(args[1]))
      case Some(y) =>
        match ParseFloat(args[2])
        case None => Err(NotANumber(args[2]))
        case Some(duration) => Ok(Transition(Advance(m), Some(MoveTo(x as real, y as real, duration))))
  }

  /** msmvcb x0 y0 x1 y1 x2 y2 x3 y3 duration: move to a random point of the
      click box; the coin and the two triangle draws come first, the
      duration is read after them. */
  function MouseMoveClickBoxSpec(args: seq<string>, m: Machine, draw: nat -> Draw, next: nat): Step
    requires |args| == 9
  {
    match Corners(args[..8])
    case Err(e) => Step(Err(e), next)
    case Ok(box) => ClickBoxStep(box, args[8], m, draw, next)
  }

  /** The coin and the two triangle draws, then the duration. */
  function ClickBoxStep(box: seq<Vertex>, token: string, m: Machine, draw: nat -> Draw, next: nat): Step
    requires |box| == 4
  {
    var p := GetRandPoint(box, draw(next), draw(next + 1), draw(next + 2));
    match ParseFloat(token)
    case None => Step(Err(NotANumber(token)), next + 3)
    case Some(duration) => Step(Ok(Transition(Advance(m), Some(MoveTo(p.x, p.y, duration)))), next + 3)
  }

  /** msmvcolor r g b tolerance min_cluster_size duration: move to the
      centroid of the largest matching cluster of the screenshot. */
  function MouseMoveColorSpec(args: seq<string>, m: Machine, screen: Image): Result<Transition, Error>
    requires |args| == 6
  {
    match ParseInts(args[..5])
    case Err(e) => Err(e)
    case Ok(vs) =>
      match Locate(screen, Pixel(vs[0], vs[1], vs[2]), vs[3], vs[4])
      case NotFound => Err(ClusterNotFound)
      case ZeroDivision => Err(EmptyClusterMean)
      case Found(x, y) =>
        match ParseFloat(args[5])
        case None => Err(NotANumber(args[5]))
        case Some(duration) => Ok(Transition(Advance(m), Some(MoveTo(x as real, y as real, duration))))
  }

  /** pkey key seconds: "space" names the space bar; any other key must be
      a single character for the keyboard controller. The key is pressed
      before the sleep, so a negative length raises with the key held down. */
  function PressKeySpec(args: seq<string>, m: Machine): Result<Transition, Error>
    requires |args| == 2
  {
    var key := args[0];
    match ParseFloat(args[1])
    case None => Err(NotANumber(args[1]))
    case Some(seconds) =>
      if key != "space" && |key| != 1 then Err(UnsupportedKey(key))
      else if seconds < 0.0 then Err(KeyHeld(key))
      else Ok(Transition(Advance(m), Some(Press(key, seconds))))
  }

  /** sub register immediate. */
  function SubtractSpec(args: seq<string>, m: Machine): Result<Transition, Error>
    requires |args| == 2
  {
    var register := args[0];
    match ParseInt(args[1])
    case None => Err(NotANumber(args[1]))
    case Some(immediate) =>
      if register !in m.registers then Err(UnknownRegister(register))
      else Ok(Transition(m.(pc := m.pc + 1, registers := m.registers[register := m.registers[register] - immediate]), None))
  }

  /** store register immediate. */
  function StoreSpec(args: seq<string>, m: Machine): Result<Transition, Error>
    requires |args| == 2
  {
    var register := args[0];
    match ParseInt(args[1])
    case None => Err(NotANumber(args[1]))
    case Some(immediate) =>
      if register !in m.registers then Err(UnknownRegister(register))
      else Ok(Transition(m.(pc := m.pc + 1, registers := m.registers[register := immediate]), None))
  }

  /** jne jumpLabel: jump when R0 is not zero. */
  function JumpNotEqualSpec(args: seq<string>, m: Machine): Result<Transition, Error>
    requires |args| == 1
  {
    var jumpLabel := args[0];
    if "R0" !in m.registers then Err(UnknownRegister("R0"))
    else if m.registers["R0"] == 0 then Ok(Transition(Advance(m), None))
    else if jumpLabel !in m.labels then Err(UnknownLabel(jumpLabel))
    else Ok(Transition(m.(pc := m.labels[jumpLabel]), None))
  }

  /** `execute` of the handler for `op`, after a successful `parse`. */
  function ExecuteSpec(op: Opcode, args: seq<string>, m: Machine, draw: nat -> Draw, next: nat,
                       screen: Image): Step
    requires |args| == Arity(op)
  {
    match op
    case Delay => DelaySpec(args, m, draw, next)
    case MouseClick => Step(MouseClickSpec(args, m), next)
    case MouseMove => Step(MouseMoveSpec(args, m), next)
    case MouseMoveClickBox => MouseMoveClickBoxSpec(args, m, draw, next)
    case MouseMoveColor => Step(MouseMoveColorSpec(args, m, screen), next)
    case PressKey => Step(PressKeySpec(args, m), next)
    case Subtract => Step(SubtractSpec(args, m), next)
    case Store => Step(StoreSpec(args, m), next)
    case JumpNotEqual => Step(JumpNotEqualSpec(args, m), next)
  }

  /** A handler's result and the context after it agree with an outcome: the
      transition when it completes, the untouched context when it raises. */
  predicate Agrees(r: Result<Option<Effect>, Error>, outcome: Result<Transition, Error>, before: Machine, after: Machine)
  {
    match outcome
    case Ok(t) => r == Ok(t.effect) && after == t.machine
    case Err(e) => r == Err(e) && after == before
  }

  // ---------------------------------------------------------------------
  // the instruction objects

  /** An instruction object: the handler for `op`, its parsed arguments and
      the shared context it updates. */
  class Instruction {
    const op: Opcode
    const nargs: nat
    var args: seq<string>
    const ctxt: Context

    constructor (op: Opcode, ctxt: Context)
      ensures this.op == op && nargs == Arity(op) && args == [] && this.ctxt == ctxt
    {
      this.op := op;
      nargs := Arity(op);
      args := [];
      this.ctxt := ctxt;
    }

    /** `parse(raw_inst)`: stores the arguments only when their count is
        right, and otherwise raises with `args` unchanged. */
    method Parse(raw: string) returns (r: Result<(), Error>)
      modifies this
      ensures ParseArgs(Name(op), nargs, raw).Ok? ==> r.Ok? && args == ParseArgs(Name(op), nargs, raw).value
      ensures ParseArgs(Name(op), nargs, raw).Err? ==> r == Err(ParseArgs(Name(op), nargs, raw).error) && args == old(args)
    {
      var components := Split(raw, ' ')[1..];
      if |components| != nargs {
        return Err(ArgCount(Name(op), nargs, |components|));
      }
      args := components;
      return Ok(());
    }

    /** `execute()`: runs the handler for `op` on the shared context. */
    method Execute(rng: Rng, screen: Image) returns (r: Result<Option<Effect>, Error>)
      requires |args| == Arity(op)
      modifies ctxt, rng
      ensures var s := ExecuteSpec(op, args, old(ctxt.View()), rng.draw, old(rng.count), screen);
        Agrees(r, s.outcome, old(ctxt.View()), ctxt.View()) && rng.count == s.next
    {
      match op
      case Delay => r := ExecuteDelay(rng);
      case MouseClick => r := ExecuteMouseClick();
      case MouseMove => r := ExecuteMouseMove();
      case MouseMoveClickBox => r := ExecuteMouseMoveClickBox(rng);
      case MouseMoveColor => r := ExecuteMouseMoveColor(screen);
      case PressKey => r := ExecutePressKey();
      case Subtract => r := ExecuteSubtract();
      case Store => r := ExecuteStore();
      case JumpNotEqual => r := ExecuteJumpNotEqual();
    }

    method ExecuteDelay(rng: Rng) returns (r: Result<Option<Effect>, Error>)
      requires |args| == 2
      modifies ctxt, rng
      ensures var s := DelaySpec(args, old(ctxt.View()), rng.draw, old(rng.count));
        Agrees(r, s.outcome, old(ctxt.View()), ctxt.View()) && rng.count == s.next
    {
      var lo := ParseFloat(args[0]);
      if lo.None? {
        return Err(NotANumber(args[0]));
      }
      var hi := ParseFloat(args[1]);
      if hi.None? {
        return Err(NotANumber(args[1]));
      }
      var x := rng.Random();
      var seconds := Uniform(lo.value, hi.value, x);
      if seconds < 0.0 {
        return Err(NegativeSleep);
      }
      ctxt.pc := ctxt.pc + 1;
      return Ok(Some(Sleep(seconds)));
    }

    method ExecuteMouseClick() returns (r: Result<Option<Effect>, Error>)
      requires |args| == 1
      modifies ctxt
      ensures Agrees(r, MouseClickSpec(args, old(ctxt.View())), old(ctxt.View()), ctxt.View())
    {
      var button := args[0];
      if button != "left" && button != "right" {
        return Err(UnknownButton(button));
      }
      ctxt.pc := ctxt.pc + 1;
      return Ok(Some(Click(button)));
    }

    method ExecuteMouseMove() returns (r: Result<Option<Effect>, Error>)
      requires |args| == 3
      modifies ctxt
      ensures Agrees(r, MouseMoveSpec(args, old(ctxt.View())), old(ctxt.View()), ctxt.View())
    {
      var x := ParseInt(args[0]);
      if x.None? {
        return Err(NotANumber(args[0]));
      }
      var y := ParseInt(args[1]);
      if y.None? {
        return Err(NotANumber(args[1]));
      }
      var duration := ParseFloat(args[2]);
      if duration.None? {
        return Err(NotANumber(args[2]));
      }
      ctxt.pc := ctxt.pc + 1;
      return Ok(Some(MoveTo(x.value as real, y.value as real, duration.value)));
    }

    /** The click-box loop: one corner per pair of arguments before the last. */
    method BuildClickBox() returns (r: Result<seq<Vertex>, Error>)
      requires |args| == 9
      ensures r == Corners(args[..8])
    {
      var clickbox: seq<Vertex> := [];
      var i := 0;
      PrependNil(Corners(args[..8]));
      while i < |args| - 1
        invariant 0 <= i <= 8 && i % 2 == 0
        invariant Corners(args[..8]) == Prepend(clickbox, Corners(args[i..8]))
      {
        var x := ParseInt(args[i]);
        if x.None? {
          return Err(NotANumber(args[i]));
        }
        var y := ParseInt(args[i + 1]);
        if y.None? {
          return Err(NotANumber(args[i + 1]));
        }
        assert args[i..8][2..] == args[i + 2..8];
        PrependAppend(clickbox, [Vertex(x.value, y.value)], Corners(args[i + 2..8]));
        clickbox := clickbox + [Vertex(x.value, y.value)];
        i := i + 2;
      }
      assert args[i..8] == [];
      assert clickbox + [] == clickbox;
      return Ok(clickbox);
    }

    method ExecuteMouseMoveClickBox(rng: Rng) returns (r: Result<Option<Effect>, Error>)
      requires |args| == 9
      modifies ctxt, rng
      ensures var s := MouseMoveClickBoxSpec(args, old(ctxt.View()), rng.draw, old(rng.count));
        Agrees(r, s.outcome, old(ctxt.View()), ctxt.View()) && rng.count == s.next
    {
      var clickbox := BuildClickBox();
      if clickbox.Err? {
        return Err(clickbox.error);
      }
      r := MoveInClickBox(clickbox.value, rng);
    }

    /** The random point of the click box and the move to it. */
    method MoveInClickBox(box: seq<Vertex>, rng: Rng) returns (r: Result<Option<Effect>, Error>)
      requires |box| == 4 && |args| == 9
      modifies ctxt, rng
      ensures var s := ClickBoxStep(box, args[8], old(ctxt.View()), rng.draw, old(rng.count));
        Agrees(r, s.outcome, old(ctxt.View()), ctxt.View()) && rng.count == s.next
    {
      ghost var before := ctxt.View();
      var token := args[8];
      var pos := DrawPoint(box, rng);
      var duration := ParseFloat(token);
      if duration.None? {
        return Err(NotANumber(token));
      }
      ctxt.pc := ctxt.pc + 1;
      assert ctxt.View() == Advance(before);
      r := Ok(Some(MoveTo(pos.x, pos.y, duration.value)));
    }

    /** `_get_rand_point(clickbox)`: the coin, then the two triangle draws. */
    static method DrawPoint(box: seq<Vertex>, rng: Rng) returns (p: Point)
      requires |box| == 4
      modifies rng
      ensures rng.count == old(rng.count) + 3
      ensures p == GetRandPoint(box, rng.draw(old(rng.count)), rng.draw(old(rng.count) + 1), rng.draw(old(rng.count) + 2))
    {
      var coin := rng.Random();
      var s := rng.Random();
      var t := rng.Random();
      p := GetRandPoint(box, coin, s, t);
    }

    method ExecuteMouseMoveColor(screen: Image) returns (r: Result<Option<Effect>, Error>)
      requires |args| == 6
      modifies ctxt
      ensures Agrees(r, MouseMoveColorSpec(args, old(ctxt.View()), screen), old(ctxt.View()), ctxt.View())
    {
      var values := ParseIntsLoop(args[..5]);
      if values.Err? {
        return Err(values.error);
      }
      ParseIntsShape(args[..5]);
      var rgb := Pixel(values.value[0], values.value[1], values.value[2]);
      var tolerance, minClusterSize := values.value[3], values.value[4];
      var pos := FindLargestColorCluster(screen, rgb, tolerance, minClusterSize);
      if pos.NotFound? {
        return Err(ClusterNotFound);
      }
      if pos.ZeroDivision? {
        return Err(EmptyClusterMean);
      }
      var duration := ParseFloat(args[5]);
      if duration.None? {
        return Err(NotANumber(args[5]));
      }
      ctxt.pc := ctxt.pc + 1;
      return Ok(Some(MoveTo(pos.x as real, pos.y as real, duration.value)));
    }

    method ExecutePressKey() returns (r: Result<Option<Effect>, Error>)
      requires |args| == 2
      modifies ctxt
      ensures Agrees(r, PressKeySpec(args, old(ctxt.View())), old(ctxt.View()), ctxt.View())
    {
      var key := args[0];
      var seconds := ParseFloat(args[1]);
      if seconds.None? {
        return Err(NotANumber(args[1]));
      }
      if key != "space" && |key| != 1 {
        return Err(UnsupportedKey(key));
      }
      if seconds.value < 0.0 {
        return Err(KeyHeld(key));
      }
      ctxt.pc := ctxt.pc + 1;
      return Ok(Some(Press(key, seconds.value)));
    }

    method ExecuteSubtract() returns (r: Result<Option<Effect>, Error>)
      requires |args| == 2
      modifies ctxt
      ensures Agrees(r, SubtractSpec(args, old(ctxt.View())), old(ctxt.View()), ctxt.View())
    {
      var register := args[0];
      var immediate := ParseInt(args[1]);
      if immediate.None? {
        return Err(NotANumber(args[1]));
      }
      if register !in ctxt.registers {
        return Err(UnknownRegister(register));
      }
      ctxt.registers := ctxt.registers[register := ctxt.registers[register] - immediate.value];
      ctxt.pc := ctxt.pc + 1;
      return Ok(None);
    }

    method ExecuteStore() returns (r: Result<Option<Effect>, Error>)
      requires |args| == 2
      modifies ctxt
      ensures Agrees(r, StoreSpec(args, old(ctxt.View())), old(ctxt.View()), ctxt.View())
    {
      var register := args[0];
      var immediate := ParseInt(args[1]);
      if immediate.None? {
        return Err(NotANumber(args[1]));
      }
      if register !in ctxt.registers {
        return Err(UnknownRegister(register));
      }
      ctxt.registers := ctxt.registers[register := immediate.value];
      ctxt.pc := ctxt.pc + 1;
      return Ok(None);
    }

    method ExecuteJumpNotEqual() returns (r: Result<Option<Effect>, Error>)
      requires |args| == 1
      modifies ctxt
      ensures Agrees(r, JumpNotEqualSpec(args, old(ctxt.View())), old(ctxt.View()), ctxt.View())
    {
      var jumpLabel := args[0];
      if "R0" !in ctxt.registers {
        return Err(UnknownRegister("R0"));
      }
      if ctxt.registers["R0"] == 0 {
        ctxt.pc := ctxt.pc + 1;
      } else {
        if jumpLabel !in ctxt.labels {
          return Err(UnknownLabel(jumpLabel));
        }
        ctxt.pc := ctxt.labels[jumpLabel];
      }
      return Ok(None);
    }
  }

  /** `int(...)` of each token in turn, stopping at the first failure. */
  method ParseIntsLoop(tokens: seq<string>) returns (r: Result<seq<int>, Error>)
    ensures r == ParseInts(tokens)
  {
    var values: seq<int> := [];
    PrependNil(ParseInts(tokens));
    assert tokens[0..] == tokens;
    for i := 0 to |tokens|
      invariant ParseInts(tokens) == Prepend(values, ParseInts(tokens[i..]))
    {
      var v := ParseInt(tokens[i]);
      if v.None? {
        return Err(NotANumber(tokens[i]));
      }
      assert tokens[i..][1..] == tokens[i + 1..];
      PrependAppend(values, [v.value], ParseInts(tokens[i + 1..]));
      values := values + [v.value];
    }
    assert tokens[|tokens|..] == [];
    assert values + [] == values;
    return Ok(values);
  }

  // ---------------------------------------------------------------------
  // properties

  /** `int(...)` of a list succeeds exactly when every token is a number,
      and then gives one value per token, in order. */
  lemma {:induction false} ParseIntsShape(tokens: seq<string>)
    ensures ParseInts(tokens).Ok? <==> forall i :: 0 <= i < |tokens| ==> ParseInt(tokens[i]).Some?
    ensures ParseInts(tokens).Ok? ==>
      |ParseInts(tokens).value| == |tokens|
      && forall i :: 0 <= i < |tokens| ==> ParseInts(tokens).value[i] == ParseInt(tokens[i]).value
  {
    if tokens != [] {
      ParseIntsShape(tokens[1..]);
      assert forall i :: 1 <= i < |tokens| ==> tokens[i] == tokens[1..][i - 1];
    }
  }

  /** The click box has one corner per pair of tokens, corner j made of
      tokens 2j and 2j + 1, and is built exactly when every token is a
      number. */
  lemma {:induction false} CornersShape(tokens: seq<string>)
    requires |tokens| % 2 == 0
    ensures Corners(tokens).Ok? <==> forall i :: 0 <= i < |tokens| ==> ParseInt(tokens[i]).Some?
    ensures Corners(tokens).Ok? ==>
      |Corners(tokens).value| == |tokens| / 2
      && forall j :: 0 <= j < |tokens| / 2 ==>
           Corners(tokens).value[j] == Vertex(ParseInt(tokens[2 * j]).value, ParseInt(tokens[2 * j + 1]).value)
  {
    if tokens != [] {
      var rest := tokens[2..];
      CornersShape(rest);
      assert forall i :: 2 <= i < |tokens| ==> tokens[i] == rest[i - 2];
      if Corners(tokens).Ok? {
        var vs := Corners(tokens).value;
        forall j | 1 <= j < |tokens| / 2
          ensures vs[j] == Vertex(ParseInt(tokens[2 * j]).value, ParseInt(tokens[2 * j + 1]).value)
        {
          assert vs[j] == Corners(rest).value[j - 1];
          assert tokens[2 * j] == rest[2 * (j - 1)] && tokens[2 * j + 1] == rest[2 * (j - 1) + 1];
        }
      }
    }
  }

  /** `parse` succeeds exactly when the line has `nargs` tokens after the
      instruction type, and then keeps them; a line written as the type
      followed by its arguments, separated by single spaces, parses back to
      those arguments. */
  lemma ParseArgsJoin(itype: string, args: seq<string>)
    requires ' ' !in itype && forall i :: 0 <= i < |args| ==> ' ' !in args[i]
    ensures ParseArgs(itype, |args|, Join(' ', [itype] + args)) == Ok(args)
    ensures forall n: nat :: n != |args| ==> ParseArgs(itype, n, Join(' ', [itype] + args)).Err?
  {
    var parts := [itype] + args;
    assert forall i :: 0 <= i < |parts| ==> ' ' !in parts[i] by {
      forall i | 0 <= i < |parts|
        ensures ' ' !in parts[i]
      {
        if i > 0 {
          assert parts[i] == args[i - 1];
        }
      }
    }
    SplitJoin(parts, ' ');
    assert parts[1..] == args;
  }

  /** `store r v` sets register r to v and advances the pc, and raises, with
      the context unchanged, exactly when r is not already a register or v
      is not a number; the register names and the labels never change. */
  lemma StoreOutcome(args: seq<string>, m: Machine)
    requires |args| == 2
    ensures StoreSpec(args, m).Ok? <==> args[0] in m.registers && ParseInt(args[1]).Some?
    ensures StoreSpec(args, m).Ok? ==>
      var n := StoreSpec(args, m).value.machine;
      && n.pc == m.pc + 1 && n.labels == m.labels
      && n.registers.Keys == m.registers.Keys
      && n.registers[args[0]] == ParseInt(args[1]).value
      && (forall q :: q in m.registers && q != args[0] ==> n.registers[q] == m.registers[q])
      && StoreSpec(args, m).value.effect == None
  {
  }

  /** `sub r v` lowers register r by v and advances the pc, under the same
      conditions as `store`. */
  lemma SubtractOutcome(args: seq<string>, m: Machine)
    requires |args| == 2
    ensures SubtractSpec(args, m).Ok? <==> args[0] in m.registers && ParseInt(args[1]).Some?
    ensures SubtractSpec(args, m).Ok? ==>
      var n := SubtractSpec(args, m).value.machine;
      && n.pc == m.pc + 1 && n.labels == m.labels
      && n.registers.Keys == m.registers.Keys
      && n.registers[args[0]] == m.registers[args[0]] - ParseInt(args[1]).value
      && (forall q :: q in m.registers && q != args[0] ==> n.registers[q] == m.registers[q])
      && SubtractSpec(args, m).value.effect == None
  {
  }

  /** `jne l` falls through when R0 is 0, whether or not l is known, and
      otherwise jumps to l's address, raising only when l is unknown; the
      registers and labels never change. */
  lemma JumpNotEqualOutcome(args: seq<string>, m: Machine)
    requires |args| == 1 && "R0" in m.registers
    ensures m.registers["R0"] == 0 ==> JumpNotEqualSpec(args, m) == Ok(Transition(Advance(m), None))
    ensures m.registers["R0"] != 0 ==>
      (JumpNotEqualSpec(args, m).Err? <==> args[0] !in m.labels)
      && (args[0] in m.labels ==> JumpNotEqualSpec(args, m) == Ok(Transition(m.(pc := m.labels[args[0]]), None)))
      && (args[0] !in m.labels ==> JumpNotEqualSpec(args, m) == Err(UnknownLabel(args[0])))
  {
  }

  /** The opcodes that act on the outside world. */
  predicate IsEffectful(op: Opcode)
  {
    op != Subtract && op != Store && op != JumpNotEqual
  }

  /** Every handler except sub, store and jne advances the pc by exactly
      one and leaves the registers and labels alone, and reports what it did
      outside; every handler that raises leaves the context alone; sub and
      store keep the set of register names. */
  lemma ExecuteOutcome(op: Opcode, args: seq<string>, m: Machine, draw: nat -> Draw, next: nat, screen: Image)
    requires |args| == Arity(op)
    ensures var s := ExecuteSpec(op, args, m, draw, next, screen);
      && (IsEffectful(op) && s.outcome.Ok? ==>
            s.outcome.value.machine == Advance(m) && s.outcome.value.effect.Some?)
      && (!IsEffectful(op) && s.outcome.Ok? ==>
            s.outcome.value.effect == None
            && s.outcome.value.machine.labels == m.labels
            && s.outcome.value.machine.registers.Keys == m.registers.Keys)
      && next <= s.next
  {
  }

  /** msclk raises, before the pc moves, exactly for buttons other than
      left and right. */
  lemma MouseClickOutcome(args: seq<string>, m: Machine)
    requires |args| == 1
    ensures MouseClickSpec(args, m).Err? <==> args[0] != "left" && args[0] != "right"
    ensures MouseClickSpec(args, m).Err? ==> MouseClickSpec(args, m).error == UnknownButton(args[0])
    ensures MouseClickSpec(args, m).Ok? ==> MouseClickSpec(args, m).value.effect == Some(Click(args[0]))
  {
  }

  /** pkey completes exactly for a supported key and a non-negative length;
      a supported key with a negative length raises with that key held. */
  lemma PressKeyOutcome(args: seq<string>, m: Machine)
    requires |args| == 2
    ensures var key, seconds := args[0], ParseFloat(args[1]);
      && (PressKeySpec(args, m).Ok? <==> seconds.Some? && (key == "space" || |key| == 1) && seconds.value >= 0.0)
      && (seconds.Some? && (key == "space" || |key| == 1) && seconds.value < 0.0 ==>
            PressKeySpec(args, m) == Err(KeyHeld(key)))
      && (PressKeySpec(args, m).Ok? ==>
            PressKeySpec(args, m).value == Transition(Advance(m), Some(Press(key, seconds.value))))
  {
  }

  /** `uniform(a, b)` lies between a and b. */
  lemma UniformBetween(a: real, b: real, r: Draw)
    requires a <= b
    ensures a <= Uniform(a, b, r) <= b
  {
    ProductNonNegative(b - a, r);
    ProductNonNegative(b - a, 1.0 - r);
    assert (b - a) * r + (b - a) * (1.0 - r) == b - a;
  }

  /** A delay between two non-negative bounds min <= max sleeps for a time
      between them, and each delay uses one draw. */
  lemma DelayWithinBounds(args: seq<string>, m: Machine, draw: nat -> Draw, next: nat)
    requires |args| == 2 && ParseFloat(args[0]).Some? && ParseFloat(args[1]).Some?
    requires 0.0 <= ParseFloat(args[0]).value <= ParseFloat(args[1]).value
    ensures var s := DelaySpec(args, m, draw, next);
      && s.outcome.Ok? && s.next == next + 1
      && s.outcome.value.effect.Some? && s.outcome.value.effect.value.Sleep?
      && ParseFloat(args[0]).value <= s.outcome.value.effect.value.seconds <= ParseFloat(args[1]).value
  {
    UniformBetween(ParseFloat(args[0]).value, ParseFloat(args[1]).value, draw(next));
  }

  /** msmvcb completes exactly when arguments 0 to 7 and the duration in
      argument 8 are numbers; it then moves to the random point of the
      quadrilateral drawn with three draws, which lies in the bounding box
      of the four corners. */
  lemma MouseMoveClickBoxTarget(args: seq<string>, m: Machine, draw: nat -> Draw, next: nat)
    requires |args| == 9
    ensures var s := MouseMoveClickBoxSpec(args, m, draw, next);
      && (s.outcome.Ok? <==> Corners(args[..8]).Ok? && ParseFloat(args[8]).Some?)
      && (Corners(args[..8]).Ok? ==> s.next == next + 3)
      && (Corners(args[..8]).Err? ==> s == Step(Err(Corners(args[..8]).error), next))
      && (s.outcome.Ok? ==>
            var box := Corners(args[..8]).value;
            && |box| == 4
            && var p := GetRandPoint(box, draw(next), draw(next + 1), draw(next + 2));
            && s.outcome.value == Transition(Advance(m), Some(MoveTo(p.x, p.y, ParseFloat(args[8]).value)))
            && InBoundingBox(p, box))
  {
    if Corners(args[..8]).Ok? {
      var box := Corners(args[..8]).value;
      RandPointInClickBox(box, draw(next), draw(next + 1), draw(next + 2));
    }
  }

  /** msmvcolor raises when no cluster of the screenshot reaches the minimum
      size, and otherwise moves to a pixel of the screenshot that is the
      centroid of the largest cluster. */
  lemma MouseMoveColorTarget(args: seq<string>, m: Machine, screen: Image)
    requires |args| == 6 && ParseInts(args[..5]).Ok?
    ensures var vs := ParseInts(args[..5]).value;
      |vs| == 5 &&
      var target, tolerance, minSize := Pixel(vs[0], vs[1], vs[2]), vs[3], vs[4];
      var largest := Scan(screen, target, tolerance).largest;
      var r := MouseMoveColorSpec(args, m, screen);
      && (|largest| < minSize ==> r == Err(ClusterNotFound))
      && (r.Ok? ==>
            var e := r.value.effect.value;
            && |largest| >= minSize && IsComponent(screen, target, tolerance, largest)
            && e.MoveTo? && (e.x.Floor, e.y.Floor) == Centroid(largest)
            && InImage(screen, Centroid(largest)))
  {
    ParseIntsShape(args[..5]);
    var vs := ParseInts(args[..5]).value;
    LocateOutcomes(screen, Pixel(vs[0], vs[1], vs[2]), vs[3], vs[4]);
  }
}
