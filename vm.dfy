/** The dispatch loop of src/vm.py. `_execute_instructions` creates a fresh
    context (pc 0, register R0 holding 0, no labels) and, while the pc
    indexes a line, decodes the line's first space-separated token and
    either hands the line to a new handler object (which parses, then
    executes), or records a label, or raises.

    A script whose jumps loop forever makes the source run forever; the
    model runs for at most `fuel` steps and reports `OutOfFuel` when the
    bound is reached while the pc still indexes a line. */
module Vm {
  import opened Wrappers
  import opened Strings
  import opened Cluster
  import opened Instructions

  /** What the first token of a line selects. */
  datatype Decoded =
    | Handler(op: Opcode)       // a handler class
    | TextHandler               // `msmvtext`, whose handler class is not defined
    | LabelDecl(name: string)   // `name:`
    | Unknown

  /** True when `itype` ends with a colon (`itype.endswith(":")`). */
  predicate IsLabelToken(itype: string)
  {
    |itype| > 0 && itype[|itype| - 1] == ':'
  }

  /** The if/elif chain of `_execute_instructions`. `pkey` is not in the
      chain, so a `pkey` line is an unknown instruction. */
  function Decode(itype: string): Decoded
  {
    if itype == "delay" then Handler(Delay)
    else if itype == "msclk" then Handler(MouseClick)
    else if itype == "msmv" then Handler(MouseMove)
    else if itype == "msmvcb" then Handler(MouseMoveClickBox)
    else if itype == "msmvcolor" then Handler(MouseMoveColor)
    else if itype == "msmvtext" then TextHandler
    else if itype == "sub" then Handler(Subtract)
    else if itype == "store" then Handler(Store)
    else if itype == "jne" then Handler(JumpNotEqual)
    else if IsLabelToken(itype) then LabelDecl(itype[..|itype| - 1])
    else Unknown
  }

  /** The instruction type of a line: the first token of `raw.split(" ")`. */
  function InstructionType(raw: string): string
  {
    Split(raw, ' ')[0]
  }

  /** A label line: the pc moves past it, and then the label is bound to
      that new pc. */
  function LabelStep(m: Machine, name: string): Machine
  {
    var pc := m.pc + 1;
    m.(pc := pc, labels := m.labels[name := pc])
  }

  /** The nested `execute(inst_type, raw_inst, ctxt)`: `parse` first, and
      only when it succeeds `execute`. */
  function DispatchSpec(op: Opcode, raw: string, m: Machine, draw: nat -> Draw, next: nat,
                        screen: Image): Step
  {
    match ParseArgs(Name(op), Arity(op), raw)
    case Err(e) => Step(Err(e), next)
    case Ok(args) => ExecuteSpec(op, args, m, draw, next, screen)
  }

  /** One pass of the while loop, on the line the pc indexes. */
  function StepSpec(instructions: seq<string>, m: Machine, draw: nat -> Draw, next: nat,
                    screen: Image): Step
    requires Running(instructions, m)
  {
    var raw := instructions[m.pc];
    var itype := InstructionType(raw);
    match Decode(itype)
    case Handler(op) => DispatchSpec(op, raw, m, draw, next, screen)
    case LabelDecl(name) => Step(Ok(Transition(LabelStep(m, name), None)), next)
    case TextHandler => Step(Err(UndefinedHandler(itype)), next)
    case Unknown => Step(Err(UnknownInstruction(itype)), next)
  }

  /** `ctxt.pc in range(0, len(instructions))`. */
  predicate Running(instructions: seq<string>, m: Machine)
  {
    0 <= m.pc < |instructions|
  }

  datatype Status = Halted | Failed(error: Error) | OutOfFuel

  /** How a run ends: the status, the final context, what was done outside
      in order, and how many `random()` draws were used. */
  datatype Outcome = Outcome(status: Status, machine: Machine, effects: seq<Effect>, next: nat)

  function Emitted(e: Option<Effect>): seq<Effect>
  {
    if e.Some? then [e.value] else []
  }

  /** One pass of the loop as a function of the context and the number of
      draws used so far. */
  type Pass = (Machine, nat) -> Step

  /** The pass of a script: `StepSpec` on the line the pc indexes (`Run`
      never takes a pass with the pc outside the script). */
  function PassOf(instructions: seq<string>, draw: nat -> Draw, screen: Image): Pass
  {
    (m: Machine, next: nat) =>
      if Running(instructions, m) then StepSpec(instructions, m, draw, next, screen)
      else Step(Ok(Transition(m, None)), next)
  }

  /** `pass` steps as `StepSpec` wherever the pc indexes a line. */
  ghost predicate Takes(pass: Pass, instructions: seq<string>, draw: nat -> Draw, screen: Image)
  {
    forall m: Machine, next: nat {:trigger StepSpec(instructions, m, draw, next, screen)} ::
      Running(instructions, m) ==> pass(m, next) == StepSpec(instructions, m, draw, next, screen)
  }

  lemma PassOfTakes(instructions: seq<string>, draw: nat -> Draw, screen: Image)
    ensures Takes(PassOf(instructions, draw, screen), instructions, draw, screen)
  {
  }

  /** The loop from context m, after `effects`, for at most `fuel` passes. */
  function Run(pass: Pass, instructions: seq<string>, m: Machine, next: nat, fuel: nat, effects: seq<Effect>): Outcome
    decreases fuel
  {
    if !Running(instructions, m) then Outcome(Halted, m, effects, next)
    else if fuel == 0 then Outcome(OutOfFuel, m, effects, next)
    else
      var s := pass(m, next);
      match s.outcome
      case Err(e) => Outcome(Failed(e), m, effects, s.next)
      case Ok(t) => Run(pass, instructions, t.machine, s.next, fuel - 1, effects + Emitted(t.effect))
  }

  /** A pass never gives back draws. */
  ghost predicate Forward(pass: Pass)
  {
    forall m: Machine, next: nat :: next <= pass(m, next).next
  }

  /** A run halts only once the pc is outside the script, stops early only
      on a raise or when the fuel runs out with the pc still inside, and
      only ever adds to the effects and the draws used. */
  lemma {:induction false} RunEnds(pass: Pass, instructions: seq<string>, m: Machine, next: nat, fuel: nat,
                                   effects: seq<Effect>)
    requires Forward(pass)
    ensures var o := Run(pass, instructions, m, next, fuel, effects);
      && (o.status == Halted <==> !Running(instructions, o.machine))
      && (o.status == OutOfFuel ==> Running(instructions, o.machine))
      && effects <= o.effects && next <= o.next
    decreases fuel
  {
    if Running(instructions, m) && fuel > 0 {
      var s := pass(m, next);
      if s.outcome.Ok? {
        var t := s.outcome.value;
        RunEnds(pass, instructions, t.machine, s.next, fuel - 1, effects + Emitted(t.effect));
      }
    }
  }

  /** A pass of the loop never gives back draws. */
  lemma StepDraws(instructions: seq<string>, m: Machine, draw: nat -> Draw, next: nat, screen: Image)
    requires Running(instructions, m)
    ensures next <= StepSpec(instructions, m, draw, next, screen).next
  {
    var raw := instructions[m.pc];
    match Decode(InstructionType(raw))
    case Handler(op) =>
      if ParseArgs(Name(op), Arity(op), raw).Ok? {
        ExecuteOutcome(op, ParseArgs(Name(op), Arity(op), raw).value, m, draw, next, screen);
      }
    case _ =>
  }

  lemma PassOfForward(instructions: seq<string>, draw: nat -> Draw, screen: Image)
    ensures Forward(PassOf(instructions, draw, screen))
  {
    forall m: Machine, next: nat
      ensures next <= PassOf(instructions, draw, screen)(m, next).next
    {
      if Running(instructions, m) {
        StepDraws(instructions, m, draw, next, screen);
      }
    }
  }

  /** The context `_execute_instructions` starts from. */
  function Initial(): Machine
  {
    Machine(0, map["R0" := 0], map[])
  }

  // ---------------------------------------------------------------------
  // decoding

  /** Every handler's type name selects that handler, except `pkey`, which
      the chain does not list; and a token that selects a handler is that
      handler's name. */
  lemma DecodeNames(op: Opcode, itype: string)
    ensures op != PressKey ==> Decode(Name(op)) == Handler(op)
    ensures Decode(Name(PressKey)) == Unknown
    ensures Decode(itype).Handler? ==> Name(Decode(itype).op) == itype && Decode(itype).op != PressKey
  {
  }

  /** A token declares a label exactly when it ends with a colon, and the
      label is the token without that colon. */
  lemma DecodeLabel(itype: string)
    ensures Decode(itype).LabelDecl? <==> IsLabelToken(itype)
    ensures Decode(itype).LabelDecl? ==> Decode(itype).name + ":" == itype
  {
    if IsLabelToken(itype) {
      assert itype[|itype| - 1] == ':';
      assert itype != "delay" && itype != "msclk" && itype != "msmv" && itype != "msmvcb";
      assert itype != "msmvcolor" && itype != "msmvtext" && itype != "sub" && itype != "store" && itype != "jne";
      assert itype[..|itype| - 1] + ":" == itype;
    }
  }

  /** What one pass does before any handler runs: a label line moves the pc
      on and binds the label to the new pc; an unknown type raises; a known
      handler whose line has the wrong number of arguments raises the count
      error. None of these draws, and the raises leave the context alone. */
  lemma StepCases(instructions: seq<string>, m: Machine, draw: nat -> Draw, next: nat, screen: Image)
    requires Running(instructions, m)
    ensures var raw := instructions[m.pc];
      var itype := InstructionType(raw);
      var s := StepSpec(instructions, m, draw, next, screen);
      && (Decode(itype).LabelDecl? ==>
            s.next == next && s.outcome.Ok? && s.outcome.value.effect == None
            && s.outcome.value.machine.pc == m.pc + 1
            && s.outcome.value.machine.labels == m.labels[Decode(itype).name := m.pc + 1]
            && s.outcome.value.machine.registers == m.registers)
      && (Decode(itype).Unknown? ==> s == Step(Err(UnknownInstruction(itype)), next))
      && (Decode(itype).TextHandler? ==> s == Step(Err(UndefinedHandler(itype)), next))
      && (Decode(itype).Handler? && |Split(raw, ' ')| != Arity(Decode(itype).op) + 1 ==>
            s == Step(Err(ArgCount(itype, Arity(Decode(itype).op), |Split(raw, ' ')| - 1)), next))
  {
    var itype := InstructionType(instructions[m.pc]);
    if Decode(itype).Handler? {
      DecodeNames(Decode(itype).op, itype);
    }
  }

  // ---------------------------------------------------------------------
  // what a run keeps

  /** Line `a - 1` declares label `name`, so a jump to it resumes on the
      line after the declaration. */
  predicate DeclaresAt(instructions: seq<string>, name: string, a: int)
  {
    1 <= a <= |instructions| && Decode(InstructionType(instructions[a - 1])) == LabelDecl(name)
  }

  /** The context of a run: the pc indexes a line or is one past the last,
      R0 is the only register, and every label is bound to the line after
      its declaration. */
  ghost predicate Inv(instructions: seq<string>, m: Machine)
  {
    && 0 <= m.pc <= |instructions|
    && m.registers.Keys == {"R0"}
    && forall name :: name in m.labels ==> DeclaresAt(instructions, name, m.labels[name])
  }

  lemma InitialInv(instructions: seq<string>)
    ensures Inv(instructions, Initial())
  {
    assert Initial().registers.Keys == {"R0"};
  }

  /** One pass keeps the invariant. */
  lemma StepKeepsInv(instructions: seq<string>, m: Machine, draw: nat -> Draw, next: nat, screen: Image)
    requires Running(instructions, m) && Inv(instructions, m)
    ensures var s := StepSpec(instructions, m, draw, next, screen);
      s.outcome.Ok? ==> Inv(instructions, s.outcome.value.machine)
  {
    var raw := instructions[m.pc];
    match Decode(InstructionType(raw))
    case Handler(op) =>
      var parsed := ParseArgs(Name(op), Arity(op), raw);
      if parsed.Ok? {
        HandlerKeepsInv(instructions, op, parsed.value, m, draw, next, screen);
      }
    case LabelDecl(name) =>
      LabelKeepsInv(instructions, m, name);
    case _ =>
  }

  /** A handler that completes keeps the invariant: a jump lands on a bound
      label, and sub and store write only to registers that exist. */
  lemma HandlerKeepsInv(instructions: seq<string>, op: Opcode, args: seq<string>, m: Machine, draw: nat -> Draw,
                        next: nat, screen: Image)
    requires |args| == Arity(op) && Running(instructions, m) && Inv(instructions, m)
    ensures var s := ExecuteSpec(op, args, m, draw, next, screen);
      s.outcome.Ok? ==> Inv(instructions, s.outcome.value.machine)
  {
    ExecuteOutcome(op, args, m, draw, next, screen);
  }

  /** A label line at the pc keeps the invariant: the label it binds is
      declared on the line before the new pc. */
  lemma LabelKeepsInv(instructions: seq<string>, m: Machine, name: string)
    requires Running(instructions, m) && Inv(instructions, m)
    requires Decode(InstructionType(instructions[m.pc])) == LabelDecl(name)
    ensures Inv(instructions, LabelStep(m, name))
  {
    var m' := LabelStep(m, name);
    forall l | l in m'.labels
      ensures DeclaresAt(instructions, l, m'.labels[l])
    {
      if l != name {
        assert m'.labels[l] == m.labels[l];
      }
    }
  }

  /** Every pass that completes keeps the invariant. */
  ghost predicate KeepsInv(pass: Pass, instructions: seq<string>)
  {
    forall m: Machine, next: nat :: Running(instructions, m) && Inv(instructions, m) && pass(m, next).outcome.Ok? ==>
      Inv(instructions, pass(m, next).outcome.value.machine)
  }

  lemma PassOfKeepsInv(instructions: seq<string>, draw: nat -> Draw, screen: Image)
    ensures KeepsInv(PassOf(instructions, draw, screen), instructions)
  {
    forall m: Machine, next: nat | Running(instructions, m) && Inv(instructions, m)
      ensures var s := PassOf(instructions, draw, screen)(m, next);
        s.outcome.Ok? ==> Inv(instructions, s.outcome.value.machine)
    {
      StepKeepsInv(instructions, m, draw, next, screen);
    }
  }

  /** Every context a run passes through keeps the invariant, including the
      one it ends in. */
  lemma {:induction false} RunKeepsInv(pass: Pass, instructions: seq<string>, m: Machine, next: nat, fuel: nat,
                                       effects: seq<Effect>)
    requires KeepsInv(pass, instructions)
    requires Inv(instructions, m)
    ensures Inv(instructions, Run(pass, instructions, m, next, fuel, effects).machine)
    decreases fuel
  {
    if Running(instructions, m) && fuel > 0 {
      var s := pass(m, next);
      if s.outcome.Ok? {
        var t := s.outcome.value;
        RunKeepsInv(pass, instructions, t.machine, s.next, fuel - 1, effects + Emitted(t.effect));
      }
    }
  }

  /** A run of a script ends with R0 its only register and every label
      bound to the line after its declaration; it halts only with the pc
      one past the last line, and runs out of fuel only with the pc on a
      line. */
  lemma ExecutionEnds(instructions: seq<string>, draw: nat -> Draw, next: nat, screen: Image, fuel: nat)
    ensures var o := Run(PassOf(instructions, draw, screen), instructions, Initial(), next, fuel, []);
      && Inv(instructions, o.machine)
      && (o.status == Halted <==> o.machine.pc == |instructions|)
      && (o.status == OutOfFuel ==> 0 <= o.machine.pc < |instructions|)
      && next <= o.next
  {
    InitialInv(instructions);
    PassOfKeepsInv(instructions, draw, screen);
    RunKeepsInv(PassOf(instructions, draw, screen), instructions, Initial(), next, fuel, []);
    PassOfForward(instructions, draw, screen);
    RunEnds(PassOf(instructions, draw, screen), instructions, Initial(), next, fuel, []);
  }

  // ---------------------------------------------------------------------
  // the loop

  /** `_execute_instructions(instructions)`, for at most `fuel` passes. */
  method ExecuteInstructions(instructions: seq<string>, rng: Rng, screen: Image, fuel: nat)
    returns (status: Status, effects: seq<Effect>, final: Machine)
    modifies rng
    ensures Run(PassOf(instructions, rng.draw, screen), instructions, Initial(), old(rng.count), fuel, [])
            == Outcome(status, final, effects, rng.count)
  {
    var ctxt := new Context(0, map["R0" := 0], map[]);
    assert ctxt.View() == Initial();
    PassOfTakes(instructions, rng.draw, screen);
    status, effects, final := RunLoop(instructions, PassOf(instructions, rng.draw, screen), ctxt, rng, screen, fuel, []);
  }

  /** The `while` loop of `execute_instructions`, run on a given context,
      appending to the effects `emitted` so far. */
  method RunLoop(instructions: seq<string>, ghost pass: Pass, ctxt: Context, rng: Rng, screen: Image, fuel: nat,
                 emitted: seq<Effect>)
    returns (status: Status, effects: seq<Effect>, final: Machine)
    requires Takes(pass, instructions, rng.draw, screen)
    modifies ctxt, rng
    ensures Run(pass, instructions, old(ctxt.View()), old(rng.count), fuel, emitted)
            == Outcome(status, final, effects, rng.count)
  {
    effects := emitted;
    var steps := 0;
    ghost var goal := Run(pass, instructions, ctxt.View(), rng.count, fuel - steps, effects);
    status := Halted;
    var stopped := false;
    while !stopped && 0 <= ctxt.pc < |instructions|
      invariant steps <= fuel
      invariant !stopped ==> status == Halted
      invariant !stopped ==> Run(pass, instructions, ctxt.View(), rng.count, fuel - steps, effects) == goal
      invariant stopped ==> goal == Outcome(status, ctxt.View(), effects, rng.count)
      decreases fuel - steps, if stopped then 0 else 1
    {
      if steps == fuel {
        status, stopped := OutOfFuel, true;
      } else {
        ghost var before := ctxt.View();
        ghost var count := rng.count;
        var r := RunLine(instructions, pass, ctxt, rng, screen);
        RunAfterLine(pass, instructions, before, ctxt.View(), r, count, rng.count, fuel - steps, effects);
        if r.Err? {
          status, stopped := Failed(r.error), true;
        } else {
          effects := effects + Emitted(r.value);
          steps := steps + 1;
        }
      }
    }
    final := ctxt.View();
  }

  /** The line at `before`'s pc raised with r and left the context
      unchanged, or completed with r's effect leaving `after`, as `pass`
      says, having used draws up to `count'`. */
  predicate LineAgrees(pass: Pass, before: Machine, after: Machine, r: Result<Option<Effect>, Error>,
                       count: nat, count': nat)
  {
    var s := pass(before, count);
    Agrees(r, s.outcome, before, after) && count' == s.next
  }

  /** One pass of the loop, as `Run` takes it. */
  lemma RunAfterLine(pass: Pass, instructions: seq<string>, before: Machine, after: Machine, r: Result<Option<Effect>, Error>,
                     count: nat, count': nat, fuel: nat, effects: seq<Effect>)
    requires Running(instructions, before) && LineAgrees(pass, before, after, r, count, count') && fuel > 0
    ensures r.Err? ==> (after == before
      && Run(pass, instructions, before, count, fuel, effects) == Outcome(Failed(r.error), before, effects, count'))
    ensures r.Ok? ==>
      Run(pass, instructions, before, count, fuel, effects)
      == Run(pass, instructions, after, count', fuel - 1, effects + Emitted(r.value))
  {
  }

  /** One pass of the loop body: decode the line the pc indexes and run
      it. */
  method RunLine(instructions: seq<string>, ghost pass: Pass, ctxt: Context, rng: Rng, screen: Image)
    returns (r: Result<Option<Effect>, Error>)
    requires Running(instructions, ctxt.View()) && Takes(pass, instructions, rng.draw, screen)
    modifies ctxt, rng
    ensures LineAgrees(pass, old(ctxt.View()), ctxt.View(), r, old(rng.count), rng.count)
  {
    ghost var s := StepSpec(instructions, ctxt.View(), rng.draw, rng.count, screen);
    assert pass(ctxt.View(), rng.count) == s;
    var raw := instructions[ctxt.pc];
    var itype := Split(raw, ' ')[0];
    if itype == "delay" {
      r := Execute(Delay, raw, ctxt, rng, screen);
    } else if itype == "msclk" {
      r := Execute(MouseClick, raw, ctxt, rng, screen);
    } else if itype == "msmv" {
      r := Execute(MouseMove, raw, ctxt, rng, screen);
    } else if itype == "msmvcb" {
      r := Execute(MouseMoveClickBox, raw, ctxt, rng, screen);
    } else if itype == "msmvcolor" {
      r := Execute(MouseMoveColor, raw, ctxt, rng, screen);
    } else if itype == "msmvtext" {
      r := Err(UndefinedHandler(itype));
    } else if itype == "sub" {
      r := Execute(Subtract, raw, ctxt, rng, screen);
    } else if itype == "store" {
      r := Execute(Store, raw, ctxt, rng, screen);
    } else if itype == "jne" {
      r := Execute(JumpNotEqual, raw, ctxt, rng, screen);
    } else if |itype| > 0 && itype[|itype| - 1] == ':' {
      ctxt.pc := ctxt.pc + 1;
      ctxt.labels := ctxt.labels[itype[..|itype| - 1] := ctxt.pc];
      r := Ok(None);
    } else {
      r := Err(UnknownInstruction(itype));
    }
  }

  /** The nested `execute`: a new handler object for the shared context
      parses the line and, when that succeeds, executes. */
  method Execute(op: Opcode, raw: string, ctxt: Context, rng: Rng, screen: Image)
    returns (r: Result<Option<Effect>, Error>)
    modifies ctxt, rng
    ensures var s := DispatchSpec(op, raw, old(ctxt.View()), rng.draw, old(rng.count), screen);
      Agrees(r, s.outcome, old(ctxt.View()), ctxt.View()) && rng.count == s.next
  {
    var obj := new Instruction(op, ctxt);
    var parsed := obj.Parse(raw);
    if parsed.Err? {
      return Err(parsed.error);
    }
    r := obj.Execute(rng, screen);
  }

  // ---------------------------------------------------------------------
  // registers and jumps

  /** R0 is the only register: a `store` or `sub` line naming any other
      register, with an integer operand, raises before the pc moves. */
  lemma UndeclaredRegisterRaises(instructions: seq<string>, m: Machine, draw: nat -> Draw, next: nat, screen: Image)
    requires Running(instructions, m) && Inv(instructions, m)
    requires var tokens := Split(instructions[m.pc], ' ');
      |tokens| == 3 && (tokens[0] == "store" || tokens[0] == "sub") && tokens[1] != "R0" && ParseInt(tokens[2]).Some?
    ensures StepSpec(instructions, m, draw, next, screen)
            == Step(Err(UnknownRegister(Split(instructions[m.pc], ' ')[1])), next)
  {
    var tokens := Split(instructions[m.pc], ' ');
    var op := if tokens[0] == "store" then Store else Subtract;
    assert Decode(tokens[0]) == Handler(op);
    var parsed := ParseArgs(Name(op), Arity(op), instructions[m.pc]);
    assert parsed.value == tokens[1..];
  }

  /** A script whose first line stores into a register other than R0 fails
      at once, with nothing done outside and no draw used. */
  lemma FirstStoreToUndeclaredRegister(instructions: seq<string>, draw: nat -> Draw, next: nat, screen: Image, fuel: nat)
    requires |instructions| > 0 && fuel > 0
    requires var tokens := Split(instructions[0], ' ');
      |tokens| == 3 && tokens[0] == "store" && tokens[1] != "R0" && ParseInt(tokens[2]).Some?
    ensures Run(PassOf(instructions, draw, screen), instructions, Initial(), next, fuel, [])
            == Outcome(Failed(UnknownRegister(Split(instructions[0], ' ')[1])), Initial(), [], next)
  {
    InitialInv(instructions);
    UndeclaredRegisterRaises(instructions, Initial(), draw, next, screen);
  }

  /** A `jne label` line: it falls through when R0 holds zero, raises when
      R0 does not and the label is not bound yet, and otherwise resumes on
      the line after the label's declaration. */
  lemma JumpCases(instructions: seq<string>, m: Machine, draw: nat -> Draw, next: nat, screen: Image)
    requires Running(instructions, m) && Inv(instructions, m)
    requires var tokens := Split(instructions[m.pc], ' '); |tokens| == 2 && tokens[0] == "jne"
    ensures var name := Split(instructions[m.pc], ' ')[1];
      var s := StepSpec(instructions, m, draw, next, screen);
      && s.next == next
      && (m.registers["R0"] == 0 ==> s.outcome == Ok(Transition(Advance(m), None)))
      && (m.registers["R0"] != 0 && name !in m.labels ==> s.outcome == Err(UnknownLabel(name)))
      && (m.registers["R0"] != 0 && name in m.labels ==>
            s.outcome == Ok(Transition(m.(pc := m.labels[name]), None))
            && DeclaresAt(instructions, name, m.labels[name]))
  {
    var tokens := Split(instructions[m.pc], ' ');
    assert "R0" in m.registers.Keys;
    assert Decode(tokens[0]) == Handler(JumpNotEqual);
    var parsed := ParseArgs(Name(JumpNotEqual), Arity(JumpNotEqual), instructions[m.pc]);
    assert parsed.value == tokens[1..];
  }
}
