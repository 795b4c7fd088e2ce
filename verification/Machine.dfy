/** A machine that runs the scalar part of the graph, one instruction at a time. */
module Machine {
  import opened Options
  import opened Mir
  import opened Scalars

  /** What happens to the storage of an owning local: it starts, it is initialised, its fields are set one by
      one, what it holds is released, and it ends. */
  datatype Event =
    | Opened(symbol: nat)
    | Initialised(symbol: nat)
    | FieldSet(symbol: nat, field: nat, value: int)
    | Dropped(symbol: nat)
    | Ended(symbol: nat)

  /** What the function records of a value: its type, and the local it stands for, if any. */
  datatype ValueInfo = ValueInfo(ty: Type, binding: Option<nat>)

  datatype Program = Program(blocks: seq<Block>, infos: seq<ValueInfo>)

  type Env = map<nat, int>

  /** Slots start at zero, and end there. */
  function Read(env: Env, v: nat): int {
    if v in env then env[v] else 0
  }

  datatype Memory = Memory(env: Env, trace: seq<Event>)

  datatype Config =
    | Running(block: nat, at: nat, memory: Memory)
    | Returned(value: Option<int>, trace: seq<Event>)
    | Stuck

  function OperandIn(env: Env, operand: Operand): int {
    match operand
    case Value(v) => Read(env, v)
    case Const(c) => Meaning(c)
  }

  function SymbolOf(program: Program, v: nat): nat {
    if v < |program.infos| && program.infos[v].binding.Some? then program.infos[v].binding.value else 0
  }

  function Owns(program: Program, v: nat): bool {
    v < |program.infos| && program.infos[v].ty.owns
  }

  /** An event of a local, if it owns. */
  function Noted(program: Program, v: nat, event: Event): seq<Event> {
    if Owns(program, v) then [event] else []
  }

  /** A store below the whole of a local: to one of its fields, as far as the machine can tell. */
  function PartStored(program: Program, place: Place, value: int): seq<Event> {
    if |place.projections| == 1 && place.projections[0].Field? then
      Noted(program, place.base, FieldSet(SymbolOf(program, place.base), place.projections[0].field, value))
    else []
  }

  /** Runs one instruction that does not leave its block; nothing, if what it does is undefined or
      not among the instructions modelled. */
  function Effect(program: Program, inst: Inst, memory: Memory): Option<Memory> {
    var env := memory.env;
    match inst.op
    case ConstInt => Some(memory.(env := env[inst.result := Meaning(inst.constant)]))
    case ConstBool => Some(memory.(env := env[inst.result := Meaning(inst.constant)]))
    case Neg =>
      if |inst.args| != 1 then None
      else Some(memory.(env := env[inst.result := Negated(inst.ty, OperandIn(env, inst.args[0]))]))
    case Not =>
      if |inst.args| != 1 then None
      else Some(memory.(env := env[inst.result := Inverted(OperandIn(env, inst.args[0]))]))
    case Cmp =>
      if |inst.args| != 2 then None
      else
        var holds := Compare(inst.comparison, OperandIn(env, inst.args[0]), OperandIn(env, inst.args[1]));
        Some(memory.(env := env[inst.result := holds]))
    case Load =>
      if |inst.place.projections| != 0 then None
      else Some(memory.(env := env[inst.result := Read(env, inst.place.base)]))
    case Store =>
      if |inst.args| != 1 then None
      else
        var value := OperandIn(env, inst.args[0]);
        if |inst.place.projections| != 0 then
          Some(memory.(trace := memory.trace + PartStored(program, inst.place, value)))
        else Some(memory.(env := env[inst.place.base := value]))
    case StorageLive =>
      var v := inst.place.base;
      Some(Memory(env[v := 0], memory.trace + Noted(program, v, Opened(SymbolOf(program, v)))))
    case StorageInit =>
      var v := inst.place.base;
      Some(memory.(trace := memory.trace + Noted(program, v, Initialised(SymbolOf(program, v)))))
    case StorageDead =>
      var v := inst.place.base;
      Some(Memory(env[v := 0], memory.trace + Noted(program, v, Ended(SymbolOf(program, v)))))
    case Drop => Some(memory.(trace := memory.trace + [Dropped(SymbolOf(program, inst.place.base))]))
    case _ => ArithEffect(inst, memory)
  }

  function ArithEffect(inst: Inst, memory: Memory): Option<Memory> {
    if !IsArith(inst.op) || |inst.args| != 2 then None
    else
      var result := Arith(inst.op, inst.ty, OperandIn(memory.env, inst.args[0]), OperandIn(memory.env, inst.args[1]));
      if result.None? then None else Some(memory.(env := memory.env[inst.result := result.value]))
  }

  function Step(program: Program, c: Config): Config {
    if !c.Running? then c
    else if c.block >= |program.blocks| || c.at >= |program.blocks[c.block]| then Stuck
    else
      var inst := program.blocks[c.block][c.at];
      match inst.op
      case Jmp => Running(inst.targets.0, 0, c.memory)
      case Branch =>
        if |inst.args| != 1 then Stuck
        else if OperandIn(c.memory.env, inst.args[0]) != 0 then Running(inst.targets.0, 0, c.memory)
        else Running(inst.targets.1, 0, c.memory)
      case Return =>
        Returned(if |inst.args| == 0 then None else Some(OperandIn(c.memory.env, inst.args[0])), c.memory.trace)
      case _ =>
        var after := Effect(program, inst, c.memory);
        if after.None? then Stuck else Running(c.block, c.at + 1, after.value)
  }

  function Run(program: Program, c: Config, steps: nat): Config {
    if steps == 0 then c else Step(program, Run(program, c, steps - 1))
  }

  lemma {:induction false} RunAdds(program: Program, c: Config, first: nat, more: nat)
    ensures Run(program, c, first + more) == Run(program, Run(program, c, first), more)
  {
    if more > 0 {
      RunAdds(program, c, first, more - 1);
    }
  }

  lemma {:induction false} Stays(program: Program, c: Config, steps: nat)
    requires !c.Running?
    ensures Run(program, c, steps) == c
  {
    if steps > 0 {
      Stays(program, c, steps - 1);
    }
  }

  /** A finished run stays as it is. */
  lemma FinishedOnce(program: Program, c: Config, n: nat, m: nat)
    requires !Run(program, c, n).Running?
    ensures n <= m ==> Run(program, c, m) == Run(program, c, n)
    ensures !Run(program, c, m).Running? ==> Run(program, c, m) == Run(program, c, n)
  {
    hide Run;
    if n <= m {
      RunAdds(program, c, n, m - n);
      Stays(program, Run(program, c, n), m - n);
    } else {
      RunAdds(program, c, m, n - m);
      if !Run(program, c, m).Running? {
        Stays(program, Run(program, c, m), n - m);
      }
    }
  }
}
