/** The straight-line reconstruction pass ReadProto of unlua/Source.cpp.
    Step, Run and Reconstruct specify the pass one instruction at a time;
    the method ReadProto is the pass itself, with the output string and the
    temporary-register bank as local variables, and is proved to compute
    Reconstruct. */
module Engine {
  import opened Scope
  import opened Format

  /** The Lua 5.1 opcodes, in lopcodes.h order. */
  datatype OpCode =
    | Move | LoadK | LoadBool | LoadNil | GetUpval | GetGlobal | GetTable
    | SetGlobal | SetUpval | SetTable | NewTable | Self | Add | Sub | Mul | Div
    | Mod | Pow | Unm | Not | Len | Concat | Jmp | Eq | Lt | Le | Test | TestSet
    | Call | TailCall | Return | ForLoop | ForPrep | TForLoop | SetList | Close
    | Closure | VarArg

  /** An instruction after GET_OPCODE / GETARG_A / GETARG_B / GETARG_C / GETARG_Bx. */
  datatype Instr = Instr(op: OpCode, A: nat, B: nat, C: nat, Bx: nat)

  /** The parts of a function prototype the pass reads. */
  datatype Proto = Proto(code: seq<Instr>, k: seq<Const>, locals: seq<LocVar>)

  /** The four CHECKs of ReadProto, by message. */
  datatype Error =
    | UnknownOrigin       // "Origin of OP_MOVE value unknown"
    | TemporaryInUse      // "Nothing in temp register of RA"
    | NoNextInstruction   // "Expected another opcode after LOADK"
    | ExpectedSetGlobal   // "Expected SETGLOBAL after LOADK"

  datatype Result<T> = Success(value: T) | Failure(error: Error)

  datatype Option<T> = None | Some(value: T)

  /** What the loaded prototype guarantees: constant indices of LOADK and
      SETGLOBAL are in the pool, and every number's fixed text has a
      character other than '0' (as `std::to_string` output always does). */
  predicate WellFormed(p: Proto)
  {
    && (forall i :: 0 <= i < |p.code| && (p.code[i].op == LoadK || p.code[i].op == SetGlobal) ==> p.code[i].Bx < |p.k|)
    && (forall j :: 0 <= j < |p.k| ==> (p.k[j].Number? ==> HasNonZero(p.k[j].text)))
  }

  /** The pass's working state: the text `Source` built so far and the bank
      `TempRegisters`, mapping a register to the index of the constant loaded
      into it. */
  datatype State = State(source: string, temps: map<nat, nat>)

  predicate TempsValid(p: Proto, temps: map<nat, nat>)
  {
    forall r :: r in temps ==> temps[r] < |p.k|
  }

  // ---------------------------------------------------------------------
  // Preamble: locals whose scope starts at pc 0

  function DeclLine(l: LocVar): string
  {
    if l.startpc == 0 then "local " + l.name + "\n" else ""
  }

  /** The text the first loop of ReadProto emits for a local table. */
  function Preamble(ls: seq<LocVar>): string
  {
    if ls == [] then "" else DeclLine(ls[0]) + Preamble(ls[1..])
  }

  /** The preamble of a table is the preamble of its parts, in order. */
  lemma {:induction false} PreambleSplit(a: seq<LocVar>, b: seq<LocVar>)
    ensures Preamble(a + b) == Preamble(a) + Preamble(b)
  {
    if a == [] {
      assert a + b == b;
    } else {
      assert (a + b)[1..] == a[1..] + b;
      PreambleSplit(a[1..], b);
    }
  }

  /** Extending the table by one local extends the preamble by its line. */
  lemma {:induction false} PreambleSnoc(ls: seq<LocVar>, i: nat)
    requires i < |ls|
    ensures Preamble(ls[..i + 1]) == Preamble(ls[..i]) + DeclLine(ls[i])
  {
    assert ls[..i + 1] == ls[..i] + [ls[i]];
    PreambleSplit(ls[..i], [ls[i]]);
    assert Preamble([ls[i]]) == DeclLine(ls[i]) + Preamble([]);
  }

  /** Local j contributes exactly its own declaration line (`local <name>`
      and a newline when its scope starts at pc 0, nothing otherwise), after
      those of the locals before it and before those of the locals after it. */
  lemma {:induction false} PreambleDeclaresOnce(ls: seq<LocVar>, j: nat)
    requires j < |ls|
    ensures Preamble(ls) == Preamble(ls[..j]) + (DeclLine(ls[j]) + Preamble(ls[j + 1..]))
  {
    var rest := ls[j..];
    assert ls[..j] + rest == ls;
    PreambleSplit(ls[..j], rest);
    assert rest[0] == ls[j] && rest[1..] == ls[j + 1..];
    assert Preamble(rest) == DeclLine(ls[j]) + Preamble(ls[j + 1..]);
  }

  /** The preamble is empty exactly when no local starts at pc 0. */
  lemma {:induction false} PreambleEmptyIff(ls: seq<LocVar>)
    ensures Preamble(ls) == "" <==> forall j :: 0 <= j < |ls| ==> ls[j].startpc != 0
  {
    if ls != [] {
      PreambleEmptyIff(ls[1..]);
      if ls[0].startpc == 0 {
        assert |Preamble(ls)| >= |"local "|;
      } else {
        assert forall j :: 1 <= j < |ls| ==> ls[j] == ls[1..][j - 1];
      }
    }
  }

  // ---------------------------------------------------------------------
  // Lookahead for a following SETGLOBAL

  /** The instruction at `pc`, i.e. the one after the instruction judged at
      `pc`, guarded by `pc < sizecode`. */
  function NextInstr(code: seq<Instr>, pc: nat): (r: Option<Instr>)
    ensures r.Some? <==> pc < |code|
    ensures r.Some? ==> r.value == code[pc]
  {
    if pc < |code| then Some(code[pc]) else None
  }

  /** The guard as written at lines 206 and 250. */
  predicate HasNextAsWritten(pc: nat, sizecode: nat)
  {
    pc <= sizecode
  }

  /** On the last instruction (pc == sizecode) the written guard passes
      although there is no instruction at index pc to read. */
  lemma {:induction false} LookaheadOverrunsOnLastInstruction(code: seq<Instr>)
    requires |code| > 0
    ensures HasNextAsWritten(|code|, |code|)
    ensures NextInstr(code, |code|).None?
  {
  }

  // ---------------------------------------------------------------------
  // One instruction

  /** "local " when the local's scope begins at this pc. */
  function DeclPrefix(l: LocVar, pc: nat): string
  {
    if NewLocal(l, pc) then "local " else ""
  }

  /** OP_MOVE (lines 158-189). */
  function StepMove(p: Proto, i: nat, st: State): Result<State>
    requires WellFormed(p) && i < |p.code| && TempsValid(p, st.temps)
  {
    var ins := p.code[i];
    var pc := i + 1;
    if IsLocalSlot(ins.A, p.locals) then
      var localA := p.locals[ins.A];
      if !(IsLocalSlot(ins.B, p.locals) || ins.B in st.temps) then
        Failure(UnknownOrigin)
      else
        var rhs := if IsLocalSlot(ins.B, p.locals) then p.locals[ins.B].name
                   else ReadTValue(p.k[st.temps[ins.B]], false);
        Success(State(st.source + DeclPrefix(localA, pc) + localA.name + " = " + rhs + "\n", st.temps))
    else if ins.A in st.temps then
      Failure(TemporaryInUse)
    else
      // the code goes on to read locvars[RA] past the table; modelled as a no-op
      Success(st)
  }

  /** OP_LOADK (lines 190-226). */
  function StepLoadK(p: Proto, i: nat, st: State): Result<State>
    requires WellFormed(p) && i < |p.code| && p.code[i].op == LoadK
  {
    var ins := p.code[i];
    var pc := i + 1;
    var constant := p.k[ins.Bx];
    if IsLocalSlot(ins.A, p.locals) && LocalInScope(p.locals[ins.A], pc) then
      var l := p.locals[ins.A];
      Success(State(st.source + DeclPrefix(l, pc) + l.name + " = " + ReadTValue(constant, false) + "\n", st.temps))
    else
      var next := NextInstr(p.code, pc);
      if next.Some? && next.value.op == SetGlobal then
        Success(State(st.source + ReadTValue(p.k[next.value.Bx], true) + " = " + ReadTValue(constant, false) + "\n", st.temps))
      else
        Success(State(st.source, st.temps[ins.A := ins.Bx]))
  }

  /** OP_LOADNIL (lines 235-256), also reached from OP_LOADBOOL. */
  function StepLoadNil(p: Proto, i: nat, st: State): Result<State>
    requires WellFormed(p) && i < |p.code|
  {
    var ins := p.code[i];
    var pc := i + 1;
    if IsLocalSlot(ins.A, p.locals) && LocalInScope(p.locals[ins.A], pc) then
      var l := p.locals[ins.A];
      if NewLocal(l, pc) then Success(State(st.source + "local " + l.name + "\n", st.temps))
      else Success(State(st.source + l.name + " = nil\n", st.temps))
    else
      var next := NextInstr(p.code, pc);
      if next.None? then Failure(NoNextInstruction)
      else if next.value.op != SetGlobal then Failure(ExpectedSetGlobal)
      else Success(State(st.source + ReadTValue(p.k[next.value.Bx], true) + " = nil\n", st.temps))
  }

  /** Instruction i is a LOADK whose value has no destination yet: its
      register is not a live local at pc = i + 1 and no SETGLOBAL follows. */
  predicate StoresToBank(p: Proto, i: nat)
    requires i < |p.code|
  {
    && p.code[i].op == LoadK
    && Classify(p.locals, p.code[i].A, i + 1).Temporary?
    && !(i + 1 < |p.code| && p.code[i + 1].op == SetGlobal)
  }

  /** The instruction at index i, judged at pc = i + 1.  Text is only ever
      appended (StepAppends); the bank changes only by a LOADK that stores to it (last
      write wins); only MOVE, LOADBOOL and LOADNIL can fail, MOVE with
      UnknownOrigin or TemporaryInUse, the other two for want of a
      following SETGLOBAL. */
  function Step(p: Proto, i: nat, st: State): (r: Result<State>)
    requires WellFormed(p) && i < |p.code| && TempsValid(p, st.temps)
    ensures r.Success? ==> TempsValid(p, r.value.temps)
    ensures r.Success? ==> r.value.temps == if StoresToBank(p, i) then st.temps[p.code[i].A := p.code[i].Bx] else st.temps
    ensures r.Success? && StoresToBank(p, i) ==> r.value.source == st.source
    ensures r.Failure? ==> p.code[i].op in {Move, LoadBool, LoadNil}
    ensures r.Failure? && p.code[i].op == Move ==> r.error in {UnknownOrigin, TemporaryInUse}
    ensures r.Failure? && p.code[i].op != Move ==> r.error in {NoNextInstruction, ExpectedSetGlobal}
  {
    match p.code[i].op
    case Move => StepMove(p, i, st)
    case LoadK => StepLoadK(p, i, st)
    case LoadBool => StepLoadNil(p, i, st)  // no `break` at the end of this case
    case LoadNil => StepLoadNil(p, i, st)
    case _ => Success(st)
  }

  // ---------------------------------------------------------------------
  // The whole pass

  /** The state after the preamble and the first n instructions. */
  function Run(p: Proto, n: nat): (r: Result<State>)
    requires WellFormed(p) && n <= |p.code|
    ensures r.Success? ==> TempsValid(p, r.value.temps)
    decreases n
  {
    if n == 0 then
      Success(State(Preamble(p.locals), map[]))
    else
      match Run(p, n - 1)
      case Failure(e) => Failure(e)
      case Success(st) => Step(p, n - 1, st)
  }

  /** The text ReadProto prints, or the failed check that stops it before
      anything is printed.  A failure is the error of the first instruction
      whose step fails; a printed text begins with the preamble. */
  function Reconstruct(p: Proto): (r: Result<string>)
    requires WellFormed(p)
    ensures r.Failure? ==>
      exists i: nat :: (i < |p.code| && Run(p, i).Success? && Step(p, i, Run(p, i).value) == Failure(r.error))
    ensures r.Success? ==> Preamble(p.locals) <= r.value
  {
    match Run(p, |p.code|)
    case Success(st) =>
      PassAppendOnly(p, 0, |p.code|);
      Success(st.source)
    case Failure(e) =>
      FailureHasCause(p, |p.code|);
      Failure(e)
  }

  /** The OP_MOVE case of ReadProto's switch, on the current text and bank. */
  method ReadMove(p: Proto, i: nat, source: string, tempRegisters: map<nat, nat>) returns (r: Result<State>)
    requires WellFormed(p) && i < |p.code| && p.code[i].op == Move && TempsValid(p, tempRegisters)
    ensures r == Step(p, i, State(source, tempRegisters))
  {
    var inst := p.code[i];
    var pc := i + 1;
    var out := source;
    if IsLocalSlot(inst.A, p.locals) {
      var localA := p.locals[inst.A];
      if NewLocal(localA, pc) {
        out := out + "local ";
      }
      assert out == source + DeclPrefix(localA, pc);
      out := out + localA.name + " = ";
      if !(IsLocalSlot(inst.B, p.locals) || inst.B in tempRegisters) {
        return Failure(UnknownOrigin);
      }
      if IsLocalSlot(inst.B, p.locals) {
        out := out + p.locals[inst.B].name + "\n";
      } else {
        out := out + ReadTValue(p.k[tempRegisters[inst.B]], false) + "\n";
      }
    } else if inst.A in tempRegisters {
      return Failure(TemporaryInUse);
    }
    r := Success(State(out, tempRegisters));
  }

  /** The OP_LOADK case of ReadProto's switch. */
  method ReadLoadK(p: Proto, i: nat, source: string, tempRegisters: map<nat, nat>) returns (r: Result<State>)
    requires WellFormed(p) && i < |p.code| && p.code[i].op == LoadK && TempsValid(p, tempRegisters)
    ensures r == Step(p, i, State(source, tempRegisters))
  {
    var inst := p.code[i];
    var pc := i + 1;
    var out, temps := source, tempRegisters;
    var constant := p.k[inst.Bx];
    if IsLocalSlot(inst.A, p.locals) && LocalInScope(p.locals[inst.A], pc) {
      var local := p.locals[inst.A];
      if NewLocal(local, pc) {
        out := out + "local ";
      }
      assert out == source + DeclPrefix(local, pc);
      out := out + local.name + " = " + ReadTValue(constant, false) + "\n";
    } else if pc < |p.code| && p.code[pc].op == SetGlobal {
      out := out + ReadTValue(p.k[p.code[pc].Bx], true) + " = " + ReadTValue(constant, false) + "\n";
    } else {
      temps := temps[inst.A := inst.Bx];
    }
    r := Success(State(out, temps));
  }

  /** The OP_LOADNIL case of ReadProto's switch, which OP_LOADBOOL falls into. */
  method ReadLoadNil(p: Proto, i: nat, source: string, tempRegisters: map<nat, nat>) returns (r: Result<State>)
    requires WellFormed(p) && i < |p.code| && p.code[i].op in {LoadBool, LoadNil} && TempsValid(p, tempRegisters)
    ensures r == Step(p, i, State(source, tempRegisters))
  {
    var inst := p.code[i];
    var pc := i + 1;
    var out := source;
    if IsLocalSlot(inst.A, p.locals) && LocalInScope(p.locals[inst.A], pc) {
      var local := p.locals[inst.A];
      if NewLocal(local, pc) {
        out := out + "local " + local.name + "\n";
      } else {
        out := out + local.name + " = nil\n";
      }
    } else {
      if !(pc < |p.code|) {
        return Failure(NoNextInstruction);
      }
      if p.code[pc].op != SetGlobal {
        return Failure(ExpectedSetGlobal);
      }
      out := out + ReadTValue(p.k[p.code[pc].Bx], true) + " = nil\n";
    }
    r := Success(State(out, tempRegisters));
  }

  /** ReadProto's switch on the opcode of instruction i, judged at pc = i + 1. */
  method ReadInstruction(p: Proto, i: nat, source: string, tempRegisters: map<nat, nat>) returns (r: Result<State>)
    requires WellFormed(p) && i < |p.code| && TempsValid(p, tempRegisters)
    ensures r == Step(p, i, State(source, tempRegisters))
  {
    match p.code[i].op {
      case Move => r := ReadMove(p, i, source, tempRegisters);
      case LoadK => r := ReadLoadK(p, i, source, tempRegisters);
      case LoadBool | LoadNil => r := ReadLoadNil(p, i, source, tempRegisters);
      case _ => r := Success(State(source, tempRegisters));
    }
  }

  /** Regrouping an append of three pieces. */
  lemma {:induction false} AppendGrouped(a: string, b: string, c: string, d: string)
    ensures a + b + c + d == a + (b + c + d)
  {
    assert a + b + c + d == a + (b + c + d) by {
      assert (a + b) + c == a + (b + c);
      assert (a + (b + c)) + d == a + ((b + c) + d);
    }
  }

  /** The first loop of ReadProto: declare every local whose scope starts at
      pc 0, in table order. */
  method ReadPreamble(locals: seq<LocVar>) returns (source: string)
    ensures source == Preamble(locals)
  {
    source := "";
    for i := 0 to |locals|
      invariant source == Preamble(locals[..i])
    {
      PreambleSnoc(locals, i);
      if locals[i].startpc == 0 {
        AppendGrouped(source, "local ", locals[i].name, "\n");
        source := source + "local " + locals[i].name + "\n";
      }
    }
    assert locals[..|locals|] == locals;
  }

  /** ReadProto, less the final printing: the preamble loop, then one walk
      over the code, the output text and the bank updated as it goes; the
      first failed check ends the walk. */
  method ReadProto(p: Proto) returns (r: Result<string>)
    requires WellFormed(p)
    ensures r == Reconstruct(p)
  {
    var source := ReadPreamble(p.locals);
    var tempRegisters: map<nat, nat> := map[];

    for i := 0 to |p.code|
      invariant Run(p, i) == Success(State(source, tempRegisters))
    {
      var step := ReadInstruction(p, i, source, tempRegisters);
      assert Run(p, i + 1) == step;
      if step.Failure? {
        FailureStops(p, i + 1, |p.code|);
        return Failure(step.error);
      }
      source, tempRegisters := step.value.source, step.value.temps;
    }
    r := Success(source);
  }

  // ---------------------------------------------------------------------
  // Properties of the pass

  /** A failed check ends the pass: every later prefix fails the same way. */
  lemma {:induction false} FailureStops(p: Proto, n: nat, m: nat)
    requires WellFormed(p) && n <= m <= |p.code| && Run(p, n).Failure?
    ensures Run(p, m) == Run(p, n)
    decreases m
  {
    if n < m {
      FailureStops(p, n, m - 1);
    }
  }

  /** An instruction that fails ends the pass with its error. */
  lemma {:induction false} StepFailureEnds(p: Proto, i: nat)
    requires WellFormed(p) && i < |p.code| && Run(p, i).Success?
    requires Step(p, i, Run(p, i).value).Failure?
    ensures Reconstruct(p) == Failure(Step(p, i, Run(p, i).value).error)
  {
    assert Run(p, i + 1) == Step(p, i, Run(p, i).value);
    FailureStops(p, i + 1, |p.code|);
  }

  /** One instruction only appends to the text. */
  lemma {:induction false} StepAppends(p: Proto, i: nat, st: State)
    requires WellFormed(p) && i < |p.code| && TempsValid(p, st.temps) && Step(p, i, st).Success?
    ensures st.source <= Step(p, i, st).value.source
  {
    var out := Step(p, i, st).value.source;
    assert out[..|st.source|] == st.source;
  }

  /** The output is built append-only: a pass that gets through m
      instructions got through every shorter prefix, whose text is a prefix
      of its own. */
  lemma {:induction false} PassAppendOnly(p: Proto, n: nat, m: nat)
    requires WellFormed(p) && n <= m <= |p.code| && Run(p, m).Success?
    ensures Run(p, n).Success?
    ensures Run(p, n).value.source <= Run(p, m).value.source
    decreases m
  {
    if n < m {
      PassAppendOnly(p, n, m - 1);
      StepAppends(p, m - 1, Run(p, m - 1).value);
    }
  }

  /** Instruction j wrote constant index Bx into the bank at register r. */
  predicate StoresTo(p: Proto, j: nat, r: nat)
  {
    j < |p.code| && StoresToBank(p, j) && p.code[j].A == r
  }

  /** The bank as a function of the code alone: the LOADKs among the first n
      instructions that store to it, applied in order. */
  function Bank(p: Proto, n: nat): map<nat, nat>
    requires n <= |p.code|
  {
    if n == 0 then map[]
    else if StoresToBank(p, n - 1) then Bank(p, n - 1)[p.code[n - 1].A := p.code[n - 1].Bx]
    else Bank(p, n - 1)
  }

  /** The bank the pass keeps depends on nothing but the code: not on the
      text emitted, nor on which MOVEs read it. */
  lemma {:induction false} RunKeepsBank(p: Proto, n: nat)
    requires WellFormed(p) && n <= |p.code| && Run(p, n).Success?
    ensures Run(p, n).value.temps == Bank(p, n)
  {
    if n > 0 {
      RunKeepsBank(p, n - 1);
    }
  }

  /** After n instructions the bank holds exactly the registers that some
      earlier LOADK stored to. */
  lemma {:induction false} BankKeys(p: Proto, n: nat, r: nat)
    requires n <= |p.code|
    ensures r in Bank(p, n) <==> exists j: nat :: j < n && StoresTo(p, j, r)
  {
    if n > 0 {
      BankKeys(p, n - 1, r);
      if StoresTo(p, n - 1, r) {
        assert r in Bank(p, n);
      } else {
        assert r in Bank(p, n) <==> r in Bank(p, n - 1);
        if r in Bank(p, n) {
          var j: nat :| j < n - 1 && StoresTo(p, j, r);
        }
      }
    }
  }

  /** A register in the bank holds the constant of the last LOADK among the
      first n instructions that stored to it (last write wins). */
  lemma {:induction false} BankLastWrite(p: Proto, n: nat, r: nat)
    requires n <= |p.code| && r in Bank(p, n)
    ensures exists j: nat :: (j < n && StoresTo(p, j, r) && Bank(p, n)[r] == p.code[j].Bx
      && forall j': nat :: j < j' < n ==> !StoresTo(p, j', r))
  {
    var last := n - 1;
    if StoresTo(p, last, r) {
      assert Bank(p, n)[r] == p.code[last].Bx;
    } else {
      assert Bank(p, n)[r] == Bank(p, last)[r];
      BankLastWrite(p, last, r);
      var j: nat :| j < last && StoresTo(p, j, r) && Bank(p, last)[r] == p.code[j].Bx
        && forall j': nat :: j < j' < last ==> !StoresTo(p, j', r);
      assert forall j': nat :: j < j' < n ==> !StoresTo(p, j', r);
    }
  }

  /** A failed walk has a first failing instruction: every instruction
      before it passed, and its own step failed with the walk's error. */
  lemma {:induction false} FailureHasCause(p: Proto, n: nat)
    requires WellFormed(p) && n <= |p.code| && Run(p, n).Failure?
    ensures exists i: nat :: i < n && Run(p, i).Success? && Step(p, i, Run(p, i).value) == Run(p, n)
  {
    if Run(p, n - 1).Failure? {
      FailureHasCause(p, n - 1);
      var i: nat :| i < n - 1 && Run(p, i).Success? && Step(p, i, Run(p, i).value) == Run(p, n - 1);
      assert Run(p, n) == Run(p, n - 1);
    } else {
      assert Step(p, n - 1, Run(p, n - 1).value) == Run(p, n);
    }
  }

  // ---------------------------------------------------------------------
  // What each handled opcode does to the pass

  /** LOADK into a register that is a live local at pc = i + 1: a
      declaration (scope starts here) or an assignment of the formatted
      constant; the bank is untouched. */
  lemma {:induction false} LoadKIntoLocal(p: Proto, i: nat)
    requires WellFormed(p) && i < |p.code| && p.code[i].op == LoadK && Run(p, i).Success?
    requires !Classify(p.locals, p.code[i].A, i + 1).Temporary?
    ensures var st, role := Run(p, i).value, Classify(p.locals, p.code[i].A, i + 1);
      Run(p, i + 1) == Success(State(
        st.source + (if role.Entering? then "local " else "") + role.local.name + " = "
          + ReadTValue(p.k[p.code[i].Bx], false) + "\n",
        st.temps))
  {
  }

  /** LOADK into anything else, followed by SETGLOBAL: a global assignment
      named by the SETGLOBAL's constant, unquoted; the bank is untouched. */
  lemma {:induction false} LoadKIntoGlobal(p: Proto, i: nat)
    requires WellFormed(p) && i + 1 < |p.code| && p.code[i].op == LoadK && Run(p, i).Success?
    requires Classify(p.locals, p.code[i].A, i + 1).Temporary? && p.code[i + 1].op == SetGlobal
    ensures var st := Run(p, i).value;
      Run(p, i + 1) == Success(State(
        st.source + ReadTValue(p.k[p.code[i + 1].Bx], true) + " = " + ReadTValue(p.k[p.code[i].Bx], false) + "\n",
        st.temps))
  {
  }

  /** LOADK into anything else, with no SETGLOBAL after it: no text, and the
      bank maps the register to the constant, every other entry unchanged. */
  lemma {:induction false} LoadKIntoBank(p: Proto, i: nat)
    requires WellFormed(p) && i < |p.code| && p.code[i].op == LoadK && Run(p, i).Success?
    requires Classify(p.locals, p.code[i].A, i + 1).Temporary?
    requires !(i + 1 < |p.code| && p.code[i + 1].op == SetGlobal)
    ensures var st := Run(p, i).value;
      && Run(p, i + 1).Success?
      && Run(p, i + 1).value.source == st.source
      && p.code[i].A in Run(p, i + 1).value.temps
      && Run(p, i + 1).value.temps[p.code[i].A] == p.code[i].Bx
      && forall r :: r != p.code[i].A ==>
           (r in Run(p, i + 1).value.temps <==> r in st.temps)
           && (r in st.temps ==> Run(p, i + 1).value.temps[r] == st.temps[r])
  {
  }

  /** LOADNIL (or LOADBOOL) into a live local: a bare declaration when its
      scope starts here, else an explicit `= nil`; the bank is untouched. */
  lemma {:induction false} LoadNilIntoLocal(p: Proto, i: nat)
    requires WellFormed(p) && i < |p.code| && p.code[i].op in {LoadBool, LoadNil} && Run(p, i).Success?
    requires !Classify(p.locals, p.code[i].A, i + 1).Temporary?
    ensures var st, role := Run(p, i).value, Classify(p.locals, p.code[i].A, i + 1);
      Run(p, i + 1) == Success(State(
        if role.Entering? then st.source + "local " + role.local.name + "\n"
        else st.source + role.local.name + " = nil\n",
        st.temps))
  {
  }

  /** LOADNIL (or LOADBOOL) into anything else, followed by SETGLOBAL:
      assigns nil to that global; the bank is untouched. */
  lemma {:induction false} LoadNilIntoGlobal(p: Proto, i: nat)
    requires WellFormed(p) && i + 1 < |p.code| && p.code[i].op in {LoadBool, LoadNil} && Run(p, i).Success?
    requires Classify(p.locals, p.code[i].A, i + 1).Temporary? && p.code[i + 1].op == SetGlobal
    ensures Run(p, i + 1) == Success(State(
      Run(p, i).value.source + ReadTValue(p.k[p.code[i + 1].Bx], true) + " = nil\n",
      Run(p, i).value.temps))
  {
    var st := Run(p, i).value;
    assert Step(p, i, st) == StepLoadNil(p, i, st);
  }

  /** LOADNIL (or LOADBOOL) into anything else without a SETGLOBAL right
      after it fails its step: NoNextInstruction on the last instruction,
      ExpectedSetGlobal otherwise. */
  lemma {:induction false} LoadNilStepFails(p: Proto, i: nat, st: State)
    requires WellFormed(p) && i < |p.code| && p.code[i].op in {LoadBool, LoadNil} && TempsValid(p, st.temps)
    requires Classify(p.locals, p.code[i].A, i + 1).Temporary?
    requires !(i + 1 < |p.code| && p.code[i + 1].op == SetGlobal)
    ensures Step(p, i, st) == Failure(if i + 1 < |p.code| then ExpectedSetGlobal else NoNextInstruction)
  {
    assert Step(p, i, st) == StepLoadNil(p, i, st);
  }

  /** ... and with it the whole pass, whatever follows. */
  lemma {:induction false} LoadNilFails(p: Proto, i: nat)
    requires WellFormed(p) && i < |p.code| && p.code[i].op in {LoadBool, LoadNil} && Run(p, i).Success?
    requires Classify(p.locals, p.code[i].A, i + 1).Temporary?
    requires !(i + 1 < |p.code| && p.code[i + 1].op == SetGlobal)
    ensures Reconstruct(p) == Failure(if i + 1 < |p.code| then ExpectedSetGlobal else NoNextInstruction)
  {
    LoadNilStepFails(p, i, Run(p, i).value);
    StepFailureEnds(p, i);
  }

  /** LOADBOOL has no `break`: it does exactly what a LOADNIL with the same
      operands would do at the same place. */
  lemma {:induction false} LoadBoolFallsThrough(p: Proto, i: nat, st: State)
    requires WellFormed(p) && i < |p.code| && p.code[i].op == LoadBool && TempsValid(p, st.temps)
    ensures var q := p.(code := p.code[i := p.code[i].(op := LoadNil)]);
      WellFormed(q) && Step(p, i, st) == Step(q, i, st)
  {
    var q := p.(code := p.code[i := p.code[i].(op := LoadNil)]);
    assert forall j :: 0 <= j < |q.code| && j != i ==> q.code[j] == p.code[j];
  }

  /** MOVE into a local slot (no scope test) from a local slot or a banked
      register: a declaration or assignment whose right-hand side is the
      source's local name, or else the constant the bank holds for it. */
  lemma {:induction false} MoveIntoLocal(p: Proto, i: nat)
    requires WellFormed(p) && i < |p.code| && p.code[i].op == Move && Run(p, i).Success?
    requires p.code[i].A < |p.locals|
    requires p.code[i].B < |p.locals| || p.code[i].B in Run(p, i).value.temps
    ensures var st, a, b := Run(p, i).value, p.code[i].A, p.code[i].B;
      Run(p, i + 1) == Success(State(
        st.source + (if p.locals[a].startpc == i + 1 then "local " else "") + p.locals[a].name + " = "
          + (if b < |p.locals| then p.locals[b].name else ReadTValue(p.k[st.temps[b]], false)) + "\n",
        st.temps))
  {
    var st := Run(p, i).value;
    assert Step(p, i, st) == StepMove(p, i, st);
  }

  /** MOVE into a local slot from a register that is neither a local slot
      nor in the bank: the origin is unknown and the pass fails. */
  lemma {:induction false} MoveFails(p: Proto, i: nat)
    requires WellFormed(p) && i < |p.code| && p.code[i].op == Move && Run(p, i).Success?
    requires p.code[i].A < |p.locals|
    requires p.code[i].B >= |p.locals| && p.code[i].B !in Run(p, i).value.temps
    ensures Reconstruct(p) == Failure(UnknownOrigin)
  {
    var st := Run(p, i).value;
    assert Step(p, i, st) == StepMove(p, i, st);
    StepFailureEnds(p, i);
  }

  /** MOVE into a register past the local table emits nothing, and fails the
      pass when the bank already holds that register. */
  lemma {:induction false} MoveIntoTemporary(p: Proto, i: nat)
    requires WellFormed(p) && i < |p.code| && p.code[i].op == Move && Run(p, i).Success?
    requires p.code[i].A >= |p.locals|
    ensures p.code[i].A !in Run(p, i).value.temps ==> Run(p, i + 1) == Run(p, i)
    ensures p.code[i].A in Run(p, i).value.temps ==> Reconstruct(p) == Failure(TemporaryInUse)
  {
    if p.code[i].A in Run(p, i).value.temps {
      StepFailureEnds(p, i);
    }
  }

  /** Every other opcode, GETUPVAL, GETGLOBAL and SETGLOBAL included, leaves
      text and bank as they were. */
  lemma {:induction false} InertOpcodes(p: Proto, i: nat)
    requires WellFormed(p) && i < |p.code| && Run(p, i).Success?
    requires p.code[i].op !in {Move, LoadK, LoadBool, LoadNil}
    ensures Run(p, i + 1) == Run(p, i)
  {
  }
}
