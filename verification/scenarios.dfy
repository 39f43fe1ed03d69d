/** Small prototypes whose reconstruction is proved, instruction by
    instruction, to be a given text or a given error, for any names and any
    number text. */
module Scenarios {
  import opened Scope
  import opened Format
  import opened Engine

  /** `local x = <number>`: x lives from pc 1 and one LOADK fills it. */
  lemma {:induction false} LocalFromConstant(x: string, t: string)
    requires HasNonZero(t)
    ensures var p := Proto([Instr(LoadK, 0, 0, 0, 0)], [Number(t)], [LocVar(x, 1, 5)]);
      WellFormed(p) && Reconstruct(p) == Success("local " + x + " = " + TrimZeros(t) + "\n")
  {
    var p := Proto([Instr(LoadK, 0, 0, 0, 0)], [Number(t)], [LocVar(x, 1, 5)]);
    assert WellFormed(p);
    assert Preamble(p.locals) == "" by { assert p.locals[1..] == []; }
    assert Run(p, 0) == Success(State("", map[]));
    LoadKIntoLocal(p, 0);
    assert "" + "local " + x == "local " + x;
  }

  /** The LOADK of `g = "v"`: a global assignment, since SETGLOBAL follows. */
  lemma {:induction false} GlobalFromConstantFirstStep(g: string, v: string)
    ensures var p := Proto([Instr(LoadK, 0, 0, 0, 0), Instr(SetGlobal, 0, 0, 0, 1)], [Str(v), Str(g)], []);
      && WellFormed(p)
      && Run(p, 1) == Success(State(ReadTValue(Str(g), true) + " = " + ReadTValue(Str(v), false) + "\n", map[]))
  {
    var p := Proto([Instr(LoadK, 0, 0, 0, 0), Instr(SetGlobal, 0, 0, 0, 1)], [Str(v), Str(g)], []);
    assert WellFormed(p);
    assert Run(p, 0) == Success(State("", map[]));
    assert Classify(p.locals, 0, 1).Temporary?;
    LoadKIntoGlobal(p, 0);
    assert "" + ReadTValue(Str(g), true) == ReadTValue(Str(g), true);
  }

  /** `g = "v"`: the loaded string goes straight to the global the next
      SETGLOBAL names, which is printed unquoted; both are cut at a '\0',
      as C strings are. */
  lemma {:induction false} GlobalFromConstant(g: string, v: string)
    ensures var p := Proto([Instr(LoadK, 0, 0, 0, 0), Instr(SetGlobal, 0, 0, 0, 1)], [Str(v), Str(g)], []);
      && WellFormed(p)
      && Reconstruct(p) == Success(CStr(g) + " = \"" + CStr(v) + "\"\n")
  {
    var p := Proto([Instr(LoadK, 0, 0, 0, 0), Instr(SetGlobal, 0, 0, 0, 1)], [Str(v), Str(g)], []);
    GlobalFromConstantFirstStep(g, v);
    InertOpcodes(p, 1);
    GlobalAssignmentText(g, v);
  }

  /** The text of a global string assignment, with ReadTValue spelled out. */
  lemma {:induction false} GlobalAssignmentText(g: string, v: string)
    ensures ReadTValue(Str(g), true) + " = " + ReadTValue(Str(v), false) + "\n"
         == CStr(g) + " = \"" + CStr(v) + "\"\n"
  {
    var name, value := CStr(g), CStr(v);
    assert ReadTValue(Str(v), false) == "\"" + value + "\"";
    assert name + " = " + ("\"" + value + "\"") + "\n" == name + " = \"" + value + "\"\n";
  }

  /** ... which for names without '\0' is `g = "v"` exactly. */
  lemma {:induction false} GlobalFromPlainConstant(g: string, v: string)
    requires '\0' !in g && '\0' !in v
    ensures var p := Proto([Instr(LoadK, 0, 0, 0, 0), Instr(SetGlobal, 0, 0, 0, 1)], [Str(v), Str(g)], []);
      WellFormed(p) && Reconstruct(p) == Success(g + " = \"" + v + "\"\n")
  {
    GlobalFromConstant(g, v);
    CStrWithoutNul(g);
    CStrWithoutNul(v);
  }

  /** A local live from pc 0 is declared by the preamble; a LOADBOOL at pc 1,
      falling into the LOADNIL case, then assigns it nil. */
  lemma {:induction false} PreambleThenBool(y: string)
    ensures var p := Proto([Instr(LoadBool, 0, 1, 0, 0)], [], [LocVar(y, 0, 3)]);
      WellFormed(p) && Reconstruct(p) == Success("local " + y + "\n" + y + " = nil\n")
  {
    var p := Proto([Instr(LoadBool, 0, 1, 0, 0)], [], [LocVar(y, 0, 3)]);
    assert Preamble(p.locals) == "local " + y + "\n" by { assert p.locals[1..] == []; }
    assert Run(p, 0) == Success(State("local " + y + "\n", map[]));
    LoadNilIntoLocal(p, 0);
  }

  /** MOVE from a register that is neither a local slot nor in the bank. */
  lemma {:induction false} MoveOfUnknownOrigin(x: string)
    ensures var p := Proto([Instr(Move, 0, 1, 0, 0)], [], [LocVar(x, 1, 2)]);
      WellFormed(p) && Reconstruct(p) == Failure(UnknownOrigin)
  {
    var p := Proto([Instr(Move, 0, 1, 0, 0)], [], [LocVar(x, 1, 2)]);
    assert Run(p, 0).Success?;
    MoveFails(p, 0);
  }

  /** The LOADK parks constant 0 in register 1, past the local table, and
      prints nothing; the MOVE then reads it back into x as x's scope starts. */
  lemma {:induction false} MoveFromBank(x: string, t: string)
    requires HasNonZero(t)
    ensures var p := Proto([Instr(LoadK, 1, 0, 0, 0), Instr(Move, 0, 1, 0, 0)], [Number(t)], [LocVar(x, 2, 3)]);
      WellFormed(p) && Reconstruct(p) == Success("local " + x + " = " + TrimZeros(t) + "\n")
  {
    var p := Proto([Instr(LoadK, 1, 0, 0, 0), Instr(Move, 0, 1, 0, 0)], [Number(t)], [LocVar(x, 2, 3)]);
    assert WellFormed(p);
    assert Preamble(p.locals) == "" by { assert p.locals[1..] == []; }
    assert Run(p, 0) == Success(State("", map[]));
    LoadKIntoBank(p, 0);
    var st := Run(p, 1).value;
    assert st.source == "" && 1 in st.temps && st.temps[1] == 0;
    assert p.locals[0].startpc == 2 && p.code[1].B >= |p.locals|;
    assert ReadTValue(p.k[0], false) == TrimZeros(t);
    MoveIntoLocal(p, 1);
    assert "" + "local " + x == "local " + x;
  }

  /** LOADNIL into a temporary as the last instruction: no SETGLOBAL can
      follow, and the pass fails instead of reading past the code. */
  lemma {:induction false} NilWithoutFollower()
    ensures var p := Proto([Instr(LoadNil, 0, 0, 0, 0)], [], []);
      WellFormed(p) && Reconstruct(p) == Failure(NoNextInstruction)
  {
    var p := Proto([Instr(LoadNil, 0, 0, 0, 0)], [], []);
    assert Run(p, 0).Success?;
    LoadNilFails(p, 0);
  }
}
