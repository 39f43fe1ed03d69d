/** Scope rules of the reconstruction pass: which register slots name a local
    variable, and at which program counters that local is live.  These are the
    macros ISCONSTANT, NEWLOCAL and LOCALINSCOPE of unlua/Source.cpp. */
module Scope {

  /** One entry of a prototype's local-variable table (Lua 5.1 `LocVar`).
      The entry's index in the table is also the register the local occupies. */
  datatype LocVar = LocVar(name: string, startpc: nat, endpc: nat)

  /** ISCONSTANT, with the comparison the code intends: register `r` is the
      slot of some local.  (See IsConstantAsWritten for the code as written.) */
  predicate IsLocalSlot(r: nat, locals: seq<LocVar>)
  {
    r < |locals|
  }

  /** NEWLOCAL: the local's scope begins exactly at `pc`. */
  predicate NewLocal(l: LocVar, pc: nat)
  {
    l.startpc == pc
  }

  /** LOCALINSCOPE: `pc` lies in the local's inclusive range. */
  predicate LocalInScope(l: LocVar, pc: nat)
  {
    l.startpc <= pc && l.endpc >= pc
  }

  /** What a register denotes at one program counter. */
  datatype Role = Entering(local: LocVar) | Active(local: LocVar) | Temporary

  /** Classification of register `r` at `pc` through the three macros. */
  function Classify(locals: seq<LocVar>, r: nat, pc: nat): (role: Role)
    ensures role.Temporary? <==> r >= |locals| || pc < locals[r].startpc || locals[r].endpc < pc
    ensures role.Entering? <==> r < |locals| && pc == locals[r].startpc && pc <= locals[r].endpc
    ensures !role.Temporary? ==> r < |locals| && role.local == locals[r]
  {
    if IsLocalSlot(r, locals) && LocalInScope(locals[r], pc) then
      if NewLocal(locals[r], pc) then Entering(locals[r]) else Active(locals[r])
    else
      Temporary
  }

  /** 2^32: registers are C `unsigned int`s. */
  const UintModulus: int := 0x1_0000_0000

  /** ISCONSTANT as written: the unsigned register is compared with the signed
      `sizelocvars - 1`, which C converts to unsigned first. */
  predicate IsConstantAsWritten(x: nat, sizelocvars: nat)
    requires x < UintModulus
  {
    x <= (sizelocvars - 1) % UintModulus
  }

  /** With an empty local table, `sizelocvars - 1` wraps to 2^32 - 1, so the
      written test calls every register a local slot although none exists. */
  lemma {:induction false} IsConstantWrapsWithoutLocals(x: nat)
    requires x < UintModulus
    ensures IsConstantAsWritten(x, 0)
    ensures !IsLocalSlot(x, [])
  {
    assert (0 - 1) % UintModulus == UintModulus - 1;
  }

  /** Whenever the table is non-empty (and fits a C `int`), the written test
      and IsLocalSlot agree on every 32-bit register. */
  lemma {:induction false} IsLocalSlotAgrees(x: nat, locals: seq<LocVar>)
    requires x < UintModulus
    requires 0 < |locals| < 0x8000_0000
    ensures IsConstantAsWritten(x, |locals|) <==> IsLocalSlot(x, locals)
  {
    assert (|locals| - 1) % UintModulus == |locals| - 1;
  }
}
