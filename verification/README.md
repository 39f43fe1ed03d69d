# unlua ReadProto, modelled in Dafny

unlua is an early Lua 5.1 decompiler. It loads a compiled chunk and makes one straight pass over its main function prototype, rebuilding Lua statements from a few opcodes. This project models the core of that pass, in `unlua/Source.cpp`:

- **Scope rules** (`scope.dfy`, module `Scope`). The macros ISCONSTANT, NEWLOCAL and LOCALINSCOPE decide whether a register names a local variable and whether that local is live at a program counter. `Classify` combines them into the three roles a register can have at a pc: a local whose scope starts there, a live local, or a temporary.
- **Constant formatter** (`format.dfy`, module `Format`). `ReadTValue` quotes strings, or leaves them raw when they name a global. A string is taken through `std::string(svalue(k))`, so it ends at its first `'\0'` (`CStr`). Numbers are the fixed-point text of `std::to_string` with trailing zeros (and a bare dot) trimmed by `find_last_not_of('0')` / `find('.')` / `erase`.
- **Reconstruction pass** (`engine.dfy`, module `Engine`). ReadProto first declares every local whose scope starts at pc 0. It then walks the code once with `pc = i + 1`, dispatching MOVE, LOADK, LOADBOOL and LOADNIL. The walk keeps a bank of temporary registers holding constants that LOADK had nowhere to put. It stops at the first failed CHECK.
  - The functions `Step`, `Run` and `Reconstruct` specify the pass one instruction at a time.
  - The methods `ReadPreamble`, `ReadMove`, `ReadLoadK`, `ReadLoadNil`, `ReadInstruction` and `ReadProto` are the imperative code. Its output string and bank are local variables, and each method is proved equal to the specification function.
  - Lemmas state what the pass guarantees:
    - the text is only appended to;
    - a failure is final;
    - the bank is a function of the code alone, with last write wins;
    - the preamble comes first and declares each pc-0 local once;
    - each handled opcode has its exact effect.
- **Scenarios** (`scenarios.dfy`, module `Scenarios`). Small prototypes that are proved to reconstruct to a given text or fail with a given error, for any names and any number text.

Registers, program counters and pool indices are `nat`. The pass's CHECK macro, which prints an error and returns, is the `Failure` case of a `Result`. The C++ `std::map<int, TValue*>` bank is a `map<nat, nat>` from register to constant-pool index.

Three behaviours of the code are easy to miss:
- **OP_LOADBOOL.** The case has no `break`, so it runs the OP_LOADNIL code (`Engine.LoadBoolFallsThrough`).
- **Numbers.** They are rendered by trimming `std::to_string`'s six-decimal text, so they keep at most six decimals and need not read back as the same value: `0.1234567` prints `0.123457`, and `1e-7` prints `0`.
- **The bank.** Nothing ever removes an entry. A register keeps its banked constant even after a local's scope begins in that slot.

## Model

| member | source | states |
|---|---|---|
| Scope.IsLocalSlot | unlua/Source.cpp:21 | definition only: ISCONSTANT as intended, register r names a local exactly when r < sizelocvars |
| Scope.NewLocal | unlua/Source.cpp:23 | definition only: NEWLOCAL, the local's scope starts at pc |
| Scope.LocalInScope | unlua/Source.cpp:24 | definition only: LOCALINSCOPE, startpc <= pc <= endpc |
| Scope.IsConstantAsWritten | unlua/Source.cpp:21 | definition only: ISCONSTANT as written, the register compared with sizelocvars - 1 taken modulo 2^32 |
| Scope.Classify | unlua/Source.cpp:21-24 | a register is a temporary exactly when it is past the local table or pc lies outside its local's inclusive [startpc, endpc]; it is an entering local exactly when pc == startpc (and in range); a non-temporary role carries the local of that slot |
| Scope.IsConstantWrapsWithoutLocals | unlua/Source.cpp:21 | with no locals, ISCONSTANT as written (unsigned compare against sizelocvars - 1) holds for every 32-bit register although no register is a local slot |
| Scope.IsLocalSlotAgrees | unlua/Source.cpp:21 | for 0 < sizelocvars < 2^31, ISCONSTANT as written holds exactly when the register indexes the local table |
| Format.LastNotZero | unlua/Source.cpp:58-60 | `find_last_not_of('0')`: the index of a non-'0' character after which every character is '0' |
| Format.FindDot | unlua/Source.cpp:58 | `find('.')`: the first '.' when one exists, with no '.' before it; the length (npos) otherwise |
| Format.TrimZeros | unlua/Source.cpp:56-61 | the result is the one prefix of the text that either ends just before the first '.', which only zeros follow, or ends with a character that is neither '0' nor the first '.' and only zeros follow it |
| Format.TrimFixedDecimal | unlua/Source.cpp:56-61 | on decimal text, the dot survives exactly when some fractional digit is not '0', and then the result has no trailing '0'; otherwise the result is the integer part |
| Format.TrimTen | unlua/Source.cpp:56-61 | `std::to_string(10.0)` = "10.000000" trims to "10" |
| Format.TrimHalf | unlua/Source.cpp:56-61 | "0.500000" trims to "0.5" |
| Format.CStr | unlua/Source.cpp:65 | `std::string` built from the `const char*` of `svalue`: a prefix of the Lua string with no '\0' in it, ending at the first '\0' when there is one |
| Format.CStrWithoutNul | unlua/Source.cpp:65-67 | a string without '\0' comes through whole |
| Format.ReadTValue | unlua/Source.cpp:52-70 | a raw string is its text up to (not including) its first '\0'; a non-raw string is that same text between two '"' characters, without escaping; a number is a prefix of its fixed text |
| Engine.Preamble | unlua/Source.cpp:141-144 | definition only: the declaration lines of the pc-0 locals in table order (its properties are the four lemmas below) |
| Engine.PreambleSplit | unlua/Source.cpp:141-144 | the preamble of a concatenation of local tables is the concatenation of their preambles |
| Engine.PreambleSnoc | unlua/Source.cpp:141-144 | each iteration of the preamble loop appends exactly the current local's declaration line |
| Engine.PreambleDeclaresOnce | unlua/Source.cpp:141-144 | local j contributes exactly its own line (`local <name>` iff startpc == 0), after the lines of the locals before it and before those after it |
| Engine.PreambleEmptyIff | unlua/Source.cpp:141-144 | the preamble is empty exactly when no local starts at pc 0 |
| Engine.ReadPreamble | unlua/Source.cpp:141-144 | the loop over locvars builds exactly the preamble |
| Engine.HasNextAsWritten | unlua/Source.cpp:206 | definition only: the lookahead guard as written, `pc <= sizecode` (also line 250) |
| Engine.NextInstr | unlua/Source.cpp:206-207 | the corrected lookahead: an instruction exists at index pc exactly when pc < sizecode, and it is code[pc] |
| Engine.LookaheadOverrunsOnLastInstruction | unlua/Source.cpp:250-251 | on the last instruction (pc == sizecode) the written guard `pc <= sizecode` passes though there is no instruction at pc (same guard at lines 206-207) |
| Engine.StepMove | unlua/Source.cpp:158-189 | definition only: the OP_MOVE case on text and bank; its effects are stated by MoveIntoLocal, MoveFails and MoveIntoTemporary |
| Engine.StepLoadK | unlua/Source.cpp:190-226 | definition only: the OP_LOADK case; its effects are stated by LoadKIntoLocal, LoadKIntoGlobal and LoadKIntoBank |
| Engine.StepLoadNil | unlua/Source.cpp:227-256 | definition only: the OP_LOADNIL case; its effects are stated by LoadNilIntoLocal, LoadNilIntoGlobal and LoadNilStepFails |
| Engine.Step | unlua/Source.cpp:157-263 | one instruction at pc = i + 1: the bank changes only by a LOADK into a temporary not followed by SETGLOBAL, which emits nothing and overwrites that register's entry; banked indices stay inside the pool; only MOVE (UnknownOrigin / TemporaryInUse) and LOADBOOL/LOADNIL (NoNextInstruction / ExpectedSetGlobal) can fail |
| Engine.Run | unlua/Source.cpp:146-265 | after any prefix of the walk every bank entry indexes the constant pool |
| Engine.Reconstruct | unlua/Source.cpp:80-269 | a failed pass fails with the error of an instruction whose step fails after every earlier instruction passed, that is, the first failed CHECK; a printed text begins with the preamble |
| Engine.ReadMove | unlua/Source.cpp:158-189 | the OP_MOVE case computes Step on the current text and bank |
| Engine.ReadLoadK | unlua/Source.cpp:190-226 | the OP_LOADK case computes Step |
| Engine.ReadLoadNil | unlua/Source.cpp:227-256 | the OP_LOADNIL case, entered also from OP_LOADBOOL, computes Step |
| Engine.ReadInstruction | unlua/Source.cpp:149-263 | the opcode switch computes Step |
| Engine.ReadProto | unlua/Source.cpp:80-266 | the imperative pass (preamble loop, then the code loop returning at the first failed CHECK) yields exactly Reconstruct |
| Engine.FailureStops | unlua/Source.cpp:25-29 | a failed CHECK returns: every longer prefix of the walk has the same failure |
| Engine.StepFailureEnds | unlua/Source.cpp:25-29 | an instruction whose step fails ends the whole pass with that error |
| Engine.StepAppends | unlua/Source.cpp:157-263 | no instruction removes or rewrites text already emitted |
| Engine.PassAppendOnly | unlua/Source.cpp:146-265 | a walk that gets through m instructions got through every shorter prefix, and each prefix's text is a prefix of its text |
| Engine.FailureHasCause | unlua/Source.cpp:146-265 | a walk that failed has a first failing instruction: every instruction before it passed, and its own step gave the walk's error |
| Engine.Bank | unlua/Source.cpp:216-217 | definition only: the bank computed from the code alone, the storing LOADKs applied in order |
| Engine.RunKeepsBank | unlua/Source.cpp:216-217 | the bank after n instructions is Bank(p, n), fixed by the code alone (not by the text or by MOVEs) |
| Engine.BankKeys | unlua/Source.cpp:216-217 | a register is in the bank after n instructions exactly when an earlier LOADK stored to it |
| Engine.BankLastWrite | unlua/Source.cpp:216-217 | a banked register holds the constant of the last LOADK that stored to it |
| Engine.LoadKIntoLocal | unlua/Source.cpp:194-203 | LOADK into a live local appends `[local ]<name> = <constant>` (the keyword iff its scope starts here), bank untouched |
| Engine.LoadKIntoGlobal | unlua/Source.cpp:205-214 | LOADK into a temporary followed by SETGLOBAL appends `<raw global name> = <constant>`, bank untouched |
| Engine.LoadKIntoBank | unlua/Source.cpp:216-217 | otherwise LOADK appends nothing and sets bank[RA] to RBx, every other entry unchanged |
| Engine.LoadNilIntoLocal | unlua/Source.cpp:238-248 | LOADNIL into a live local appends `local <name>` when its scope starts here, `<name> = nil` otherwise |
| Engine.LoadNilIntoGlobal | unlua/Source.cpp:249-255 | LOADNIL into a temporary followed by SETGLOBAL appends `<raw global name> = nil` |
| Engine.LoadNilStepFails | unlua/Source.cpp:250-252 | LOADNIL into a temporary without a following SETGLOBAL fails: NoNextInstruction on the last instruction, ExpectedSetGlobal otherwise |
| Engine.LoadNilFails | unlua/Source.cpp:250-252 | ... and the whole pass fails with that error |
| Engine.LoadBoolFallsThrough | unlua/Source.cpp:227-235 | LOADBOOL does exactly what LOADNIL with the same operands does |
| Engine.MoveIntoLocal | unlua/Source.cpp:163-177 | MOVE into a local slot (no scope test) appends `[local ]<A's name> = ` and then B's local name, or the formatted constant banked for B |
| Engine.MoveFails | unlua/Source.cpp:171 | MOVE into a local slot from a register that is neither a local slot nor banked fails the pass with UnknownOrigin |
| Engine.MoveIntoTemporary | unlua/Source.cpp:178-187 | MOVE into a temporary fails the pass with TemporaryInUse when the bank holds it, and otherwise changes nothing |
| Engine.InertOpcodes | unlua/Source.cpp:257-263 | every opcode without a handler (GETUPVAL, GETGLOBAL, SETGLOBAL, ...) leaves text and bank unchanged |
| Scenarios.LocalFromConstant | unlua/Source.cpp:194-201 | one local live from pc 1, one LOADK of a number: `local x = <trimmed number>` (with TrimTen: `local x = 10` for 10.0) |
| Scenarios.GlobalFromConstantFirstStep | unlua/Source.cpp:205-213 | LOADK of string v followed by SETGLOBAL g, no locals: the first instruction appends `<raw g> = <quoted v>` |
| Scenarios.GlobalAssignmentText | unlua/Source.cpp:65-67 | that text is `CStr(g) = "CStr(v)"` |
| Scenarios.GlobalFromConstant | unlua/Source.cpp:205-213 | the whole pass prints `CStr(g) = "CStr(v)"` (the SETGLOBAL itself adds nothing) |
| Scenarios.GlobalFromPlainConstant | unlua/Source.cpp:205-213 | for g and v without '\0' it prints exactly `g = "v"` |
| Scenarios.PreambleThenBool | unlua/Source.cpp:227-245 | a local y live from pc 0 is declared by the preamble; LOADBOOL into it at pc 1 then prints `y = nil` |
| Scenarios.MoveOfUnknownOrigin | unlua/Source.cpp:171 | MOVE into a local from an unbanked temporary fails with UnknownOrigin |
| Scenarios.MoveFromBank | unlua/Source.cpp:172-177 | LOADK parks a number in a temporary, then MOVE reads it into x as x's scope starts: `local x = <trimmed number>` |
| Scenarios.NilWithoutFollower | unlua/Source.cpp:250 | LOADNIL into a temporary as the last instruction fails with NoNextInstruction |

## Left out

- Loading the chunk (`luaL_loadfile` at lines 293 and 312, `luaL_loadstring` at line 329), `main`, `DumpProto`, `ProtoWriter`, `TestProto` and the final `std::cout` of the text are I/O and are not modelled. `Reconstruct` returns the text that would be printed.
- Instruction decoding (GET_OPCODE, GETARG_*) is taken as done: an instruction is its opcode and its A, B, C and Bx fields. RsBx is read by the code but never used.
- `std::to_string(double)` belongs to the C++ library. A number constant carries the text it produced (`Format.Const.Number`), and only the trimming is modelled. Floating point itself is out of scope.
- Format.TrimZeros: requires a character other than '0'. Without one, `find_last_not_of` returns npos and the code's `erase` would throw. `std::to_string` output always has such a character: the '.', or the letters of inf and nan.
- Lua strings are byte strings. The model reads them as sequences of characters, cut at the first '\0' as `svalue` is read. Local names reach the text through `getstr` as C strings too; Lua identifiers cannot hold '\0', so they are taken whole.
- Format.ReadTValue: only the number and string tags are modelled. The function has no return for other tags (undefined behaviour), and no handled opcode feeds it one.
- Engine.MoveIntoTemporary: when RA is not a local slot and not banked, the code goes on to read `locvars[RA]` past the end of the table (lines 181-185). The model treats that case as a no-op, because the text appended would come from memory outside the table.
- LOADNIL's register range (A..B) is not modelled: the code only ever looks at RA, and so does the model.
- Upvalues, nested prototypes, jumps and every opcode other than MOVE, LOADK, LOADBOOL and LOADNIL have no handler in the code. They are modelled as leaving the state unchanged (`Engine.InertOpcodes`).
- The commented-out CHECKs at lines 219-224 are not code and are not modelled.
- The 32-bit width of registers is modelled only where it matters, for ISCONSTANT (`Scope.IsConstantAsWritten`). Every other quantity is an unbounded `nat`.
- Engine.WellFormed: a prototype is assumed to keep LOADK/SETGLOBAL constant indices inside the pool, as the Lua loader guarantees. The code indexes `p->k` without checking.

## Findings

| source | as written | input that shows it | evidently intended | confidence | as-written member | corrected member |
|---|---|---|---|---|---|---|
| unlua/Source.cpp:21 | `x <= p->sizelocvars - 1` compares an unsigned register with a signed int, which C converts to unsigned | sizelocvars == 0: `-1` becomes 2^32 - 1, so every register counts as a local slot and `locvars[RA]` is read from an empty table | register x names a local exactly when x < sizelocvars | high (not executed) | Scope.IsConstantWrapsWithoutLocals | Scope.IsLocalSlotAgrees |
| unlua/Source.cpp:206 | the lookahead guard is `pc <= p->sizecode`, then `p->code[pc]` is read (same at lines 250-251) | a LOADK or LOADNIL into a temporary as the last instruction: pc == sizecode passes the guard and `code[sizecode]` is read past the end. Lua 5.1 only loads code whose last instruction is OP_RETURN, so for a loaded chunk the overrun is latent | read the next instruction only when pc < sizecode | high that the guard is off by one, latent in practice (not executed) | Engine.LookaheadOverrunsOnLastInstruction | Engine.NextInstr |
