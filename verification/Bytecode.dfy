/** Reading runtime bytecode as EVM instructions: the opcode skeleton of a contract. */
module Bytecode {
  import opened Prelude

  type Code = seq<byte>

  const PUSH1: byte := 0x60
  const PUSH32: byte := 0x7f

  // ----- The source's functions -----

  predicate MapHeader(b: byte) { b == 0xa1 || b == 0xa2 || b == 0xa3 || b == 0xa4 }

  /** The big-endian length in the last two bytes. */
  function TrailerLength(code: Code): nat
    requires |code| >= 2
  {
    (code[|code| - 2] as int) * 256 + (code[|code| - 1] as int)
  }

  function StripMetadata(code: Code): Code {
    if |code| < 4 then code
    else
      var length := TrailerLength(code);
      var start := |code| - 2 - length;
      if length == 0 || start < 0 then code
      else if MapHeader(code[start]) then code[..start]
      else code
  }

  /** How many operand bytes follow the opcode. */
  function OperandSize(op: byte): nat {
    if PUSH1 <= op <= PUSH32 then (op as int) - 0x5f else 0
  }

  /** The opcodes from position i on. */
  function OpsFrom(code: Code, i: nat): Code
    decreases |code| - i
  {
    if i >= |code| then [] else [code[i]] + OpsFrom(code, i + 1 + OperandSize(code[i]))
  }

  function Skeleton(code: Code): Code {
    OpsFrom(StripMetadata(code), 0)
  }

  /** opcodeSkeleton: the walk over the stripped code. Whatever instructions make up the code before its trailer,
      their opcodes are the result. */
  method OpcodeSkeleton(code: Code) returns (ops: Code)
    ensures ops == Skeleton(code)
    ensures forall program | IsReading(program) && IsCoreOf(Encode(program), code) :: ops == Opcodes(program)
  {
    var stripped := StripMetadata(code);
    ghost var all := OpsFrom(stripped, 0);
    ops := [];
    var i: nat := 0;
    while i < |stripped|
      invariant ops + OpsFrom(stripped, i) == all
      decreases |stripped| - i
    {
      var op := stripped[i];
      ghost var rest := OpsFrom(stripped, i + 1 + OperandSize(op));
      assert ops + ([op] + rest) == ops + [op] + rest;
      ops := ops + [op];
      if PUSH1 <= op <= PUSH32 {
        i := i + ((op as int) - 0x5f);
      }
      i := i + 1;
    }
    forall program | IsReading(program) && IsCoreOf(Encode(program), code) ensures ops == Opcodes(program) {
      SkeletonOfAnyCode(code, program);
    }
  }

  /** SkeletonHash for a given digest. */
  function SkeletonHash(digest: Code -> string, code: Code): string {
    if code == [] then "" else digest(Skeleton(code))
  }

  // ----- Programs -----

  type PushSize = k: nat | 1 <= k <= 32 witness 1

  /** PUSHk with the bytes it pushes, or an opcode that no byte belongs to. */
  datatype Instr = Push(size: PushSize, operand: Code) | Plain(op: byte)

  predicate Complete(i: Instr) {
    match i
    case Push(k, operand) => |operand| == k
    case Plain(op) => op < 0x60 || op > 0x7f
  }

  /** The code may end inside the last operand. */
  predicate Truncated(i: Instr) { i.Push? && |i.operand| < i.size }

  function Opcode(i: Instr): byte {
    match i
    case Push(k, _) => (0x5f + k) as byte
    case Plain(op) => op
  }

  function Operand(i: Instr): Code { if i.Push? then i.operand else [] }

  predicate IsProgram(program: seq<Instr>) {
    forall i | 0 <= i < |program| :: Complete(program[i])
  }

  function Encode(program: seq<Instr>): Code {
    if program == [] then []
    else [Opcode(program[0])] + Operand(program[0]) + Encode(program[1..])
  }

  function Opcodes(program: seq<Instr>): Code {
    if program == [] then [] else [Opcode(program[0])] + Opcodes(program[1..])
  }

  /** The walk skips exactly what a whole instruction pushes, and leaves a truncated one at its end. */
  lemma StepsOver(i: Instr)
    ensures Complete(i) ==> OperandSize(Opcode(i)) == |Operand(i)|
    ensures Truncated(i) ==> OperandSize(Opcode(i)) > |Operand(i)|
  {
  }

  lemma EncodeStep(before: Code, program: seq<Instr>)
    requires program != []
    ensures var code, next := before + Encode(program), before + [Opcode(program[0])] + Operand(program[0]);
      code == next + Encode(program[1..]) && |before| < |code| && code[|before|] == Opcode(program[0])
  {
    var op, operand, rest := [Opcode(program[0])], Operand(program[0]), Encode(program[1..]);
    assert Encode(program) == op + operand + rest;
    Regroup(before, op, operand, rest);
  }

  lemma Regroup(a: Code, b: Code, c: Code, d: Code)
    requires |b| == 1
    ensures a + (b + c + d) == a + b + c + d
    ensures (a + (b + c + d))[|a|] == b[0]
  {
  }

  /** Whole instructions, and then at most one cut short. */
  predicate IsReading(program: seq<Instr>) {
    forall i | 0 <= i < |program| ::
      Complete(program[i]) || (i == |program| - 1 && Truncated(program[i]))
  }

  /** Walking past a prefix made of whole instructions. */
  lemma {:induction false} OpsFromEncoded(before: Code, program: seq<Instr>)
    requires IsReading(program)
    ensures OpsFrom(before + Encode(program), |before|) == Opcodes(program)
    decreases |program|
  {
    if program != [] {
      var next, code := before + [Opcode(program[0])] + Operand(program[0]), before + Encode(program);
      EncodeStep(before, program);
      StepsOver(program[0]);
      RestIsReading(program);
      OneOp(code, |before|, |next|);
      OpsFromEncoded(next, program[1..]);
      assert Opcodes(program) == [Opcode(program[0])] + Opcodes(program[1..]);
    }
  }

  /** The walk takes an opcode and goes on behind its operand, or at the end of the code. */
  lemma OneOp(code: Code, i: nat, next: nat)
    requires i < |code| && next <= |code|
    requires next == i + 1 + OperandSize(code[i]) || (next == |code| && next < i + 1 + OperandSize(code[i]))
    ensures OpsFrom(code, i) == [code[i]] + OpsFrom(code, next)
  {
  }

  lemma RestIsReading(program: seq<Instr>)
    requires IsReading(program) && program != []
    ensures IsReading(program[1..])
    ensures Complete(program[0]) || (program[1..] == [] && Truncated(program[0]))
  {
    assert forall i | 0 <= i < |program[1..]| :: program[1..][i] == program[i + 1];
  }

  function BigEndian(n: nat): Code
    requires n < 0x1_0000
  {
    [(n / 256) as byte, (n % 256) as byte]
  }

  /** A CBOR map of one to four entries. */
  predicate IsTrailer(trailer: Code) {
    && 1 <= |trailer| <= 65535
    && (trailer[0] == 0xa1 || trailer[0] == 0xa2 || trailer[0] == 0xa3 || trailer[0] == 0xa4)
  }

  /** Compiled code: the program, the metadata map and its length. */
  function Compiled(program: seq<Instr>, trailer: Code): Code
    requires IsTrailer(trailer)
  {
    Encode(program) + trailer + BigEndian(|trailer|)
  }

  lemma StripsTrailer(core: Code, trailer: Code)
    requires IsTrailer(trailer)
    ensures var code := core + trailer + BigEndian(|trailer|);
      StripMetadata(code) == if |core| + |trailer| >= 2 then core else code
  {
    var code := core + trailer + BigEndian(|trailer|);
    assert code[|code| - 2] == (|trailer| / 256) as byte && code[|code| - 1] == (|trailer| % 256) as byte;
    assert TrailerLength(code) == |trailer|;
    assert code[|core|] == trailer[0];
    assert code[..|core|] == core;
  }

  /** The code is a core followed by a trailer and its length, and not a trailer of one byte alone. */
  predicate HasTrailer(code: Code, core: Code, trailer: Code) {
    IsTrailer(trailer) && code == core + trailer + BigEndian(|trailer|) && |core| + |trailer| >= 2
  }

  /** What is before the trailer, or everything if there is none. */
  ghost predicate IsCoreOf(core: Code, code: Code) {
    if exists c, trailer :: HasTrailer(code, c, trailer) then exists trailer :: HasTrailer(code, core, trailer)
    else core == code
  }

  /** What is removed from any code: the trailer, and nothing from code that has none. */
  lemma StripsExactly(code: Code)
    ensures forall core :: IsCoreOf(core, code) <==> core == StripMetadata(code)
  {
    StripsTrailers(code);
    if exists c, trailer :: HasTrailer(code, c, trailer) {
      var c, trailer :| HasTrailer(code, c, trailer);
      assert IsCoreOf(c, code);
    }
  }

  lemma StripsTrailers(code: Code)
    ensures forall core, trailer | HasTrailer(code, core, trailer) :: StripMetadata(code) == core
    ensures (forall core, trailer :: !HasTrailer(code, core, trailer)) ==> StripMetadata(code) == code
  {
    forall core, trailer | HasTrailer(code, core, trailer) ensures StripMetadata(code) == core {
      StripsTrailer(core, trailer);
    }
    if StripMetadata(code) != code {
      var length := TrailerLength(code);
      var start := |code| - 2 - length;
      var trailer := code[start..|code| - 2];
      assert BigEndian(length) == code[|code| - 2..];
      assert code == code[..start] + trailer + code[|code| - 2..];
      assert HasTrailer(code, code[..start], trailer);
    }
  }

  /** Decode theorem: the skeleton of compiled code is exactly its opcode list if and only if the
      program and the metadata together have at least two bytes. */
  lemma SkeletonIsOpcodes(program: seq<Instr>, trailer: Code)
    requires IsProgram(program) && IsTrailer(trailer)
    ensures Skeleton(Compiled(program, trailer)) == Opcodes(program) <==>
            |Encode(program)| + |trailer| >= 2
  {
    var code := Compiled(program, trailer);
    StripsTrailer(Encode(program), trailer);
    if |Encode(program)| + |trailer| >= 2 {
      OpsFromEncoded([], program);
      assert [] + Encode(program) == Encode(program);
    } else {
      assert program == [];
      assert OpsFrom(code, 0) != [];
    }
  }

  /** Clones share a skeleton hash, the digest of their opcodes: whatever their PUSH operands and whatever
      metadata the compiler appended, two programs have one hash exactly if their opcodes have one digest. */
  lemma ClonesShareHash(
    digest: Code -> string, p: seq<Instr>, q: seq<Instr>, s: Code, t: Code)
    requires IsProgram(p) && IsProgram(q) && IsTrailer(s) && IsTrailer(t)
    requires |Encode(p)| + |s| >= 2 && |Encode(q)| + |t| >= 2
    ensures SkeletonHash(digest, Compiled(p, s)) == digest(Opcodes(p))
    ensures SkeletonHash(digest, Compiled(p, s)) == SkeletonHash(digest, Compiled(q, t)) <==>
      digest(Opcodes(p)) == digest(Opcodes(q))
  {
    SkeletonIsOpcodes(p, s);
    SkeletonIsOpcodes(q, t);
  }

  // ----- Every byte string is a program -----

  /** The instruction the code begins with. */
  function First(code: Code): (i: Instr)
    requires code != []
    ensures code[0] == Opcode(i) && |Operand(i)| < |code| && Operand(i) == code[1..1 + |Operand(i)|]
    ensures Complete(i) || (Truncated(i) && |Operand(i)| == |code| - 1)
  {
    if 0x60 <= code[0] <= 0x7f then
      var k: nat := code[0] as nat - 0x5f;
      Push(k, code[1..1 + Min(k, |code| - 1)])
    else Plain(code[0])
  }

  /** The only reading of a byte string. */
  function Disassemble(code: Code): seq<Instr>
    decreases |code|
  {
    if code == [] then [] else [First(code)] + Disassemble(code[1 + |Operand(First(code))|..])
  }

  /** Disassembly loses nothing and is a reading. */
  lemma {:induction false} DisassembleRoundTrip(code: Code)
    ensures IsReading(Disassemble(code)) && Encode(Disassemble(code)) == code
    decreases |code|
  {
    if code != [] {
      var head := First(code);
      var rest := code[1 + |Operand(head)|..];
      DisassembleRoundTrip(rest);
      if Truncated(head) { assert rest == []; }
      assert [head] + Disassemble(rest) == Disassemble(code);
      assert [Opcode(head)] + Operand(head) + rest == code;
    }
  }

  lemma FirstOfEncoded(head: Instr, rest: Code)
    requires Complete(head) || (rest == [] && Truncated(head))
    ensures var code := [Opcode(head)] + Operand(head) + rest;
      First(code) == head && code[1 + |Operand(head)|..] == rest
  {
    var code, n := [Opcode(head)] + Operand(head) + rest, |Operand(head)|;
    assert code[0] == Opcode(head) && code[1..1 + n] == Operand(head) && code[1 + n..] == rest;
  }

  lemma DisassembleStep(code: Code, head: Instr, rest: Code)
    requires code != [] && First(code) == head && code[1 + |Operand(head)|..] == rest
    ensures Disassemble(code) == [head] + Disassemble(rest)
  {
  }

  /** There is no other reading. */
  lemma {:induction false} DisassembleInverse(program: seq<Instr>)
    requires IsReading(program)
    ensures Disassemble(Encode(program)) == program
  {
    if program != [] {
      var rest := Encode(program[1..]);
      RestIsReading(program);
      DisassembleInverse(program[1..]);
      FirstOfEncoded(program[0], rest);
      DisassembleStep([Opcode(program[0])] + Operand(program[0]) + rest, program[0], rest);
      assert program == [program[0]] + program[1..];
    }
  }

  /** For every byte string: the skeleton is the list of opcodes of what is before the trailer, read in the only
      way there is, and the hash is its digest. So two codes share a skeleton exactly when these differ in
      operand bytes only. */
  lemma SkeletonOfAnyCode(code: Code, program: seq<Instr>)
    requires IsReading(program) && IsCoreOf(Encode(program), code)
    ensures Skeleton(code) == Opcodes(program)
    ensures forall digest :: SkeletonHash(digest, code) == if code == [] then "" else digest(Opcodes(program))
  {
    StripsExactly(code);
    OpsFromEncoded([], program);
    assert [] + Encode(program) == Encode(program);
  }

  /** And every byte string can be read so. */
  lemma ReadingExists(code: Code) returns (program: seq<Instr>)
    ensures IsReading(program) && IsCoreOf(Encode(program), code)
  {
    StripsExactly(code);
    program := Disassemble(StripMetadata(code));
    DisassembleRoundTrip(StripMetadata(code));
  }
}
