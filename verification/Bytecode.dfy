/**
 Addresses embedded in EVM bytecode: `_addresses_in_code` and
 `_address_from_word` of clients/abi_resolver.py, against a disassembler.

 An address is its 20 bytes; the checksummed text form is a function of them.
 */
module Bytecode {
  import opened Lists
  import opened Options

  type Byte = b: int | 0 <= b < 256
  type Code = seq<Byte>

  const PUSH1: Byte := 0x60
  const PUSH20: Byte := 0x73
  const PUSH32: Byte := 0x7F

  // ----- reference: what a disassembler sees

  /** Bytes of immediate data an opcode carries (Yellow Paper, appendix H). */
  function OperandSize(op: Byte): nat {
    if PUSH1 <= op <= PUSH32 then op - PUSH1 + 1 else 0
  }

  /** The 32 PUSH opcodes carry 1 to 32 bytes, in order, and no other opcode carries any. */
  lemma OperandSizeExactly(op: Byte, n: nat)
    ensures n > 0 ==> (OperandSize(op) == n <==> n <= 32 && op == 0x5F + n)
  {
  }

  /** Where the instruction after the one at `i` starts. */
  function Next(code: Code, i: nat): nat
    requires i < |code|
  {
    i + 1 + OperandSize(code[i])
  }

  /** The operand bytes that exist: fewer than the opcode asks for at the end of the code. */
  function Operand(code: Code, i: nat): Code
    requires i < |code|
  {
    code[i + 1..Clip(code, Next(code, i))]
  }

  datatype Instruction = Instruction(at: nat, op: Byte, operand: Code)

  function InstructionAt(code: Code, i: nat): Instruction
    requires i < |code|
  {
    Instruction(i, code[i], Operand(code, i))
  }

  function Disassemble(code: Code, i: nat): seq<Instruction>
    decreases |code| - i
  {
    if i >= |code| then []
    else [InstructionAt(code, i)] + Disassemble(code, Next(code, i))
  }

  function Assemble(instructions: seq<Instruction>): Code {
    if instructions == [] then []
    else [instructions[0].op] + instructions[0].operand + Assemble(instructions[1..])
  }

  lemma AssembleFirst(first: Instruction, rest: seq<Instruction>)
    ensures Assemble([first] + rest) == [first.op] + first.operand + Assemble(rest)
  {
    assert ([first] + rest)[1..] == rest;
  }

  /** Disassembly loses no byte and invents none. */
  lemma {:induction false} DisassemblyRoundTrip(code: Code, i: nat)
    requires i <= |code|
    ensures Assemble(Disassemble(code, i)) == code[i..]
    decreases |code| - i
  {
    if i < |code| {
      var next := Next(code, i);
      var rest := Disassemble(code, next);
      assert Assemble(rest) == code[Clip(code, next)..] by {
        if next <= |code| {
          DisassemblyRoundTrip(code, next);
        }
      }
      AssembleFirst(InstructionAt(code, i), rest);
      assert code[i..] == [code[i]] + code[i + 1..Clip(code, next)] + code[Clip(code, next)..];
    }
  }

  /** Execution from offset 0 that never jumps reaches an instruction at `i`. */
  ghost predicate Boundary(code: Code, from: nat, i: nat)
    decreases |code| - from
  {
    from < |code| && (i == from || Boundary(code, Next(code, from), i))
  }

  /** The listing holds exactly the instructions at the boundaries. */
  lemma {:induction false} BoundaryIsInstruction(code: Code, from: nat, ins: Instruction)
    ensures ins in Disassemble(code, from)
            <==> Boundary(code, from, ins.at) && ins.at < |code| && ins == InstructionAt(code, ins.at)
    decreases |code| - from
  {
    if from < |code| {
      var next := Next(code, from);
      BoundaryIsInstruction(code, next, ins);
      BoundaryNotBefore(code, next, from);
    }
  }

  lemma {:induction false} BoundaryNotBefore(code: Code, from: nat, i: nat)
    ensures Boundary(code, from, i) ==> from <= i < |code|
    decreases |code| - from
  {
    if from < |code| {
      BoundaryNotBefore(code, Next(code, from), i);
    }
  }

  // ----- the address in an operand

  function Zeros(n: nat): Code {
    seq(n, _ => 0)
  }

  /** `bytes(raw).rjust(32, b"\x00")`: a longer operand is left as it is. */
  function LeftPadded(raw: Code): (w: Code)
    ensures |w| >= 32 && (|raw| <= 32 ==> |w| == 32)
  {
    if |raw| >= 32 then raw else Zeros(32 - |raw|) + raw
  }

  /** `_address_from_word`: the low 20 bytes; `None` when they are all zero. */
  function AddressFromWord(raw: Code): Option<Code> {
    var padded := LeftPadded(raw);
    var word := padded[|padded| - 20..];
    if word == Zeros(20) then None else Some(word)
  }

  function EmbeddedAddress(ins: Instruction): Option<Code> {
    if ins.op == PUSH20 || ins.op == PUSH32 then AddressFromWord(ins.operand) else None
  }

  /** The addresses the instructions carry, in code order, repeats included. */
  function Embedded(instructions: seq<Instruction>): seq<Code> {
    if instructions == [] then []
    else
      var rest := Embedded(instructions[1..]);
      match EmbeddedAddress(instructions[0])
      case Some(a) => [a] + rest
      case None => rest
  }

  function AddNew<T(==)>(out: seq<T>, x: T): seq<T> {
    if x in out then out else out + [x]
  }

  function AddAllNew<T(==)>(out: seq<T>, xs: seq<T>): seq<T>
    decreases |xs|
  {
    if xs == [] then out else AddAllNew(AddNew(out, xs[0]), xs[1..])
  }

  /** The position of the first `x` in `xs`, or `|xs|`. */
  function FirstAt<T(==)>(xs: seq<T>, x: T): (k: nat)
    ensures k <= |xs|
    ensures k < |xs| ==> xs[k] == x
    ensures forall j :: 0 <= j < k ==> xs[j] != x
  {
    if xs == [] || xs[0] == x then 0 else 1 + FirstAt(xs[1..], x)
  }

  /** `out` lists the values of `xs` once each, ordered by where they first occur. */
  ghost predicate FirstOccurrences<T(!new)>(out: seq<T>, xs: seq<T>) {
    && (forall x :: x in out <==> x in xs)
    && (forall i, j :: 0 <= i < j < |out| ==> out[i] != out[j])
    && (forall i, j :: 0 <= i < j < |out| ==> FirstAt(xs, out[i]) < FirstAt(xs, out[j]))
  }

  lemma FirstAtAppend<T>(xs: seq<T>, ys: seq<T>, x: T)
    ensures FirstAt(xs + ys, x) == if x in xs then FirstAt(xs, x) else |xs| + FirstAt(ys, x)
  {
    var k, m := FirstAt(xs + ys, x), FirstAt(xs, x);
    var n := FirstAt(ys, x);
    if x in xs {
      var i :| 0 <= i < |xs| && xs[i] == x;
      assert (xs + ys)[m] == x;
    } else {
      assert forall j :: 0 <= j < |xs| ==> (xs + ys)[j] == xs[j];
      assert n < |ys| ==> (xs + ys)[|xs| + n] == ys[n];
      assert |xs| <= k < |xs + ys| ==> ys[k - |xs|] == x;
    }
  }

  lemma FirstAtOneMore<T>(xs: seq<T>, x: T, y: T)
    ensures y in xs ==> FirstAt(xs + [x], y) == FirstAt(xs, y) < |xs|
    ensures y !in xs && y == x ==> FirstAt(xs + [x], y) == |xs|
  {
    FirstAtAppend(xs, [x], y);
  }

  lemma AddNewKeepsFirstOccurrences<T(!new)>(out: seq<T>, xs: seq<T>, x: T)
    requires FirstOccurrences(out, xs)
    ensures FirstOccurrences(AddNew(out, x), xs + [x])
  {
    var r := AddNew(out, x);
    forall i, j | 0 <= i < j < |r| ensures FirstAt(xs + [x], r[i]) < FirstAt(xs + [x], r[j]) && r[i] != r[j] {
      assert i < |out| && r[i] == out[i] && out[i] in xs;
      FirstAtOneMore(xs, x, r[i]);
      FirstAtOneMore(xs, x, r[j]);
      assert j < |out| ==> r[j] == out[j] && out[j] in xs;
    }
  }

  lemma {:induction false} AddAllNewKeepsFirstOccurrences<T(!new)>(out: seq<T>, seen: seq<T>, xs: seq<T>)
    requires FirstOccurrences(out, seen)
    ensures FirstOccurrences(AddAllNew(out, xs), seen + xs)
    decreases |xs|
  {
    if xs == [] {
      assert seen + xs == seen;
    } else {
      var now := seen + [xs[0]];
      assert FirstOccurrences(AddNew(out, xs[0]), now) by { AddNewKeepsFirstOccurrences(out, seen, xs[0]); }
      assert now + xs[1..] == seen + xs;
      AddAllNewKeepsFirstOccurrences(AddNew(out, xs[0]), now, xs[1..]);
    }
  }

  // ----- the walk

  function AddFound<T(==)>(out: seq<T>, x: Option<T>): seq<T> {
    match x
    case Some(v) => AddNew(out, v)
    case None => out
  }

  /** One instruction of the walk. */
  lemma WalkStep(out: seq<Code>, code: Code, i: nat)
    requires i < |code|
    ensures AddAllNew(out, Embedded(Disassemble(code, i)))
            == AddAllNew(AddFound(out, EmbeddedAddress(InstructionAt(code, i))),
                         Embedded(Disassemble(code, Next(code, i))))
  {
    var listing, rest := Disassemble(code, i), Embedded(Disassemble(code, Next(code, i)));
    assert listing[0] == InstructionAt(code, i) && listing[1..] == Disassemble(code, Next(code, i));
    match EmbeddedAddress(listing[0])
    case None =>
    case Some(a) => assert ([a] + rest)[1..] == rest;
  }

  /** The loop of `_addresses_in_code`. */
  method Walk(code: Code) returns (out: seq<Code>)
    ensures out == AddAllNew([], Embedded(Disassemble(code, 0)))
  {
    out := [];
    var i := 0;
    var n := |code|;
    while i < n
      invariant AddAllNew(out, Embedded(Disassemble(code, i))) == AddAllNew([], Embedded(Disassemble(code, 0)))
      decreases n - i
    {
      WalkStep(out, code, i);
      ghost var here := InstructionAt(code, i);
      ghost var next := Next(code, i);
      var op := code[i];
      var word;
      if op == PUSH20 {
        word, i := code[i + 1..Clip(code, i + 21)], i + 21;
      } else if op == PUSH32 {
        word, i := code[i + 1..Clip(code, i + 33)], i + 33;
      } else if PUSH1 <= op <= PUSH32 {
        i := i + 1 + (op - 0x5F);
        assert i == next && EmbeddedAddress(here) == None;
        continue;
      } else {
        i := i + 1;
        assert i == next && EmbeddedAddress(here) == None;
        continue;
      }
      assert i == next && word == here.operand;
      var candidate := AddressFromWord(word);
      if candidate.Some? && candidate.value !in out {
        out := out + [candidate.value];
      }
    }
  }

  /** `_addresses_in_code`. */
  method AddressesInCode(code: Code) returns (out: seq<Code>)
    ensures forall a :: a in out <==> exists i: nat :: CarriedAt(code, a, i)
    ensures forall j, k :: 0 <= j < k < |out| ==> out[j] != out[k]
    ensures forall j, k :: 0 <= j < k < |out| ==> CarriedBefore(code, out[j], out[k])
  {
    out := Walk(code);
    var all := Embedded(Disassemble(code, 0));
    AddAllNewKeepsFirstOccurrences([], [], all);
    assert [] + all == all;
    ListedExactly(code, out);
    ListedInOrder(code, out);
  }

  lemma ListedExactly(code: Code, out: seq<Code>)
    requires FirstOccurrences(out, Embedded(Disassemble(code, 0)))
    ensures forall a :: a in out <==> exists i: nat :: CarriedAt(code, a, i)
  {
    forall a ensures a in out <==> exists i: nat :: CarriedAt(code, a, i) {
      EmbeddedExactly(code, a);
    }
  }

  lemma ListedInOrder(code: Code, out: seq<Code>)
    requires FirstOccurrences(out, Embedded(Disassemble(code, 0)))
    ensures forall j, k :: 0 <= j < k < |out| ==> CarriedBefore(code, out[j], out[k])
  {
    forall j, k | 0 <= j < k < |out| ensures CarriedBefore(code, out[j], out[k]) {
      assert out[j] in out;
      FirstCarried(code, 0, out[j], out[k]);
      var i: nat :| CarriedFrom(code, 0, out[j], i) && forall m: nat :: CarriedFrom(code, 0, out[k], m) ==> i < m;
      assert CarriedAt(code, out[j], i);
    }
  }

  /** `a` is the twenty lowest bytes of an operand, missing ones zero, and not all zero. */
  ghost predicate IsAddressOf(a: Code, operand: Code) {
    && |a| == 20 && (exists k :: 0 <= k < 20 && a[k] != 0)
    && forall k :: 0 <= k < 20 ==>
         a[k] == var place := |operand| - 20 + k; if place >= 0 then operand[place] else 0
  }

  /** A PUSH20 or PUSH32 at a real instruction boundary carries `a`; the end of the code may cut its operand off. */
  ghost predicate CarriedFrom(code: Code, from: nat, a: Code, i: nat) {
    && Boundary(code, from, i) && i < |code|
    && ((code[i] == 0x73 && IsAddressOf(a, code[i + 1..Clip(code, i + 21)]))
        || (code[i] == 0x7F && IsAddressOf(a, code[i + 1..Clip(code, i + 33)])))
  }

  ghost predicate CarriedAt(code: Code, a: Code, i: nat) {
    CarriedFrom(code, 0, a, i)
  }

  /** `a` is carried before `b` ever is. */
  ghost predicate CarriedBefore(code: Code, a: Code, b: Code) {
    exists i: nat :: CarriedAt(code, a, i) && forall j: nat :: CarriedAt(code, b, j) ==> i < j
  }

  lemma LowBytes(raw: Code, k: nat)
    requires k < 20
    ensures var place := |raw| - 20 + k;
            LeftPadded(raw)[|LeftPadded(raw)| - 20..][k] == if place >= 0 then raw[place] else 0
  {
  }

  /** `_address_from_word` reads the twenty lowest bytes. */
  lemma AddressExactly(raw: Code, a: Code)
    ensures AddressFromWord(raw) == Some(a) <==> IsAddressOf(a, raw)
  {
    if |a| == 20 {
      var low := LeftPadded(raw)[|LeftPadded(raw)| - 20..];
      forall k | 0 <= k < 20
        ensures low[k] == var place := |raw| - 20 + k; if place >= 0 then raw[place] else 0
      {
        LowBytes(raw, k);
      }
      assert (forall k :: 0 <= k < 20 ==> a[k] == low[k]) ==> a == low;
      assert (forall k :: 0 <= k < 20 ==> low[k] == 0) <==> low == Zeros(20);
      if low == a && low != Zeros(20) {
        var k :| 0 <= k < 20 && low[k] != 0;
        assert a[k] != 0;
      }
    }
  }

  lemma CarriedExactly(code: Code, from: nat, a: Code, i: nat)
    ensures CarriedFrom(code, from, a, i)
            <==> Boundary(code, from, i) && i < |code| && EmbeddedAddress(InstructionAt(code, i)) == Some(a)
  {
    if i < |code| {
      AddressExactly(Operand(code, i), a);
    }
  }

  /** Of two addresses the one embedded first is carried first. */
  lemma {:induction false} FirstCarried(code: Code, from: nat, a: Code, b: Code)
    requires var all := Embedded(Disassemble(code, from)); a in all && FirstAt(all, a) < FirstAt(all, b)
    ensures exists i: nat ::
              CarriedFrom(code, from, a, i) && forall j: nat :: CarriedFrom(code, from, b, j) ==> i < j
    decreases |code| - from
  {
    var ins, next := InstructionAt(code, from), Next(code, from);
    assert Disassemble(code, from)[1..] == Disassemble(code, next);
    forall j: nat ensures CarriedFrom(code, from, b, j) <==>
                            CarriedFrom(code, next, b, j) || (j == from && EmbeddedAddress(ins) == Some(b)) {
      CarriedExactly(code, from, b, j);
      CarriedExactly(code, next, b, j);
    }
    CarriedExactly(code, from, a, from);
    if EmbeddedAddress(ins) == Some(a) {
      forall j: nat | CarriedFrom(code, next, b, j) ensures from < j {
        BoundaryNotBefore(code, next, j);
      }
    } else {
      LaterEmbedded(code, from, a, b);
      FirstCarried(code, next, a, b);
      var i: nat :| CarriedFrom(code, next, a, i) && forall j: nat :: CarriedFrom(code, next, b, j) ==> i < j;
      CarriedExactly(code, next, a, i);
      CarriedExactly(code, from, a, i);
    }
  }

  lemma LaterEmbedded(code: Code, from: nat, a: Code, b: Code)
    requires from < |code| && EmbeddedAddress(InstructionAt(code, from)) != Some(a)
    requires var all := Embedded(Disassemble(code, from)); a in all && FirstAt(all, a) < FirstAt(all, b)
    ensures EmbeddedAddress(InstructionAt(code, from)) != Some(b)
    ensures var rest := Embedded(Disassemble(code, Next(code, from)));
            a in rest && FirstAt(rest, a) < FirstAt(rest, b)
  {
    var all, rest := Embedded(Disassemble(code, from)), Embedded(Disassemble(code, Next(code, from)));
    assert Disassemble(code, from)[1..] == Disassemble(code, Next(code, from));
    match EmbeddedAddress(InstructionAt(code, from))
    case None => assert all == rest;
    case Some(c) =>
      assert all == [c] + rest && all[1..] == rest;
  }

  lemma {:induction false} EmbeddedMembers(instructions: seq<Instruction>, a: Code)
    ensures a in Embedded(instructions)
            <==> exists ins :: ins in instructions && EmbeddedAddress(ins) == Some(a)
  {
    if instructions != [] {
      EmbeddedMembers(instructions[1..], a);
      assert instructions == [instructions[0]] + instructions[1..];
    }
  }

  /** What the walk may report, exactly: no data byte is ever read as an opcode. */
  lemma EmbeddedExactly(code: Code, a: Code)
    ensures a in Embedded(Disassemble(code, 0)) <==> exists i: nat :: CarriedAt(code, a, i)
  {
    var listing := Disassemble(code, 0);
    EmbeddedMembers(listing, a);
    if a in Embedded(listing) {
      var ins :| ins in listing && EmbeddedAddress(ins) == Some(a);
      BoundaryIsInstruction(code, 0, ins);
      CarriedExactly(code, 0, a, ins.at);
      assert CarriedAt(code, a, ins.at);
    }
    if i: nat :| CarriedAt(code, a, i) {
      var ins := InstructionAt(code, i);
      CarriedExactly(code, 0, a, i);
      BoundaryIsInstruction(code, 0, ins);
      assert EmbeddedAddress(ins) == Some(a);
    }
  }

  // ----- the end of the code

  /** The operand word the EVM itself would push: missing bytes read as zero, on the right. */
  function PushedWord(operand: Code, size: nat): (w: Code)
    requires |operand| <= size <= 32
    ensures |w| == 32
  {
    Zeros(32 - size) + operand + Zeros(size - |operand|)
  }

  lemma {:induction false} ShiftedZero(operand: Code, size: nat, k: nat)
    requires |operand| < size <= 32 && 12 <= k < 32
    requires PushedWord(operand, size)[12..] == LeftPadded(operand)[12..]
    ensures PushedWord(operand, size)[k] == 0
    decreases 32 - k
  {
    var w, p := PushedWord(operand, size), LeftPadded(operand);
    var shift := size - |operand|;
    assert w[12..][k - 12] == p[12..][k - 12];
    if k >= 32 - shift {
    } else {
      ShiftedZero(operand, size, k + shift);
      assert w[k] == p[k + shift];
      assert w[12..][k + shift - 12] == p[12..][k + shift - 12];
    }
  }

  /**
   A PUSH whose operand runs off the end of the code is padded on the other side
   from the EVM: the two readings agree only when there is no address to report.
   */
  lemma TruncatedOperandAgrees(operand: Code, size: nat)
    requires |operand| < size && (size == 20 || size == 32)
    ensures PushedWord(operand, size)[12..] == LeftPadded(operand)[12..] <==> AddressFromWord(operand) == None
  {
    var w, p := PushedWord(operand, size), LeftPadded(operand);
    if w[12..] == p[12..] {
      forall k | 12 <= k < 32 ensures w[k] == 0 {
        ShiftedZero(operand, size, k);
      }
      assert w[12..] == Zeros(20);
    }
    if AddressFromWord(operand) == None {
      forall k | 12 <= k < 32 ensures w[k] == 0 {
        var shift := size - |operand|;
        if k < 32 - shift {
          assert w[k] == p[k + shift] == p[12..][k + shift - 12];
        }
      }
      assert w[12..] == Zeros(20);
    }
  }

  /** A complete operand is read exactly as the EVM reads it. */
  lemma CompleteOperandAgrees(operand: Code, size: nat)
    requires |operand| == size && (size == 20 || size == 32)
    ensures PushedWord(operand, size) == LeftPadded(operand)
  {
    assert operand + Zeros(0) == operand;
  }

  /** A PUSH20 with one of its twenty bytes: the report has it at the end, the EVM at the front. */
  lemma CutOffOperandReported()
    ensures var code: Code, a: Code := [PUSH20, 1], Zeros(19) + [1];
            && CarriedAt(code, a, 0)
            && PushedWord(Operand(code, 0), OperandSize(PUSH20))[12..] == [1] + Zeros(19) != a
  {
    var code: Code, a: Code := [PUSH20, 1], Zeros(19) + [1];
    assert Operand(code, 0) == [1];
    assert (Zeros(31) + [1])[12..] == a;
    assert a[19] == 1 && Zeros(20)[19] == 0;
    assert (Zeros(12) + [1] + Zeros(19))[12..] == [1] + Zeros(19);
    assert a[0] == 0 && ([1] + Zeros(19))[0] == 1;
  }

  /** A reported address is the one the EVM would push exactly when its operand is complete. */
  lemma ReportedIsPushed(code: Code, a: Code, i: nat)
    requires CarriedAt(code, a, i)
    ensures PushedWord(Operand(code, i), OperandSize(code[i]))[12..] == a <==> Next(code, i) <= |code|
  {
    var operand, size := Operand(code, i), OperandSize(code[i]);
    CarriedExactly(code, 0, a, i);
    if Next(code, i) <= |code| {
      CompleteOperandAgrees(operand, size);
    } else {
      TruncatedOperandAgrees(operand, size);
    }
  }
}
