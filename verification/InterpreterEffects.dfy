/** What the instructions without control flow do, one by one, to the operands, the locals
    and the memory of a program (interp.rs). */
module InterpreterEffects {
  import opened Words
  import opened WasmCode
  import opened WasmFormat
  import opened Interpreter
  import opened WasmSemantics

  // ---------- Operands ----------

  /** `select` keeps its first operand if and only if the low 32 bits of the condition are
      not all zero, and its second one otherwise. */
  lemma SelectChooses(env: Env, st: Store, below: seq<U64>, x: U64, y: U64, c: U64)
    requires st.vs == below + [x, y, c]
    ensures c % U32_LIMIT != 0 ==> ExecPlain(env, SELECT, [], st) == Normal(st.(vs := below + [x]))
    ensures c % U32_LIMIT == 0 ==> ExecPlain(env, SELECT, [], st) == Normal(st.(vs := below + [y]))
  {
    assert Last(st.vs, 3) == [x, y, c] && ButLast(st.vs, 3) == below;
  }

  lemma DropDrops(env: Env, st: Store, below: seq<U64>, x: U64)
    requires st.vs == below + [x]
    ensures ExecPlain(env, DROP, [], st) == Normal(st.(vs := below))
    ensures ExecPlain(env, NOP, [], st) == Normal(st)
  {
    assert Last(st.vs, 1) == [x] && ButLast(st.vs, 1) == below;
    assert ButLast(st.vs, 0) == st.vs;
  }

  lemma ConstPushes(env: Env, st: Store, l: Leb)
    requires l.value < U64_LIMIT
    ensures ExecPlain(env, I32_CONST, [l], st) == Normal(st.(vs := st.vs + [l.value]))
    ensures ExecPlain(env, I64_CONST, [l], st) == Normal(st.(vs := st.vs + [l.value]))
  {
    assert ButLast(st.vs, 0) == st.vs && Last(st.vs, 0) == [];
  }

  /** A value on top of the operands below, or the trap. */
  function Answered(st: Store, below: seq<U64>, r: Outcome<U64>): Result {
    match r
    case Ok(v) => Normal(st.(vs := below + [v]))
    case Err(k) => Abort(k)
  }

  /** Arithmetic gets its operands in the order in which they were pushed. */
  lemma ArithmeticIsApplied(env: Env, op: Byte, st: Store, below: seq<U64>, x: U64, y: U64)
    requires IsBinary(op) && st.vs == below + [x, y]
    ensures IsPlainOp(op)
    ensures ExecPlain(env, op, [], st) == Answered(st, below, env.alu(op, [x, y]))
  {
    assert Last(st.vs, 2) == [x, y] && ButLast(st.vs, 2) == below;
  }

  lemma UnaryIsApplied(env: Env, op: Byte, st: Store, below: seq<U64>, x: U64)
    requires IsUnary(op) && st.vs == below + [x]
    ensures IsPlainOp(op)
    ensures ExecPlain(env, op, [], st) == Answered(st, below, env.alu(op, [x]))
  {
    hide IsUnary, LoadFrom, StoreTo;
    UnaryTakesOne(op);
    assert Last(st.vs, 1) == [x] && ButLast(st.vs, 1) == below;
  }

  lemma UnaryTakesOne(op: Byte)
    requires IsUnary(op)
    ensures IsPlainOp(op) && Operands(op) == 1 && op > I64_CONST && !IsLoad(op) && !IsStore(op)
  {
  }

  // ---------- Locals ----------

  /** After `local.set` or `local.tee` at `i`, `local.get` gives the value that was on top at
      `i` and what it gave before everywhere else. */
  lemma GetAfterSet(env: Env, st: Store, below: seq<U64>, v: U64, i: Leb, j: Leb)
    requires st.vs == below + [v] && i.value < |st.locals| && j.value < |st.locals|
    ensures var put, tee := ExecPlain(env, LOCAL_SET, [i], st), ExecPlain(env, LOCAL_TEE, [i], st);
            && put.Normal? && tee.Normal? && put.st.vs == below && tee.st == put.st.(vs := st.vs)
            && put.st.memory == st.memory && put.st.world == st.world && |put.st.locals| == |st.locals|
            && ExecPlain(env, LOCAL_GET, [j], put.st)
               == Normal(put.st.(vs := below + [if j.value == i.value then v else st.locals[j.value]]))
            && ExecPlain(env, LOCAL_GET, [j], st) == Normal(st.(vs := st.vs + [st.locals[j.value]]))
  {
    assert Last(st.vs, 1) == [v] && ButLast(st.vs, 1) == below;
    assert ButLast(below, 0) == below && ButLast(st.vs, 0) == st.vs;
  }

  /** Any other index is refused. */
  lemma NoSuchLocal(env: Env, st: Store, i: Leb)
    requires |st.vs| >= 1
    ensures ExecPlain(env, LOCAL_GET, [i], st) == Abort(InvalidLocal) <==> i.value >= |st.locals|
    ensures ExecPlain(env, LOCAL_SET, [i], st) == Abort(InvalidLocal) <==> i.value >= |st.locals|
    ensures ExecPlain(env, LOCAL_TEE, [i], st) == Abort(InvalidLocal) <==> i.value >= |st.locals|
  {
    hide LoadFrom, StoreTo, IsUnary, IsBinary;
    assert !IsBinary(LOCAL_GET) && !IsBinary(LOCAL_SET) && !IsBinary(LOCAL_TEE) by { LocalsAreNot(); }
    assert !IsUnary(LOCAL_GET) && !IsUnary(LOCAL_SET) && !IsUnary(LOCAL_TEE) by { LocalsAreNot(); }
  }

  lemma LocalsAreNot()
    ensures !IsBinary(LOCAL_GET) && !IsBinary(LOCAL_SET) && !IsBinary(LOCAL_TEE)
    ensures !IsUnary(LOCAL_GET) && !IsUnary(LOCAL_SET) && !IsUnary(LOCAL_TEE)
  {
  }

  // ---------- Memory ----------

  /** The loads and stores of `n` bytes. */
  predicate LoadsBytes(op: Byte, n: nat) {
    || (n == 1 && (op == I32_LOAD8_U || op == I32_LOAD8_S)) || (n == 2 && (op == I32_LOAD16_U || op == I32_LOAD16_S))
    || (n == 4 && op == I32_LOAD) || (n == 8 && op == I64_LOAD)
  }

  predicate StoresBytes(op: Byte, n: nat) {
    || (n == 1 && op == I32_STORE8) || (n == 2 && op == I32_STORE16)
    || (n == 4 && op == I32_STORE) || (n == 8 && op == I64_STORE)
  }

  predicate IsSigned(op: Byte) { op == I32_LOAD8_S || op == I32_LOAD16_S }

  /** An `n`-byte number as a signed one, in 64 bits of two's complement. */
  function Extended(v: nat, n: nat): int {
    if v < Pow256(n) / 2 then v else v - Pow256(n) + U64_LIMIT
  }

  /** Bytes stay as they are outside the `n` from `a` on. */
  ghost predicate KeptOutside(before: seq<Byte>, after: seq<Byte>, a: nat, n: nat) {
    && |after| == |before|
    && forall k :: 0 <= k < |before| && !(a <= k < a + n) ==> after[k] == before[k]
  }

  /** A store fails exactly when its last byte would lie beyond the memory; otherwise the `n`
      bytes at address plus offset spell the value modulo 256^n, lowest byte first, and all
      else is kept. */
  lemma StoreWrites(env: Env, op: Byte, n: nat, align: Leb, offset: Leb, st: Store, below: seq<U64>, addr: U64, v: U64)
    requires StoresBytes(op, n) && st.vs == below + [addr, v]
    ensures var a, r := addr % U32_LIMIT + offset.value, ExecPlain(env, op, [align, offset], st);
            && (a + n > |st.memory| ==> r == Abort(OutOfBounds))
            && (a + n <= |st.memory| ==>
                  && r.Normal? && r.st == st.(vs := below, memory := r.st.memory)
                  && KeptOutside(st.memory, r.st.memory, a, n) && r.st.memory[a] == v % 256
                  && Pow256(n) > 0 && FromBytes(r.st.memory[a..a + n]) == v % Pow256(n))
  {
    hide FromBytes, Pow256, ToBytes, LoadFrom;
    assert Last(st.vs, 2) == [addr, v] && ButLast(st.vs, 2) == below;
    StoreGives(env, op, n, align.value, offset.value, addr, v, st.locals, st.memory);
    LowBytes(v, n);
    var a := addr % U32_LIMIT + offset.value;
    if a + n <= |st.memory| {
      var after := st.memory[..a] + ToBytes(v, n) + st.memory[a + n..];
      assert after[a..a + n] == ToBytes(v, n);
    }
  }

  lemma StoreGives(
      env: Env, op: Byte, n: nat, align: nat, offset: nat, addr: U64, v: U64, locals: seq<U64>, memory: seq<Byte>)
    requires StoresBytes(op, n)
    ensures IsPlainOp(op) && Operands(op) == 2 && op != I32_CONST && op != I64_CONST
    ensures var a, r := addr % U32_LIMIT + offset, Evaluate(env, op, align, offset, [addr, v], locals, memory);
            && (a + n > |memory| ==> r == Err(OutOfBounds))
            && (a + n <= |memory| ==> r == Ok(Effect([], locals, memory[..a] + ToBytes(v, n) + memory[a + n..])))
  {
    hide ToBytes, FromBytes, LoadFrom;
  }

  /** Little-endian bytes spell the number as far as they go. */
  lemma {:induction false} LowBytes(v: nat, n: nat)
    ensures Pow256(n) > 0 && FromBytes(ToBytes(v, n)) == v % Pow256(n)
    ensures n > 0 ==> ToBytes(v, n)[0] == v % 256
    decreases n
  {
    if n > 0 {
      LowBytes(v / 256, n - 1);
      FirstByte(v, n);
      hide FromBytes, ToBytes;
      TakeByte(v, Pow256(n - 1));
    }
  }

  lemma TakeByte(v: nat, p: nat)
    requires p > 0
    ensures v % (256 * p) == v % 256 + 256 * (v / 256 % p)
  {
    var w, d := v / 256, v % 256;
    var q, r := w / p, w % p;
    assert w == p * q + r;
    calc {
      v;
      256 * w + d;
      256 * (p * q + r) + d;
      256 * (p * q) + (256 * r + d);
      (256 * p) * q + (256 * r + d);
    }
    IsRemainder(v, 256 * p, q, 256 * r + d);
  }

  lemma IsRemainder(x: nat, p: nat, q: nat, r: nat)
    requires x == p * q + r && r < p
    ensures x % p == r && x / p == q
  {
    OneQuotient(p, q, r, x / p, x % p);
  }

  lemma OneQuotient(p: nat, q: nat, r: nat, q1: nat, r1: nat)
    requires p * q + r == p * q1 + r1 && r < p && r1 < p
    ensures q == q1 && r == r1
  {
    if q > q1 { OneMore(p, q, q1); }
    if q1 > q { OneMore(p, q1, q); }
  }

  lemma OneMore(p: nat, a: nat, b: nat)
    requires a > b
    ensures p * a >= p * b + p
  {
    var k := a - b - 1;
    calc { p * a; p * (b + 1 + k); p * b + p + p * k; }
  }

  lemma FirstByte(v: nat, n: nat)
    requires n > 0
    ensures ToBytes(v, n)[0] == v % 256
    ensures FromBytes(ToBytes(v, n)) == v % 256 + 256 * FromBytes(ToBytes(v / 256, n - 1))
  {
    assert ToBytes(v, n)[1..] == ToBytes(v / 256, n - 1);
  }

  /** A load fails exactly when its last byte would lie beyond the memory; otherwise it gives
      the number that the `n` bytes spell, extended if the load is a signed one, and changes
      nothing else. */
  lemma LoadReads(env: Env, op: Byte, n: nat, align: Leb, offset: Leb, st: Store, below: seq<U64>, addr: U64)
    requires LoadsBytes(op, n) && st.vs == below + [addr]
    ensures var a, r := addr % U32_LIMIT + offset.value, ExecPlain(env, op, [align, offset], st);
            && (a + n > |st.memory| ==> r == Abort(OutOfBounds))
            && (a + n <= |st.memory| ==>
                  var v := FromBytes(st.memory[a..a + n]);
                  r.Normal? && r.st == st.(vs := r.st.vs)
                  && r.st.vs == below + [if IsSigned(op) then Extended(v, n) else v])
  {
    hide FromBytes, Pow256, Extended, Evaluate;
    assert Last(st.vs, 1) == [addr] && ButLast(st.vs, 1) == below;
    LoadGives(env, op, n, align.value, offset.value, addr, st.locals, st.memory);
  }

  lemma LoadGives(
      env: Env, op: Byte, n: nat, align: nat, offset: nat, addr: U64, locals: seq<U64>, memory: seq<Byte>)
    requires LoadsBytes(op, n)
    ensures IsPlainOp(op) && Operands(op) == 1 && op != I32_CONST && op != I64_CONST
    ensures var a, r := addr % U32_LIMIT + offset, Evaluate(env, op, align, offset, [addr], locals, memory);
            && (a + n > |memory| ==> r == Err(OutOfBounds))
            && (a + n <= |memory| ==>
                  var v := FromBytes(memory[a..a + n]);
                  && r.Ok? && r.value.locals == locals && r.value.memory == memory
                  && r.value.results == [if IsSigned(op) then Extended(v, n) else v])
  {
    hide FromBytes, Pow256, StoreTo;
    Widths();
  }

  /** What a store of `n` bytes put there, a load of `n` bytes at the same place gets: the
      value modulo 256^n, extended if the load is a signed one. */
  lemma LoadAfterStore(
      env: Env, store: Byte, load: Byte, n: nat, align: Leb, offset: Leb, st: Store, below: seq<U64>,
      addr: U64, v: U64, again: U64)
    requires StoresBytes(store, n) && LoadsBytes(load, n) && st.vs == below + [addr, v]
    requires again % U32_LIMIT == addr % U32_LIMIT && addr % U32_LIMIT + offset.value + n <= |st.memory|
    ensures Pow256(n) > 0
    ensures var r := ExecPlain(env, store, [align, offset], st);
            && r.Normal?
            && var low := v % Pow256(n);
               var got := ExecPlain(env, load, [align, offset], r.st.(vs := below + [again]));
               && got.Normal? && got.st == r.st.(vs := got.st.vs)
               && got.st.vs == below + [if IsSigned(load) then Extended(low, n) else low]
  {
    hide ExecPlain, FromBytes, Pow256, Extended, KeptOutside;
    StoreWrites(env, store, n, align, offset, st, below, addr, v);
    var st1 := ExecPlain(env, store, [align, offset], st).st;
    assert |st1.memory| == |st.memory| by {
      KeptLength(st.memory, st1.memory, addr % U32_LIMIT + offset.value, n);
    }
    LoadReads(env, load, n, align, offset, st1.(vs := below + [again]), below, again);
  }

  lemma KeptLength(before: seq<Byte>, after: seq<Byte>, a: nat, n: nat)
    ensures KeptOutside(before, after, a, n) ==> |after| == |before|
  {
  }

  /** `memory.size` counts whole pages of 64 KiB, and `memory.grow` always answers -1. */
  lemma MemoryHasItsSize(env: Env, st: Store, below: seq<U64>, delta: U64, l: Leb, pages: nat)
    requires st.vs == below + [delta] && pages < U32_LIMIT && pages * 65536 <= |st.memory| < (pages + 1) * 65536
    ensures ExecPlain(env, MEMORY_SIZE, [l], st) == Normal(st.(vs := st.vs + [pages]))
    ensures ExecPlain(env, MEMORY_GROW, [l], st) == Normal(st.(vs := below + [0xFFFF_FFFF]))
  {
    assert ButLast(st.vs, 0) == st.vs && Last(st.vs, 1) == [delta] && ButLast(st.vs, 1) == below;
  }

  // ---------- Host functions ----------

  function HostAnswered(st: Store, r: HostResult): Result {
    match r
    case HostErr(code) => Abort(HostCallError(code))
    case HostOk(None) => Normal(st)
    case HostOk(Some(v)) => Normal(st.(vs := st.vs + [v]))
  }

  /** A host function gets the last operands, in order, and the memory; what it leaves in the
      memory stays, and its result goes on top of what was below. */
  lemma HostIsCalled(env: Env, f: nat, st: Store, below: seq<U64>, args: seq<U64>)
    requires ValidEnv(env) && f < env.imports && st.vs == below + args
    requires |args| == |env.mod.types[env.mod.imports[f].typeIdx].params|
    requires |env.host(st.world, f, args, st.memory).memory| == |st.memory|
    ensures var reply := env.host(st.world, f, args, st.memory);
            ExecHost(env, f, st)
            == HostAnswered(st.(vs := below, memory := reply.memory, world := reply.world), reply.result)
  {
    hide Accepted;
    assert Last(st.vs, |args|) == args && ButLast(st.vs, |args|) == below;
  }

  // ---------- Bytes ----------

  /** How many immediates follow the opcodes that stand alone, by section 5.4 of the
      WebAssembly Core Specification 1.0. */
  predicate TakesNone(op: Byte) {
    op in {0x01, 0x1A, 0x1B} || 0x45 <= op <= 0x5A || op in {0x67, 0x68, 0x79, 0x7A, 0xA7, 0xAC, 0xAD}
    || 0x6A <= op <= 0x78 || 0x7C <= op <= 0x8A
  }

  predicate TakesOne(op: Byte) { op in {0x20, 0x21, 0x22, 0x3F, 0x40, 0x41, 0x42} }

  predicate TakesTwo(op: Byte) { op in {0x28, 0x29, 0x2C, 0x2D, 0x2E, 0x2F, 0x36, 0x37, 0x38, 0x39} }

  /** The instructions without control flow are spelled as the standard spells them. */
  lemma PlainBytes(op: Byte, x: Byte, y: Byte)
    requires x < 64 && y < 64
    ensures IsPlainOp(op) <==> TakesNone(op) || TakesOne(op) || TakesTwo(op)
    ensures TakesNone(op) ==> WellFormed(Plain(op, [])) && Encode(Plain(op, [])) == [op]
    ensures TakesOne(op) ==> WellFormed(Plain(op, [Leb(x, [x])])) && Encode(Plain(op, [Leb(x, [x])])) == [op, x]
    ensures TakesTwo(op) ==>
              && WellFormed(Plain(op, [Leb(x, [x]), Leb(y, [y])]))
              && Encode(Plain(op, [Leb(x, [x]), Leb(y, [y])])) == [op, x, y]
  {
    OneByteSpells(x);
    OneByteSpells(y);
    hide SpellsU32, SpellsI32, SpellsI64;
    var one, two := [Leb(x, [x])], [Leb(x, [x]), Leb(y, [y])];
    assert one[1..] == [] && two[1..] == [Leb(y, [y])] && two[1..][1..] == [];
    assert ImmBytes([]) == [];
    assert ImmBytes(one) == [x] + [] && ImmBytes(two[1..]) == [y] + [] && ImmBytes(two) == [x] + ImmBytes(two[1..]);
  }

  lemma OneByteSpells(x: Byte)
    requires x < 64
    ensures SpellsU32(Leb(x, [x])) && SpellsI32(Leb(x, [x])) && SpellsI64(Leb(x, [x]))
  {
  }

  /** So is control flow. */
  lemma ControlBytes(x: Byte, kind: Byte)
    requires x < 64
    ensures var l, body := Leb(x, [x]), [Return];
            && Encode(Unreachable) == [0x00] && Encode(Return) == [0x0F]
            && Encode(Br(l)) == [0x0C, x] && Encode(BrIf(l)) == [0x0D, x] && Encode(Call(l)) == [0x10, x]
            && Encode(Block(kind, body)) == [0x02, kind, 0x0F, 0x0B]
            && Encode(Loop(kind, body)) == [0x03, kind, 0x0F, 0x0B]
            && Encode(If(kind, body)) == [0x04, kind, 0x0F, 0x0B]
            && Encode(IfElse(kind, body, [Unreachable])) == [0x04, kind, 0x0F, 0x05, 0x00, 0x0B]
  {
    assert [Return][1..] == [] && [Unreachable][1..] == [];
    assert EncodeSeq([Return]) == [0x0F] + EncodeSeq([]);
    assert EncodeSeq([Unreachable]) == [0x00] + EncodeSeq([]);
  }
}
