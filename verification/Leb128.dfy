/** LEB128 integers: the readers of the interpreter and of the module parser, and
    the encoders they undo (section 5.2.2 of the WebAssembly Core Specification 1.0). */
module Leb128 {
  import opened Words

  /** A value and the position after it, or a reader that ran out of bytes or groups. */
  datatype Read = Done(value: nat, next: nat) | Short

  /** The room left above the groups already read: 2^32, 2^25, ..., 2^4 or 2^64, 2^57, ..., 2^1. */
  ghost predicate Room(room: nat) {
    room == 16 || room == 2 || (room > 128 && room % 128 == 0 && Room(room / 128))
  }

  lemma Rooms()
    ensures Room(U32_LIMIT) && Room(U64_LIMIT)
  {
    assert Room(0x10) && Room(0x800) && Room(0x4_0000) && Room(0x200_0000);
    assert Room(2) && Room(0x100) && Room(0x8000) && Room(0x40_0000) && Room(0x2000_0000) && Room(0x10_0000_0000);
    assert Room(0x800_0000_0000) && Room(0x4_0000_0000_0000) && Room(0x200_0000_0000_0000);
  }

  /** The unsigned number at `pc`, modulo `room`. The last group that fits keeps only
      the bits that have room; one more continuation bit is an error. */
  function ReadUnsigned(code: seq<Byte>, pc: nat, room: nat): (r: Read)
    requires room >= 2
    ensures r.Done? ==> pc < r.next <= |code|
    decreases room
  {
    if pc >= |code| then Short
    else
      var g := code[pc] % 128;
      if code[pc] < 128 then Done(g % room, pc + 1)
      else if room <= 255 then Short
      else match ReadUnsigned(code, pc + 1, room / 128)
        case Short => Short
        case Done(v, next) => Done(g + 128 * v, next)
  }

  /** The signed number at `pc` in two's complement, modulo `room`. */
  function ReadSigned(code: seq<Byte>, pc: nat, room: nat): (r: Read)
    requires room >= 2
    ensures r.Done? ==> pc < r.next <= |code|
    decreases room
  {
    if pc >= |code| then Short
    else
      var g := code[pc] % 128;
      if code[pc] < 128 then Done(if room > 128 && g >= 64 then g + room - 128 else g % room, pc + 1)
      else if room <= 255 then Short
      else match ReadSigned(code, pc + 1, room / 128)
        case Short => Short
        case Done(v, next) => Done(g + 128 * v, next)
  }

  function ReadU32(code: seq<Byte>, pc: nat): Read { ReadUnsigned(code, pc, U32_LIMIT) }
  function ReadI32(code: seq<Byte>, pc: nat): Read { ReadSigned(code, pc, U32_LIMIT) }
  function ReadI64(code: seq<Byte>, pc: nat): Read { ReadSigned(code, pc, U64_LIMIT) }

  // ---------- Encoders ----------

  function EncodeUnsigned(v: nat): (bytes: seq<Byte>)
    ensures |bytes| >= 1
  {
    if v < 128 then [v] else [v % 128 + 128] + EncodeUnsigned(v / 128)
  }

  function EncodeSigned(v: int): (bytes: seq<Byte>)
    ensures |bytes| >= 1
    decreases if v < 0 then -v else v
  {
    if -64 <= v < 64 then [v % 128] else [v % 128 + 128] + EncodeSigned(v / 128)
  }

  /** `bytes` stands in `code` at `pc`. */
  ghost predicate At(code: seq<Byte>, pc: nat, bytes: seq<Byte>) {
    pc + |bytes| <= |code| && code[pc..pc + |bytes|] == bytes
  }

  lemma AtSplit(code: seq<Byte>, pc: nat, a: seq<Byte>, b: seq<Byte>)
    requires At(code, pc, a + b)
    ensures At(code, pc, a) && At(code, pc + |a|, b)
  {
    var s := code[pc..pc + |a + b|];
    assert s[..|a|] == a && s[|a|..] == b;
    assert s[..|a|] == code[pc..pc + |a|];
    assert s[|a|..] == code[pc + |a|..pc + |a| + |b|];
  }

  lemma AtFirst(code: seq<Byte>, pc: nat, bytes: seq<Byte>)
    requires At(code, pc, bytes) && |bytes| >= 1
    ensures pc < |code| && code[pc] == bytes[0] && At(code, pc + 1, bytes[1..])
  {
    assert code[pc..pc + |bytes|][0] == code[pc];
    assert bytes == bytes[..1] + bytes[1..];
    AtSplit(code, pc, bytes[..1], bytes[1..]);
  }

  // ---------- Round trips ----------

  lemma SmallMod(a: nat, m: nat)
    requires a < m
    ensures a % m == a
  {
  }

  lemma {:induction false} UnsignedRoundTrip(code: seq<Byte>, pc: nat, v: nat, room: nat)
    requires Room(room) && v < room && At(code, pc, EncodeUnsigned(v))
    ensures ReadUnsigned(code, pc, room) == Done(v, pc + |EncodeUnsigned(v)|)
    decreases room
  {
    AtFirst(code, pc, EncodeUnsigned(v));
    if v < 128 {
      SmallMod(v, room);
    } else {
      assert EncodeUnsigned(v)[1..] == EncodeUnsigned(v / 128);
      UnsignedRoundTrip(code, pc + 1, v / 128, room / 128);
    }
  }

  /** The last group of a signed number is extended with its top bit as far as there is room. */
  lemma LastGroup(v: int, room: nat)
    requires Room(room) && -64 <= v < 64 && 2 * v < room && 0 <= 2 * v + room
    ensures (if room > 128 && v % 128 >= 64 then v % 128 + room - 128 else v % 128 % room) == if v < 0 then v + room
            else v
  {
    if v >= 0 {
      SmallMod(v, room);
    } else if room == 16 {
      assert (v + 128) % 16 == v + 16;
    } else if room == 2 {
      assert (v + 128) % 2 == v + 2;
    }
  }

  /** A higher group has a 128th of the room, and the rest of the number fits. */
  lemma NextGroup(v: int, room: nat)
    requires Room(room) && !(-64 <= v < 64) && 2 * v < room && 0 <= 2 * v + room
    ensures room > 255 && Room(room / 128) && 2 * (v / 128) < room / 128 && 0 <= 2 * (v / 128) + room / 128
    ensures v % 128 + 128 * (if v / 128 < 0 then v / 128 + room / 128 else v / 128) == if v < 0 then v + room else v
  {
    hide Room;
    RoomDivides(room);
    NextGroupOf(v, room / 128);
  }

  lemma RoomDivides(room: nat)
    requires Room(room) && room != 16 && room != 2
    ensures room > 255 && Room(room / 128) && room == 128 * (room / 128) && room / 128 % 2 == 0
  {
  }

  lemma NextGroupOf(v: int, x: nat)
    requires !(-64 <= v < 64) && 2 * v < 128 * x && 0 <= 2 * v + 128 * x && x % 2 == 0
    ensures 2 * (v / 128) < x && 0 <= 2 * (v / 128) + x
    ensures v % 128 + 128 * (if v / 128 < 0 then v / 128 + x else v / 128) == if v < 0 then v + 128 * x else v
  {
  }

  lemma {:induction false} SignedRoundTrip(code: seq<Byte>, pc: nat, v: int, room: nat)
    requires Room(room) && 2 * v < room && 0 <= 2 * v + room && At(code, pc, EncodeSigned(v))
    ensures ReadSigned(code, pc, room) == Done(if v < 0 then v + room else v, pc + |EncodeSigned(v)|)
    decreases room
  {
    hide Room, At;
    AtFirst(code, pc, EncodeSigned(v));
    if -64 <= v < 64 {
      LastGroup(v, room);
    } else {
      assert EncodeSigned(v)[1..] == EncodeSigned(v / 128);
      NextGroup(v, room);
      SignedRoundTrip(code, pc + 1, v / 128, room / 128);
    }
  }

  /** Reading what the encoder wrote gives the number back, for every u32. */
  lemma U32RoundTrip(code: seq<Byte>, pc: nat, v: U32)
    requires At(code, pc, EncodeUnsigned(v))
    ensures ReadU32(code, pc) == Done(v, pc + |EncodeUnsigned(v)|)
  {
    Rooms();
    UnsignedRoundTrip(code, pc, v, U32_LIMIT);
  }

  lemma I32RoundTrip(code: seq<Byte>, pc: nat, v: int)
    requires -0x8000_0000 <= v < 0x8000_0000 && At(code, pc, EncodeSigned(v))
    ensures ReadI32(code, pc) == Done(v % U32_LIMIT, pc + |EncodeSigned(v)|)
  {
    hide Room, ReadSigned, EncodeSigned, At;
    Rooms();
    SignedRoundTrip(code, pc, v, U32_LIMIT);
  }

  lemma I64RoundTrip(code: seq<Byte>, pc: nat, v: int)
    requires -0x8000_0000_0000_0000 <= v < 0x8000_0000_0000_0000 && At(code, pc, EncodeSigned(v))
    ensures ReadI64(code, pc) == Done(v % U64_LIMIT, pc + |EncodeSigned(v)|)
  {
    hide Room, ReadSigned, EncodeSigned, At;
    Rooms();
    SignedRoundTrip(code, pc, v, U64_LIMIT);
  }

  // ---------- Reading a signed number as an unsigned one ----------

  /** The rooms of a 32-bit word. */
  ghost predicate Room32(room: nat) {
    room == 0x1_0000_0000 || room == 0x200_0000 || room == 0x4_0000 || room == 0x800 || room == 16
  }

  /** One group: the unsigned reader finds the bits that fit, not the sign. */
  lemma LastGroupUnsigned(v: int, room: nat)
    requires Room32(room) && -64 <= v < 64 && 0 <= 2 * v + room && 2 * v < room
    ensures v % 128 % room == v % room <==> v >= 0 || v + room / 32 < 0
    ensures v % 128 % room < room
  {
    if room == 16 { assert v % 128 % 16 == v % 16; } else { SmallMod(v % 128, room); }
  }

  lemma NextGroupUnsigned(v: int, room: nat)
    requires Room32(room) && !(-64 <= v < 64) && 0 <= 2 * v + room && 2 * v < room
    ensures room > 255 && Room32(room / 128) && 0 <= 2 * (v / 128) + room / 128 && 2 * (v / 128) < room / 128
    ensures v % room == v % 128 + 128 * (v / 128 % (room / 128))
    ensures (v >= 0 || v + room / 32 < 0) <==> (v / 128 >= 0 || v / 128 + room / 128 / 32 < 0)
  {
    if room == 0x1_0000_0000 { Split32(v); }
    else if room == 0x200_0000 { Split25(v); }
    else if room == 0x4_0000 { Split18(v); }
    else { Split11(v); }
  }

  lemma Split32(v: int)
    ensures v % 0x1_0000_0000 == v % 128 + 128 * (v / 128 % 0x200_0000)
  {
    var q, r := v / 128 / 0x200_0000, v % 128 + 128 * (v / 128 % 0x200_0000);
    assert v == 0x1_0000_0000 * q + r && 0 <= r < 0x1_0000_0000;
  }

  lemma Split25(v: int)
    ensures v % 0x200_0000 == v % 128 + 128 * (v / 128 % 0x4_0000)
  {
    var q, r := v / 128 / 0x4_0000, v % 128 + 128 * (v / 128 % 0x4_0000);
    assert v == 0x200_0000 * q + r && 0 <= r < 0x200_0000;
  }

  lemma Split18(v: int)
    ensures v % 0x4_0000 == v % 128 + 128 * (v / 128 % 0x800)
  {
    var q, r := v / 128 / 0x800, v % 128 + 128 * (v / 128 % 0x800);
    assert v == 0x4_0000 * q + r && 0 <= r < 0x4_0000;
  }

  lemma Split11(v: int)
    ensures v % 0x800 == v % 128 + 128 * (v / 128 % 16)
  {
    var q, r := v / 128 / 16, v % 128 + 128 * (v / 128 % 16);
    assert v == 0x800 * q + r && 0 <= r < 0x800;
  }

  /** The unsigned reader takes in a signed number as far as it goes; what it returns is the
      number modulo the room, if and only if the number is not negative or so low that its
      sign bits fall outside the room. */
  lemma {:induction false} UnsignedReadOfSigned(code: seq<Byte>, pc: nat, v: int, room: nat)
    requires Room32(room) && 0 <= 2 * v + room && 2 * v < room && At(code, pc, EncodeSigned(v))
    ensures var r := ReadUnsigned(code, pc, room);
            && r.Done? && r.next == pc + |EncodeSigned(v)|
            && (r.value == v % room <==> v >= 0 || v + room / 32 < 0)
    decreases room
  {
    hide At, Room32;
    AtFirst(code, pc, EncodeSigned(v));
    if -64 <= v < 64 {
      LastGroupUnsigned(v, room);
    } else {
      assert EncodeSigned(v)[1..] == EncodeSigned(v / 128);
      NextGroupUnsigned(v, room);
      UnsignedReadOfSigned(code, pc + 1, v / 128, room / 128);
    }
  }

  // ---------- What a reader returns and depends on ----------

  lemma {:induction false} ReadsInRange(code: seq<Byte>, pc: nat, room: nat)
    requires Room(room)
    ensures ReadUnsigned(code, pc, room).Done? ==> ReadUnsigned(code, pc, room).value < room
    ensures ReadSigned(code, pc, room).Done? ==> ReadSigned(code, pc, room).value < room
    decreases room
  {
    if pc < |code| && code[pc] >= 128 && room > 255 {
      ReadsInRange(code, pc + 1, room / 128);
    }
  }

  /** A reader looks only at the bytes it consumes: wherever they stand, it reads the same. */
  lemma {:induction false} ReadsInPlace(bytes: seq<Byte>, i: nat, code: seq<Byte>, pc: nat, room: nat)
    requires room >= 2 && i <= |bytes| && At(code, pc, bytes[i..])
    ensures var r, s := ReadUnsigned(bytes, i, room), ReadUnsigned(code, pc, room);
            r.Done? ==> s.Done? && s.value == r.value && s.next - pc == r.next - i
    ensures var r, s := ReadSigned(bytes, i, room), ReadSigned(code, pc, room);
            r.Done? ==> s.Done? && s.value == r.value && s.next - pc == r.next - i
    decreases room
  {
    if i < |bytes| {
      AtFirst(code, pc, bytes[i..]);
      assert bytes[i..][1..] == bytes[i + 1..];
      if bytes[i] >= 128 && room > 255 {
        ReadsInPlace(bytes, i + 1, code, pc + 1, room / 128);
      }
    }
  }
}
