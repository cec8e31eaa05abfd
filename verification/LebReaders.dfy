/** The LEB128 readers as the loops they are (interp.rs and wasm.rs): an accumulator and a
    shift. Each group of seven bits lands where the recursive definition puts it. */
module LebReaders {
  import opened Words
  import opened Leb128

  /** The shift, its weight 2^shift, and the room above it, in a word of `limit` values. */
  ghost predicate Level(limit: nat, shift: nat, weight: nat, room: nat) {
    if limit == U32_LIMIT then Level32(shift, weight, room) else limit == U64_LIMIT && Level64(shift, weight, room)
  }

  ghost predicate Level32(shift: nat, weight: nat, room: nat) {
    || (shift == 0 && weight == 1 && room == 0x1_0000_0000)
    || (shift == 7 && weight == 0x80 && room == 0x200_0000)
    || (shift == 14 && weight == 0x4000 && room == 0x4_0000)
    || (shift == 21 && weight == 0x20_0000 && room == 0x800)
    || (shift == 28 && weight == 0x1000_0000 && room == 0x10)
  }

  ghost predicate Level64(shift: nat, weight: nat, room: nat) {
    || (shift == 0 && weight == 1 && room == 0x1_0000_0000_0000_0000)
    || (shift == 7 && weight == 0x80 && room == 0x200_0000_0000_0000)
    || (shift == 14 && weight == 0x4000 && room == 0x4_0000_0000_0000)
    || (shift == 21 && weight == 0x20_0000 && room == 0x800_0000_0000)
    || (shift == 28 && weight == 0x1000_0000 && room == 0x10_0000_0000)
    || (shift == 35 && weight == 0x8_0000_0000 && room == 0x2000_0000)
    || (shift == 42 && weight == 0x400_0000_0000 && room == 0x40_0000)
    || (shift == 49 && weight == 0x2_0000_0000_0000 && room == 0x8000)
    || (shift == 56 && weight == 0x100_0000_0000_0000 && room == 0x100)
    || (shift == 63 && weight == 0x8000_0000_0000_0000 && room == 2)
  }

  lemma NextLevel(limit: nat, shift: nat, weight: nat, room: nat, g: nat)
    requires Level(limit, shift, weight, room) && g < 128
    ensures room >= 2 && (g * weight) % limit == (g % room) * weight
    ensures room <= 255 <==> shift + 7 >= (if limit == U32_LIMIT then 35 else 70)
    ensures room > 255 ==> Level(limit, shift + 7, weight * 128, room / 128) && g % room == g
    ensures shift + 7 < (if limit == U32_LIMIT then 32 else 64) <==> room > 128
    ensures weight * room == limit
  {
    if room == 16 {
      Top32(g);
    } else if room == 2 {
      Top64(g);
    } else {
      assert g * weight < limit;
    }
  }

  lemma FirstLevels(r: Read)
    ensures Level(U32_LIMIT, 0, 1, U32_LIMIT) && Level(U64_LIMIT, 0, 1, U64_LIMIT) && Above(0, 1, r) == r
  {
  }

  lemma Top32(g: nat)
    ensures (g * 0x1000_0000) % U32_LIMIT == (g % 16) * 0x1000_0000
  {
    assert g * 0x1000_0000 == g / 16 * U32_LIMIT + g % 16 * 0x1000_0000;
  }

  lemma Top64(g: nat)
    ensures (g * 0x8000_0000_0000_0000) % U64_LIMIT == (g % 2) * 0x8000_0000_0000_0000
  {
    assert g * 0x8000_0000_0000_0000 == g / 2 * U64_LIMIT + g % 2 * 0x8000_0000_0000_0000;
  }

  /** What remains to be read, put above what has been read. */
  function Above(result: nat, weight: nat, rest: Read): Read {
    match rest case Short => Short case Done(v, next) => Done(result + weight * v, next)
  }

  /** One turn of the unsigned loop. */
  lemma UnsignedTurn(code: seq<Byte>, p: nat, result: nat, limit: nat, shift: nat, weight: nat, room: nat)
    requires Level(limit, shift, weight, room) && room >= 2 && p < |code|
    ensures var g := code[p] % 128;
            var before := Above(result, weight, ReadUnsigned(code, p, room));
            var after := result + (g * weight) % limit;
            && (code[p] < 128 ==> before == Done(after, p + 1))
            && (code[p] >= 128 && Stops(limit, shift + 7) ==> before == Short)
            && (code[p] >= 128 && !Stops(limit, shift + 7) ==>
                  && 256 <= room && Level(limit, shift + 7, weight * 128, room / 128)
                  && before == Above(after, weight * 128, ReadUnsigned(code, p + 1, room / 128)))
  {
    hide Level;
    NextLevel(limit, shift, weight, room, code[p] % 128);
    if room > 255 { Regroup(result, weight, code[p] % 128, ReadUnsigned(code, p + 1, room / 128)); }
  }

  /** One turn of the signed loop; the last group is extended with ones from its top bit. */
  lemma SignedTurn(code: seq<Byte>, p: nat, result: nat, limit: nat, shift: nat, weight: nat, room: nat)
    requires Level(limit, shift, weight, room) && room >= 2 && p < |code|
    ensures var g := code[p] % 128;
            var before := Above(result, weight, ReadSigned(code, p, room));
            var after := result + (g * weight) % limit;
            && (code[p] < 128 ==>
                before == Done(if Extends(limit, shift + 7) && g >= 64 then after + (limit - weight * 128)
                    else after, p + 1))
            && (code[p] >= 128 && Stops(limit, shift + 7) ==> before == Short)
            && (code[p] >= 128 && !Stops(limit, shift + 7) ==>
                  && 256 <= room && Level(limit, shift + 7, weight * 128, room / 128)
                  && before == Above(after, weight * 128, ReadSigned(code, p + 1, room / 128)))
  {
    hide Level;
    var g := code[p] % 128;
    NextLevel(limit, shift, weight, room, g);
    if room > 255 { Regroup(result, weight, g, ReadSigned(code, p + 1, room / 128)); }
    if room > 128 { Extended(weight, g, room); }
  }

  predicate Stops(limit: nat, shift: nat) { shift >= if limit == U32_LIMIT then 35 else 70 }
  predicate Extends(limit: nat, shift: nat) { shift < if limit == U32_LIMIT then 32 else 64 }

  /** `read_u32_leb128`, in the interpreter and in the parser. */
  method DecodeU32(code: seq<Byte>, pc: nat) returns (r: Read)
    ensures r == ReadU32(code, pc)
  {
    hide Level, ReadUnsigned, Above;
    FirstLevels(ReadU32(code, pc));
    var result: nat, shift: nat, weight: nat, p: nat := 0, 0, 1, pc;
    ghost var room: nat := U32_LIMIT;
    while true
      invariant Level(U32_LIMIT, shift, weight, room) && room >= 2
      invariant ReadU32(code, pc) == Above(result, weight, ReadUnsigned(code, p, room))
      decreases room
    {
      if p >= |code| { Ends(code, p, result, weight, room); return Short; }
      UnsignedTurn(code, p, result, U32_LIMIT, shift, weight, room);
      var byte := code[p];
      p := p + 1;
      result := result + (byte % 128 * weight) % U32_LIMIT;
      if byte < 128 { return Done(result, p); }
      shift, weight := shift + 7, weight * 128;
      if shift >= 35 { return Short; }
      room := room / 128;
    }
  }

  /** `read_i32_leb128` and `read_i64_leb128`, as the unsigned word with the same bits. */
  method DecodeSigned(code: seq<Byte>, pc: nat, limit: nat) returns (r: Read)
    requires limit == U32_LIMIT || limit == U64_LIMIT
    ensures r == ReadSigned(code, pc, limit)
  {
    hide Level, ReadSigned, Above;
    FirstLevels(ReadSigned(code, pc, limit));
    var result: nat, shift: nat, weight: nat, p: nat := 0, 0, 1, pc;
    ghost var room: nat := limit;
    while true
      invariant Level(limit, shift, weight, room) && room >= 2 && weight * room == limit
      invariant ReadSigned(code, pc, limit) == Above(result, weight, ReadSigned(code, p, room))
      decreases room
    {
      if p >= |code| { Ends(code, p, result, weight, room); return Short; }
      SignedTurn(code, p, result, limit, shift, weight, room);
      NextLevel(limit, shift, weight, room, code[p] % 128);
      var byte := code[p];
      p := p + 1;
      result := result + (byte % 128 * weight) % limit;
      shift, weight := shift + 7, weight * 128;
      if byte < 128 {
        // Bits from `shift` up are all ones.
        if shift < (if limit == U32_LIMIT then 32 else 64) && byte >= 64 { result := result + (limit - weight); }
        return Done(result, p);
      }
      if shift >= (if limit == U32_LIMIT then 35 else 70) { return Short; }
      room := room / 128;
      NextLevel(limit, shift, weight, room, 0);
    }
  }

  lemma Ends(code: seq<Byte>, p: nat, result: nat, weight: nat, room: nat)
    requires p >= |code| && room >= 2
    ensures Above(result, weight, ReadUnsigned(code, p, room)) == Short
            == Above(result, weight, ReadSigned(code, p, room))
  {
  }

  lemma Regroup(result: nat, weight: nat, g: nat, rest: Read)
    ensures Above(result, weight, match rest case Short => Short case Done(v, n) => Done(g + 128 * v, n))
            == Above(result + g * weight, weight * 128, rest)
  {
    if rest.Done? { Distribute(weight, g, rest.value); }
  }

  lemma Distribute(w: nat, g: nat, v: nat)
    ensures w * (g + 128 * v) == g * w + w * 128 * v
  {
    assert w * (128 * v) == w * 128 * v;
  }

  lemma Extended(weight: nat, g: nat, room: nat)
    requires g < 128 && room > 128
    ensures g + room - 128 >= 0 && weight * (g + room - 128) == g * weight + (weight * room - weight * 128)
  {
  }
}
