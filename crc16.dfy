/** The reader's frame check: a reflected CRC-16 over the polynomial x^16+x^12+x^5+1
    (reflected constant 0x8408), register preset to 0xFFFF, no final XOR (the
    parameter set catalogued as CRC-16/MCRF4XX).

    The Python integer `crc` never leaves 0..0xFFFF (it starts there, XOR with a byte
    keeps it there, and a right shift XOR 0x8408 keeps it there), so a 16-bit vector
    is an exact model of it. */
module Crc16 {
  import opened Hex

  const Poly: bv16 := 0x8408
  const Preset: bv16 := 0xFFFF

  /** One turn of the inner loop: shift right, folding in the polynomial when the
      bit shifted out was 1. */
  function Shift(crc: bv16): bv16
  {
    if crc & 1 == 1 then (crc >> 1) ^ Poly else crc >> 1
  }

  /** `n` turns of the inner loop. */
  function ShiftN(crc: bv16, n: nat): bv16
  {
    if n == 0 then crc else Shift(ShiftN(crc, n - 1))
  }

  /** A byte as a 16-bit vector (zero-extended). */
  function Widen(b: Byte): bv16
  {
    (b as bv8) as bv16
  }

  /** One turn of the outer loop: XOR the byte in, then eight shifts. */
  function Update(crc: bv16, b: Byte): bv16
  {
    ShiftN(crc ^ Widen(b), 8)
  }

  /** The register after the bytes of `data`, taken left to right. */
  function Crc(data: seq<Byte>): bv16
  {
    if data == [] then Preset else Update(Crc(data[..|data| - 1]), data[|data| - 1])
  }

  lemma SplitRegister(c: bv16)
    ensures c as int == ((c & 0xFF) as bv8) as int + 256 * ((c >> 8) as bv8) as int
  {
  }

  /** `crc & 0xFF`, the CRC byte sent first. */
  function Low(crc: bv16): Byte
  {
    ((crc & 0xFF) as bv8) as int
  }

  /** `(crc >> 8) & 0xFF`, the CRC byte sent second. */
  function High(crc: bv16): Byte
  {
    ((crc >> 8) as bv8) as int
  }

  lemma LowPlusHigh(crc: bv16)
    ensures Low(crc) + 256 * High(crc) == crc as int
  {
    SplitRegister(crc);
  }

  lemma DivMod256(c: int, l: int, h: int)
    requires 0 <= l < 256 && c == l + 256 * h
    ensures l == c % 256 && h == c / 256
  {
  }

  /** The two CRC bytes are the register's value split base 256. */
  lemma LowHigh(crc: bv16)
    ensures Low(crc) == crc as int % 256
    ensures High(crc) == crc as int / 256
    ensures Low(crc) + 256 * High(crc) == crc as int
  {
    LowPlusHigh(crc);
    DivMod256(crc as int, Low(crc), High(crc));
  }

  /** `_calculate_checksum` (and its copies `calculate_crc16`, `calc_crc`): the nested
      loop over the bytes and the eight shifts, computing the specification `Crc`. */
  method Checksum(data: seq<Byte>) returns (crc: int)
    ensures crc == Crc(data) as int
    ensures 0 <= crc < 0x10000
  {
    var reg: bv16 := Preset;
    for i := 0 to |data|
      invariant reg == Crc(data[..i])
    {
      reg := reg ^ Widen(data[i]);
      ghost var start := reg;
      for k := 0 to 8
        invariant reg == ShiftN(start, k)
      {
        if reg & 1 == 1 {
          reg := (reg >> 1) ^ Poly;
        } else {
          reg := reg >> 1;
        }
      }
      assert data[..i + 1][..i] == data[..i];
    }
    assert data[..|data|] == data;
    crc := reg as int;
  }

  lemma CrcAppend(data: seq<Byte>, b: Byte)
    ensures Crc(data + [b]) == Update(Crc(data), b)
  {
    assert (data + [b])[..|data|] == data;
  }

  /** Two more bytes after `data`: the register after the pair. */
  lemma CrcAppend2(data: seq<Byte>, x: Byte, y: Byte)
    ensures Crc(data + [x, y]) == Update(Update(Crc(data), x), y)
  {
    CrcAppend(data, x);
    assert data + [x, y] == (data + [x]) + [y];
    CrcAppend(data + [x], y);
  }

  /** The eight inner-loop turns written out. */
  lemma ShiftEight(r: bv16)
    ensures ShiftN(r, 8) == Shift(Shift(Shift(Shift(Shift(Shift(Shift(Shift(r))))))))
  {
    assert ShiftN(r, 1) == Shift(r);
    assert ShiftN(r, 2) == Shift(Shift(r));
    assert ShiftN(r, 3) == Shift(Shift(Shift(r)));
    assert ShiftN(r, 4) == Shift(Shift(Shift(Shift(r))));
    assert ShiftN(r, 5) == Shift(Shift(Shift(Shift(Shift(r)))));
    assert ShiftN(r, 6) == Shift(Shift(Shift(Shift(Shift(Shift(r))))));
    assert ShiftN(r, 7) == Shift(Shift(Shift(Shift(Shift(Shift(Shift(r)))))));
  }

  lemma RoundBv8(x: bv8)
    ensures (x as int) as bv8 == x
  {
  }

  lemma RoundInt(b: Byte)
    ensures (b as bv8) as int == b
  {
    assert b % 256 == b;
  }

  lemma WidenLow(c: bv16)
    ensures Widen(Low(c)) == c & 0xFF
  {
    RoundBv8((c & 0xFF) as bv8);
    assert ((c & 0xFF) as bv8) as bv16 == c & 0xFF;
  }

  lemma WidenHigh(c: bv16)
    ensures Widen(High(c)) == c >> 8
  {
    RoundBv8((c >> 8) as bv8);
    assert ((c >> 8) as bv8) as bv16 == c >> 8;
  }

  lemma WidenInjective(b1: Byte, b2: Byte)
    requires Widen(b1) == Widen(b2)
    ensures b1 == b2
  {
    assert b1 as bv8 == b2 as bv8;
    RoundInt(b1);
    RoundInt(b2);
  }

  lemma ShiftEightClearLow(r: bv16)
    requires r & 0xFF == 0
    ensures ShiftN(r, 8) == r >> 8
  {
    ShiftEight(r);
  }

  lemma ClearLow(c: bv16)
    ensures (c ^ (c & 0xFF)) & 0xFF == 0
    ensures (c ^ (c & 0xFF)) >> 8 == c >> 8
  {
  }

  lemma XorCancel(a1: bv16, x1: bv16, a2: bv16, x2: bv16)
    requires a1 ^ x1 == a2 ^ x2
    ensures a1 == a2 ==> x1 == x2
    ensures x1 == x2 ==> a1 == a2
  {
  }

  lemma XorSelf(x: bv16)
    ensures x ^ x == 0
  {
  }

  lemma SplitJoin(a: bv16, b: bv16)
    requires a & 0xFF == b & 0xFF && a >> 8 == b >> 8
    ensures a == b
  {
  }

  /** A register is determined by its two transmitted bytes. */
  lemma BytesDetermineRegister(a: bv16, b: bv16)
    requires Low(a) == Low(b) && High(a) == High(b)
    ensures a == b
  {
    WidenLow(a);
    WidenLow(b);
    WidenHigh(a);
    WidenHigh(b);
    SplitJoin(a, b);
  }

  /** Two registers that differ differ in a transmitted byte. */
  lemma DistinctRegistersDistinctBytes(a: bv16, b: bv16)
    ensures a != b ==> Low(a) != Low(b) || High(a) != High(b)
  {
    if Low(a) == Low(b) && High(a) == High(b) {
      BytesDetermineRegister(a, b);
    }
  }

  /** The receiver's comparison `payload[-2] | (payload[-1] << 8) == crc` holds exactly
      when the two bytes are the register's low and high byte. */
  lemma MatchesBytes(c: bv16, lo: Byte, hi: Byte)
    ensures c as int == lo + 256 * hi <==> Low(c) == lo && High(c) == hi
  {
    LowHigh(c);
    if c as int == lo + 256 * hi {
      DivMod256(c as int, lo, hi);
    }
  }

  /** Appending a register's own low and high byte drives it to zero. */
  lemma UpdateOwnBytes(c: bv16)
    ensures Update(Update(c, Low(c)), High(c)) == 0
  {
    var r := c ^ (c & 0xFF);
    calc {
      Update(c, Low(c));
      ShiftN(c ^ Widen(Low(c)), 8);
      { WidenLow(c); }
      ShiftN(r, 8);
      { ClearLow(c); ShiftEightClearLow(r); }
      r >> 8;
      { ClearLow(c); }
      c >> 8;
    }
    calc {
      Update(c >> 8, High(c));
      ShiftN((c >> 8) ^ Widen(High(c)), 8);
      { WidenHigh(c); XorSelf(c >> 8); }
      ShiftN(0, 8);
      { ShiftEightClearLow(0); }
      0;
    }
  }

  /** With no final XOR, running the CRC over a message followed by its own CRC
      (low byte first, as every encoder here sends it) leaves the register at 0. */
  lemma Residue(data: seq<Byte>)
    ensures Crc(data + [Low(Crc(data)), High(Crc(data))]) == 0
  {
    CrcAppend2(data, Low(Crc(data)), High(Crc(data)));
    UpdateOwnBytes(Crc(data));
  }

  lemma ShiftInjective(x: bv16, y: bv16)
    requires Shift(x) == Shift(y)
    ensures x == y
  {
  }

  lemma {:induction false} ShiftNInjective(x: bv16, y: bv16, n: nat)
    requires ShiftN(x, n) == ShiftN(y, n)
    ensures x == y
  {
    if n > 0 {
      ShiftInjective(ShiftN(x, n - 1), ShiftN(y, n - 1));
      ShiftNInjective(x, y, n - 1);
    }
  }

  lemma MixInjective(c1: bv16, x1: bv16, c2: bv16, x2: bv16)
    requires ShiftN(c1 ^ x1, 8) == ShiftN(c2 ^ x2, 8)
    ensures c1 == c2 ==> x1 == x2
    ensures x1 == x2 ==> c1 == c2
  {
    ShiftNInjective(c1 ^ x1, c2 ^ x2, 8);
    XorCancel(c1, x1, c2, x2);
  }

  /** One step of the CRC forgets nothing: for a fixed byte it is one-to-one in the
      register, and for a fixed register it is one-to-one in the byte. */
  lemma UpdateInjective(c1: bv16, b1: Byte, c2: bv16, b2: Byte)
    requires Update(c1, b1) == Update(c2, b2)
    requires c1 == c2 || b1 == b2
    ensures c1 == c2 && b1 == b2
  {
    MixInjective(c1, Widen(b1), c2, Widen(b2));
    if c1 == c2 {
      WidenInjective(b1, b2);
    }
  }

  /** Changing any one byte of a message, keeping its length, changes its CRC. */
  lemma {:induction false} SingleByteChangeDetected(data: seq<Byte>, i: nat, v: Byte)
    requires i < |data| && data[i] != v
    ensures Crc(data[i := v]) != Crc(data)
  {
    var n := |data|;
    var changed := data[i := v];
    if i == n - 1 {
      assert changed[..n - 1] == data[..n - 1];
      if Crc(changed) == Crc(data) {
        UpdateInjective(Crc(data[..n - 1]), v, Crc(data[..n - 1]), data[n - 1]);
      }
    } else {
      assert changed[..n - 1] == data[..n - 1][i := v];
      SingleByteChangeDetected(data[..n - 1], i, v);
      if Crc(changed) == Crc(data) {
        UpdateInjective(Crc(changed[..n - 1]), changed[n - 1], Crc(data[..n - 1]), data[n - 1]);
      }
    }
  }

  /** The outer-loop turns over the ASCII digits "123456789", from the preset. */
  lemma CheckSteps()
    ensures Update(0xFFFF, 0x31) == 0x2F8D && Update(0x2F8D, 0x32) == 0x4D53 && Update(0x4D53, 0x33) == 0x634B
    ensures Update(0x634B, 0x34) == 0x8B13 && Update(0x8B13, 0x35) == 0x44BF && Update(0x44BF, 0x36) == 0x198D
    ensures Update(0x198D, 0x37) == 0x1AC8 && Update(0x1AC8, 0x38) == 0xF795 && Update(0xF795, 0x39) == 0x6F91
  {
  }

  /** Three more bytes after `data`: the register after the three. */
  lemma CrcAppend3(data: seq<Byte>, x: Byte, y: Byte, z: Byte)
    ensures Crc(data + [x, y, z]) == Update(Update(Update(Crc(data), x), y), z)
  {
    CrcAppend2(data, x, y);
    assert data + [x, y, z] == (data + [x, y]) + [z];
    CrcAppend(data + [x, y], z);
  }

  /** The catalogue check value of CRC-16/MCRF4XX: the ASCII digits "123456789" give 0x6F91. */
  lemma CheckValue()
    ensures Crc([0x31, 0x32, 0x33, 0x34, 0x35, 0x36, 0x37, 0x38, 0x39]) == 0x6F91
  {
    var none: seq<Byte> := [];
    var m3: seq<Byte> := [0x31, 0x32, 0x33];
    var m6: seq<Byte> := [0x31, 0x32, 0x33, 0x34, 0x35, 0x36];
    CheckSteps();
    CrcAppend3(none, 0x31, 0x32, 0x33);
    assert none + [0x31, 0x32, 0x33] == m3;
    CrcAppend3(m3, 0x34, 0x35, 0x36);
    assert m3 + [0x34, 0x35, 0x36] == m6;
    CrcAppend3(m6, 0x37, 0x38, 0x39);
    assert m6 + [0x37, 0x38, 0x39] == [0x31, 0x32, 0x33, 0x34, 0x35, 0x36, 0x37, 0x38, 0x39];
  }
}
