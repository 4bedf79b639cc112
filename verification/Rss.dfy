/** Receive-side scaling as src/nty_addr.c:379-470 computes it in software: the Toeplitz hash of a connection under a
    fixed key, and the core its packets are steered to. */
module Rss {
  const KEY_CACHE_LEN := 96

  /** The key: forty bytes, all the same. */
  function KeyByte(i: nat): bv8
    requires i < 40
  {
    0x05
  }

  /** The bit of the key at position `idx`, most significant first. */
  function KeyBit(idx: nat): bv32
    requires idx < 320
  {
    if (KeyByte(idx / 8) << (idx % 8)) & 0x80 != 0 then 1 else 0
  }

  /** The 32 bits of the key from position `i` on; only `i` modulo 8 matters. */
  function Window(i: nat): bv32 {
    match i % 8
    case 0 => 0x0505_0505
    case 1 => 0x0A0A_0A0A
    case 2 => 0x1414_1414
    case 3 => 0x2828_2828
    case 4 => 0x5050_5050
    case 5 => 0xA0A0_A0A0
    case 6 => 0x4141_4141
    case _ => 0x8282_8282
  }

  lemma WindowStep(i: nat)
    requires i < 288
    ensures (Window(i) << 1) | KeyBit(i + 32) == Window(i + 1)
  {
  }

  /** BuildKeyCache: a table of period 8. */
  method BuildKeyCache(cache: array<bv32>)
    requires cache.Length <= 288
    modifies cache
    ensures forall i :: 0 <= i < cache.Length ==> cache[i] == Window(i)
    ensures forall i :: 0 <= i < cache.Length - 8 ==> cache[i + 8] == cache[i]
  {
    hide KeyBit, Window;
    var result := First();
    var idx := 32;
    for i := 0 to cache.Length
      invariant idx == i + 32 && result == Window(i)
      invariant forall j :: 0 <= j < i ==> cache[j] == Window(j)
    {
      WindowStep(i);
      cache[i] := result;
      var bit := KeyBit(idx);
      result := (result << 1) | bit;
      idx := idx + 1;
    }
    forall i | 0 <= i < cache.Length - 8 ensures Window(i + 8) == Window(i) { Period(i); }
  }

  function First(): (r: bv32)
    ensures r == Window(0)
  {
    (KeyByte(0) as bv32 << 24) | (KeyByte(1) as bv32 << 16) | (KeyByte(2) as bv32 << 8) | KeyByte(3) as bv32
  }

  lemma Period(i: nat)
    ensures Window(i + 8) == Window(i)
  {
  }

  // ---------------------------------------------------------------- the hash

  /** The operations of the hash on words, named so that proofs about its structure need not look inside. */
  function Xor(a: bv32, b: bv32): bv32 { a ^ b }

  function Top32(word: bv32, key: bv32): bv32 { if word & 0x8000_0000 != 0 then key else 0 }

  function Top16(word: bv16, key: bv32): bv32 { if word & 0x8000 != 0 then key else 0 }

  function Shl32(word: bv32): bv32 { word << 1 }

  function Shl16(word: bv16): bv16 { word << 1 }

  lemma XorAssoc(a: bv32, b: bv32, c: bv32)
    ensures Xor(Xor(a, b), c) == Xor(a, Xor(b, c))
  {
  }

  lemma XorZero(a: bv32)
    ensures Xor(a, 0) == a && Xor(0, a) == a
  {
  }

  lemma XorSwap(a: bv32, b: bv32, c: bv32, d: bv32)
    ensures Xor(Xor(Xor(a, b), c), d) == Xor(Xor(Xor(b, a), d), c)
  {
  }

  /** What the bits of an address contribute, from bit `i` on, if its most significant bit meets key bit `base`. */
  ghost function Mix32(word: bv32, base: nat, i: nat): bv32
    requires i <= 32
    decreases 32 - i
  {
    if i == 32 then 0 else Xor(Top32(word, Window(base + i)), Mix32(Shl32(word), base, i + 1))
  }

  ghost function Mix16(word: bv16, base: nat, i: nat): bv32
    requires i <= 16
    decreases 16 - i
  {
    if i == 16 then 0 else Xor(Top16(word, Window(base + i)), Mix16(Shl16(word), base, i + 1))
  }

  /** Shifting the key by a whole number of bytes does not matter. */
  lemma {:induction false} Mix32Base(word: bv32, base: nat, i: nat)
    requires i <= 32
    ensures Mix32(word, base + 8, i) == Mix32(word, base, i)
    decreases 32 - i
  {
    hide Window, Xor, Top32, Shl32;
    if i < 32 {
      Period(base + i);
      Mix32Base(Shl32(word), base, i + 1);
    }
  }

  lemma {:induction false} Mix16Base(word: bv16, base: nat, i: nat)
    requires i <= 16
    ensures Mix16(word, base + 8, i) == Mix16(word, base, i)
    decreases 16 - i
  {
    hide Window, Xor, Top16, Shl16;
    if i < 16 {
      Period(base + i);
      Mix16Base(Shl16(word), base, i + 1);
    }
  }

  method HashAddress(res0: bv32, addr: bv32, base: nat, cache: array<bv32>) returns (res: bv32)
    requires base + 32 <= cache.Length && forall i :: 0 <= i < cache.Length ==> cache[i] == Window(i)
    ensures res == Xor(res0, Mix32(addr, base, 0))
  {
    hide Window, Xor, Top32, Shl32;
    res := res0;
    var word := addr;
    for i := 0 to 32
      invariant Xor(res, Mix32(word, base, i)) == Xor(res0, Mix32(addr, base, 0))
    {
      var bit := Top32(word, cache[base + i]);
      XorAssoc(res, bit, Mix32(Shl32(word), base, i + 1));
      res := Xor(res, bit);
      word := Shl32(word);
    }
    XorZero(res);
  }

  method HashPort(res0: bv32, port: bv16, base: nat, cache: array<bv32>) returns (res: bv32)
    requires base + 16 <= cache.Length && forall i :: 0 <= i < cache.Length ==> cache[i] == Window(i)
    ensures res == Xor(res0, Mix16(port, base, 0))
  {
    hide Window, Xor, Top16, Shl16;
    res := res0;
    var word := port;
    for i := 0 to 16
      invariant Xor(res, Mix16(word, base, i)) == Xor(res0, Mix16(port, base, 0))
    {
      var bit := Top16(word, cache[base + i]);
      XorAssoc(res, bit, Mix16(Shl16(word), base, i + 1));
      res := Xor(res, bit);
      word := Shl16(word);
    }
    XorZero(res);
  }

  // ---------------------------------------------------------------- what the hash is

  /** The bits of a number, most significant first. */
  function Bits32(word: bv32, n: nat): (b: seq<bool>)
    ensures |b| == n
    decreases n
  {
    if n == 0 then [] else [word & 0x8000_0000 != 0] + Bits32(word << 1, n - 1)
  }

  function Bits16(word: bv16, n: nat): (b: seq<bool>)
    ensures |b| == n
    decreases n
  {
    if n == 0 then [] else [word & 0x8000 != 0] + Bits16(word << 1, n - 1)
  }

  /** The Toeplitz hash: for every bit of the input that is set, the 32 bits of the key from the bit's position on are
      added, without carry. */
  function Toeplitz(input: seq<bool>, at: nat): bv32 {
    if input == [] then 0 else Xor(if input[0] then Window(at) else 0, Toeplitz(input[1..], at + 1))
  }

  /** The input of the hash: both addresses and both ports. */
  function Tuple(sip: bv32, dip: bv32, sp: bv16, dp: bv16): seq<bool> {
    Bits32(sip, 32) + (Bits32(dip, 32) + (Bits16(sp, 16) + Bits16(dp, 16)))
  }

  lemma {:induction false} Mix32Bits(word: bv32, base: nat, i: nat)
    requires i <= 32
    ensures Mix32(word, base, i) == Toeplitz(Bits32(word, 32 - i), base + i)
    decreases 32 - i
  {
    hide Window;
    if i < 32 {
      Mix32Bits(Shl32(word), base, i + 1);
      assert Bits32(word, 32 - i)[1..] == Bits32(word << 1, 32 - i - 1);
    }
  }

  lemma {:induction false} Mix16Bits(word: bv16, base: nat, i: nat)
    requires i <= 16
    ensures Mix16(word, base, i) == Toeplitz(Bits16(word, 16 - i), base + i)
    decreases 16 - i
  {
    hide Window;
    if i < 16 {
      Mix16Bits(Shl16(word), base, i + 1);
      assert Bits16(word, 16 - i)[1..] == Bits16(word << 1, 16 - i - 1);
    }
  }

  lemma {:induction false} ToeplitzJoin(a: seq<bool>, b: seq<bool>, at: nat)
    ensures Toeplitz(a + b, at) == Xor(Toeplitz(a, at), Toeplitz(b, at + |a|))
  {
    hide Window, Xor;
    if a == [] {
      assert a + b == b;
      XorZero(Toeplitz(b, at));
    } else {
      assert (a + b)[1..] == a[1..] + b;
      ToeplitzJoin(a[1..], b, at + 1);
      XorAssoc(if a[0] then Window(at) else 0, Toeplitz(a[1..], at + 1), Toeplitz(b, at + |a|));
    }
  }

  /** The four loops of the code compute the Toeplitz hash of the tuple. */
  lemma HashIsToeplitz(sip: bv32, dip: bv32, sp: bv16, dp: bv16)
    ensures Hash(sip, dip, sp, dp) == Toeplitz(Tuple(sip, dip, sp, dp), 0)
  {
    hide Mix32, Mix16, Toeplitz, Xor, Bits32, Bits16;
    var s, d, p, q := Bits32(sip, 32), Bits32(dip, 32), Bits16(sp, 16), Bits16(dp, 16);
    Mix32Bits(sip, 0, 0);
    Mix32Bits(dip, 32, 0);
    Mix16Bits(sp, 64, 0);
    Mix16Bits(dp, 80, 0);
    ToeplitzJoin(s, d + (p + q), 0);
    ToeplitzJoin(d, p + q, 32);
    ToeplitzJoin(p, q, 64);
    XorAssoc(Toeplitz(s, 0), Toeplitz(d, 32), Toeplitz(p, 64));
    XorAssoc(Xor(Toeplitz(s, 0), Toeplitz(d, 32)), Toeplitz(p, 64), Toeplitz(q, 80));
    XorAssoc(Toeplitz(s, 0), Toeplitz(d, 32), Xor(Toeplitz(p, 64), Toeplitz(q, 80)));
  }

  /** The hash of a connection, by the positions its endpoints have in the input of the hash. */
  ghost function Hash(sip: bv32, dip: bv32, sp: bv16, dp: bv16): bv32 {
    Xor(Xor(Xor(Mix32(sip, 0, 0), Mix32(dip, 32, 0)), Mix16(sp, 64, 0)), Mix16(dp, 80, 0))
  }

  /** Both directions of a connection hash alike. */
  lemma HashSymmetric(sip: bv32, dip: bv32, sp: bv16, dp: bv16)
    ensures Hash(sip, dip, sp, dp) == Hash(dip, sip, dp, sp)
  {
    hide Mix32, Mix16, Xor;
    AddressBase(sip);
    AddressBase(dip);
    PortBase(sp);
    PortBase(dp);
    XorSwap(Mix32(sip, 0, 0), Mix32(dip, 0, 0), Mix16(sp, 64, 0), Mix16(dp, 64, 0));
  }

  lemma AddressBase(word: bv32)
    ensures Mix32(word, 32, 0) == Mix32(word, 0, 0)
  {
    hide Mix32;
    Mix32Base(word, 0, 0);
    Mix32Base(word, 8, 0);
    Mix32Base(word, 16, 0);
    Mix32Base(word, 24, 0);
  }

  lemma PortBase(word: bv16)
    ensures Mix16(word, 80, 0) == Mix16(word, 64, 0)
  {
    hide Mix16;
    Mix16Base(word, 64, 0);
    Mix16Base(word, 72, 0);
  }

  /** GetRSSHash. */
  method GetRSSHash(sip: bv32, dip: bv32, sp: bv16, dp: bv16) returns (res: bv32)
    ensures res == Toeplitz(Tuple(sip, dip, sp, dp), 0) == Toeplitz(Tuple(dip, sip, dp, sp), 0)
    ensures res == Hash(sip, dip, sp, dp)
  {
    hide Mix32, Mix16, Window, Xor, Toeplitz, Tuple;
    HashIsToeplitz(sip, dip, sp, dp);
    HashIsToeplitz(dip, sip, dp, sp);
    var cache := new bv32[KEY_CACHE_LEN];
    BuildKeyCache(cache);
    res := HashAddress(0, sip, 0, cache);
    XorZero(Mix32(sip, 0, 0));
    res := HashAddress(res, dip, 32, cache);
    res := HashPort(res, sp, 64, cache);
    res := HashPort(res, dp, 80, cache);
    HashSymmetric(sip, dip, sp, dp);
  }

  // ---------------------------------------------------------------- the core

  /** The offset into the redirection table: its words are byte-swapped, so the four entries of one come in reverse. */
  function Swapped(masked: bv32): bv32
    requires masked < 128
  {
    masked + (if masked & 3 == 0 then 3 else if masked & 3 == 1 then 1 else if masked & 3 == 2 then 0xFFFF_FFFF
        else 0xFFFF_FFFD)
  }

  /** The unsigned wrap-around of the offsets never shows: the swap permutes the table, and undoes itself. */
  lemma SwappedReverses(masked: bv32)
    requires masked < 128
    ensures Swapped(masked) == masked ^ 3 && Swapped(masked) < 128 && Swapped(masked ^ 3) == masked
  {
  }

  function Masked(hash: bv32): (m: bv32)
    ensures m < 128 && m == hash % 128
  {
    hash & 0x7F
  }

  /** The core: the last seven bits of the hash, of which the endian check turns the last two, modulo the queues. */
  ghost function Core(sip: bv32, dip: bv32, sp: bv16, dp: bv16, queues: int, endianCheck: bool): int
    requires queues > 0
  {
    var low := Toeplitz(Tuple(sip, dip, sp, dp), 0) % 128;
    (if endianCheck then low ^ 3 else low) as int % queues
  }

  /** GetRSSCPUCore: both directions of a connection meet on the same core. */
  method GetRSSCPUCore(sip: bv32, dip: bv32, sp: bv16, dp: bv16, queues: int, endianCheck: bool) returns (core: int)
    requires queues > 0
    ensures core == Core(sip, dip, sp, dp, queues, endianCheck) == Core(dip, sip, dp, sp, queues, endianCheck)
    ensures 0 <= core < queues
  {
    hide Toeplitz, Tuple, Hash, Swapped, Masked;
    var hash := GetRSSHash(sip, dip, sp, dp);
    var masked := Masked(hash);
    if endianCheck {
      SwappedReverses(masked);
      masked := Swapped(masked);
    }
    core := masked as int % queues;
    CoreSymmetric(sip, dip, sp, dp, queues, endianCheck);
  }

  lemma CoreSymmetric(sip: bv32, dip: bv32, sp: bv16, dp: bv16, queues: int, endianCheck: bool)
    requires queues > 0
    ensures Core(sip, dip, sp, dp, queues, endianCheck) == Core(dip, sip, dp, sp, queues, endianCheck)
  {
    hide Toeplitz, Tuple, Hash;
    HashSymmetric(sip, dip, sp, dp);
    HashIsToeplitz(sip, dip, sp, dp);
    HashIsToeplitz(dip, sip, dp, sp);
  }
}
