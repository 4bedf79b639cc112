/** The Internet checksum as src/nty_tcp.c:148-180 and src/nty_eth.c:66-88 compute it, on a little-endian host. */
module Checksum {
  import opened SeqArith

  const PROTO_TCP := 6

  /** Two bytes of memory as a uint16_t. */
  function Word(first: u8, second: u8): u16 { first + 256 * second }

  function Htons(x: u16): u16 { Word(x / 256, x % 256) }

  /** The sum of the words of a buffer, a last odd byte padded with zero. */
  function Words(b: seq<u8>): nat {
    if |b| == 0 then 0 else if |b| == 1 then b[0] else Word(b[0], b[1]) + Words(b[2..])
  }

  lemma {:induction false} WordsBound(b: seq<u8>)
    ensures 2 * Words(b) <= 65535 * (|b| + 1)
  {
    if |b| > 1 { WordsBound(b[2..]); }
  }

  /** Overwriting one word changes the sum by the difference. */
  lemma {:induction false} WordsStore(b: seq<u8>, at: nat, x: u16)
    requires at % 2 == 0 && at + 1 < |b|
    ensures Words(Store(b, at, x)) == Words(b) - Word(b[at], b[at + 1]) + x
  {
    var c := Store(b, at, x);
    if at == 0 {
      assert c[2..] == b[2..];
    } else {
      assert c[2..] == Store(b[2..], at - 2, x);
      WordsStore(b[2..], at - 2, x);
    }
  }

  /** Writing a uint16_t into memory. */
  function Store(b: seq<u8>, at: nat, x: u16): (c: seq<u8>)
    requires at + 1 < |b|
    ensures |c| == |b|
  {
    b[at := x % 256][at + 1 := x / 256]
  }

  /** A number in network byte order, as it lies in the memory of a little-endian host. */
  function Bytes32(x: u32): (b: seq<u8>)
    ensures |b| == 4
  {
    [x % 256, x / 256 % 256, x / 256 / 256 % 256, x / 256 / 256 / 256]
  }

  /** The pseudo-header of RFC 9293, section 3.1: both addresses, zero, the protocol and the length. */
  function PseudoHeader(saddr: u32, daddr: u32, len: u16): (b: seq<u8>)
    ensures |b| == 12
  {
    Bytes32(saddr) + Bytes32(daddr) + [0, 6, len / 256, len % 256]
  }

  /** The sum of the two halves of an address. */
  function Halves(addr: u32): nat { addr % 65536 + addr / 65536 }

  lemma {:induction false} WordsJoin(a: seq<u8>, b: seq<u8>)
    requires |a| % 2 == 0
    ensures Words(a + b) == Words(a) + Words(b)
  {
    if a == [] {
      assert a + b == b;
    } else {
      assert (a + b)[2..] == a[2..] + b;
      WordsJoin(a[2..], b);
    }
  }

  lemma Words4(b: seq<u8>)
    requires |b| == 4
    ensures Words(b) == Word(b[0], b[1]) + Word(b[2], b[3])
  {
    var rest := b[2..];
    assert rest == [b[2], b[3]] && rest[2..] == [];
    assert Words(b) == Word(b[0], b[1]) + Words(rest);
    assert Words(rest) == Word(b[2], b[3]) + Words(rest[2..]);
  }

  lemma HalvesAreWords(addr: u32)
    ensures Words(Bytes32(addr)) == Halves(addr)
  {
    Words4(Bytes32(addr));
    var a, m, c := addr / 256, addr / 256 / 256, addr / 256 / 256 / 256;
    assert addr == 256 * a + addr % 256 && a == 256 * m + a % 256 && m == 256 * c + m % 256;
    assert m == addr / 65536;
  }

  /** What the code adds for the pseudo-header is the sum of its words. */
  lemma PseudoWords(saddr: u32, daddr: u32, len: u16)
    ensures Words(PseudoHeader(saddr, daddr, len)) == Halves(saddr) + Halves(daddr) + Htons(len) + Htons(PROTO_TCP)
    ensures Words(PseudoHeader(saddr, daddr, len)) == Words(PseudoHeader(daddr, saddr, len))
  {
    hide Bytes32, Words;
    var tail := [0, 6, len / 256, len % 256];
    Words4(tail);
    HalvesAreWords(saddr);
    HalvesAreWords(daddr);
    WordsJoin(Bytes32(saddr) + Bytes32(daddr), tail);
    WordsJoin(Bytes32(saddr), Bytes32(daddr));
    WordsJoin(Bytes32(daddr) + Bytes32(saddr), tail);
    WordsJoin(Bytes32(daddr), Bytes32(saddr));
  }

  /** Two folds and the complement, as both functions end. */
  function Finish(sum: u32): (answer: u16)
    ensures (sum + answer) % 65535 == 0
    ensures answer == 65535 <==> sum == 0
  {
    var once := sum / 65536 + sum % 65536;
    var twice := once + once / 65536;
    Folded(sum);
    65535 - twice % 65536
  }

  /** Folding keeps the sum modulo 65535, and after two folds there is no carry left. */
  lemma Folded(sum: u32)
    ensures var once := sum / 65536 + sum % 65536;
      var twice := once + once / 65536;
      && twice % 65536 == once % 65536 + once / 65536 && (twice % 65536 == 0 <==> sum == 0)
      && (sum - twice % 65536) % 65535 == 0
  {
    var once := sum / 65536 + sum % 65536;
    var twice := once + once / 65536;
    var q, p := sum / 65536, once / 65536;
    assert sum == 65536 * q + sum % 65536;
    assert p <= 1 && once % 65536 + p == once - 65535 * p;
    assert sum - (once - 65535 * p) == 65535 * (q + p);
  }

  /** The answer is zero exactly if the sum is a positive multiple of 65535. */
  lemma FinishZero(sum: u32)
    ensures Finish(sum) == 0 <==> sum > 0 && sum % 65535 == 0
  {
  }

  /** The loop both functions share: the accumulator cannot overflow 31 bits. */
  method AddWords(buf: seq<u8>) returns (sum: u32)
    requires |buf| <= 65535
    ensures sum == Words(buf) && sum < TWO31
  {
    WordsBound(buf);
    sum := 0;
    var i, nleft := 0, |buf|;
    while nleft > 1
      invariant 0 <= i <= |buf| && i + nleft == |buf|
      invariant sum + Words(buf[i..]) == Words(buf)
    {
      assert buf[i..][2..] == buf[i + 2..];
      sum := sum + Word(buf[i], buf[i + 1]);
      i, nleft := i + 2, nleft - 2;
    }
    if nleft > 0 {
      assert buf[i..] == [buf[i]];
      sum := sum + buf[i];
    } else {
      assert buf[i..] == [];
    }
  }

  /** in_cksum. */
  method InCksum(buf: seq<u8>) returns (answer: u16)
    requires |buf| <= 65535
    ensures Words(buf) < TWO31 && answer == Finish(Words(buf))
  {
    var sum := AddWords(buf);
    answer := Finish(sum);
  }

  /** What the checksum of a segment covers: the words of the pseudo-header and of the segment. */
  function TcpSum(buf: seq<u8>, saddr: u32, daddr: u32): (sum: u32)
    requires |buf| <= 65535
    ensures sum > 0 && sum == Words(buf) + Words(PseudoHeader(saddr, daddr, |buf|))
  {
    SumBound(buf, saddr, daddr);
    Words(PseudoHeader(saddr, daddr, |buf|) + buf)
  }

  lemma SumBound(buf: seq<u8>, saddr: u32, daddr: u32)
    requires |buf| <= 65535
    ensures var pseudo := PseudoHeader(saddr, daddr, |buf|);
      0 < Words(pseudo + buf) == Words(buf) + Words(pseudo) < TWO32
  {
    hide PseudoHeader, Words;
    WordsBound(buf);
    PseudoWords(saddr, daddr, |buf|);
    WordsJoin(PseudoHeader(saddr, daddr, |buf|), buf);
  }

  /** nty_tcp_calculate_checksum. */
  method CalculateChecksum(buf: seq<u8>, saddr: u32, daddr: u32) returns (check: u16)
    requires |buf| <= 65535
    ensures check == Finish(TcpSum(buf, saddr, daddr))
    ensures check == 0 <==> TcpSum(buf, saddr, daddr) % 65535 == 0
  {
    hide Words, PseudoHeader;
    PseudoWords(saddr, daddr, |buf|);
    var sum := AddWords(buf);
    sum := sum + saddr % 65536 + saddr / 65536;
    sum := sum + daddr % 65536 + daddr / 65536;
    sum := sum + Htons(|buf|);
    sum := sum + Htons(PROTO_TCP);
    check := Finish(sum);
    FinishZero(sum);
  }

  /** A word that makes up for the sum makes the new answer zero. */
  lemma Completes(sum: u32, total: u32)
    requires total == sum + Finish(sum)
    ensures Finish(total) == 0
  {
    FinishZero(total);
  }

  /** Round trip: for every segment, of odd length too, storing the checksum in its zeroed check word makes the
      receiver's computation come to zero, whichever way round it takes the addresses. */
  lemma ChecksumVerifies(buf: seq<u8>, at: nat, saddr: u32, daddr: u32)
    requires |buf| <= 65535 && at % 2 == 0 && at + 1 < |buf| && buf[at] == 0 && buf[at + 1] == 0
    ensures var sent := Store(buf, at, Finish(TcpSum(buf, saddr, daddr)));
      Finish(TcpSum(sent, saddr, daddr)) == 0 && Finish(TcpSum(sent, daddr, saddr)) == 0
  {
    hide Finish, Words, Store, PseudoHeader;
    PseudoWords(saddr, daddr, |buf|);
    var check := Finish(TcpSum(buf, saddr, daddr));
    WordsStore(buf, at, check);
    Completes(TcpSum(buf, saddr, daddr), TcpSum(Store(buf, at, check), saddr, daddr));
  }

  lemma HeaderVerifies(buf: seq<u8>, at: nat)
    requires |buf| <= 65535 && at % 2 == 0 && at + 1 < |buf| && buf[at] == 0 && buf[at + 1] == 0
    ensures Words(buf) < TWO31 && Words(Store(buf, at, Finish(Words(buf)))) < TWO31
    ensures Finish(Words(Store(buf, at, Finish(Words(buf))))) == 0
  {
    hide Finish, Words, Store;
    WordsBound(buf);
    var check := Finish(Words(buf));
    WordsStore(buf, at, check);
    WordsBound(Store(buf, at, check));
    Completes(Words(buf), Words(Store(buf, at, check)));
  }

  /** A segment that verifies no longer does after one of its words is changed, except between the two forms of zero. */
  lemma DetectsOneWord(buf: seq<u8>, at: nat, x: u16, saddr: u32, daddr: u32)
    requires |buf| <= 65535 && at % 2 == 0 && at + 1 < |buf| && Finish(TcpSum(buf, saddr, daddr)) == 0
    ensures var was := Word(buf[at], buf[at + 1]);
      Finish(TcpSum(Store(buf, at, x), saddr, daddr)) == 0 <==> x == was || {x, was} == {0, 65535}
  {
    hide Finish, Words, Store;
    WordsStore(buf, at, x);
    FinishZero(TcpSum(buf, saddr, daddr));
    FinishZero(TcpSum(Store(buf, at, x), saddr, daddr));
    Multiples(TcpSum(buf, saddr, daddr), Word(buf[at], buf[at + 1]), x);
  }

  /** A segment that verifies for one source address verifies for another just when the halves of both come to the same
      modulo 65535. */
  lemma DetectsAddress(buf: seq<u8>, saddr: u32, other: u32, daddr: u32)
    requires |buf| <= 65535 && Finish(TcpSum(buf, saddr, daddr)) == 0
    ensures Finish(TcpSum(buf, other, daddr)) == 0 <==> (Halves(other) - Halves(saddr)) % 65535 == 0
  {
    hide Finish, Words, PseudoHeader;
    PseudoWords(saddr, daddr, |buf|);
    PseudoWords(other, daddr, |buf|);
    FinishZero(TcpSum(buf, saddr, daddr));
    FinishZero(TcpSum(buf, other, daddr));
    SameRest(TcpSum(buf, saddr, daddr), Halves(other) - Halves(saddr));
  }

  lemma SameRest(sum: nat, d: int)
    requires sum % 65535 == 0
    ensures (sum + d) % 65535 == 0 <==> d % 65535 == 0
  {
  }

  /** Twenty zero bytes from 10.0.0.1 to 10.0.0.2. */
  lemma ChecksumOfZeros(buf: seq<u8>)
    requires |buf| == 20 && forall i :: 0 <= i < 20 ==> buf[i] == 0
    ensures Finish(TcpSum(buf, 0x0100_000A, 0x0200_000A)) == 0xE2EB
  {
    hide Words, PseudoHeader;
    ZeroWords(buf);
    PseudoWords(0x0100_000A, 0x0200_000A, 20);
  }

  lemma {:induction false} ZeroWords(buf: seq<u8>)
    requires forall i :: 0 <= i < |buf| ==> buf[i] == 0
    ensures Words(buf) == 0
  {
    if |buf| > 1 { ZeroWords(buf[2..]); }
  }

  lemma Multiples(sum: nat, a: u16, b: u16)
    requires sum % 65535 == 0 && sum >= a
    ensures (sum - a + b) % 65535 == 0 <==> a == b || {a, b} == {0, 65535}
  {
    assert (sum - a + b) % 65535 == (b - a) % 65535;
    assert {a, b} == {0, 65535} <==> (a == 0 && b == 65535) || (a == 65535 && b == 0);
  }
}
