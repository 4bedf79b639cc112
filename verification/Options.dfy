/** TCP options: nty_tcp_generate_options, nty_tcp_parse_options and nty_tcp_parse_timestamp
    (src/nty_tcp.c:184-227, 343-383, 410-437). */
module Options {
  import opened SeqArith
  import opened Wrappers

  const END := 0
  const NOP := 1
  const MSS := 2
  const WSCALE := 3
  const SACK_PERMIT := 4
  const TIMESTAMP := 8

  datatype Opt =
    | Nop
    | Mss(mss: u16)
    | Wscale(shift: u8)
    | SackPermit
    | Timestamp(val: u32, ref: u32)
    | Other(kind: u8, data: seq<u8>)

  /** What the options of a SYN set in a stream. */
  datatype Peer = Peer(mss: u16, effMss: u16, wscale: u8, sackPermit: bool, sawTimestamp: bool, tsRecent: u32,
      tsUpdated: u32)

  predicate Valid(o: Opt) {
    o.Other? ==> o.kind !in {END, NOP, MSS, WSCALE, SACK_PERMIT, TIMESTAMP} && |o.data| <= 253
  }

  function Be32(x: u32): (b: seq<u8>)
    ensures |b| == 4
  {
    [x / 256 / 256 / 256, x / 256 / 256 % 256, x / 256 % 256, x % 256]
  }

  /** ntohl of four bytes in memory. */
  function Read32(b: seq<u8>, i: nat): u32
    requires i + 4 <= |b|
  {
    var w: int, x: int, y: int, z: int := b[i], b[i + 1], b[i + 2], b[i + 3];
    w * 0x100_0000 + x * 0x1_0000 + y * 256 + z
  }

  lemma ReadBack(x: u32, b: seq<u8>, i: nat)
    requires i + 4 <= |b| && b[i..i + 4] == Be32(x)
    ensures Read32(b, i) == x
  {
    assert b[i] == b[i..i + 4][0] && b[i + 1] == b[i..i + 4][1] && b[i + 2] == b[i..i + 4][2]
        && b[i + 3] == b[i..i + 4][3];
    var a, m, c := x / 256, x / 256 / 256, x / 256 / 256 / 256;
    assert x == 256 * a + x % 256 && a == 256 * m + a % 256 && m == 256 * c + m % 256;
  }

  /** RFC 9293, section 3.1: kind, length, data; the no-operation is its kind alone. */
  function EncodeOne(o: Opt): (b: seq<u8>)
    requires Valid(o)
    ensures |b| >= 1 && b[0] != END
  {
    match o
    case Nop => [NOP]
    case Mss(mss) => [MSS, 4, mss / 256, mss % 256]
    case Wscale(shift) => [WSCALE, 3, shift]
    case SackPermit => [SACK_PERMIT, 2]
    case Timestamp(val, ref) => [TIMESTAMP, 10] + Be32(val) + Be32(ref)
    case Other(kind, data) => [kind, |data| + 2] + data
  }

  predicate AllValid(opts: seq<Opt>) { forall o :: o in opts ==> Valid(o) }

  function Encode(opts: seq<Opt>): seq<u8>
    requires AllValid(opts)
  {
    if opts == [] then [] else EncodeOne(opts[0]) + Encode(opts[1..])
  }

  /** What may follow the options: nothing, the end mark and anything after it, or an option cut off by the end. */
  predicate Ends(tail: seq<u8>) {
    tail == [] || tail[0] == END || (tail[0] != NOP && |tail| >= 2 && tail[1] > |tail|)
  }

  function Apply(p: Peer, o: Opt, curTs: u32): Peer {
    match o
    case Mss(mss) => p.(mss := mss, effMss := (mss - 12) % 0x1_0000)
    case Wscale(shift) => p.(wscale := shift)
    case SackPermit => p.(sackPermit := true)
    case Timestamp(val, _) => p.(sawTimestamp := true, tsRecent := val, tsUpdated := curTs)
    case _ => p
  }

  function Fold(p: Peer, opts: seq<Opt>, curTs: u32): Peer
    decreases |opts|
  {
    if opts == [] then p else Fold(Apply(p, opts[0], curTs), opts[1..], curTs)
  }

  /** The option `o` stands at `i`. */
  predicate Stands(b: seq<u8>, i: nat, o: Opt) {
    Valid(o) && i + |EncodeOne(o)| <= |b| && b[i..i + |EncodeOne(o)|] == EncodeOne(o)
  }

  // ---------------------------------------------------------------- parsing

  /** Where the loop goes from `i` in the first `len` bytes of `b`: on to another position, or out.  The segment goes on
      behind the options, where a value cut off by their end is read. */
  function Next(b: seq<u8>, len: nat, i: nat): (j: Option<nat>)
    requires len + 9 <= |b|
    ensures j.Some? ==> i <= j.value && i < len
  {
    if i >= len || b[i] == END then None
    else if b[i] == NOP then Some(i + 1)
    else if i + b[i + 1] > len then None
    else if b[i] == MSS then Some(i + 4)
    else if b[i] == WSCALE then Some(i + 3)
    else if b[i] == SACK_PERMIT then Some(i + 2)
    else if b[i] == TIMESTAMP then Some(i + 10)
    else Some(i + b[i + 1])
  }

  /** What the loop does to the stream at `i`. */
  function Effect(p: Peer, b: seq<u8>, len: nat, i: nat, curTs: u32): Peer
    requires len + 9 <= |b| && i < len
  {
    if b[i] == MSS then Apply(p, Mss(Read16(b, i + 2)), curTs)
    else if b[i] == WSCALE then Apply(p, Wscale(b[i + 2]), curTs)
    else if b[i] == SACK_PERMIT then Apply(p, SackPermit, curTs)
    else if b[i] == TIMESTAMP then Apply(p, Timestamp(Read32(b, i + 2), Read32(b, i + 6)), curTs)
    else p
  }

  function Read16(b: seq<u8>, i: nat): u16
    requires i + 2 <= |b|
  {
    var hi: int := b[i];
    hi * 256 + b[i + 1]
  }

  /** The whole loop; None if it never ends. */
  function Parse(p: Peer, b: seq<u8>, len: nat, i: nat, curTs: u32): Option<Peer>
    requires len + 9 <= |b|
    decreases len - i
  {
    match Next(b, len, i)
    case None => Some(p)
    case Some(j) => if j == i then None else Parse(Effect(p, b, len, i, curTs), b, len, j, curTs)
  }

  /** The loop ends after fewer than `n` turns. */
  predicate EndsWithin(b: seq<u8>, len: nat, i: nat, n: nat)
    requires len + 9 <= |b|
    decreases n
  {
    n > 0 && (Next(b, len, i) == None || EndsWithin(b, len, Next(b, len, i).value, n - 1))
  }

  /** The loop, started at `i`, comes to `j`. */
  predicate Visits(b: seq<u8>, len: nat, i: nat, j: nat)
    requires len + 9 <= |b|
    decreases len - i
  {
    i == j || (Next(b, len, i).Some? && i < Next(b, len, i).value && Visits(b, len, Next(b, len, i).value, j))
  }

  /** An option of an unknown kind with length 0. */
  predicate StandsStill(b: seq<u8>, len: nat, j: nat)
    requires len + 9 <= |b|
  {
    j < len && b[j] !in {END, NOP, MSS, WSCALE, SACK_PERMIT, TIMESTAMP} && b[j + 1] == 0
  }

  /** The loop ends exactly if it comes to no option of an unknown kind with length 0. */
  lemma ParseEndsIff(p: Peer, b: seq<u8>, len: nat, i: nat, curTs: u32)
    requires len + 9 <= |b|
    ensures Parse(p, b, len, i, curTs).Some? <==> exists n: nat :: EndsWithin(b, len, i, n)
    ensures Parse(p, b, len, i, curTs).Some? <==> !exists j: nat :: Visits(b, len, i, j) && StandsStill(b, len, j)
  {
    if exists j: nat :: Visits(b, len, i, j) && StandsStill(b, len, j) {
      var j: nat :| Visits(b, len, i, j) && StandsStill(b, len, j);
      Blocks(p, b, len, i, curTs, j);
    }
    if Parse(p, b, len, i, curTs).Some? {
      var n := Turns(p, b, len, i, curTs);
      assert exists m: nat :: EndsWithin(b, len, i, m);
    } else {
      forall n: nat | EndsWithin(b, len, i, n) ensures false { NeverEnds(p, b, len, i, curTs, n); }
      var j := Obstacle(p, b, len, i, curTs);
    }
  }

  /** If the loop never ends, it is because of such an option. */
  lemma {:induction false} Obstacle(p: Peer, b: seq<u8>, len: nat, i: nat, curTs: u32) returns (j: nat)
    requires len + 9 <= |b| && Parse(p, b, len, i, curTs) == None
    ensures Visits(b, len, i, j) && StandsStill(b, len, j)
    decreases len - i
  {
    var k := Next(b, len, i).value;
    if k == i {
      j := i;
    } else {
      j := Obstacle(Effect(p, b, len, i, curTs), b, len, k, curTs);
    }
  }

  /** And such an option keeps it from ending. */
  lemma {:induction false} Blocks(p: Peer, b: seq<u8>, len: nat, i: nat, curTs: u32, j: nat)
    requires len + 9 <= |b| && Visits(b, len, i, j) && StandsStill(b, len, j)
    ensures Parse(p, b, len, i, curTs) == None
    decreases len - i
  {
    if i != j {
      Blocks(Effect(p, b, len, i, curTs), b, len, Next(b, len, i).value, curTs, j);
    }
  }

  lemma {:induction false} Turns(p: Peer, b: seq<u8>, len: nat, i: nat, curTs: u32) returns (n: nat)
    requires len + 9 <= |b| && Parse(p, b, len, i, curTs).Some?
    ensures EndsWithin(b, len, i, n)
    decreases len - i
  {
    match Next(b, len, i)
    case None => n := 1;
    case Some(j) =>
      n := Turns(Effect(p, b, len, i, curTs), b, len, j, curTs);
      n := n + 1;
  }

  lemma {:induction false} NeverEnds(p: Peer, b: seq<u8>, len: nat, i: nat, curTs: u32, n: nat)
    requires len + 9 <= |b| && Parse(p, b, len, i, curTs) == None
    ensures !EndsWithin(b, len, i, n)
    decreases n
  {
    if n > 0 {
      var j := Next(b, len, i).value;
      NeverEnds(if j == i then p else Effect(p, b, len, i, curTs), b, len, j, curTs, n - 1);
    }
  }

  /** One turn of the loop that neither ends it nor stands still. */
  method ParseOne(p0: Peer, tcpopt: seq<u8>, len: nat, i0: nat, curTs: u32) returns (p: Peer, i: nat)
    requires len + 9 <= |tcpopt| && Next(tcpopt, len, i0).Some?
    ensures p == Effect(p0, tcpopt, len, i0, curTs) && Next(tcpopt, len, i0) == Some(i)
  {
    hide Read32;
    p, i := p0, i0;
    var opt := tcpopt[i];
    i := i + 1;
    if opt == NOP {
      return;
    }
    var optlen := tcpopt[i];
    i := i + 1;
    if opt == MSS {
      var mss: int := tcpopt[i];
      mss := mss * 256;
      mss := mss + tcpopt[i + 1];
      i := i + 2;
      p := p.(mss := mss, effMss := (mss - 12) % 0x1_0000);
    } else if opt == WSCALE {
      p := p.(wscale := tcpopt[i]);
      i := i + 1;
    } else if opt == SACK_PERMIT {
      p := p.(sackPermit := true);
    } else if opt == TIMESTAMP {
      p := p.(sawTimestamp := true, tsRecent := Read32(tcpopt, i), tsUpdated := curTs);
      i := i + 8;
    } else {
      i := i + optlen - 2;
    }
  }

  /** nty_tcp_parse_options, on every input on which it ends. */
  method ParseOptions(p0: Peer, tcpopt: seq<u8>, len: nat, curTs: u32) returns (p: Peer)
    requires len + 9 <= |tcpopt| && Parse(p0, tcpopt, len, 0, curTs).Some?
    ensures Some(p) == Parse(p0, tcpopt, len, 0, curTs)
  {
    hide Effect;
    p := p0;
    var i := 0;
    while i < len
      invariant Parse(p, tcpopt, len, i, curTs) == Parse(p0, tcpopt, len, 0, curTs)
      decreases len - i
    {
      var opt := tcpopt[i];
      if opt == END {
        break;
      }
      if opt != NOP && i + tcpopt[i + 1] > len {
        break;
      }
      p, i := ParseOne(p, tcpopt, len, i, curTs);
    }
  }

  /** The bytes of an option where it stands. */
  lemma Bytes(b: seq<u8>, i: nat, o: Opt)
    requires Stands(b, i, o)
    ensures b[i] == EncodeOne(o)[0] && b[i] != END && (b[i] == NOP <==> o.Nop?)
    ensures !o.Nop? ==> i + 1 < |b| && b[i + 1] == EncodeOne(o)[1] == |EncodeOne(o)|
    ensures o.Mss? ==> var hi: int := b[i + 2]; hi * 256 + b[i + 3] == o.mss
    ensures o.Wscale? ==> b[i + 2] == o.shift
    ensures o.Timestamp? ==> Read32(b, i + 2) == o.val && Read32(b, i + 6) == o.ref
  {
    var e := EncodeOne(o);
    assert b[i] == b[i..i + |e|][0];
    assert |e| > 1 ==> b[i + 1] == b[i..i + |e|][1];
    assert |e| > 2 ==> b[i + 2] == b[i..i + |e|][2];
    assert |e| > 3 ==> b[i + 3] == b[i..i + |e|][3];
    if o.Timestamp? {
      StampBytes(b, i, o);
    }
  }

  lemma StampBytes(b: seq<u8>, i: nat, o: Opt)
    requires Stands(b, i, o) && o.Timestamp?
    ensures Read32(b, i + 2) == o.val && Read32(b, i + 6) == o.ref
  {
    hide Be32, Read32;
    var e := EncodeOne(o);
    assert b[i + 2..i + 6] == b[i..i + |e|][2..6] == Be32(o.val);
    assert b[i + 6..i + 10] == b[i..i + |e|][6..10] == Be32(o.ref);
    ReadBack(o.val, b, i + 2);
    ReadBack(o.ref, b, i + 6);
  }

  /** On well-formed options the loop is the fold over them, whatever cuts them off. */
  lemma {:induction false} ParseFolds(p: Peer, b: seq<u8>, len: nat, i: nat, curTs: u32, opts: seq<Opt>, tail: seq<u8>)
    requires len + 9 <= |b| && i <= len && AllValid(opts) && Ends(tail) && b[i..len] == Encode(opts) + tail
    ensures Parse(p, b, len, i, curTs) == Some(Fold(p, opts, curTs))
    decreases |opts|
  {
    hide EncodeOne, Apply, Effect;
    if opts == [] {
      assert b[i..len] == tail;
      assert tail != [] ==> b[i] == tail[0] && (|tail| >= 2 ==> b[i + 1] == tail[1]);
    } else {
      Turn(p, b, len, i, curTs, opts, tail);
      ParseFolds(Apply(p, opts[0], curTs), b, len, i + |EncodeOne(opts[0])|, curTs, opts[1..], tail);
    }
  }

  /** The loop's turn on an option. */
  lemma Turn(p: Peer, b: seq<u8>, len: nat, i: nat, curTs: u32, opts: seq<Opt>, tail: seq<u8>)
    requires len + 9 <= |b| && i <= len && AllValid(opts) && opts != [] && b[i..len] == Encode(opts) + tail
    ensures var e := EncodeOne(opts[0]);
            && i < i + |e| <= len && Next(b, len, i) == Some(i + |e|) && b[i + |e|..len] == Encode(opts[1..]) + tail
            && Effect(p, b, len, i, curTs) == Apply(p, opts[0], curTs)
  {
    hide Read32, Encode, EncodeOne, Valid;
    At(b, len, i, opts, tail);
    KindKnown(opts[0]);
  }

  function Kind(o: Opt): u8 {
    match o
    case Nop => NOP
    case Mss(_) => MSS
    case Wscale(_) => WSCALE
    case SackPermit => SACK_PERMIT
    case Timestamp(_, _) => TIMESTAMP
    case Other(kind, _) => kind
  }

  lemma KindKnown(o: Opt)
    requires Valid(o)
    ensures Kind(o) != END && (o.Other? <==> Kind(o) !in {END, NOP, MSS, WSCALE, SACK_PERMIT, TIMESTAMP})
  {
  }

  /** The first option of a list where the list stands, as the loops see it. */
  lemma At(b: seq<u8>, len: nat, i: nat, opts: seq<Opt>, tail: seq<u8>)
    requires i <= len && len + 9 <= |b| && opts != [] && AllValid(opts) && b[i..len] == Encode(opts) + tail
    ensures var o := opts[0]; var e := EncodeOne(o);
      && i < i + |e| <= len && b[i + |e|..len] == Encode(opts[1..]) + tail
      && b[i] == Kind(o) && (o.Nop? ==> |e| == 1) && (!o.Nop? ==> b[i + 1] == |e| >= 2)
      && (o.Mss? ==> |e| == 4 && Read16(b, i + 2) == o.mss) && (o.Wscale? ==> |e| == 3 && b[i + 2] == o.shift)
      && (o.SackPermit? ==> |e| == 2)
      && (o.Timestamp? ==> |e| == 10 && Read32(b, i + 2) == o.val && Read32(b, i + 6) == o.ref)
  {
    hide Read32, Encode, EncodeOne, Valid;
    var e := EncodeOne(opts[0]);
    var area := b[..len];
    Unfold(opts);
    Apart(area, i, e, Encode(opts[1..]) + tail, Encode(opts) + tail);
    Bytes(area, i, opts[0]);
    Sizes(opts[0]);
    assert area[i + 0] == b[i + 0];
    if |e| > 1 { assert area[i + 1] == b[i + 1]; }
    if |e| > 2 { assert area[i + 2] == b[i + 2]; }
    if |e| > 3 { assert area[i + 3] == b[i + 3]; }
    if opts[0].Timestamp? { Same(b, area, i + 2); Same(b, area, i + 6); }
  }

  lemma Sizes(o: Opt)
    requires Valid(o)
    ensures var n := |EncodeOne(o)|;
            && EncodeOne(o)[0] == Kind(o) && (o.Nop? <==> n == 1)
            && (o.Mss? ==> n == 4) && (o.Wscale? ==> n == 3) && (o.SackPermit? ==> n == 2) && (o.Timestamp? ==> n == 10)
  {
  }

  lemma Apart(area: seq<u8>, i: nat, e: seq<u8>, rest: seq<u8>, all: seq<u8>)
    requires i <= |area| && area[i..] == all && all == e + rest
    ensures i + |e| <= |area| && area[i..i + |e|] == e && area[i + |e|..] == rest
  {
    assert area[i..i + |e|] == area[i..][..|e|];
    assert area[i + |e|..] == area[i..][|e|..];
  }

  lemma Same(b: seq<u8>, area: seq<u8>, i: nat)
    requires |area| <= |b| && area == b[..|area|] && i + 4 <= |area|
    ensures Read32(b, i) == Read32(area, i)
  {
  }

  lemma Unfold(opts: seq<Opt>)
    requires AllValid(opts) && opts != []
    ensures Encode(opts) == EncodeOne(opts[0]) + Encode(opts[1..])
  {
  }

  // ---------------------------------------------------------------- generation

  function SynLayout(mss: u16, curTs: u32, tsRecent: u32, wscale: u8): seq<Opt> {
    [Mss(mss), Nop, Nop, Timestamp(curTs, tsRecent), Nop, Wscale(wscale)]
  }

  function PlainLayout(curTs: u32, tsRecent: u32): seq<Opt> { [Nop, Nop, Timestamp(curTs, tsRecent)] }

  /** nty_calculate_option. */
  function OptionLength(syn: bool): (n: nat)
    ensures n % 4 == 0
  {
    if syn then 4 + 10 + 2 + 3 + 1 else 10 + 2
  }

  method GenerateTimestamp(b: array<u8>, i: nat, curTs: u32, tsRecent: u32)
    requires i + 10 <= b.Length
    modifies b
    ensures b[i..i + 10] == EncodeOne(Timestamp(curTs, tsRecent))
    ensures forall k :: 0 <= k < b.Length && !(i <= k < i + 10) ==> b[k] == old(b[k])
  {
    hide Be32;
    b[i], b[i + 1] := TIMESTAMP, 10;
    WriteBe32(b, i + 2, curTs);
    WriteBe32(b, i + 6, tsRecent);
    assert b[i + 2..i + 6] == Be32(curTs);
    assert b[i..i + 10] == b[i..i + 2] + b[i + 2..i + 6] + b[i + 6..i + 10];
  }

  method WriteBe32(b: array<u8>, i: nat, x: u32)
    requires i + 4 <= b.Length
    modifies b
    ensures b[i..i + 4] == Be32(x)
    ensures forall k :: 0 <= k < b.Length && !(i <= k < i + 4) ==> b[k] == old(b[k])
  {
    b[i], b[i + 1], b[i + 2], b[i + 3] := x / 256 / 256 / 256, x / 256 / 256 % 256, x / 256 % 256, x % 256;
  }

  /** nty_tcp_generate_options fills the option area exactly. */
  method GenerateOptions(tcpopt: array<u8>, syn: bool, mss: u16, curTs: u32, tsRecent: u32, wscale: u8)
    requires tcpopt.Length == OptionLength(syn)
    modifies tcpopt
    ensures tcpopt[..] == Encode(if syn then SynLayout(mss, curTs, tsRecent, wscale) else PlainLayout(curTs, tsRecent))
  {
    hide EncodeOne, Encode, SynLayout, PlainLayout;
    if syn {
      tcpopt[0], tcpopt[1], tcpopt[2], tcpopt[3] := MSS, 4, mss / 256, mss % 256;
      tcpopt[4], tcpopt[5] := NOP, NOP;
      GenerateTimestamp(tcpopt, 6, curTs, tsRecent);
      tcpopt[16], tcpopt[17], tcpopt[18], tcpopt[19] := NOP, WSCALE, 3, wscale;
      SynBytes(mss, curTs, tsRecent, wscale);
      Assemble(tcpopt[..], [MSS, 4, mss / 256, mss % 256, NOP, NOP], EncodeOne(Timestamp(curTs, tsRecent)),
        [NOP, WSCALE, 3, wscale]);
    } else {
      tcpopt[0], tcpopt[1] := NOP, NOP;
      GenerateTimestamp(tcpopt, 2, curTs, tsRecent);
      PlainBytes(curTs, tsRecent);
      Assemble(tcpopt[..], [NOP, NOP], EncodeOne(Timestamp(curTs, tsRecent)), []);
    }
  }

  lemma Assemble(b: seq<u8>, x: seq<u8>, t: seq<u8>, y: seq<u8>)
    requires |b| == |x| + |t| + |y| && b[..|x|] == x && b[|x|..|x| + |t|] == t && b[|x| + |t|..] == y
    ensures b == x + t + y && b == x + t + y + []
  {
  }

  lemma EncodeCons(o: Opt, rest: seq<Opt>)
    requires Valid(o) && AllValid(rest)
    ensures AllValid([o] + rest) && Encode([o] + rest) == EncodeOne(o) + Encode(rest)
  {
    assert ([o] + rest)[1..] == rest;
  }

  lemma FoldCons(p: Peer, o: Opt, rest: seq<Opt>, curTs: u32)
    ensures Fold(p, [o] + rest, curTs) == Fold(Apply(p, o, curTs), rest, curTs)
  {
    assert ([o] + rest)[1..] == rest;
  }

  lemma SynBytes(mss: u16, curTs: u32, tsRecent: u32, wscale: u8)
    ensures Encode(SynLayout(mss, curTs, tsRecent, wscale)) == [MSS, 4, mss / 256, mss % 256, NOP, NOP]
      + EncodeOne(Timestamp(curTs, tsRecent)) + [NOP, WSCALE, 3, wscale]
  {
    hide EncodeOne, Encode;
    var stamp := Timestamp(curTs, tsRecent);
    EncodeNone();
    var last := [Wscale(wscale)];
    EncodeCons(Wscale(wscale), []);
    assert [Wscale(wscale)] + [] == last;
    EncodeCons(Nop, last);
    EncodeCons(stamp, [Nop] + last);
    EncodeCons(Nop, [stamp] + ([Nop] + last));
    EncodeCons(Nop, [Nop] + ([stamp] + ([Nop] + last)));
    EncodeCons(Mss(mss), [Nop] + ([Nop] + ([stamp] + ([Nop] + last))));
    assert SynLayout(mss, curTs, tsRecent, wscale) == [Mss(mss)] + ([Nop] + ([Nop] + ([stamp] + ([Nop] + last))));
    SynParts(mss, wscale);
    Flatten(EncodeOne(Mss(mss)), EncodeOne(Nop), EncodeOne(stamp), EncodeOne(Wscale(wscale)));
  }

  lemma EncodeNone()
    ensures Encode([]) == []
  {
  }

  lemma SynParts(mss: u16, wscale: u8)
    ensures EncodeOne(Mss(mss)) + EncodeOne(Nop) + EncodeOne(Nop) == [MSS, 4, mss / 256, mss % 256, NOP, NOP]
    ensures EncodeOne(Nop) + EncodeOne(Wscale(wscale)) == [NOP, WSCALE, 3, wscale]
  {
  }

  lemma Flatten(m: seq<u8>, n: seq<u8>, t: seq<u8>, w: seq<u8>)
    ensures m + (n + (n + (t + (n + (w + []))))) == (m + n + n) + t + (n + w)
  {
  }

  lemma PlainBytes(curTs: u32, tsRecent: u32)
    ensures Encode(PlainLayout(curTs, tsRecent)) == [NOP, NOP] + EncodeOne(Timestamp(curTs, tsRecent))
  {
    hide Be32;
    var stamp := Timestamp(curTs, tsRecent);
    EncodeCons(stamp, []);
    EncodeCons(Nop, [stamp]);
    EncodeCons(Nop, [Nop, stamp]);
    assert PlainLayout(curTs, tsRecent) == [Nop] + [Nop, stamp];
  }

  /** What goes over the wire, kinds and lengths as RFC 9293, section 3.1, and RFC 7323 number them. */
  lemma WireBytes(mss: u16, curTs: u32, tsRecent: u32, wscale: u8)
    ensures Encode(SynLayout(mss, curTs, tsRecent, wscale)) ==
      [2, 4, mss / 256, mss % 256, 1, 1, 8, 10] + Be32(curTs) + Be32(tsRecent) + [1, 3, 3, wscale]
    ensures Encode(PlainLayout(curTs, tsRecent)) == [1, 1, 8, 10] + Be32(curTs) + Be32(tsRecent)
    ensures Be32(0x0102_0304) == [1, 2, 3, 4] && Read32([1, 2, 3, 4], 0) == 0x0102_0304
    ensures EncodeOne(SackPermit) == [4, 2] && Ends([0])
  {
    SynBytes(mss, curTs, tsRecent, wscale);
    PlainBytes(curTs, tsRecent);
  }

  /** Round trip: parsing what a SYN carries recovers the segment size, the timestamp and the window scale. */
  lemma SynRoundTrip(p: Peer, mss: u16, curTs: u32, tsRecent: u32, wscale: u8, now: u32)
    ensures AllValid(SynLayout(mss, curTs, tsRecent, wscale)) && Ends([])
    ensures Fold(p, SynLayout(mss, curTs, tsRecent, wscale), now)
         == Peer(mss, (mss - 12) % 0x1_0000, wscale, p.sackPermit, true, curTs, now)
  {
    var stamp := Timestamp(curTs, tsRecent);
    var q := Apply(p, Mss(mss), now);
    FoldCons(p, Mss(mss), [Nop, Nop, stamp, Nop, Wscale(wscale)], now);
    FoldCons(q, Nop, [Nop, stamp, Nop, Wscale(wscale)], now);
    FoldCons(q, Nop, [stamp, Nop, Wscale(wscale)], now);
    FoldCons(q, stamp, [Nop, Wscale(wscale)], now);
    FoldCons(Apply(q, stamp, now), Nop, [Wscale(wscale)], now);
    FoldCons(Apply(q, stamp, now), Wscale(wscale), [], now);
    assert SynLayout(mss, curTs, tsRecent, wscale) == [Mss(mss)] + [Nop, Nop, stamp, Nop, Wscale(wscale)];
  }

  /** The same for the loop that reads them, whatever follows the options. */
  lemma SynParses(p: Peer, b: seq<u8>, mss: u16, curTs: u32, tsRecent: u32, wscale: u8, now: u32)
    requires |b| >= 29 && b[..20] == Encode(SynLayout(mss, curTs, tsRecent, wscale))
    ensures Parse(p, b, 20, 0, now) == Some(Peer(mss, (mss - 12) % 0x1_0000, wscale, p.sackPermit, true, curTs, now))
  {
    hide Encode, SynLayout, Apply, Parse;
    var opts := SynLayout(mss, curTs, tsRecent, wscale);
    SynRoundTrip(p, mss, curTs, tsRecent, wscale, now);
    assert b[0..20] == b[..20] == Encode(opts) + [];
    ParseFolds(p, b, 20, 0, now, opts, []);
  }

  // ---------------------------------------------------------------- the timestamp of a later segment

  datatype Stamp = Missing | Found(val: u32, ref: u32)

  /** nty_tcp_parse_timestamp over the first `len` bytes of `b`, from `i` on; the segment goes on behind them. Besides
      the step inside the loop, the loop header takes one too, so every option but the timestamp swallows the byte
      after it. */
  function Scan(b: seq<u8>, len: nat, i: nat): Stamp
    requires len + 9 <= |b|
    decreases len - i
  {
    if i >= len || b[i] == END then Missing
    else if b[i] == NOP then Scan(b, len, i + 2)
    else if i + b[i + 1] > len then Missing
    else if b[i] == TIMESTAMP then Found(Read32(b, i + 2), Read32(b, i + 6))
    else Scan(b, len, i + b[i + 1] + 1)
  }

  method ParseTimestamp(b: seq<u8>, len: nat) returns (ts: Stamp)
    requires len + 9 <= |b|
    ensures ts == Scan(b, len, 0)
  {
    var i := 0;
    while i < len
      invariant Scan(b, len, i) == Scan(b, len, 0)
      decreases len - i
    {
      var opt := b[i];
      i := i + 1;
      if opt == END {
        break;
      } else if opt != NOP {
        var optlen := b[i];
        i := i + 1;
        if i + optlen - 2 > len {
          break;
        }
        if opt == TIMESTAMP {
          return Found(Read32(b, i), Read32(b, i + 4));
        }
        i := i + optlen - 2;
      }
      i := i + 1;
    }
    ts := Missing;
  }

  /** The position at which the scan from `i` stops. */
  function StopsAt(b: seq<u8>, len: nat, i: nat): (j: nat)
    requires len + 9 <= |b|
    ensures i <= j
    decreases len - i
  {
    if i >= len || b[i] == END then i
    else if b[i] == NOP then StopsAt(b, len, i + 2)
    else if i + b[i + 1] > len || b[i] == TIMESTAMP then i
    else StopsAt(b, len, i + b[i + 1] + 1)
  }

  /** It stops on what it takes for a timestamp. */
  predicate Hit(b: seq<u8>, len: nat, j: nat)
    requires len + 9 <= |b|
  {
    j < len && b[j] == TIMESTAMP && j + b[j + 1] <= len
  }

  lemma {:induction false} ScanStops(b: seq<u8>, len: nat, i: nat)
    requires len + 9 <= |b|
    ensures var j := StopsAt(b, len, i);
            Scan(b, len, i) == if Hit(b, len, j) then Found(Read32(b, j + 2), Read32(b, j + 6)) else Missing
    decreases len - i
  {
    hide Read32;
    if i < len && b[i] != END && (b[i] == NOP || (i + b[i + 1] <= len && b[i] != TIMESTAMP)) {
      ScanStops(b, len, if b[i] == NOP then i + 2 else i + b[i + 1] + 1);
    }
  }

  /** The scan returns the values of the timestamp that stands at `at` exactly if it comes to that position, or else
      stops where the same eight bytes happen to follow something it takes for a timestamp. */
  lemma ScanFindsIff(b: seq<u8>, len: nat, at: nat, val: u32, ref: u32)
    requires len + 9 <= |b| && at + 10 <= len && b[at..at + 10] == EncodeOne(Timestamp(val, ref))
    ensures var j := StopsAt(b, len, 0);
            Scan(b, len, 0) == Found(val, ref) <==>
              j == at || (Hit(b, len, j) && Read32(b, j + 2) == val && Read32(b, j + 6) == ref)
  {
    hide Read32, Scan, StopsAt;
    ScanStops(b, len, 0);
    Bytes(b, at, Timestamp(val, ref));
  }

  /** Every option is followed by a no-operation, the one that gets swallowed. */
  predicate Paired(opts: seq<Opt>) {
    opts == [] || (|opts| >= 2 && opts[1].Nop? && !opts[0].Timestamp? && Paired(opts[2..]))
  }

  /** Behind paired options the scan comes to the next one, whatever that is. */
  lemma {:induction false} ScanComesTo(b: seq<u8>, len: nat, i: nat, opts: seq<Opt>, rest: seq<Opt>)
    requires len + 9 <= |b| && i <= len && Paired(opts) && AllValid(opts + rest) && b[i..len] == Encode(opts + rest)
    ensures AllValid(opts) && AllValid(rest) && i + |Encode(opts)| <= len && b[i + |Encode(opts)|..len] == Encode(rest)
    ensures StopsAt(b, len, i) == StopsAt(b, len, i + |Encode(opts)|)
    decreases |opts|
  {
    hide EncodeOne, Read32, Paired, Encode, Scan, StopsAt;
    if opts == [] {
      assert opts + rest == rest;
      EncodeNone();
    } else {
      PairedStep(opts);
      assert opts == [opts[0], Nop] + opts[2..];
      assert opts + rest == [opts[0], Nop] + (opts[2..] + rest);
      PairLength(opts[0], opts[2..]);
      ScanPast(b, len, i, opts[0], opts[2..] + rest);
      ScanComesTo(b, len, i + |EncodeOne(opts[0])| + 1, opts[2..], rest);
    }
  }

  lemma PairLength(o: Opt, opts: seq<Opt>)
    requires AllValid([o, Nop] + opts)
    ensures AllValid(opts) && |Encode([o, Nop] + opts)| == |EncodeOne(o)| + 1 + |Encode(opts)|
  {
    hide EncodeOne, Encode;
    var all := [o, Nop] + opts;
    assert all[0] == o && all[1] == Nop && all[2..] == opts && all[1..][1..] == opts;
    assert AllValid(all[1..]) && AllValid(all[1..][1..]);
    Unfold(all);
    Unfold(all[1..]);
    NopLength();
  }

  lemma NopLength()
    ensures Valid(Nop) && |EncodeOne(Nop)| == 1
  {
  }

  /** Behind paired options the timestamp is found, whatever follows it. */
  lemma ScanFinds(b: seq<u8>, len: nat, opts: seq<Opt>, val: u32, ref: u32, more: seq<Opt>)
    requires len + 9 <= |b| && Paired(opts) && AllValid(opts + ([Timestamp(val, ref)] + more))
    requires b[..len] == Encode(opts + ([Timestamp(val, ref)] + more))
    ensures AllValid(opts) && StopsAt(b, len, 0) == |Encode(opts)|
    ensures Scan(b, len, 0) == Found(val, ref)
  {
    hide EncodeOne, Read32, Paired, Encode, Scan;
    assert b[0..len] == b[..len];
    var rest := [Timestamp(val, ref)] + more;
    ScanComesTo(b, len, 0, opts, rest);
    At(b, len, |Encode(opts)|, rest, []);
    ScanStops(b, len, 0);
  }

  /** One option more in front, and the scan does not come to the timestamp: it passes its first byte. */
  lemma ScanSkips(b: seq<u8>, len: nat, opts: seq<Opt>, o: Opt, val: u32, ref: u32, more: seq<Opt>)
    requires len + 9 <= |b| && Paired(opts) && !o.Timestamp?
    requires AllValid(opts + ([o, Timestamp(val, ref)] + more))
              && b[..len] == Encode(opts + ([o, Timestamp(val, ref)] + more))
    ensures AllValid(opts) && Valid(o) && StopsAt(b, len, 0) > |Encode(opts)| + |EncodeOne(o)|
  {
    hide EncodeOne, Read32, Paired, Encode, Scan;
    assert b[0..len] == b[..len];
    var rest := [o, Timestamp(val, ref)] + more;
    ScanComesTo(b, len, 0, opts, rest);
    At(b, len, |Encode(opts)|, rest, []);
    KindKnown(o);
  }

  /** An option and the no-operation after it are passed together. */
  lemma ScanPast(b: seq<u8>, len: nat, i: nat, o: Opt, opts: seq<Opt>)
    requires len + 9 <= |b| && i <= len && !o.Timestamp?
    requires AllValid([o, Nop] + opts) && b[i..len] == Encode([o, Nop] + opts)
    ensures var j := i + |EncodeOne(o)| + 1;
            j <= len && StopsAt(b, len, i) == StopsAt(b, len, j) && AllValid(opts) && b[j..len] == Encode(opts)
  {
    hide EncodeOne, Read32, Encode, Valid;
    var all := [o, Nop] + opts;
    At(b, len, i, all, []);
    KindKnown(o);
    assert all[1..] == [Nop] + opts;
    At(b, len, i + |EncodeOne(o)|, all[1..], []);
    assert all[1..][1..] == opts;
  }

  lemma PairedStep(opts: seq<Opt>)
    requires opts != [] && Paired(opts)
    ensures |opts| >= 2 && opts[1].Nop? && !opts[0].Timestamp? && Paired(opts[2..])
  {
  }

  /** Round trip on what this stack puts into every segment but the SYN. */
  lemma PlainRoundTrip(b: seq<u8>, curTs: u32, tsRecent: u32)
    requires |b| >= 21 && b[..12] == Encode(PlainLayout(curTs, tsRecent))
    ensures Scan(b, 12, 0) == Found(curTs, tsRecent)
  {
    assert PlainLayout(curTs, tsRecent) == [Nop, Nop] + ([Timestamp(curTs, tsRecent)] + []);
    ScanFinds(b, 12, [Nop, Nop], curTs, tsRecent, []);
  }

  // ---------------------------------------------------------------- a single no-operation in front

  /** The bytes of a timestamp behind one no-operation. */
  lemma OddBytes(b: seq<u8>, val: u32, ref: u32)
    requires |b| >= 20 && b[..11] == Encode([Nop, Timestamp(val, ref)])
    ensures b[0] == NOP && b[2] == 10 && b[3..7] == Be32(val) && b[7..11] == Be32(ref)
  {
    hide Be32;
    EncodeCons(Timestamp(val, ref), []);
    EncodeCons(Nop, [Timestamp(val, ref)]);
    assert [Nop] + [Timestamp(val, ref)] == [Nop, Timestamp(val, ref)];
    var area := b[..11];
    assert area == [NOP, TIMESTAMP, 10] + Be32(val) + Be32(ref);
    assert b[0] == area[0] && b[2] == area[2] && b[3..7] == area[3..7] && b[7..11] == area[7..11];
  }

  /** It hides the timestamp if the value's first byte is 0 or at least 8: that byte is taken for a length. */
  lemma OddNopHides(b: seq<u8>, val: u32, ref: u32)
    requires |b| >= 20 && b[..11] == Encode([Nop, Timestamp(val, ref)])
    requires val / 0x100_0000 == 0 || val / 0x100_0000 >= 8
    ensures Scan(b, 11, 0) == Missing
  {
    OddBytes(b, val, ref);
    assert b[3] == b[3..7][0] == val / 256 / 256 / 256;
    assert Scan(b, 11, 0) == Scan(b, 11, 2);
    if b[3] == 0 {
      assert Scan(b, 11, 2) == Scan(b, 11, 3) == Missing;
    }
  }

  /** For other values the scan may return what is no timestamp. */
  lemma OddNopMisreads(b: seq<u8>, ref: u32)
    requires |b| >= 20 && b[..11] == Encode([Nop, Timestamp(0x0108_0200, ref)])
    ensures Scan(b, 11, 0) == Found(Read32(b, 6), Read32(b, 10)) && Scan(b, 11, 0).val == ref / 256
    ensures Scan(b, 11, 0).val != 0x0108_0200
  {
    OddBytes(b, 0x0108_0200, ref);
    assert b[3..7] == [1, 8, 2, 0];
    assert b[3] == b[3..7][0] && b[4] == b[3..7][1] && b[5] == b[3..7][2] && b[6] == b[3..7][3];
    assert b[7] == b[7..11][0] && b[8] == b[7..11][1] && b[9] == b[7..11][2];
    assert Scan(b, 11, 0) == Scan(b, 11, 2) == Scan(b, 11, 4) == Found(Read32(b, 6), Read32(b, 10));
  }

  /** And once in a while it is right by coincidence, without ever having come to the timestamp. */
  lemma OddNopCoincides(b: seq<u8>)
    requires |b| >= 20 && b[..11] == Encode([Nop, Timestamp(0x0108_0701, 0x0807_0108)]) && b[11..14] == [7, 1, 8]
    ensures Scan(b, 11, 0) == Found(0x0108_0701, 0x0807_0108) && StopsAt(b, 11, 0) == 4
  {
    OddBytes(b, 0x0108_0701, 0x0807_0108);
    assert b[3..7] == [1, 8, 7, 1] && b[7..11] == [8, 7, 1, 8];
    assert b[3] == b[3..7][0] && b[4] == b[3..7][1] && b[5] == b[3..7][2] && b[6] == b[3..7][3];
    assert b[7] == b[7..11][0] && b[8] == b[7..11][1] && b[9] == b[7..11][2] && b[10] == b[7..11][3];
    assert b[11] == b[11..14][0] && b[12] == b[11..14][1] && b[13] == b[11..14][2];
    assert StopsAt(b, 11, 0) == StopsAt(b, 11, 2) == StopsAt(b, 11, 4) == 4;
    ScanStops(b, 11, 0);
  }
}
