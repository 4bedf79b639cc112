/** The compacting send buffer of src/nty_buffer.c: SBInit, SBPut and SBRemove. */
module SendBuffers {
  import opened SeqArith

  class SendBuffer {
    const data: array<u8>
    const initSeq: u32
    var headOff: nat
    var tailOff: nat
    var len: nat
    var cumLen: nat
    var headSeq: u32
    // how many bytes have left the buffer for good
    ghost var removed: nat

    ghost predicate Valid()
      reads this
    {
      && headOff + len == tailOff <= data.Length
      && headSeq == Wrap(initSeq + removed)
      && cumLen == removed + len
    }

    ghost function Contents(): (s: seq<u8>)
      requires Valid()
      reads this, data
      ensures |s| == len
    {
      data[headOff..tailOff]
    }

    constructor (size: nat, initSeq: u32)
      ensures Valid() && fresh(data) && data.Length == size
      ensures Contents() == [] && removed == 0 && headSeq == initSeq == this.initSeq
    {
      data := new u8[size](_ => 0);
      this.initSeq, headSeq := initSeq, initSeq;
      headOff, tailOff, len, cumLen, removed := 0, 0, 0, 0, 0;
    }

    /** SBPut: appends what fits, moving the contents to the front of the memory when the tail is reached. */
    method Put(bytes: seq<u8>) returns (ret: int)
      requires Valid()
      modifies this`headOff, this`tailOff, this`len, this`cumLen, data
      ensures Valid()
      ensures ret == (if |bytes| == 0 then 0 else if old(len) == data.Length then -2
                else Min(|bytes|, data.Length - old(len)))
      ensures Contents() == old(Contents()) + bytes[..Max(ret, 0)]
      ensures headOff == if 0 < ret && data.Length <= old(tailOff) + ret then 0 else old(headOff)
    {
      if |bytes| <= 0 { return 0; }
      var toPut := Min(|bytes|, data.Length - len);
      if toPut <= 0 { return -2; }
      ghost var was := Contents();
      if tailOff + toPut < data.Length {
        forall k | 0 <= k < toPut { data[tailOff + k] := bytes[k]; }
        tailOff := tailOff + toPut;
      } else {
        forall k | 0 <= k < len { data[k] := data[headOff + k]; }
        headOff := 0;
        forall k | 0 <= k < toPut { data[len + k] := bytes[k]; }
        tailOff := len + toPut;
      }
      len := len + toPut;
      cumLen := cumLen + toPut;
      Grown(was, Contents(), bytes[..toPut]);
      return toPut;
    }

    static lemma Grown(was: seq<u8>, now: seq<u8>, more: seq<u8>)
      requires |now| == |was| + |more|
      requires forall k :: 0 <= k < |was| ==> now[k] == was[k]
      requires forall k :: 0 <= k < |more| ==> now[|was| + k] == more[k]
      ensures now == was + more
    {
    }

    /** SBRemove: drops at most `n` bytes at the front. */
    method Remove(n: nat) returns (ret: int)
      requires Valid()
      modifies this`headOff, this`tailOff, this`len, this`headSeq, this`removed
      ensures Valid()
      ensures ret == (if n == 0 then 0 else if old(len) == 0 then -2 else Min(n, old(len)))
      ensures Contents() == old(Contents())[Max(ret, 0)..] && removed == old(removed) + Max(ret, 0)
      ensures headSeq == Wrap(old(headSeq) + Max(ret, 0))
      ensures 0 < ret && len == 0 ==> headOff == tailOff == 0
    {
      hide Wrap;
      if n <= 0 {
        WrapAdd(initSeq + removed, 0);
        return 0;
      }
      var toRemove := Min(n, len);
      if toRemove <= 0 {
        WrapAdd(initSeq + removed, 0);
        return -2;
      }
      WrapAdd(initSeq + removed, toRemove);
      headOff := headOff + toRemove;
      headSeq := Wrap(headSeq + toRemove);
      len := len - toRemove;
      removed := removed + toRemove;
      if len == 0 && headOff > 0 {
        headOff, tailOff := 0, 0;
      }
      return toRemove;
    }
  }
}
