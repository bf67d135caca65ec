/** The byte-level memory of the evaluator: little-endian loads and stores of 8, 32 and 64
    bits over the bytes that are known, and the safe ranges. */
module ByteMemory {
  import opened Ir
  import opened Machine
  import opened Collections

  type Bytes = map<Word, bv8>

  datatype MemRange = MemRange(start: Word, end: Word) {
    predicate Contains(addr: Word) { start <= addr && addr < end }
  }

  /** The bytes after storing `data` from byte `i` of `addr` on, one by one. */
  function StoreBytes(m: Bytes, addr: Word, i: nat, data: seq<bv8>): Bytes
    decreases |data|
  {
    if |data| == 0 then m else StoreBytes(m[At(addr, i) := data[0]], addr, i + 1, data[1..])
  }

  /** The `size` bytes from byte `i` of `addr` on, if all are known. */
  function LoadBytes(m: Bytes, addr: Word, i: nat, size: nat): (r: Option<seq<bv8>>)
    ensures r.Some? ==> |r.value| == size
    decreases size
  {
    if size == 0 then Some([])
    else if Get(m, At(addr, i)).None? then None
    else Prepend([Get(m, At(addr, i)).value], LoadBytes(m, addr, i + 1, size - 1))
  }

  function Prepend(s: seq<bv8>, rest: Option<seq<bv8>>): (r: Option<seq<bv8>>)
    ensures r.Some? <==> rest.Some?
    ensures r.Some? ==> |r.value| == |s| + |rest.value|
  {
    match rest
    case None => None
    case Some(t) => Some(s + t)
  }

  function Word64Bytes(v: Word): (r: seq<bv8>)
    ensures |r| == 8
  {
    [ByteAt(v, 0), ByteAt(v, 1), ByteAt(v, 2), ByteAt(v, 3), ByteAt(v, 4), ByteAt(v, 5), ByteAt(v, 6), ByteAt(v, 7)]
  }

  function Word64From(b: seq<bv8>): Word
    requires |b| == 8
  {
    Join(b[0], b[1], b[2], b[3], b[4], b[5], b[6], b[7])
  }

  /** The low four bytes of a word; a 32-bit value is a word below 2^32. */
  function Word32Bytes(v: Word): (r: seq<bv8>)
    ensures |r| == 4
  {
    [ByteAt(v, 0), ByteAt(v, 1), ByteAt(v, 2), ByteAt(v, 3)]
  }

  function Word32From(b: seq<bv8>): Word
    requires |b| == 4
  {
    Join(b[0], b[1], b[2], b[3], 0, 0, 0, 0)
  }

  /** What `load_u64` returns. */
  function Load(m: Bytes, addr: Word): Option<Word> {
    match LoadBytes(m, addr, 0, 8)
    case Some(b) => Some(Word64From(b))
    case None => None
  }

  function Store(m: Bytes, addr: Word, v: Word): Bytes { StoreBytes(m, addr, 0, Word64Bytes(v)) }

  // ----- what loads and stores mean -----

  lemma {:induction false} StoreBytesElsewhere(m: Bytes, a: Word, i: nat, d: seq<bv8>, x: Word)
    requires forall k :: i <= k < i + |d| ==> x != At(a, k)
    ensures Get(StoreBytes(m, a, i, d), x) == Get(m, x)
    decreases |d|
  {
    hide At;
    if |d| > 0 {
      GetPut(m, At(a, i), d[0], x);
      StoreBytesElsewhere(m[At(a, i) := d[0]], a, i + 1, d[1..], x);
    }
  }

  lemma {:induction false} StoreBytesAt(m: Bytes, a: Word, i: nat, d: seq<bv8>, k: nat)
    requires i <= k < i + |d|
    requires forall j :: k < j < i + |d| ==> At(a, k) != At(a, j)
    ensures Get(StoreBytes(m, a, i, d), At(a, k)) == Some(d[k - i])
    decreases |d|
  {
    hide At;
    var m' := m[At(a, i) := d[0]];
    if k == i {
      GetPut(m, At(a, i), d[0], At(a, i));
      StoreBytesElsewhere(m', a, i + 1, d[1..], At(a, i));
    } else {
      StoreBytesAt(m', a, i + 1, d[1..], k);
    }
  }

  lemma {:induction false} LoadBytesAt(m: Bytes, a: Word, i: nat, size: nat)
    ensures LoadBytes(m, a, i, size).Some? <==> forall k :: i <= k < i + size ==> Get(m, At(a, k)).Some?
    ensures LoadBytes(m, a, i, size).Some? ==>
              forall k :: i <= k < i + size ==> Get(m, At(a, k)) == Some(LoadBytes(m, a, i, size).value[k - i])
    decreases size
  {
    hide At;
    if size > 0 {
      LoadBytesAt(m, a, i + 1, size - 1);
      if forall k :: i <= k < i + size ==> Get(m, At(a, k)).Some? {
        assert Get(m, At(a, i)).Some?;
      }
    }
  }

  /** What a 64-bit store leaves under every address: the bytes it covers hold the value. */
  lemma StoreGet(m: Bytes, mem: Memory, a: Word, v: Word, x: Word)
    ensures Get(Store(m, a, v), x) == if Covers(a, x) then Some(Store64(mem, a, v)(x)) else Get(m, x)
  {
    hide At, ByteAt, Get, StoreBytes;
    AtApart(a);
    if Covers(a, x) {
      var k := Position(a, x);
      StoreBytesAt(m, a, 0, Word64Bytes(v), k);
    } else {
      StoreBytesElsewhere(m, a, 0, Word64Bytes(v), x);
    }
  }

  /** A load needs its eight bytes to be known, and then joins them. */
  lemma LoadGet(m: Bytes, mem: Memory, a: Word)
    requires forall x :: Covers(a, x) && Get(m, x).Some? ==> Get(m, x).value == mem(x)
    ensures Load(m, a).Some? <==> forall x :: Covers(a, x) ==> Get(m, x).Some?
    ensures Load(m, a).Some? ==> Load(m, a).value == Load64(mem, a)
  {
    hide At, Join, Get, LoadBytes;
    LoadBytesAt(m, a, 0, 8);
    assert forall k :: 0 <= k < 8 ==> Covers(a, At(a, k));
    if Load(m, a).Some? {
      forall x | Covers(a, x) ensures Get(m, x).Some? { var k := Position(a, x); }
    }
  }

  /** A 64-bit value reads back as it was stored. */
  lemma RoundTrip(m: Bytes, a: Word, v: Word)
    ensures Load(Store(m, a, v), a) == Some(v)
  {
    hide At, ByteAt, Join, Get, Store, Load, Store64, Load64;
    var mem: Memory := (x: Word) => 0;
    forall x | Covers(a, x) ensures Get(Store(m, a, v), x) == Some(Store64(mem, a, v)(x)) { StoreGet(m, mem, a, v, x); }
    LoadGet(Store(m, a, v), Store64(mem, a, v), a);
    LoadStored(mem, a, v);
  }

  /** Accesses that share no byte do not see each other. */
  lemma DisjointStore(m: Bytes, a: Word, v: Word, b: Word)
    requires !Overlap(a, b)
    ensures Load(Store(m, a, v), b) == Load(m, b)
  {
    hide At, ByteAt, Join, Get, Store, Load, Store64, Load64;
    forall x | Covers(b, x) ensures Get(Store(m, a, v), x) == Get(m, x) { StoreGet(m, y => 0, a, v, x); }
    var mem: Memory := (x: Word) => Known(m, x);
    KnownGet(m);
    LoadGet(m, mem, b);
    LoadGet(Store(m, a, v), mem, b);
  }

  function Known(m: Bytes, x: Word): bv8 { match Get(m, x) case Some(b) => b case None => 0 }

  lemma KnownGet(m: Bytes)
    ensures forall x :: Get(m, x).Some? ==> Get(m, x).value == Known(m, x)
  {}

  /** A 32-bit store replaces the low half of a 64-bit value and keeps the high half. */
  lemma PartialOverwrite(m: Bytes, a: Word, v: Word, low: Word)
    ensures Load(StoreBytes(Store(m, a, v), a, 0, Word32Bytes(low)), a)
         == Some((v & 0xFFFF_FFFF_0000_0000) | (low & 0xFFFF_FFFF))
  {
    PartialBytes(v, low);
    hide At, ByteAt, Join, Get, StoreBytes, LoadBytes;
    var s, d, w := Store(m, a, v), Word32Bytes(low), Word64Bytes(v);
    var t := StoreBytes(s, a, 0, d);
    AtApart(a);
    forall k | 0 <= k < 8 ensures Get(t, At(a, k)) == Some(if k < 4 then d[k] else w[k]) {
      StoreBytesAt(m, a, 0, w, k);
      if k < 4 { StoreBytesAt(s, a, 0, d, k); } else { StoreBytesElsewhere(s, a, 0, d, At(a, k)); }
    }
    LoadBytesAt(t, a, 0, 8);
    assert LoadBytes(t, a, 0, 8).value == [d[0], d[1], d[2], d[3], w[4], w[5], w[6], w[7]];
  }

  lemma PartialBytes(v: Word, low: Word)
    ensures Join(ByteAt(low, 0), ByteAt(low, 1), ByteAt(low, 2), ByteAt(low, 3),
                 ByteAt(v, 4), ByteAt(v, 5), ByteAt(v, 6), ByteAt(v, 7))
         == (v & 0xFFFF_FFFF_0000_0000) | (low & 0xFFFF_FFFF)
  {}

  // ----- agreement with the memory of a run -----

  /** Every known byte is what the memory holds. */
  ghost predicate Agrees(m: Bytes, mem: Memory) { forall x :: Get(m, x).Some? ==> Get(m, x).value == mem(x) }

  lemma AgreesAfterStore(m: Bytes, mem: Memory, a: Word, v: Word)
    requires Agrees(m, mem)
    ensures Agrees(Store(m, a, v), Store64(mem, a, v))
  {
    hide Store, Store64, Covers, Get;
    forall x | Get(Store(m, a, v), x).Some? ensures Get(Store(m, a, v), x).value == Store64(mem, a, v)(x) {
      StoreGet(m, mem, a, v, x);
      if !Covers(a, x) { StoreElsewhere(mem, a, v, x); }
    }
  }

  // ----- the class -----

  predicate InSafeRange(ranges: seq<MemRange>, addr: Word) {
    exists i :: 0 <= i < |ranges| && ranges[i].Contains(addr)
  }

  lemma SafeRangeAdded(ranges: seq<MemRange>, r: MemRange, addr: Word)
    ensures InSafeRange(ranges + [r], addr) <==> InSafeRange(ranges, addr) || r.Contains(addr)
  {
    var all := ranges + [r];
    assert all[|ranges|] == r;
    assert forall i :: 0 <= i < |ranges| ==> all[i] == ranges[i];
  }

  lemma PrependNone(rest: Option<seq<bv8>>)
    ensures Prepend([], rest) == rest
  {
    if rest.Some? { assert [] + rest.value == rest.value; }
  }

  lemma PrependNext(s: seq<bv8>, b: bv8, rest: Option<seq<bv8>>)
    ensures Prepend(s, Prepend([b], rest)) == Prepend(s + [b], rest)
  {
    if rest.Some? { assert s + ([b] + rest.value) == s + [b] + rest.value; }
  }

  class ByteMemory {
    var safeRanges: seq<MemRange>
    var bytes: Bytes

    constructor ()
      ensures safeRanges == [] && bytes == map[]
    {
      safeRanges, bytes := [], map[];
    }

    method AddSafeRange(start: Word, end: Word)
      modifies this`safeRanges
      ensures safeRanges == old(safeRanges) + [MemRange(start, end)]
    {
      safeRanges := safeRanges + [MemRange(start, end)];
    }

    method IsSafe(addr: Word) returns (safe: bool)
      ensures safe <==> InSafeRange(safeRanges, addr)
    {
      for i := 0 to |safeRanges|
        invariant forall k :: 0 <= k < i ==> !safeRanges[k].Contains(addr)
      {
        if safeRanges[i].Contains(addr) { return true; }
      }
      return false;
    }

    method StoreData(addr: Word, data: seq<bv8>)
      modifies this`bytes
      ensures bytes == StoreBytes(old(bytes), addr, 0, data)
    {
      hide At;
      for i := 0 to |data|
        invariant StoreBytes(bytes, addr, i, data[i..]) == StoreBytes(old(bytes), addr, 0, data)
      {
        assert data[i..][1..] == data[i + 1..];
        bytes := bytes[At(addr, i) := data[i]];
      }
    }

    method LoadData(addr: Word, size: nat) returns (r: Option<seq<bv8>>)
      ensures r == LoadBytes(bytes, addr, 0, size)
    {
      hide At;
      var result: seq<bv8> := [];
      PrependNone(LoadBytes(bytes, addr, 0, size));
      for i := 0 to size
        invariant |result| == i
        invariant LoadBytes(bytes, addr, 0, size) == Prepend(result, LoadBytes(bytes, addr, i, size - i))
      {
        var b := Get(bytes, At(addr, i));
        if b.None? { return None; }
        PrependNext(result, b.value, LoadBytes(bytes, addr, i + 1, size - i - 1));
        result := result + [b.value];
      }
      assert result + [] == result;
      return Some(result);
    }

    method LoadU64(addr: Word) returns (r: Option<Word>)
      ensures r == Load(bytes, addr)
    {
      var data := LoadData(addr, 8);
      if data.None? { return None; }
      return Some(Word64From(data.value));
    }

    method LoadU32(addr: Word) returns (r: Option<Word>)
      ensures LoadBytes(bytes, addr, 0, 4).None? ==> r.None?
      ensures LoadBytes(bytes, addr, 0, 4).Some? ==> r == Some(Word32From(LoadBytes(bytes, addr, 0, 4).value))
    {
      var data := LoadData(addr, 4);
      if data.None? { return None; }
      return Some(Word32From(data.value));
    }

    method StoreU64(addr: Word, v: Word)
      modifies this`bytes
      ensures bytes == Store(old(bytes), addr, v)
    {
      StoreData(addr, Word64Bytes(v));
    }

    method StoreU32(addr: Word, v: Word)
      modifies this`bytes
      ensures bytes == StoreBytes(old(bytes), addr, 0, Word32Bytes(v))
    {
      StoreData(addr, Word32Bytes(v));
    }
  }
}
