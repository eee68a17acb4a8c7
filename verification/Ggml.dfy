/** The tensor records of old GGML files (`Tensor.load` and the loop of `GGMLModel.load` in
    convert_llama_ggml_to_gguf.py): where each header and each stretch of data lies. */
module Ggml {
  import Arith
  import opened Results

  type Byte = n: int | 0 <= n < 256

  type Bytes = seq<Byte>

  /** GGML_QUANT_SIZES: for each data type the elements in a block and the bytes they take. */
  datatype BlockSize = BlockSize(elements: nat, bytes: nat)

  type Sizes = map<nat, BlockSize>

  predicate GoodSizes(sizes: Sizes) {
    forall d :: d in sizes ==> 0 < sizes[d].elements <= 256 && 0 < sizes[d].bytes
  }

  /** A record: where its header begins, what it says, and where its data lie. */
  datatype TensorInfo = TensorInfo(header: nat, name: Bytes, dims: seq<nat>, dtype: nat, start: nat, length: int)

  datatype Outcome =
    | Loaded(end: nat)
    | Refused(at: nat, error: string)   // the header at `at` is not one
    | Wrapped(at: nat)                  // the byte count of the header at `at` has wrapped round

  // ---------------------------------------------------------------- numbers

  const TWO_TO_63: int := 0x8000_0000_0000_0000
  const TWO_TO_64: int := 0x1_0000_0000_0000_0000

  /** numpy's int64 */
  function Wrap(n: int): int {
    var m := n % TWO_TO_64;
    if m < TWO_TO_63 then m else m - TWO_TO_64
  }

  function Product(dims: seq<nat>): nat {
    if dims == [] then 1 else dims[0] * Product(dims[1..])
  }

  /** The bytes as they are counted, each step in 64 bits. */
  function ByteCount(dims: seq<nat>, size: BlockSize): int
    requires size.elements > 0
  {
    Wrap(Wrap(Product(dims)) * size.bytes) / size.elements
  }

  /** The bytes the elements take. */
  function TrueCount(dims: seq<nat>, size: BlockSize): nat
    requires size.elements > 0
  {
    Product(dims) * size.bytes / size.elements
  }

  predicate Fits(dims: seq<nat>, size: BlockSize) {
    Product(dims) * size.bytes < TWO_TO_63
  }

  /** The count is right exactly if the product stays below 2 to the 63. */
  lemma CountIsRightIff(dims: seq<nat>, size: BlockSize)
    requires 0 < size.elements <= 256
    ensures ByteCount(dims, size) == TrueCount(dims, size) <==> Fits(dims, size)
  {
    var x := Product(dims) * size.bytes;
    WrapTimes(Product(dims), size.bytes);
    WrapIsLess(x);
    if x >= TWO_TO_63 { QuotientLess(Wrap(x), x, size.elements); }
  }

  lemma WrapIsLess(x: nat)
    ensures if x < TWO_TO_63 then Wrap(x) == x else Wrap(x) <= x - TWO_TO_64
  {
    var q, m := x / TWO_TO_64, x % TWO_TO_64;
    assert x == q * TWO_TO_64 + m;
    if q == 0 { assert x == m; }
  }

  lemma QuotientLess(a: int, b: int, n: int)
    requires a <= b - TWO_TO_64 && 0 < n <= 256
    ensures a / n < b / n
  {
    var q, p := a / n, b / n;
    assert a == q * n + a % n && b == p * n + b % n;
    if q >= p { Arith.TimesMono(p, q, n); }
  }

  lemma WrapTimes(p: int, n: int)
    ensures Wrap(Wrap(p) * n) == Wrap(p * n)
  {
    var k := (p - Wrap(p)) / TWO_TO_64;
    assert p - Wrap(p) == k * TWO_TO_64;
    assert p * n == Wrap(p) * n + (k * n) * TWO_TO_64 by {
      calc { p * n; (Wrap(p) + k * TWO_TO_64) * n; Wrap(p) * n + (k * n) * TWO_TO_64; }
    }
    SameRemainder(Wrap(p) * n, k * n, TWO_TO_64);
  }

  lemma SameRemainder(x: int, k: int, n: int)
    requires n > 0
    ensures (x + k * n) % n == x % n
  {
    var q, r := x / n, x % n;
    assert x + k * n == (q + k) * n + r;
    Arith.DivMod(q + k, n, r);
  }

  // ---------------------------------------------------------------- records

  /** A little-endian number of four bytes. */
  function U32(data: Bytes, at: nat): nat
    requires at + 4 <= |data|
  {
    var b0: int, b1: int, b2: int, b3: int := data[at], data[at + 1], data[at + 2], data[at + 3];
    b0 + 0x100 * b1 + 0x1_0000 * b2 + 0x100_0000 * b3
  }

  /** Its bytes, the lowest first. */
  lemma LowestFirst(data: Bytes, at: nat)
    requires at + 4 <= |data|
    ensures U32(data, at) % 0x100 == data[at] && U32(data, at) / 0x100 % 0x100 == data[at + 1]
    ensures U32(data, at) / 0x1_0000 % 0x100 == data[at + 2] && U32(data, at) / 0x100_0000 == data[at + 3]
  {
    var b0: int, b1: int, b2: int, b3: int := data[at], data[at + 1], data[at + 2], data[at + 3];
    var high, mid := b2 + 0x100 * b3, b1 + 0x100 * (b2 + 0x100 * b3);
    Arith.DivMod(mid, 0x100, b0);
    Arith.DivMod(high, 0x100, b1);
    Arith.DivMod(b3, 0x100, b2);
    Arith.DivMod(high, 0x1_0000, b0 + 0x100 * b1);
    Arith.DivMod(b3, 0x100_0000, b0 + 0x100 * b1 + 0x1_0000 * b2);
  }

  /** What a slice holds, of which the end may lie beyond the data. */
  function Slice(data: Bytes, at: nat, n: nat): (r: Bytes)
    ensures |r| == if at >= |data| then 0 else if at + n > |data| then |data| - at else n
    ensures forall k :: 0 <= k < |r| ==> r[k] == data[at + k]
  {
    if at >= |data| then [] else if at + n > |data| then data[at..] else data[at..at + n]
  }

  /** The next multiple of 32. */
  function Aligned(offset: nat): (r: nat)
    ensures offset <= r < offset + 32 && r % 32 == 0
  {
    (offset + 31) / 32 * 32
  }

  function Dims(data: Bytes, at: nat, n: nat): (r: seq<nat>)
    requires at + 4 * n <= |data|
    ensures |r| == n && forall i :: 0 <= i < n ==> r[i] == U32(data, at + 4 * i)
  {
    seq(n, i requires 0 <= i < n => U32(data, at + 4 * i))
  }

  /** There is a header at `at`. */
  predicate IsHeader(data: Bytes, at: nat, sizes: Sizes) {
    && at + 12 <= |data| && U32(data, at) <= 4 && U32(data, at + 4) < 4096 && U32(data, at + 8) in sizes
    && at + 12 + 4 * U32(data, at) <= |data|
  }

  /** Where the data of that tensor begin: after the dimensions and the name, and in newer files aligned. */
  function DataStart(data: Bytes, at: nat, padded: bool): nat
    requires at + 8 <= |data|
  {
    var afterName := at + 12 + 4 * U32(data, at) + U32(data, at + 4);
    if padded then Aligned(afterName) else afterName
  }

  /** The bytes from `at` on, as many as are wanted or as there are. */
  predicate IsName(data: Bytes, at: nat, n: nat, name: Bytes) {
    && |name| == (if at >= |data| then 0 else if n <= |data| - at then n else |data| - at)
    && forall k :: 0 <= k < |name| ==> name[k] == data[at + k]
  }

  /** `t` is the record at `at`. */
  predicate IsRecord(data: Bytes, at: nat, padded: bool, sizes: Sizes, t: TensorInfo) {
    && GoodSizes(sizes) && IsHeader(data, at, sizes)
    && t.header == at && t.dtype == U32(data, at + 8) && |t.dims| == U32(data, at)
    && (forall i :: 0 <= i < |t.dims| ==> t.dims[i] == U32(data, at + 12 + 4 * i))
    && IsName(data, at + 12 + 4 * U32(data, at), U32(data, at + 4), t.name)
    && t.start == DataStart(data, at, padded) && t.length == ByteCount(t.dims, sizes[t.dtype])
  }

  function End(t: TensorInfo): int { t.start + t.length }

  /** The records follow one another from `first` to `at`, each beginning within the data, no count wrapped round. */
  ghost predicate Chain(data: Bytes, first: nat, padded: bool, sizes: Sizes, ts: seq<TensorInfo>, at: int)
    decreases |ts|
  {
    if ts == [] then at == first
    else
      var t := ts[|ts| - 1];
      && Chain(data, first, padded, sizes, ts[..|ts| - 1], t.header) && t.header < |data|
      && IsRecord(data, t.header, padded, sizes, t) && Fits(t.dims, sizes[t.dtype]) && at == End(t)
  }

  /** The names, each with the last record that bears it. */
  ghost predicate IsIndex(ts: seq<TensorInfo>, index: map<Bytes, nat>) {
    && (forall k :: k in index ==> index[k] < |ts| && ts[index[k]].name == k)
    && forall i :: 0 <= i < |ts| ==> ts[i].name in index && i <= index[ts[i].name]
  }

  /** `Tensor.load` */
  method LoadTensor(data: Bytes, offset: nat, padded: bool, sizes: Sizes) returns (r: Result<TensorInfo>)
    requires GoodSizes(sizes)
    ensures r.Success? <==> IsHeader(data, offset, sizes)
    ensures r.Success? ==> r.value.dtype in sizes && IsRecord(data, offset, padded, sizes, r.value)
  {
    hide Aligned, ByteCount, Slice, Dims, U32;
    if offset + 12 > |data| {
      return Failure("unpack requires a buffer of 12 bytes");
    }
    var nDims, nameLen, dtype := U32(data, offset), U32(data, offset + 4), U32(data, offset + 8);
    if nDims > 4 {
      return Failure("Invalid tensor dimensions");
    }
    if nameLen >= 4096 {
      return Failure("Absurd tensor name length");
    }
    if dtype !in sizes {
      return Failure("Unknown tensor type");
    }
    var at := offset + 12;
    if at + 4 * nDims > |data| {
      return Failure("unpack requires a buffer");
    }
    var dims := Dims(data, at, nDims);
    at := at + 4 * nDims;
    var name := Slice(data, at, nameLen);
    at := at + nameLen;
    if padded {
      at := Aligned(at);
    }
    r := Success(TensorInfo(offset, name, dims, dtype, at, ByteCount(dims, sizes[dtype])));
  }

  lemma NoRecords(data: Bytes, first: nat, padded: bool, sizes: Sizes)
    ensures Chain(data, first, padded, sizes, [], first) && IsIndex([], map[])
  {
  }

  lemma NextRecord(data: Bytes, first: nat, padded: bool, sizes: Sizes, ts: seq<TensorInfo>, at: int, t: TensorInfo)
    requires 0 <= at < |data| && Chain(data, first, padded, sizes, ts, at) && IsRecord(data, at, padded, sizes, t)
    requires t.dtype in sizes && Product(t.dims) * sizes[t.dtype].bytes < TWO_TO_63
    ensures Chain(data, first, padded, sizes, ts + [t], End(t)) && End(t) > at
  {
    hide Product;
    assert (ts + [t])[..|ts|] == ts;
    RecordGrows(data, padded, sizes, t);
  }

  lemma NextIndex(ts: seq<TensorInfo>, index: map<Bytes, nat>, t: TensorInfo)
    requires IsIndex(ts, index)
    ensures IsIndex(ts + [t], index[t.name := |ts|])
  {
  }

  /** The record at `at` has a byte count that wraps round. */
  ghost predicate CountWraps(data: Bytes, at: nat, padded: bool, sizes: Sizes) {
    exists t :: IsRecord(data, at, padded, sizes, t) && !Fits(t.dims, sizes[t.dtype])
  }

  lemma NotFitting(data: Bytes, at: nat, padded: bool, sizes: Sizes, t: TensorInfo)
    requires IsRecord(data, at, padded, sizes, t)
    requires t.dtype in sizes && Product(t.dims) * sizes[t.dtype].bytes >= TWO_TO_63
    ensures CountWraps(data, at, padded, sizes)
  {
    hide IsHeader, Product;
    assert !Fits(t.dims, sizes[t.dtype]);
  }

  /** Header, padding and data follow one another; in newer files the data are aligned. */
  lemma RecordGrows(data: Bytes, padded: bool, sizes: Sizes, t: TensorInfo)
    requires IsRecord(data, t.header, padded, sizes, t) && Fits(t.dims, sizes[t.dtype])
    ensures t.header + 12 <= t.start <= End(t) && t.length == TrueCount(t.dims, sizes[t.dtype])
    ensures padded ==> t.start % 32 == 0 && t.start < t.header + 12 + 4 * |t.dims| + U32(data, t.header + 4) + 32
  {
    CountIsRightIff(t.dims, sizes[t.dtype]);
  }

  // ---------------------------------------------------------------- what a chain of records is

  /** Two chains from the same place go the same way: reading is determined by the bytes. */
  lemma {:induction false} SameWay(data: Bytes, first: nat, padded: bool, sizes: Sizes, ts: seq<TensorInfo>, at: int,
                                   us: seq<TensorInfo>, to: int)
    requires Chain(data, first, padded, sizes, ts, at) && Chain(data, first, padded, sizes, us, to) && |ts| <= |us|
    ensures ts == us[..|ts|] && if |ts| < |us| then at < |data| else at == to
    decreases |us|
  {
    hide IsRecord, Fits;
    if us != [] {
      var u, front := us[|us| - 1], us[..|us| - 1];
      if |ts| < |us| {
        SameWay(data, first, padded, sizes, ts, at, front, u.header);
        assert us[..|ts|] == front[..|ts|];
      } else {
        var t := ts[|ts| - 1];
        SameWay(data, first, padded, sizes, ts[..|ts| - 1], t.header, front, u.header);
        SameRecord(data, padded, sizes, t, u);
        assert us == front + [u] && ts == ts[..|ts| - 1] + [t];
      }
    }
  }

  lemma SameRecord(data: Bytes, padded: bool, sizes: Sizes, t: TensorInfo, u: TensorInfo)
    requires IsRecord(data, t.header, padded, sizes, t) && IsRecord(data, u.header, padded, sizes, u)
    requires t.header == u.header
    ensures t == u
  {
    hide U32, DataStart, ByteCount, IsName;
    SameName(data, t.header + 12 + 4 * U32(data, t.header), U32(data, t.header + 4), t.name, u.name);
    assert t.dims == u.dims;
  }

  lemma SameName(data: Bytes, at: nat, n: nat, name: Bytes, name': Bytes)
    requires IsName(data, at, n, name) && IsName(data, at, n, name')
    ensures name == name'
  {
  }

  /** Loading is all there is to it: a file is loaded exactly if records use up its bytes, and then they are these. */
  lemma OneReading(data: Bytes, first: nat, padded: bool, sizes: Sizes, ts: seq<TensorInfo>, at: int,
                   us: seq<TensorInfo>, to: int)
    requires Chain(data, first, padded, sizes, ts, at) && Chain(data, first, padded, sizes, us, to)
    requires at >= |data| && to >= |data|
    ensures ts == us && at == to
  {
    if |ts| <= |us| {
      SameWay(data, first, padded, sizes, ts, at, us, to);
    } else {
      SameWay(data, first, padded, sizes, us, to, ts, at);
    }
  }

  predicate Holds(t: TensorInfo, p: int) { t.header <= p < End(t) }

  /** Records tile the bytes from the first header to the end: each byte belongs to exactly one. */
  lemma {:induction false} Tiling(data: Bytes, first: nat, padded: bool, sizes: Sizes, ts: seq<TensorInfo>, at: int,
                                  p: int)
    requires Chain(data, first, padded, sizes, ts, at)
    ensures first <= at
    ensures first <= p < at <==> exists i :: 0 <= i < |ts| && Holds(ts[i], p)
    ensures forall i, j :: 0 <= i < j < |ts| ==> !(Holds(ts[i], p) && Holds(ts[j], p))
    decreases |ts|
  {
    hide IsRecord, Fits;
    if ts != [] {
      var front, t := ts[..|ts| - 1], ts[|ts| - 1];
      Tiling(data, first, padded, sizes, front, t.header, p);
      RecordGrows(data, padded, sizes, t);
      if first <= p < at && p < t.header {
        var i :| 0 <= i < |front| && Holds(front[i], p);
        assert Holds(ts[i], p);
      }
      if i :| 0 <= i < |ts| && Holds(ts[i], p) {
        assert i < |front| ==> Holds(front[i], p);
      }
      forall i | 0 <= i < |front| ensures !(Holds(ts[i], p) && Holds(t, p)) {
        assert Holds(front[i], p) <==> Holds(ts[i], p);
      }
    }
  }

  lemma {:induction false} ChainPrefix(data: Bytes, first: nat, padded: bool, sizes: Sizes, ts: seq<TensorInfo>,
      at: int, k: nat)
    requires Chain(data, first, padded, sizes, ts, at) && k < |ts|
    ensures Chain(data, first, padded, sizes, ts[..k], ts[k].header) && ts[k].header < |data|
    ensures IsRecord(data, ts[k].header, padded, sizes, ts[k]) && Fits(ts[k].dims, sizes[ts[k].dtype])
    decreases |ts|
  {
    if k < |ts| - 1 {
      var front, t := ts[..|ts| - 1], ts[|ts| - 1];
      ChainPrefix(data, first, padded, sizes, front, t.header, k);
      assert front[..k] == ts[..k] && front[k] == ts[k];
    }
  }

  /** Where records use up the bytes, every place a chain gets to before the end has a header whose count fits: the loop
      is neither refused nor led astray there. */
  lemma GoesOn(data: Bytes, first: nat, padded: bool, sizes: Sizes, ts: seq<TensorInfo>, at: nat, us: seq<TensorInfo>,
               to: int)
    requires Chain(data, first, padded, sizes, ts, at) && at < |data|
    requires Chain(data, first, padded, sizes, us, to) && to >= |data|
    ensures IsHeader(data, at, sizes) && !CountWraps(data, at, padded, sizes)
  {
    if |us| <= |ts| {
      SameWay(data, first, padded, sizes, us, to, ts, at);
    } else {
      ChainPrefix(data, first, padded, sizes, us, to, |ts|);
      SameWay(data, first, padded, sizes, ts, at, us[..|ts|], us[|ts|].header);
      forall t | IsRecord(data, at, padded, sizes, t) ensures t == us[|ts|] {
        SameRecord(data, padded, sizes, t, us[|ts|]);
      }
    }
  }

  /** The bytes from `first` on are used up by records. */
  ghost predicate Readable(data: Bytes, first: nat, padded: bool, sizes: Sizes) {
    exists ts, to :: Chain(data, first, padded, sizes, ts, to) && to >= |data|
  }

  lemma NotReadable(data: Bytes, first: nat, padded: bool, sizes: Sizes, ts: seq<TensorInfo>, at: nat)
    requires Chain(data, first, padded, sizes, ts, at) && at < |data|
    requires !IsHeader(data, at, sizes) || CountWraps(data, at, padded, sizes)
    ensures !Readable(data, first, padded, sizes)
  {
    forall us, to | Chain(data, first, padded, sizes, us, to) ensures to < |data| {
      if to >= |data| { GoesOn(data, first, padded, sizes, ts, at, us, to); }
    }
  }

  class GgmlModel {
    var tensors: seq<TensorInfo>
    var tensorMap: map<Bytes, nat>

    constructor ()
      ensures tensors == [] && tensorMap == map[]
    {
      tensors, tensorMap := [], map[];
    }

    /** The loop of `GGMLModel.load`: records from the end of the vocabulary on until the data are used up. Where a
        byte count has wrapped round the model stops; what the loop reads then is not followed. */
    method LoadTensors(data: Bytes, first: nat, padded: bool, sizes: Sizes) returns (r: Outcome)
      requires GoodSizes(sizes)
      modifies this
      ensures r.Loaded? <==> Readable(data, first, padded, sizes)
      ensures r.Loaded? ==>
                Chain(data, first, padded, sizes, tensors, r.end) && |data| <= r.end && IsIndex(tensors, tensorMap)
      ensures !r.Loaded? ==> tensors == old(tensors) && tensorMap == old(tensorMap) && r.at < |data|
      ensures !r.Loaded? ==> exists ts :: Chain(data, first, padded, sizes, ts, r.at)
      ensures r.Refused? ==> !IsHeader(data, r.at, sizes)
      ensures r.Wrapped? ==> CountWraps(data, r.at, padded, sizes)
    {
      hide IsRecord, Chain, IsIndex, Fits, Product, IsHeader;
      NoRecords(data, first, padded, sizes);
      var offset := first;
      var ts: seq<TensorInfo>, index: map<Bytes, nat> := [], map[];
      while offset < |data|
        invariant Chain(data, first, padded, sizes, ts, offset) && IsIndex(ts, index)
        invariant tensors == old(tensors) && tensorMap == old(tensorMap)
        decreases |data| - offset
      {
        var t := LoadTensor(data, offset, padded, sizes);
        if t.Failure? {
          NotReadable(data, first, padded, sizes, ts, offset);
          return Refused(offset, t.error);
        }
        var size := sizes[t.value.dtype];
        if Product(t.value.dims) * size.bytes >= TWO_TO_63 {
          NotFitting(data, offset, padded, sizes, t.value);
          NotReadable(data, first, padded, sizes, ts, offset);
          return Wrapped(offset);
        }
        NextRecord(data, first, padded, sizes, ts, offset, t.value);
        NextIndex(ts, index, t.value);
        index := index[t.value.name := |ts|];
        ts := ts + [t.value];
        offset := t.value.start + t.value.length;
      }
      tensors, tensorMap := ts, index;
      r := Loaded(offset);
    }
  }
}
