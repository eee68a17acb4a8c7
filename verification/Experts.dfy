/** Collecting the tensors of experts, block by block, until all are there and can be stacked: `_experts` in
    `LlamaModel.modify_tensors` and `prepare_tensors` of convert_hf_to_gguf.py. */
module Experts {
  import Decimal

  datatype Option<T> = None | Some(value: T)

  /** The matrices of each expert. */
  const WIDS := ["w1", "w2", "w3"]

  function Name(bid: nat, xid: nat, w: nat): string
    requires w < 3
  {
    Prefix(bid) + (Decimal.Dec(xid) + Suffix(w))
  }

  function Prefix(bid: nat): string { "model.layers." + Decimal.Dec(bid) + ".block_sparse_moe.experts." }

  function Suffix(w: nat): string
    requires w < 3
  {
    "." + WIDS[w] + ".weight"
  }

  /** The name of a matrix of an expert, spelled out. */
  lemma Spelled(bid: nat, xid: nat, w: nat)
    requires w < 3
    ensures Name(bid, xid, w) == "model.layers." + Decimal.Dec(bid) + ".block_sparse_moe.experts." + Decimal.Dec(xid)
                                 + (if w == 0 then ".w1.weight" else if w == 1 then ".w2.weight" else ".w3.weight")
  {
    assert Suffix(0) == ".w1.weight" && Suffix(1) == ".w2.weight" && Suffix(2) == ".w3.weight";
  }

  /** A stacked tensor: those of all the experts in order. */
  datatype Merged<T> = Merged(bid: nat, w: nat, parts: seq<T>)

  type Buffers<T> = seq<map<string, T>>

  // ---------------------------------------------------------------- names tell experts and matrices apart

  lemma {:induction false} DigitsThenDot(d: string, e: string, r: string, s: string)
    requires Decimal.Digits(d) && Decimal.Digits(e) && r != "" && r[0] == '.' && s != "" && s[0] == '.'
    requires d + r == e + s
    ensures d == e && r == s
  {
    var t := d + r;
    assert d == t[..|d|] && e == t[..|e|] && r == t[|d|..] && s == t[|e|..];
  }

  lemma SuffixesDiffer(w: nat, v: nat)
    requires w < 3 && v < 3
    ensures Suffix(w) != "" && Suffix(w)[0] == '.' && (Suffix(w) == Suffix(v) ==> w == v)
  {
    assert Suffix(w)[2] == WIDS[w][1] && Suffix(v)[2] == WIDS[v][1];
  }

  lemma NamesDiffer(bid: nat, x: nat, w: nat, y: nat, v: nat)
    requires w < 3 && v < 3 && Name(bid, x, w) == Name(bid, y, v)
    ensures x == y && w == v
  {
    hide Prefix, Suffix;
    var p, m, n := Prefix(bid), Decimal.Dec(x) + Suffix(w), Decimal.Dec(y) + Suffix(v);
    assert (p + m)[|p|..] == m && (p + n)[|p|..] == n;
    Decimal.DecCanonical(x);
    Decimal.DecCanonical(y);
    SuffixesDiffer(w, v);
    SuffixesDiffer(v, w);
    DigitsThenDot(Decimal.Dec(x), Decimal.Dec(y), Suffix(w), Suffix(v));
  }

  ghost function Expected(bid: nat, n: nat): set<string> {
    set x: nat, w: nat | x < n && w < 3 :: Name(bid, x, w)
  }

  /** Three names for each expert. */
  lemma {:induction false} ExpectedSize(bid: nat, n: nat)
    ensures |Expected(bid, n)| == 3 * n
  {
    if n == 0 {
      assert Expected(bid, 0) == {};
    } else {
      hide Expected;
      ExpectedSize(bid, n - 1);
      SizeNext(bid, n - 1);
    }
  }

  ghost function NamesOf(bid: nat, x: nat): set<string> { {Name(bid, x, 0), Name(bid, x, 1), Name(bid, x, 2)} }

  lemma UnionSize(a: set<string>, b: set<string>)
    requires a !! b
    ensures |a + b| == |a| + |b|
  {
  }

  lemma SizeNext(bid: nat, n: nat)
    ensures |Expected(bid, n + 1)| == |Expected(bid, n)| + 3
  {
    hide NamesOf, Expected;
    ThreeMore(bid, n);
    ExpectedNext(bid, n);
    UnionSize(Expected(bid, n), NamesOf(bid, n));
  }

  lemma ExpectedNext(bid: nat, n: nat)
    ensures Expected(bid, n + 1) == Expected(bid, n) + NamesOf(bid, n)
  {
    hide Name;
  }

  lemma ThreeMore(bid: nat, n: nat)
    ensures |NamesOf(bid, n)| == 3 && Expected(bid, n) !! NamesOf(bid, n)
  {
    hide Name;
    forall x: nat, w: nat | x < n && w < 3 ensures Name(bid, x, w) !in NamesOf(bid, n) {
      if Name(bid, x, w) == Name(bid, n, 0) { NamesDiffer(bid, x, w, n, 0); }
      if Name(bid, x, w) == Name(bid, n, 1) { NamesDiffer(bid, x, w, n, 1); }
      if Name(bid, x, w) == Name(bid, n, 2) { NamesDiffer(bid, x, w, n, 2); }
    }
    if Name(bid, n, 0) == Name(bid, n, 1) { NamesDiffer(bid, n, 0, n, 1); }
    if Name(bid, n, 0) == Name(bid, n, 2) { NamesDiffer(bid, n, 0, n, 2); }
    if Name(bid, n, 1) == Name(bid, n, 2) { NamesDiffer(bid, n, 1, n, 2); }
  }

  lemma {:induction false} SubsetSize<T>(a: set<T>, b: set<T>)
    requires a <= b
    ensures |a| <= |b| && (|a| == |b| ==> a == b)
  {
    assert b == a + (b - a);
    assert |b| == |a| + |b - a|;
  }

  // ---------------------------------------------------------------- one tensor

  ghost function Triple<T>(bid: nat, n: nat, d: map<string, T>): seq<Merged<T>>
    requires Expected(bid, n) <= d.Keys
  {
    seq(3, w requires 0 <= w < 3 => Merged(bid, w, Stack(bid, n, d, w)))
  }

  /** The tensors of matrix `w`, in the order of the experts. */
  ghost function Stack<T>(bid: nat, n: nat, d: map<string, T>, w: nat): seq<T>
    requires w < 3 && Expected(bid, n) <= d.Keys
  {
    seq(n, x requires 0 <= x < n => assert Name(bid, x, w) in Expected(bid, n); d[Name(bid, x, w)])
  }

  /** What one call does: the new buffers and the tensors it yields; nothing if a name is missing when there are
      enough. */
  ghost function Step<T>(n: nat, bufs: Buffers<T>, bid: nat, name: string, data: T): Option<(Buffers<T>,
      seq<Merged<T>>)>
    requires bid < |bufs|
  {
    var d := bufs[bid][name := data];
    if |d| < 3 * n then Some((bufs[bid := d], []))
    else if Expected(bid, n) <= d.Keys then Some((bufs[bid := d - Expected(bid, n)], Triple(bid, n, d)))
    else None
  }

  class ExpertCollector<T> {
    const n: nat
    var experts: Buffers<T>

    constructor (n: nat, blocks: nat)
      ensures this.n == n && experts == seq(blocks, _ => map[])
    {
      this.n := n;
      experts := seq(blocks, _ => map[]);
    }

    /** The tensors of one matrix, in order, each deleted when it has been read. */
    method TakeMatrix(bid: nat, w: nat, ghost d: map<string, T>,
        ghost before: Buffers<T>) returns (datas: Option<seq<T>>)
      requires bid < |before| && w < 3
      requires experts == before[bid := d - Taken(bid, n, w, 0)] && Taken(bid, n, w, 0) <= d.Keys
      modifies this
      ensures datas.None? ==> !(Expected(bid, n) <= d.Keys)
      ensures datas.Some? ==> experts == before[bid := d - Taken(bid, n, w + 1, 0)] && Taken(bid, n, w + 1, 0) <= d.Keys
                              && StackOf(datas.value, bid, n, d, w)
    {
      hide Name, Expected, Taken;
      var ts: seq<T> := [];
      for x := 0 to n
        invariant experts == before[bid := d - Taken(bid, n, w, x)] && Taken(bid, n, w, x) <= d.Keys
        invariant StackOf(ts, bid, x, d, w)
      {
        var ename := Name(bid, x, w);
        NotTaken(bid, n, w, x);
        if ename !in experts[bid] {
          IsExpected(bid, n, w, x);
          return None;
        }
        ts := ts + [experts[bid][ename]];
        experts := experts[bid := experts[bid] - {ename}];
        TakeOne(bid, n, w, x);
        assert d - Taken(bid, n, w, x) - {ename} == d - Taken(bid, n, w, x + 1);
      }
      TakeAll(bid, n, w);
      datas := Some(ts);
    }

    /** The part of `modify_tensors` for experts. */
    method ModifyTensors(name: string, bid: nat, data: T) returns (r: Option<seq<Merged<T>>>)
      requires bid < |experts|
      modifies this
      ensures var s := Step(n, old(experts), bid, name, data);
              if s.None? then r.None? else r == Some(s.value.1) && experts == s.value.0
    {
      hide Name, Expected, Taken, Triple, StackOf;
      experts := experts[bid := experts[bid][name := data]];
      ghost var d, before := experts[bid], experts;
      if |experts[bid]| < 3 * n {
        return Some([]);
      }
      var tensors: seq<Merged<T>> := [];
      NoneTaken(bid, n, d);
      for w := 0 to 3
        invariant experts == before[bid := d - Taken(bid, n, w, 0)] && Taken(bid, n, w, 0) <= d.Keys
        invariant |tensors| == w
        invariant forall v: nat :: v < w ==>
                    tensors[v].bid == bid && tensors[v].w == v && StackOf(tensors[v].parts, bid, n, d, v)
      {
        var datas := TakeMatrix(bid, w, d, before);
        if datas.None? {
          return None;
        }
        tensors := tensors + [Merged(bid, w, datas.value)];
      }
      AllTaken(bid, n);
      IsTriple(tensors, bid, n, d);
      r := Some(tensors);
    }
  }

  /** The names deleted when matrix `w` is at expert `x`. */
  ghost function Taken(bid: nat, n: nat, w: nat, x: nat): set<string> {
    set y: nat, v: nat | y < n && v < 3 && (v < w || (v == w && y < x)) :: Name(bid, y, v)
  }

  ghost predicate StackOf<T>(parts: seq<T>, bid: nat, k: nat, d: map<string, T>, w: nat) {
    |parts| == k && forall x: nat :: x < k ==> w < 3 && Name(bid, x, w) in d && parts[x] == d[Name(bid, x, w)]
  }

  lemma NoneTaken<T>(bid: nat, n: nat, d: map<string, T>)
    ensures Taken(bid, n, 0, 0) == {} && d - {} == d
  {
  }

  lemma IsExpected(bid: nat, n: nat, w: nat, x: nat)
    requires w < 3 && x < n
    ensures Name(bid, x, w) in Expected(bid, n)
  {
  }

  lemma IsTriple<T>(tensors: seq<Merged<T>>, bid: nat, n: nat, d: map<string, T>)
    requires |tensors| == 3 && Expected(bid, n) <= d.Keys
    requires forall v: nat :: v < 3 ==>
               tensors[v].bid == bid && tensors[v].w == v && StackOf(tensors[v].parts, bid, n, d, v)
    ensures tensors == Triple(bid, n, d)
  {
    hide Name;
    forall v: nat | v < 3 ensures tensors[v].parts == Stack(bid, n, d, v) {
      assert StackOf(tensors[v].parts, bid, n, d, v);
    }
  }

  lemma NotTaken(bid: nat, n: nat, w: nat, x: nat)
    requires w < 3 && x < n
    ensures Name(bid, x, w) !in Taken(bid, n, w, x)
  {
    forall y: nat, v: nat | y < n && v < 3 && Name(bid, y, v) == Name(bid, x, w) ensures y == x && v == w {
      NamesDiffer(bid, y, v, x, w);
    }
  }

  lemma TakeOne(bid: nat, n: nat, w: nat, x: nat)
    requires w < 3 && x < n
    ensures Taken(bid, n, w, x + 1) == Taken(bid, n, w, x) + {Name(bid, x, w)}
  {
  }

  lemma TakeAll(bid: nat, n: nat, w: nat)
    requires w < 3
    ensures Taken(bid, n, w + 1, 0) == Taken(bid, n, w, n)
  {
  }

  lemma AllTaken(bid: nat, n: nat)
    ensures Taken(bid, n, 3, 0) == Expected(bid, n)
  {
  }

  // ---------------------------------------------------------------- whole conversions

  datatype Arrival<T> = Arrival(bid: nat, xid: nat, w: nat, data: T)

  predicate InBounds<T>(arrivals: seq<Arrival<T>>, n: nat, blocks: nat) {
    forall i :: 0 <= i < |arrivals| ==> arrivals[i].bid < blocks && arrivals[i].xid < n && arrivals[i].w < 3
  }

  predicate SameKey<T>(a: Arrival<T>, b: Arrival<T>) { a.bid == b.bid && a.xid == b.xid && a.w == b.w }

  /** No tensor comes twice. */
  predicate OnceEach<T>(arrivals: seq<Arrival<T>>, n: nat, blocks: nat) {
    InBounds(arrivals, n, blocks) && forall i, j :: 0 <= i < j < |arrivals| ==> !SameKey(arrivals[i], arrivals[j])
  }

  /** All calls one after the other: the buffers at the end, and everything yielded. */
  ghost function Run<T>(n: nat, blocks: nat, arrivals: seq<Arrival<T>>): Option<(Buffers<T>, seq<Merged<T>>)>
    requires InBounds(arrivals, n, blocks)
    ensures Run(n, blocks, arrivals).Some? ==> |Run(n, blocks, arrivals).value.0| == blocks
  {
    if arrivals == [] then Some((seq(blocks, _ => map[]), []))
    else
      var a := arrivals[|arrivals| - 1];
      var r := Run(n, blocks, arrivals[..|arrivals| - 1]);
      if r.None? then None
      else
        var s := Step(n, r.value.0, a.bid, Name(a.bid, a.xid, a.w), a.data);
        if s.None? then None else Some((s.value.0, r.value.1 + s.value.1))
  }

  /** What has arrived for a block, by name. */
  ghost function Got<T>(arrivals: seq<Arrival<T>>, b: nat, n: nat, blocks: nat): map<string, T>
    requires InBounds(arrivals, n, blocks)
  {
    if arrivals == [] then map[]
    else
      var a, rest := arrivals[|arrivals| - 1], Got(arrivals[..|arrivals| - 1], b, n, blocks);
      if a.bid == b then rest[Name(b, a.xid, a.w) := a.data] else rest
  }

  ghost predicate Complete<T>(arrivals: seq<Arrival<T>>, b: nat, n: nat, blocks: nat)
    requires InBounds(arrivals, n, blocks)
  {
    Expected(b, n) <= Got(arrivals, b, n, blocks).Keys
  }

  predicate Arrived<T>(arrivals: seq<Arrival<T>>, b: nat, x: nat, w: nat) {
    exists i :: 0 <= i < |arrivals| && arrivals[i].bid == b && arrivals[i].xid == x && arrivals[i].w == w
  }

  /** What was yielded for a block. */
  ghost function For<T>(ms: seq<Merged<T>>, b: nat): seq<Merged<T>> {
    if ms == [] then [] else For(ms[..|ms| - 1], b) + if ms[|ms| - 1].bid == b then [ms[|ms| - 1]] else []
  }

  lemma {:induction false} GotIsArrived<T>(arrivals: seq<Arrival<T>>, b: nat, n: nat, blocks: nat, x: nat, w: nat)
    requires InBounds(arrivals, n, blocks) && w < 3
    ensures Got(arrivals, b, n, blocks).Keys <= Expected(b, n)
    ensures Name(b, x, w) in Got(arrivals, b, n, blocks) <==> Arrived(arrivals, b, x, w)
    decreases |arrivals|
  {
    hide Name;
    if arrivals != [] {
      var front, a := arrivals[..|arrivals| - 1], arrivals[|arrivals| - 1];
      GotIsArrived(front, b, n, blocks, x, w);
      if a.bid == b {
        IsExpected(b, n, a.w, a.xid);
        if Name(b, a.xid, a.w) == Name(b, x, w) { NamesDiffer(b, a.xid, a.w, x, w); }
      }
      assert forall i :: 0 <= i < |front| ==> arrivals[i] == front[i];
    }
  }

  lemma {:induction false} ForAppend<T>(ms: seq<Merged<T>>, ns: seq<Merged<T>>, b: nat)
    ensures For(ms + ns, b) == For(ms, b) + For(ns, b)
  {
    if ns == [] {
      assert ms + ns == ms;
    } else {
      assert (ms + ns)[..|ms + ns| - 1] == ms + ns[..|ns| - 1];
      ForAppend(ms, ns[..|ns| - 1], b);
    }
  }

  lemma ForTriple<T>(bid: nat, n: nat, d: map<string, T>, b: nat)
    requires Expected(bid, n) <= d.Keys
    ensures For(Triple(bid, n, d), b) == if b == bid then Triple(bid, n, d) else []
  {
    var t := Triple(bid, n, d);
    var none: seq<Merged<T>> := [];
    assert t == [] + [t[0]] + [t[1]] + [t[2]];
    ForAppend(none + [t[0]] + [t[1]], [t[2]], b);
    ForAppend(none + [t[0]], [t[1]], b);
    ForOne(t[0], b);
    ForOne(t[1], b);
    ForOne(t[2], b);
    assert none + [t[0]] == [t[0]];
  }

  lemma ForOne<T>(m: Merged<T>, b: nat)
    ensures For([m], b) == if m.bid == b then [m] else []
  {
    assert [m][..0] == [];
  }

  /** The state of block `b` after the arrivals `arrivals`. */
  ghost predicate BlockState<T>(n: nat, blocks: nat, arrivals: seq<Arrival<T>>, bufs: Buffers<T>, ms: seq<Merged<T>>,
      b: nat)
    requires InBounds(arrivals, n, blocks) && b < |bufs|
  {
    var d := Got(arrivals, b, n, blocks);
    if Expected(b, n) <= d.Keys then bufs[b] == map[] && For(ms, b) == Triple(b, n, d)
    else bufs[b] == d && For(ms, b) == []
  }

  lemma OtherBlock<T>(n: nat, blocks: nat, arrivals: seq<Arrival<T>>, bufs: Buffers<T>, ms: seq<Merged<T>>, b: nat,
                      bufs': Buffers<T>, more: seq<Merged<T>>)
    requires OnceEach(arrivals, n, blocks) && arrivals != [] && b < |bufs| == |bufs'|
             && arrivals[|arrivals| - 1].bid != b && bufs'[b] == bufs[b]
    requires BlockState(n, blocks, arrivals[..|arrivals| - 1], bufs, ms, b) && For(more, b) == []
    ensures BlockState(n, blocks, arrivals, bufs', ms + more, b)
  {
    ForAppend(ms, more, b);
  }

  /** The block the last tensor is for. */
  lemma ThisBlock<T>(n: nat, blocks: nat, arrivals: seq<Arrival<T>>, bufs: Buffers<T>, ms: seq<Merged<T>>)
    requires OnceEach(arrivals, n, blocks) && arrivals != [] && |bufs| == blocks
    requires var a := arrivals[|arrivals| - 1]; BlockState(n, blocks, arrivals[..|arrivals| - 1], bufs, ms, a.bid)
    ensures var a := arrivals[|arrivals| - 1];
            var s := Step(n, bufs, a.bid, Name(a.bid, a.xid, a.w), a.data);
            && s.Some? && |s.value.0| == blocks && BlockState(n, blocks, arrivals, s.value.0, ms + s.value.1, a.bid)
            && (forall b :: 0 <= b < blocks && b != a.bid ==> s.value.0[b] == bufs[b])
            && (s.value.1 == [] || (Complete(arrivals, a.bid, n, blocks)
               && s.value.1 == Triple(a.bid, n, Got(arrivals, a.bid, n, blocks))))
  {
    hide Name, Expected, For, Triple;
    var front, a := arrivals[..|arrivals| - 1], arrivals[|arrivals| - 1];
    var b := a.bid;
    var name := Name(b, a.xid, a.w);
    var d0, d := Got(front, b, n, blocks), Got(arrivals, b, n, blocks);
    GotIsArrived(front, b, n, blocks, a.xid, a.w);
    GotIsArrived(arrivals, b, n, blocks, a.xid, a.w);
    assert forall i :: 0 <= i < |front| ==> front[i] == arrivals[i] && !SameKey(arrivals[i], arrivals[|arrivals| - 1]);
    assert name !in d0;
    IsExpected(b, n, a.w, a.xid);
    assert bufs[b] == d0 && d == d0[name := a.data];
    ExpectedSize(b, n);
    SubsetSize(d.Keys, Expected(b, n));
    assert |d| == |d.Keys|;
    if Expected(b, n) <= d.Keys {
      assert d - Expected(b, n) == map[];
      ForTriple(b, n, d, b);
      ForAppend(ms, Triple(b, n, d), b);
    } else {
      assert ms + [] == ms;
    }
  }

  /** Whatever the order of arrival and however the blocks interleave: a block that has all its tensors has been yielded
      once, stacked in the order of the experts, and holds nothing any more; any other has yielded nothing and holds
      exactly what arrived for it. */
  lemma {:induction false} AnyOrder<T>(n: nat, blocks: nat, arrivals: seq<Arrival<T>>)
    requires n > 0 && OnceEach(arrivals, n, blocks)
    ensures Run(n, blocks, arrivals).Some?
    ensures forall b: nat :: b < blocks ==>
            BlockState(n, blocks, arrivals, Run(n, blocks, arrivals).value.0, Run(n, blocks, arrivals).value.1, b)
    decreases |arrivals|
  {
    hide Name, Step, Triple;
    if arrivals == [] {
      forall b: nat | b < blocks ensures BlockState(n, blocks, arrivals, Run(n, blocks, arrivals).value.0, Run(n,
          blocks, arrivals).value.1, b) {
        IsExpected(b, n, 0, 0);
      }
    } else {
      var front, a := arrivals[..|arrivals| - 1], arrivals[|arrivals| - 1];
      AnyOrder(n, blocks, front);
      var bufs, ms := Run(n, blocks, front).value.0, Run(n, blocks, front).value.1;
      ThisBlock(n, blocks, arrivals, bufs, ms);
      var s := Step(n, bufs, a.bid, Name(a.bid, a.xid, a.w), a.data).value;
      forall b: nat | b < blocks && b != a.bid ensures BlockState(n, blocks, arrivals, s.0, ms + s.1, b) {
        if s.1 != [] { ForTriple(a.bid, n, Got(arrivals, a.bid, n, blocks), b); }
        OtherBlock(n, blocks, arrivals, bufs, ms, b, s.0, s.1);
      }
    }
  }

  /** What arrived under a name is what is stored. */
  lemma {:induction false} GotData<T>(arrivals: seq<Arrival<T>>, n: nat, blocks: nat, i: nat)
    requires OnceEach(arrivals, n, blocks) && i < |arrivals|
    ensures var a := arrivals[i];
            var d := Got(arrivals, a.bid, n, blocks);
            Name(a.bid, a.xid, a.w) in d && d[Name(a.bid, a.xid, a.w)] == a.data
    decreases |arrivals|
  {
    hide Name;
    var front, last := arrivals[..|arrivals| - 1], arrivals[|arrivals| - 1];
    if i < |front| {
      GotData(front, n, blocks, i);
      assert front[i] == arrivals[i] && !SameKey(arrivals[i], last);
      if last.bid == arrivals[i].bid && Name(last.bid, last.xid, last.w) == Name(last.bid, arrivals[i].xid,
          arrivals[i].w) {
        NamesDiffer(last.bid, last.xid, last.w, arrivals[i].xid, arrivals[i].w);
      }
    }
  }

  /** The final check: no buffer holds anything. It passes exactly if every block that received a tensor received
      all. */
  lemma FinalCheck<T>(n: nat, blocks: nat, arrivals: seq<Arrival<T>>)
    requires n > 0 && OnceEach(arrivals, n, blocks)
    ensures Run(n, blocks, arrivals).Some?
    ensures (forall b: nat :: b < blocks ==> Run(n, blocks, arrivals).value.0[b] == map[])
            <==> forall b: nat :: b < blocks ==>
                Complete(arrivals, b, n, blocks) || Got(arrivals, b, n, blocks) == map[]
  {
    AnyOrder(n, blocks, arrivals);
    forall b: nat | b < blocks
      ensures Run(n, blocks, arrivals).value.0[b] == map[] <==>
                Complete(arrivals, b, n, blocks) || Got(arrivals, b, n, blocks) == map[]
    {
      assert BlockState(n, blocks, arrivals, Run(n, blocks, arrivals).value.0, Run(n, blocks, arrivals).value.1, b);
    }
  }

  lemma SameGot<T>(arrivals: seq<Arrival<T>>, others: seq<Arrival<T>>, b: nat, n: nat, blocks: nat)
    requires OnceEach(arrivals, n, blocks) && OnceEach(others, n, blocks)
    requires forall a: Arrival<T> :: a in arrivals <==> a in others
    ensures Got(arrivals, b, n, blocks) == Got(others, b, n, blocks)
  {
    hide Name;
    GotWithin(arrivals, others, b, n, blocks);
    GotWithin(others, arrivals, b, n, blocks);
  }

  lemma GotWithin<T>(arrivals: seq<Arrival<T>>, others: seq<Arrival<T>>, b: nat, n: nat, blocks: nat)
    requires OnceEach(arrivals, n, blocks) && OnceEach(others, n, blocks)
    requires forall a: Arrival<T> :: a in arrivals ==> a in others
    ensures forall k :: k in Got(arrivals, b, n, blocks) ==>
              k in Got(others, b, n, blocks) && Got(others, b, n, blocks)[k] == Got(arrivals, b, n, blocks)[k]
  {
    hide Name;
    forall k | k in Got(arrivals, b, n, blocks)
      ensures k in Got(others, b, n, blocks) && Got(others, b, n, blocks)[k] == Got(arrivals, b, n, blocks)[k]
    {
      GotIsArrived(arrivals, b, n, blocks, 0, 0);
      var x: nat, w: nat :| x < n && w < 3 && k == Name(b, x, w);
      GotIsArrived(arrivals, b, n, blocks, x, w);
      var i :| 0 <= i < |arrivals| && arrivals[i].bid == b && arrivals[i].xid == x && arrivals[i].w == w;
      GotData(arrivals, n, blocks, i);
      assert arrivals[i] in others;
      var j :| 0 <= j < |others| && others[j] == arrivals[i];
      GotData(others, n, blocks, j);
    }
  }

  /** The same tensors in another order yield the same for every block. */
  lemma OrderIsIrrelevant<T>(n: nat, blocks: nat, arrivals: seq<Arrival<T>>, others: seq<Arrival<T>>, b: nat)
    requires n > 0 && OnceEach(arrivals, n, blocks) && OnceEach(others, n, blocks) && b < blocks
    requires forall a: Arrival<T> :: a in arrivals <==> a in others
    ensures Run(n, blocks, arrivals).Some? && Run(n, blocks, others).Some?
    ensures For(Run(n, blocks, arrivals).value.1, b) == For(Run(n, blocks, others).value.1, b)
  {
    AnyOrder(n, blocks, arrivals);
    AnyOrder(n, blocks, others);
    SameGot(arrivals, others, b, n, blocks);
    assert BlockState(n, blocks, arrivals, Run(n, blocks, arrivals).value.0, Run(n, blocks, arrivals).value.1, b);
    assert BlockState(n, blocks, others, Run(n, blocks, others).value.0, Run(n, blocks, others).value.1, b);
  }

  /** When everything expected has come: each block has been yielded exactly once, part `x` of matrix `w` being the
      tensor that came for it, and the final check passes. */
  lemma AllArrived<T>(n: nat, blocks: nat, arrivals: seq<Arrival<T>>, b: nat)
    requires n > 0 && OnceEach(arrivals, n, blocks) && b < blocks
    requires forall x: nat, w: nat :: x < n && w < 3 ==> Arrived(arrivals, b, x, w)
    ensures Run(n, blocks, arrivals).Some? && Run(n, blocks, arrivals).value.0[b] == map[]
    ensures var ms := For(Run(n, blocks, arrivals).value.1, b);
            && |ms| == 3
            && (forall w: nat :: w < 3 ==> ms[w].w == w && |ms[w].parts| == n)
            && (forall i :: 0 <= i < |arrivals| && arrivals[i].bid == b ==>
                                ms[arrivals[i].w].parts[arrivals[i].xid] == arrivals[i].data)
  {
    hide Name;
    AnyOrder(n, blocks, arrivals);
    assert BlockState(n, blocks, arrivals, Run(n, blocks, arrivals).value.0, Run(n, blocks, arrivals).value.1, b);
    forall x: nat, w: nat | x < n && w < 3 ensures Name(b, x, w) in Got(arrivals, b, n, blocks) {
      GotIsArrived(arrivals, b, n, blocks, x, w);
    }
    forall i | 0 <= i < |arrivals| && arrivals[i].bid == b
      ensures For(Run(n, blocks, arrivals).value.1, b)[arrivals[i].w].parts[arrivals[i].xid] == arrivals[i].data
    {
      GotData(arrivals, n, blocks, i);
    }
  }
}
