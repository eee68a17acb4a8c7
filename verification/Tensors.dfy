/** The torch tensor operations the converters use, on tensors as functions from indices to values. */
module Tensors {
  import opened Arith

  type Shape = seq<nat>
  type Index = seq<nat>

  datatype Tensor = Tensor(shape: Shape, at: Index -> real)

  datatype Option<T> = None | Some(value: T)

  predicate Within(shape: Shape, idx: Index) {
    |idx| == |shape| && forall i :: 0 <= i < |shape| ==> idx[i] < shape[i]
  }

  /** Tensors are what they hold within their shape. */
  ghost predicate Same(t: Tensor, u: Tensor) {
    t.shape == u.shape && forall idx :: Within(t.shape, idx) ==> t.at(idx) == u.at(idx)
  }

  // ---------------------------------------------------------------- row-major order

  function Size(shape: Shape): nat {
    if shape == [] then 1 else Size(shape[..|shape| - 1]) * shape[|shape| - 1]
  }

  function Flatten(shape: Shape, idx: Index): nat
    decreases |shape|
  {
    if shape == [] || idx == [] then 0
    else Flatten(shape[..|shape| - 1], idx[..|idx| - 1]) * shape[|shape| - 1] + idx[|idx| - 1]
  }

  function Unflatten(shape: Shape, k: nat): Index {
    if shape == [] then []
    else
      var last := shape[|shape| - 1];
      Unflatten(shape[..|shape| - 1], if last == 0 then 0 else k / last) + [if last == 0 then 0 else k % last]
  }

  lemma {:induction false} FlattenAppend(shape: Shape, idx: Index, n: nat, r: nat)
    requires |idx| == |shape|
    ensures Flatten(shape + [n], idx + [r]) == Flatten(shape, idx) * n + r
    ensures Size(shape + [n]) == Size(shape) * n
  {
    assert (shape + [n])[..|shape|] == shape && (idx + [r])[..|idx|] == idx;
  }

  lemma {:induction false} UnflattenAppend(shape: Shape, q: nat, n: nat, r: nat)
    requires r < n
    ensures Unflatten(shape + [n], q * n + r) == Unflatten(shape, q) + [r]
  {
    assert (shape + [n])[..|shape|] == shape;
    DivMod(q, n, r);
  }

  lemma {:induction false} FlattenBelow(shape: Shape, idx: Index)
    requires Within(shape, idx)
    ensures Flatten(shape, idx) < Size(shape)
  {
    if shape != [] {
      var n, front, lead := shape[|shape| - 1], shape[..|shape| - 1], idx[..|idx| - 1];
      FlattenBelow(front, lead);
      TimesMono(Flatten(front, lead) + 1, Size(front), n);
      assert Flatten(shape, idx) < (Flatten(front, lead) + 1) * n;
    }
  }

  lemma {:induction false} UnflattenWithin(shape: Shape, k: nat)
    requires k < Size(shape)
    ensures Within(shape, Unflatten(shape, k)) && Flatten(shape, Unflatten(shape, k)) == k
  {
    if shape != [] {
      var n, front := shape[|shape| - 1], shape[..|shape| - 1];
      assert n != 0;
      assert k == (k / n) * n + k % n;
      assert k / n < Size(front) by {
        if k / n >= Size(front) { TimesMono(Size(front), k / n, n); }
      }
      UnflattenWithin(front, k / n);
      assert shape == front + [n];
      FlattenAppend(front, Unflatten(front, k / n), n, k % n);
    }
  }

  // ---------------------------------------------------------------- reshape

  /** `torch.reshape` without -1. */
  function Reshaped(t: Tensor, shape: Shape): Option<Tensor> {
    if Size(shape) != Size(t.shape) then None
    else Some(Tensor(shape, idx => t.at(Unflatten(t.shape, Flatten(shape, idx)))))
  }

  /** The dimensions with -1 worked out from the others. */
  function Expanded(orig: Shape, shape: seq<int>): Option<Shape> {
    if exists i :: 0 <= i < |shape| && shape[i] < -1 then None
    else if -1 !in shape then Some(Known(shape))
    else
      var n := Size(Known(shape));
      if n == 0 || Size(orig) % n != 0 then None else Some(Filled(shape, Size(orig) / n))
  }

  /** -1 read as 1. */
  function Known(shape: seq<int>): Shape { Filled(shape, 1) }

  function Filled(shape: seq<int>, n: nat): (r: Shape)
    ensures |r| == |shape|
  {
    seq(|shape|, i requires 0 <= i < |shape| => if shape[i] < 0 then n else shape[i])
  }

  // ---------------------------------------------------------------- permute

  predicate IsPermutation(dims: seq<nat>) {
    (forall j :: 0 <= j < |dims| ==> dims[j] < |dims| && j in dims)
        && (forall i, j :: 0 <= i < j < |dims| ==> dims[i] != dims[j])
  }

  /** Where `j` stands in `dims`. */
  function PosOf(dims: seq<nat>, j: nat): nat {
    if dims == [] || dims[0] == j then 0 else 1 + PosOf(dims[1..], j)
  }

  function Scatter(dims: seq<nat>, idx: Index): (r: Index)
    ensures |r| == |dims|
  {
    seq(|dims|, j requires 0 <= j < |dims| => if PosOf(dims, j) < |idx| then idx[PosOf(dims, j)] else 0)
  }

  /** `torch.permute` with dimensions counted from the front. */
  function Permuted(t: Tensor, dims: seq<nat>): Option<Tensor> {
    if |dims| != |t.shape| || !IsPermutation(dims) then None
    else
      Some(Tensor(PermutedShape(t.shape, dims), idx => t.at(Scatter(dims, idx))))
  }

  function PermutedShape(shape: Shape, dims: seq<nat>): (r: Shape)
    requires |dims| == |shape| && IsPermutation(dims)
    ensures |r| == |shape|
  {
    seq(|dims|, i requires 0 <= i < |dims| => shape[dims[i]])
  }

  lemma ShapeLead(dims: seq<nat>, lead: Shape, x: nat, y: nat)
    requires IsPermutation(dims) && dims != [] && dims[|dims| - 1] == |dims| - 1 && |lead| == |dims| - 1
    ensures var s, u := PermutedShape(lead + [x], dims), PermutedShape(lead + [y], dims);
            s[..|lead|] == u[..|lead|] && s == s[..|lead|] + [x]
  {
    forall i | 0 <= i < |lead| ensures dims[i] < |lead| {
      assert dims[i] != dims[|lead|];
    }
  }

  predicate InRange(dims: seq<int>, n: nat) {
    |dims| == n && forall i :: 0 <= i < n ==> 0 <= dims[i] + n < 2 * n
  }

  /** Dimensions as Python takes them, negative ones from the end. */
  function FromFront(dims: seq<int>): seq<nat>
    requires InRange(dims, |dims|)
  {
    seq(|dims|, i requires 0 <= i < |dims| => if dims[i] < 0 then dims[i] + |dims| else dims[i])
  }

  /** `torch.permute` */
  function TorchPermute(t: Tensor, dims: seq<int>): Option<Tensor> {
    if !InRange(dims, |dims|) then None else Permuted(t, FromFront(dims))
  }

  lemma {:induction false} PosFound(dims: seq<nat>, j: nat)
    requires j in dims
    ensures PosOf(dims, j) < |dims| && dims[PosOf(dims, j)] == j
    ensures forall i :: 0 <= i < PosOf(dims, j) ==> dims[i] != j
  {
    if dims[0] != j { PosFound(dims[1..], j); }
  }

  lemma ScatterWithin(t: Tensor, dims: seq<nat>, idx: Index)
    requires Permuted(t, dims).Some? && Within(Permuted(t, dims).value.shape, idx)
    ensures Within(t.shape, Scatter(dims, idx))
  {
    forall j | 0 <= j < |dims| ensures Scatter(dims, idx)[j] < t.shape[j] {
      PosFound(dims, j);
    }
  }

  lemma PosInPlace(dims: seq<nat>, j: nat)
    requires IsPermutation(dims) && j < |dims| && dims[|dims| - 1] == |dims| - 1
    ensures PosOf(dims, j) < |dims| && (PosOf(dims, j) == |dims| - 1 <==> j == |dims| - 1)
  {
    assert dims[j] < |dims| && j in dims;
    PosFound(dims, j);
  }

  /** With the last dimension left in place the others are permuted among themselves. */
  lemma ScatterLead(dims: seq<nat>, lead: Index, x: nat, y: nat)
    requires IsPermutation(dims) && dims != [] && dims[|dims| - 1] == |dims| - 1 && |lead| == |dims| - 1
    ensures var s, u := Scatter(dims, lead + [x]), Scatter(dims, lead + [y]);
            s[..|lead|] == u[..|lead|] && s == s[..|lead|] + [x]
  {
    hide PosOf, IsPermutation;
    var n := |lead|;
    PosInPlace(dims, n);
    forall j | 0 <= j < n ensures Scatter(dims, lead + [x])[j] == Scatter(dims, lead + [y])[j] {
      PosInPlace(dims, j);
    }
  }

  // ---------------------------------------------------------------- indexing

  /** One entry of an index tuple: a number, `start:stop`, or a list of numbers. */
  datatype Ix = At(k: int) | Slice(start: Option<int>, stop: Option<int>) | List(ks: seq<int>)

  /** What an entry picks from its axis: one position, the axis vanishing, or several. */
  datatype Pick = One(k: nat) | Many(ks: seq<nat>)

  const ALL: Ix := Slice(None, None)

  /** A slice bound, counted from the end if negative, clamped to the axis. */
  function Clamp(b: int, n: nat): nat {
    var c := if b < 0 then b + n else b;
    if c < 0 then 0 else if c > n then n else c
  }

  function FromEnd(k: int, n: nat): int { if k < 0 then k + n else k }

  function Picked(ix: Ix, n: nat): Option<Pick> {
    match ix
    case At(k) => if 0 <= FromEnd(k, n) < n then Some(One(FromEnd(k, n))) else None
    case Slice(a, b) =>
      var lo := if a.Some? then Clamp(a.value, n) else 0;
      var hi := if b.Some? then Clamp(b.value, n) else n;
      Some(Many(if lo <= hi then seq(hi - lo, i => lo + i) else []))
    case List(ks) =>
      if forall i :: 0 <= i < |ks| ==> 0 <= FromEnd(ks[i], n) < n
      then Some(Many(seq(|ks|, i requires 0 <= i < |ks| => if FromEnd(ks[i], n) >= 0 then FromEnd(ks[i], n) else 0)))
      else None
  }

  function Picks(ixs: seq<Ix>, shape: Shape): (r: Option<seq<Pick>>)
    requires |ixs| == |shape|
    ensures r.Some? ==> |r.value| == |ixs|
  {
    if ixs == [] then Some([])
    else
      var p, rest := Picked(ixs[0], shape[0]), Picks(ixs[1..], shape[1..]);
      if p.None? || rest.None? then None else Some([p.value] + rest.value)
  }

  function PickedShape(ps: seq<Pick>): Shape {
    if ps == [] then [] else (if ps[0].One? then [] else [|ps[0].ks|]) + PickedShape(ps[1..])
  }

  /** The index in the original of an index into what was picked. */
  function Source(ps: seq<Pick>, idx: Index): Index {
    if ps == [] then []
    else if ps[0].One? then [ps[0].k] + Source(ps[1..], idx)
    else
      var i := if idx == [] then 0 else idx[0];
      [if i < |ps[0].ks| then ps[0].ks[i] else 0] + Source(ps[1..], if idx == [] then [] else idx[1..])
  }

  lemma {:induction false} PicksAppend(ixs: seq<Ix>, shape: Shape, ix: Ix, n: nat)
    requires |ixs| == |shape|
    ensures Picks(ixs + [ix], shape + [n])
            == if Picks(ixs, shape).None? || Picked(ix, n).None? then None
               else Some(Picks(ixs, shape).value + [Picked(ix, n).value])
  {
    if ixs == [] {
      assert ixs + [ix] == [ix] && shape + [n] == [n];
      assert Picks([ix][1..], [n][1..]) == Some([]);
      assert Picked(ix, n).Some? ==> [Picked(ix, n).value] + [] == [] + [Picked(ix, n).value];
    } else {
      assert (ixs + [ix])[1..] == ixs[1..] + [ix] && (shape + [n])[1..] == shape[1..] + [n];
      PicksAppend(ixs[1..], shape[1..], ix, n);
      var p, rest, q := Picked(ixs[0], shape[0]), Picks(ixs[1..], shape[1..]), Picked(ix, n);
      assert p.Some? && rest.Some? && q.Some? ==>
             [p.value] + rest.value + [q.value] == [p.value] + (rest.value + [q.value]);
    }
  }

  /** One pick more, in front. */
  lemma SourceFirst(p: Pick, ps: seq<Pick>, idx: Index)
    ensures PickedShape([p] + ps) == (if p.One? then [] else [|p.ks|]) + PickedShape(ps)
    ensures p.One? ==> Source([p] + ps, idx) == [p.k] + Source(ps, idx)
    ensures p.Many? && idx != [] && idx[0] < |p.ks| ==> Source([p] + ps, idx) == [p.ks[idx[0]]] + Source(ps, idx[1..])
  {
    assert ([p] + ps)[1..] == ps;
  }

  lemma {:induction false} ShapeAppend(ps: seq<Pick>, q: Pick)
    requires q.Many?
    ensures PickedShape(ps + [q]) == PickedShape(ps) + [|q.ks|]
  {
    if ps == [] {
      SourceFirst(q, [], []);
      assert ps + [q] == [q] + [];
    } else {
      assert (ps + [q])[1..] == ps[1..] + [q];
      ShapeAppend(ps[1..], q);
    }
  }

  lemma {:induction false} SourceAppend(ps: seq<Pick>, q: Pick, lead: Index, x: nat)
    requires q.Many? && Within(PickedShape(ps), lead) && x < |q.ks|
    ensures Source(ps + [q], lead + [x]) == Source(ps, lead) + [q.ks[x]]
  {
    if ps == [] {
      SourceFirst(q, [], [x]);
      assert ps + [q] == [q] + [] && lead + [x] == [x];
    } else {
      var p, rest := ps[0], ps[1..];
      var left := if p.One? then lead else lead[1..];
      assert ps == [p] + rest && ps + [q] == [p] + (rest + [q]);
      SourceAppend(rest, q, left, x);
      assert p.Many? ==> lead[0] < |p.ks| && (lead + [x])[1..] == lead[1..] + [x];
      SourceTwice(p, rest, q, lead, x);
    }
  }

  lemma SourceTwice(p: Pick, rest: seq<Pick>, q: Pick, lead: Index, x: nat)
    requires q.Many? && x < |q.ks| && (p.Many? ==> lead != [] && lead[0] < |p.ks|)
    requires Source(rest + [q], (if p.One? then lead else lead[1..]) + [x]) == Source(rest,
             if p.One? then lead else lead[1..]) + [q.ks[x]]
    ensures Source([p] + (rest + [q]), lead + [x]) == Source([p] + rest, lead) + [q.ks[x]]
  {
    hide Source;
    SourceFirst(p, rest, lead);
    SourceFirst(p, rest + [q], lead + [x]);
    if p.Many? { assert (lead + [x])[1..] == lead[1..] + [x]; }
  }

  lemma {:induction false} SourceWithin(ixs: seq<Ix>, shape: Shape, idx: Index)
    requires |ixs| == |shape| && Picks(ixs, shape).Some? && Within(PickedShape(Picks(ixs, shape).value), idx)
    ensures Within(shape, Source(Picks(ixs, shape).value, idx))
  {
    if ixs != [] {
      hide PickedShape, Source, Picked;
      var p, ps := Picked(ixs[0], shape[0]).value, Picks(ixs[1..], shape[1..]).value;
      SourceFirst(p, ps, idx);
      PickBelow(ixs[0], shape[0]);
      SourceWithin(ixs[1..], shape[1..], if p.One? then idx else idx[1..]);
    }
  }

  lemma PickBelow(ix: Ix, n: nat)
    requires Picked(ix, n).Some?
    ensures var p := Picked(ix, n).value;
            if p.One? then p.k < n else forall i :: 0 <= i < |p.ks| ==> p.ks[i] < n
  {
  }

  /** How many axes stay. */
  function Kept(ixs: seq<Ix>): nat {
    if ixs == [] then 0 else (if ixs[0].At? then 0 else 1) + Kept(ixs[1..])
  }

  lemma {:induction false} KeptAxes(ixs: seq<Ix>, shape: Shape)
    requires |ixs| == |shape| && Picks(ixs, shape).Some?
    ensures |PickedShape(Picks(ixs, shape).value)| == Kept(ixs)
  {
    if ixs != [] {
      assert Picks(ixs, shape).value[1..] == Picks(ixs[1..], shape[1..]).value;
      KeptAxes(ixs[1..], shape[1..]);
    }
  }

  /** An entry with a list has only slices beside it, so that each entry acts on its own axis. */
  predicate Apart(ixs: seq<Ix>) {
    forall i, j :: 0 <= i < |ixs| && 0 <= j < |ixs| && ixs[i].List? && !ixs[j].Slice? ==> i == j
  }

  predicate HasNumber(ixs: seq<Ix>) {
    exists i :: 0 <= i < |ixs| && ixs[i].At?
  }

  /** Indexing by a tuple, which may be shorter than the shape. Several lists are taken together, position by position.
      Nothing is said of lists with a number beside them. */
  function Indexed(t: Tensor, ixs: seq<Ix>): Option<Tensor> {
    if |ixs| > |t.shape| then None
    else
      var full := Padded(ixs, |t.shape|);
      var ps := Picks(full, t.shape);
      if ps.None? then None
      else if Apart(ixs) then Some(Tensor(PickedShape(ps.value), idx => t.at(Source(ps.value, idx))))
      else if HasNumber(ixs) then None
      else Paired(t, full, ps.value)
  }

  /** How many positions the lists have together: as many each, or one that serves for all. */
  function PairLength(full: seq<Ix>, ps: seq<Pick>): Option<nat>
    requires |ps| == |full|
  {
    if full == [] then Some(1)
    else
      var rest := PairLength(full[1..], ps[1..]);
      if rest.None? || !full[0].List? || ps[0].One? || |ps[0].ks| == 1 || Some(|ps[0].ks|) == rest then rest
      else if rest == Some(1) then Some(|ps[0].ks|) else None
  }

  /** Where the first list stands. */
  function FirstList(full: seq<Ix>): (k: nat)
    ensures k <= |full|
  {
    if full == [] || full[0].List? then 0 else 1 + FirstList(full[1..])
  }

  predicate Together(full: seq<Ix>) {
    forall i, j, k :: 0 <= i < j < k < |full| && full[i].List? && full[k].List? ==> full[j].List?
  }

  /** The extents left by the entries that are no lists. */
  function SliceShape(full: seq<Ix>, ps: seq<Pick>): (r: Shape)
    requires |ps| == |full|
    ensures |r| >= FirstList(full)
  {
    if full == [] then []
    else (if full[0].List? then [] else if ps[0].One? then [1] else [|ps[0].ks|]) + SliceShape(full[1..], ps[1..])
  }

  function PickAt(p: Pick, k: nat): nat {
    match p
    case One(x) => x
    case Many(ks) => if |ks| == 1 then ks[0] else if k < |ks| then ks[k] else 0
  }

  /** The index in the original of position `b` of the lists and the index `rest` into the other axes. */
  function PairSource(full: seq<Ix>, ps: seq<Pick>, b: nat, rest: Index): Index
    requires |ps| == |full|
  {
    if full == [] then []
    else if full[0].List? then [PickAt(ps[0], b)] + PairSource(full[1..], ps[1..], b, rest)
    else
      [PickAt(ps[0], if rest == [] then 0 else rest[0])]
      + PairSource(full[1..], ps[1..], b, if rest == [] then [] else rest[1..])
  }

  /** Several lists leave one axis: at the place of the first if they stand together, else in front. */
  function Paired(t: Tensor, full: seq<Ix>, ps: seq<Pick>): Option<Tensor>
    requires |ps| == |full|
  {
    var n := PairLength(full, ps);
    if n.None? then None
    else
      var sh := SliceShape(full, ps);
      var at := if Together(full) then FirstList(full) else 0;
      Some(Tensor(sh[..at] + [n.value] + sh[at..],
                  idx => if at < |idx| then t.at(PairSource(full, ps, idx[at], idx[..at] + idx[at + 1..])) else 0.0))
  }

  function ListCount(ixs: seq<Ix>): nat {
    if ixs == [] then 0 else (if ixs[0].List? then 1 else 0) + ListCount(ixs[1..])
  }

  lemma {:induction false} CountApart(ixs: seq<Ix>)
    requires !HasNumber(ixs)
    ensures Apart(ixs) <==> ListCount(ixs) <= 1
    ensures ListCount(ixs) == 0 <==> forall i :: 0 <= i < |ixs| ==> !ixs[i].List?
  {
    if ixs != [] {
      var rest := ixs[1..];
      assert forall i :: 1 <= i < |ixs| ==> ixs[i] == rest[i - 1];
      assert forall i :: 0 <= i < |rest| ==> rest[i] == ixs[i + 1];
      CountApart(rest);
    }
  }

  lemma {:induction false} SlicesLeft(full: seq<Ix>, ps: seq<Pick>)
    requires |ps| == |full|
    ensures |SliceShape(full, ps)| == |full| - ListCount(full)
  {
    if full != [] { SlicesLeft(full[1..], ps[1..]); }
  }

  lemma {:induction false} CountAppend(ixs: seq<Ix>, more: seq<Ix>)
    ensures ListCount(ixs + more) == ListCount(ixs) + ListCount(more)
  {
    if ixs == [] {
      assert ixs + more == more;
    } else {
      assert (ixs + more)[1..] == ixs[1..] + more;
      CountAppend(ixs[1..], more);
    }
  }

  /** Lists taken together leave fewer axes than lists taken one by one. */
  lemma PairedAxes(t: Tensor, ixs: seq<Ix>)
    requires !Apart(ixs) && Indexed(t, ixs).Some?
    ensures |Indexed(t, ixs).value.shape| < |t.shape| && !HasNumber(ixs)
  {
    hide Picks, SliceShape, PairLength, Together, Apart, Source, PairSource, PickedShape;
    var full := Padded(ixs, |t.shape|);
    CountApart(ixs);
    CountAppend(ixs, full[|ixs|..]);
    assert full == ixs + full[|ixs|..];
    SlicesLeft(full, Picks(full, t.shape).value);
  }

  function Padded(ixs: seq<Ix>, n: nat): (r: seq<Ix>)
    requires |ixs| <= n
    ensures |r| == n && forall i :: 0 <= i < n ==> r[i] == if i < |ixs| then ixs[i] else ALL
  {
    ixs + seq(n - |ixs|, _ => ALL)
  }

  // ---------------------------------------------------------------- concatenation

  /** `torch.cat((t, u))` along the first axis. */
  function Joined(t: Tensor, u: Tensor): Option<Tensor> {
    if t.shape == [] || |u.shape| != |t.shape| || t.shape[1..] != u.shape[1..] then None
    else
      Some(Tensor([t.shape[0] + u.shape[0]] + t.shape[1..],
                  idx => if idx == [] then 0.0 else if idx[0] < t.shape[0] then t.at(idx)
                         else u.at([idx[0] - t.shape[0]] + idx[1..])))
  }
}
