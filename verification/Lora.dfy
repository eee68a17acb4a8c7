/** Low-rank tensors kept as two factors (`LoraTorchTensor` of convert_lora_to_gguf.py): operations on the factors in
    place of their product. */
module Lora {
  import opened Arith
  import opened Tensors

  datatype Lora = Lora(A: Tensor, B: Tensor)

  /** `__init__` */
  function Make(A: Tensor, B: Tensor): Option<Lora> {
    var n := |A.shape|;
    if |B.shape| != n || n < 2 || A.shape[n - 2] != B.shape[n - 1] then None else Some(Lora(A, B))
  }

  function Ones(n: nat): (r: Shape)
    ensures |r| == n
  {
    seq(n, _ => 1)
  }

  function Zeros(n: nat): (r: Index)
    ensures |r| == n
  {
    seq(n, _ => 0)
  }

  /** Of rank at least 1, and A has no extent beyond its last two axes. */
  predicate Valid(l: Lora) {
    && Make(l.A, l.B).Some? && Rank(l) > 0
    && l.A.shape == Ones(Dims(l) - 2) + [Rank(l)] + [RowSize(l)]
  }

  function Dims(l: Lora): nat { |l.B.shape| }

  function Rank(l: Lora): nat
    requires Make(l.A, l.B).Some?
  {
    l.B.shape[Dims(l) - 1]
  }

  function RowSize(l: Lora): nat
    requires Make(l.A, l.B).Some?
  {
    l.A.shape[Dims(l) - 1]
  }

  /** `shape` */
  function ShapeOf(l: Lora): Shape
    requires Make(l.A, l.B).Some?
  {
    l.B.shape[..Dims(l) - 1] + [RowSize(l)]
  }

  // ---------------------------------------------------------------- the tensor represented

  function Sum(f: nat -> real, n: nat): real {
    if n == 0 then 0.0 else Sum(f, n - 1) + f(n - 1)
  }

  lemma {:induction false} SumCongruent(f: nat -> real, g: nat -> real, n: nat)
    requires forall r: nat :: r < n ==> f(r) == g(r)
    ensures Sum(f, n) == Sum(g, n)
  {
    if n > 0 { SumCongruent(f, g, n - 1); }
  }

  /** The term at `r` of the entry in row `lead`, column `c` of B A. */
  function Term(l: Lora, lead: Index, c: nat, r: nat): real {
    l.B.at(lead + [r]) * l.A.at(ColumnIndex(Dims(l), r, c))
  }

  function ColumnIndex(n: nat, r: nat, c: nat): Index {
    Zeros(if n < 2 then 0 else n - 2) + [r] + [c]
  }

  function Dense(l: Lora): Tensor
    requires Make(l.A, l.B).Some?
  {
    Tensor(ShapeOf(l), idx => if idx == [] then 0.0
                              else Sum((r: nat) => Term(l, idx[..|idx| - 1], idx[|idx| - 1], r), Rank(l)))
  }

  lemma DenseAt(l: Lora, lead: Index, c: nat)
    requires Make(l.A, l.B).Some?
    ensures Dense(l).at(lead + [c]) == Sum((r: nat) => Term(l, lead, c, r), Rank(l))
  {
    var idx := lead + [c];
    assert idx[..|idx| - 1] == lead && idx[|idx| - 1] == c;
  }

  // ---------------------------------------------------------------- reshape

  /** `reshape` */
  function LoraReshape(l: Lora, shape: seq<int>): Option<Lora>
    requires Make(l.A, l.B).Some?
  {
    var sh := Expanded(ShapeOf(l), shape);
    if |shape| < 2 || sh.None? || |sh.value| < 2 || sh.value[|sh.value| - 1] != RowSize(l) then None
    else
      var n := |sh.value|;
      var a := Reshaped(l.A, Ones(n - 2) + [Rank(l)] + [RowSize(l)]);
      var b := Reshaped(l.B, sh.value[..n - 1] + [Rank(l)]);
      if a.None? || b.None? then None else Make(a.value, b.value)
  }

  /** torch's own, which takes one -1 at most. */
  function DenseReshape(t: Tensor, shape: seq<int>): Option<Tensor> {
    var sh := Expanded(t.shape, shape);
    if (exists i, j :: 0 <= i < j < |shape| && shape[i] == shape[j] == -1) || sh.None? then None
        else Reshaped(t, sh.value)
  }

  lemma {:induction false} OnesFlat(n: nat)
    ensures Size(Ones(n)) == 1 && Flatten(Ones(n), Zeros(n)) == 0 && Unflatten(Ones(n), 0) == Zeros(n)
  {
    if n > 0 {
      assert Ones(n)[..n - 1] == Ones(n - 1) && Zeros(n)[..n - 1] == Zeros(n - 1);
      OnesFlat(n - 1);
      assert Zeros(n) == Zeros(n - 1) + [0];
    }
  }

  /** Axes of extent 1 in front change nothing. */
  lemma ColumnFlat(n: nat, rank: nat, row: nat, r: nat, c: nat)
    requires n >= 2 && r < rank && c < row
    ensures var s := Ones(n - 2) + [rank] + [row];
            Size(s) == rank * row && Flatten(s, ColumnIndex(n, r, c)) == r * row + c
            && Unflatten(s, r * row + c) == ColumnIndex(n, r, c)
  {
    hide Size, Flatten, Unflatten;
    OnesFlat(n - 2);
    FlattenAppend(Ones(n - 2), Zeros(n - 2), rank, r);
    FlattenAppend(Ones(n - 2) + [rank], Zeros(n - 2) + [r], row, c);
    UnflattenAppend(Ones(n - 2) + [rank], r, row, c);
    UnflattenAppend(Ones(n - 2), 0, rank, r);
  }

  lemma ColumnReshape(m: nat, n: nat, rank: nat, row: nat, r: nat, c: nat)
    requires m >= 2 && n >= 2 && r < rank && c < row
    ensures Unflatten(Ones(m - 2) + [rank] + [row], Flatten(Ones(n - 2) + [rank] + [row], ColumnIndex(n, r,
            c))) == ColumnIndex(m, r, c)
  {
    hide Flatten, Unflatten, Ones, ColumnIndex;
    ColumnFlat(m, rank, row, r, c);
    ColumnFlat(n, rank, row, r, c);
  }

  lemma RowReshape(lead: Shape, lead': Shape, i: Index, n: nat, r: nat)
    requires |i| == |lead'| && r < n
    ensures Unflatten(lead + [n], Flatten(lead' + [n], i + [r])) == Unflatten(lead, Flatten(lead', i)) + [r]
  {
    FlattenAppend(lead', i, n, r);
    UnflattenAppend(lead, Flatten(lead', i), n, r);
  }

  lemma SameLead(lead: Shape, lead': Shape, rank: nat, row: nat)
    requires Size(lead + [rank]) == Size(lead' + [rank]) && rank > 0
    ensures Size(lead + [row]) == Size(lead' + [row])
  {
    FlattenAppend(lead, Zeros(|lead|), rank, 0);
    FlattenAppend(lead', Zeros(|lead'|), rank, 0);
    FlattenAppend(lead, Zeros(|lead|), row, 0);
    FlattenAppend(lead', Zeros(|lead'|), row, 0);
    assert (Size(lead) - Size(lead')) * rank == 0;
    OnlyZero(Size(lead) - Size(lead'), rank);
  }

  lemma SameTerm(l: Lora, i: Index, l': Lora, i': Index, c: nat, r: nat)
    requires l.B.at(i + [r]) == l'.B.at(i' + [r])
    requires l.A.at(ColumnIndex(Dims(l), r, c)) == l'.A.at(ColumnIndex(Dims(l'), r, c))
    ensures Term(l, i, c, r) == Term(l', i', c, r)
  {
  }

  lemma ReshapeTerm(l: Lora, l': Lora, lead': Shape, i: Index, c: nat, r: nat)
    requires Valid(l) && Valid(l') && Rank(l') == Rank(l) && RowSize(l') == RowSize(l) && r < Rank(l) && c < RowSize(l)
    requires |i| == |lead'| && l'.B.shape == lead' + [Rank(l)]
    requires l'.B.at(i + [r]) == l.B.at(Unflatten(l.B.shape, Flatten(l'.B.shape, i + [r])))
    requires var j := ColumnIndex(Dims(l'), r, c);
             l'.A.at(j) == l.A.at(Unflatten(l.A.shape, Flatten(l'.A.shape, j)))
    ensures Term(l', i, c, r) == Term(l, Unflatten(l.B.shape[..Dims(l) - 1], Flatten(lead', i)), c, r)
  {
    hide Size, Flatten, Unflatten, Ones, ColumnIndex, Term;
    var lead := l.B.shape[..Dims(l) - 1];
    assert l.B.shape == lead + [Rank(l)];
    RowReshape(lead, lead', i, Rank(l), r);
    ColumnReshape(Dims(l), Dims(l'), Rank(l), RowSize(l), r, c);
    SameTerm(l', i, l, Unflatten(lead, Flatten(lead', i)), c, r);
  }

  lemma ReshapeAt(l: Lora, l': Lora, lead': Shape, i: Index, c: nat)
    requires Valid(l) && Valid(l') && Rank(l') == Rank(l) && RowSize(l') == RowSize(l) && c < RowSize(l)
    requires |i| == |lead'| && l'.B.shape == lead' + [Rank(l)]
    requires Reshaped(l.B, l'.B.shape) == Some(l'.B) && Reshaped(l.A, l'.A.shape) == Some(l'.A)
    ensures Dense(l').at(i + [c]) == Dense(l).at(Unflatten(ShapeOf(l), Flatten(lead' + [RowSize(l)], i + [c])))
  {
    hide Flatten, Unflatten, Sum, Dense, Term, ColumnIndex, Ones;
    var lead := l.B.shape[..Dims(l) - 1];
    var i' := Unflatten(lead, Flatten(lead', i));
    RowReshape(lead, lead', i, RowSize(l), c);
    DenseAt(l', i, c);
    DenseAt(l, i', c);
    forall r: nat | r < Rank(l) ensures Term(l', i, c, r) == Term(l, i', c, r) {
      ReshapeTerm(l, l', lead', i, c, r);
    }
    SumCongruent((r: nat) => Term(l', i, c, r), (r: nat) => Term(l, i', c, r), Rank(l));
  }

  lemma ReshapeShapes(l: Lora, shape: seq<int>)
    requires Valid(l) && LoraReshape(l, shape).Some?
    ensures Expanded(ShapeOf(l), shape).Some? && |Expanded(ShapeOf(l), shape).value| >= 2
    ensures var l', sh := LoraReshape(l, shape).value, Expanded(ShapeOf(l), shape).value;
            && Valid(l') && Rank(l') == Rank(l) && RowSize(l') == RowSize(l)
            && sh == sh[..|sh| - 1] + [RowSize(l)] && l'.B.shape == sh[..|sh| - 1] + [Rank(l)]
            && Reshaped(l.B, l'.B.shape) == Some(l'.B) && Reshaped(l.A, l'.A.shape) == Some(l'.A)
            && Size(ShapeOf(l)) == Size(sh)
  {
    hide Size, Flatten, Unflatten, Expanded;
    var sh := Expanded(ShapeOf(l), shape).value;
    var lead, lead' := l.B.shape[..Dims(l) - 1], sh[..|sh| - 1];
    assert l.B.shape == lead + [Rank(l)] && sh == lead' + [RowSize(l)];
    SameLead(lead, lead', Rank(l), RowSize(l));
  }

  /** Reshaping the factors reshapes the product. */
  lemma ReshapeDense(l: Lora, shape: seq<int>)
    requires Valid(l) && LoraReshape(l, shape).Some?
    requires forall i, j :: 0 <= i < j < |shape| ==> shape[i] != -1 || shape[j] != -1
    ensures var l' := LoraReshape(l, shape).value;
            Valid(l') && DenseReshape(Dense(l), shape).Some? && Same(Dense(l'), DenseReshape(Dense(l), shape).value)
  {
    hide Size, Flatten, Unflatten, Expanded, LoraReshape, Sum, Term;
    ReshapeShapes(l, shape);
    var l', sh := LoraReshape(l, shape).value, Expanded(ShapeOf(l), shape).value;
    var d := DenseReshape(Dense(l), shape).value;
    forall idx | Within(sh, idx) ensures Dense(l').at(idx) == d.at(idx) {
      assert idx == idx[..|idx| - 1] + [idx[|idx| - 1]];
      ReshapeAt(l, l', sh[..|sh| - 1], idx[..|idx| - 1], idx[|idx| - 1]);
    }
  }

  // ---------------------------------------------------------------- permute

  /** Dimensions counted from the end. */
  function Negative(dims: seq<int>, n: nat): seq<int> {
    seq(|dims|, i requires 0 <= i < |dims| => if dims[i] >= 0 then dims[i] - n else dims[i])
  }

  lemma NegativeIsSame(dims: seq<int>)
    requires InRange(dims, |dims|)
    ensures var neg := Negative(dims, |dims|);
            InRange(neg, |dims|) && FromFront(neg) == FromFront(dims)
  {
  }

  /** `permute` */
  function LoraPermute(l: Lora, dims: seq<int>): Option<Lora>
    requires Make(l.A, l.B).Some?
  {
    var n := Dims(l);
    var neg := Negative(dims, n);
    if neg == [] then None
    else if neg[|neg| - 1] == -1 then
      var b := TorchPermute(l.B, neg);
      if b.None? || (exists i :: 0 <= i < n - 2 && l.A.shape[i] != 1) then None else Make(l.A, b.value)
    else if n == 2 && |neg| >= 2 && neg[|neg| - 1] == -2 && neg[|neg| - 2] == -1 then
      var a, b := TorchPermute(l.B, neg), TorchPermute(l.A, neg);
      if a.None? || b.None? then None else Make(a.value, b.value)
    else None
  }

  lemma PermuteAt(l: Lora, dims: seq<nat>, lead: Index, c: nat)
    requires Valid(l) && Permuted(l.B, dims).Some? && dims[|dims| - 1] == |dims| - 1 && |lead| == |dims| - 1
    requires Valid(Lora(l.A, Permuted(l.B, dims).value))
    ensures Dense(Lora(l.A, Permuted(l.B, dims).value)).at(lead + [c]) == Dense(l).at(Scatter(dims, lead + [c]))
  {
    hide Sum, Dense, Term, ColumnIndex, Ones, Scatter, IsPermutation;
    var l' := Lora(l.A, Permuted(l.B, dims).value);
    var lead' := Scatter(dims, lead + [c])[..|lead|];
    ScatterLead(dims, lead, c, c);
    DenseAt(l', lead, c);
    DenseAt(l, lead', c);
    forall r: nat ensures Term(l', lead, c, r) == Term(l, lead', c, r) {
      ScatterLead(dims, lead, c, r);
      ScatterLead(dims, lead, r, c);
      SameTerm(l', lead, l, lead', c, r);
    }
    SumCongruent((r: nat) => Term(l', lead, c, r), (r: nat) => Term(l, lead', c, r), Rank(l));
  }

  lemma PermuteShapes(l: Lora, dims: seq<nat>)
    requires Valid(l) && Permuted(l.B, dims).Some? && dims[|dims| - 1] == |dims| - 1
    ensures var l' := Lora(l.A, Permuted(l.B, dims).value);
            Valid(l') && Permuted(Dense(l), dims).Some? && Dense(l').shape == Permuted(Dense(l), dims).value.shape
  {
    hide IsPermutation, PermutedShape, Ones;
    var lead := l.B.shape[..Dims(l) - 1];
    assert l.B.shape == lead + [Rank(l)];
    ShapeLead(dims, lead, Rank(l), RowSize(l));
    ShapeLead(dims, lead, RowSize(l), Rank(l));
  }

  /** Permuting B alone permutes the product, the last dimension staying in place. */
  lemma PermuteRows(l: Lora, dims: seq<nat>)
    requires Valid(l) && Permuted(l.B, dims).Some? && dims[|dims| - 1] == |dims| - 1
    ensures var l' := Lora(l.A, Permuted(l.B, dims).value);
            Valid(l') && Permuted(Dense(l), dims).Some? && Same(Dense(l'), Permuted(Dense(l), dims).value)
  {
    hide Sum, Term, Ones, IsPermutation, Scatter, PermutedShape, ColumnIndex;
    PermuteShapes(l, dims);
    var l' := Lora(l.A, Permuted(l.B, dims).value);
    var d := Permuted(Dense(l), dims).value;
    forall idx | Within(d.shape, idx) ensures Dense(l').at(idx) == d.at(idx) {
      assert idx == idx[..|idx| - 1] + [idx[|idx| - 1]];
      PermuteAt(l, dims, idx[..|idx| - 1], idx[|idx| - 1]);
    }
  }

  const SWAP: seq<nat> := [1, 0]

  lemma SwapIndex(x: nat, y: nat)
    ensures Scatter(SWAP, [x] + [y]) == [y] + [x] && ColumnIndex(2, x, y) == [x] + [y] && IsPermutation(SWAP)
  {
    assert SWAP[1..] == [0] && PosOf(SWAP, 0) == 1 && PosOf(SWAP, 1) == 0;
  }

  lemma SwapAt(l: Lora, i: nat, c: nat)
    requires Valid(l) && Dims(l) == 2 && Permuted(l.B, SWAP).Some? && Permuted(l.A, SWAP).Some?
    requires Valid(Lora(Permuted(l.B, SWAP).value, Permuted(l.A, SWAP).value))
    ensures Dense(Lora(Permuted(l.B, SWAP).value, Permuted(l.A,
            SWAP).value)).at([i] + [c]) == Dense(l).at(Scatter(SWAP, [i] + [c]))
  {
    hide Sum, Dense, Scatter, ColumnIndex, Ones, IsPermutation;
    var l' := Lora(Permuted(l.B, SWAP).value, Permuted(l.A, SWAP).value);
    SwapIndex(i, c);
    DenseAt(l', [i], c);
    DenseAt(l, [c], i);
    forall r: nat ensures Term(l', [i], c, r) == Term(l, [c], i, r) {
      SwapIndex(i, r);
      SwapIndex(r, c);
      SwapIndex(r, i);
    }
    SumCongruent((r: nat) => Term(l', [i], c, r), (r: nat) => Term(l, [c], i, r), Rank(l));
  }

  /** Transposing a matrix swaps the factors, both transposed. */
  lemma SwapFactors(l: Lora)
    requires Valid(l) && Dims(l) == 2
    ensures Permuted(l.B, SWAP).Some? && Permuted(l.A, SWAP).Some? && Permuted(Dense(l), SWAP).Some?
    ensures var l' := Lora(Permuted(l.B, SWAP).value, Permuted(l.A, SWAP).value);
            Valid(l') && Same(Dense(l'), Permuted(Dense(l), SWAP).value)
  {
    hide Sum, Term, Ones, IsPermutation, Scatter;
    SwapIndex(0, 0);
    var l' := Lora(Permuted(l.B, SWAP).value, Permuted(l.A, SWAP).value);
    SwapShapes(l);
    var d := Permuted(Dense(l), SWAP).value;
    forall idx | Within(d.shape, idx) ensures Dense(l').at(idx) == d.at(idx) {
      assert idx == [idx[0]] + [idx[1]];
      SwapAt(l, idx[0], idx[1]);
    }
  }

  lemma SwapShapes(l: Lora)
    requires Valid(l) && Dims(l) == 2 && Permuted(l.B, SWAP).Some? && Permuted(l.A, SWAP).Some?
             && Permuted(Dense(l), SWAP).Some?
    ensures var l' := Lora(Permuted(l.B, SWAP).value, Permuted(l.A, SWAP).value);
            Valid(l') && Dense(l').shape == Permuted(Dense(l), SWAP).value.shape
  {
    hide IsPermutation;
    SwapShape(l.A);
    SwapShape(l.B);
    SwapShape(Dense(l));
    assert Ones(0) == [];
  }

  lemma SwapShape(t: Tensor)
    requires |t.shape| == 2 && Permuted(t, SWAP).Some?
    ensures Permuted(t, SWAP).value.shape == [t.shape[1]] + [t.shape[0]]
  {
  }

  /** Permuting the factors permutes the product. */
  lemma PermuteDense(l: Lora, dims: seq<int>)
    requires Valid(l) && InRange(dims, Dims(l)) && LoraPermute(l, dims).Some?
    ensures var l' := LoraPermute(l, dims).value;
            Valid(l') && TorchPermute(Dense(l), dims).Some? && Same(Dense(l'), TorchPermute(Dense(l), dims).value)
  {
    hide Dense, IsPermutation, Ones;
    var n := Dims(l);
    var neg := Negative(dims, n);
    NegativeIsSame(dims);
    if neg[n - 1] == -1 {
      PermuteRows(l, FromFront(dims));
    } else {
      assert FromFront(dims) == SWAP;
      SwapFactors(l);
    }
  }

  // ---------------------------------------------------------------- indexing

  /** The entries for A: its axes in front have one position, the rank is kept. */
  function ForA(full: seq<Ix>, n: nat): seq<Ix>
    requires |full| == n >= 2
  {
    OnFront(full[..n - 2]) + [ALL] + [full[n - 1]]
  }

  /** A number modulo the extent 1. */
  function OnFront(ixs: seq<Ix>): (r: seq<Ix>)
    ensures |r| == |ixs|
  {
    seq(|ixs|, i requires 0 <= i < |ixs| => if ixs[i].At? then At(ixs[i].k % 1) else ALL)
  }

  /** `__getitem__` of a tuple without Ellipsis, on a tensor whose A has extent 1 in front. */
  function LoraIndex(l: Lora, ixs: seq<Ix>): Option<Lora>
    requires Valid(l)
  {
    var n := Dims(l);
    if ixs == [] || |ixs| > n then None
    else
      var full := Padded(ixs, n);
      var a, b := Indexed(l.A, ForA(full, n)), Indexed(l.B, full[..n - 1]);
      if a.None? || b.None? then None else Make(a.value, b.value)
  }

  function FrontPicked(ixs: seq<Ix>): seq<Pick> {
    if ixs == [] then [] else [if ixs[0].At? then One(0) else Many([0])] + FrontPicked(ixs[1..])
  }

  lemma OnePosition(ix: Ix)
    ensures Picked(if ix.At? then At(ix.k % 1) else ALL, 1) == Some(if ix.At? then One(0) else Many([0]))
  {
    if ix.At? {
      assert ix.k % 1 == 0;
    } else {
      AllPicks(1);
      assert seq(1, i => i) == [0];
    }
  }

  lemma {:induction false} FrontPicks(ixs: seq<Ix>)
    ensures Picks(OnFront(ixs), Ones(|ixs|)) == Some(FrontPicked(ixs))
    ensures PickedShape(FrontPicked(ixs)) == Ones(Kept(ixs))
    ensures Source(FrontPicked(ixs), Zeros(Kept(ixs))) == Zeros(|ixs|)
  {
    if ixs != [] {
      FrontPicks(ixs[1..]);
      var p, ps := if ixs[0].At? then One(0) else Many([0]), FrontPicked(ixs[1..]);
      assert OnFront(ixs)[1..] == OnFront(ixs[1..]) && Ones(|ixs|)[1..] == Ones(|ixs| - 1);
      OnePosition(ixs[0]);
      NextFront(ixs[0], p, ps, Kept(ixs[1..]), |ixs| - 1);
    }
  }

  lemma NextFront(ix: Ix, p: Pick, ps: seq<Pick>, k: nat, m: nat)
    requires p == if ix.At? then One(0) else Many([0])
    requires PickedShape(ps) == Ones(k) && Source(ps, Zeros(k)) == Zeros(m)
    ensures var k' := if ix.At? then k else k + 1;
            PickedShape([p] + ps) == Ones(k') && Source([p] + ps, Zeros(k')) == Zeros(m + 1)
  {
    hide PickedShape, Source;
    assert Ones(k + 1) == [1] + Ones(k) && Zeros(m + 1) == [0] + Zeros(m) && Zeros(k + 1)[1..] == Zeros(k);
    SourceFirst(p, ps, Zeros(if ix.At? then k else k + 1));
  }

  function Every(n: nat): Pick { Many(seq(n, i => i)) }

  lemma AllPicks(n: nat)
    ensures Picked(ALL, n) == Some(Every(n))
  {
    assert seq(n, i => 0 + i) == seq(n, i => i);
  }

  /** What the entries pick from the rows, and the last one from the columns. */
  function RowPicks(l: Lora, full: seq<Ix>): Option<seq<Pick>>
    requires Valid(l) && |full| == Dims(l)
  {
    Picks(full[..Dims(l) - 1], l.B.shape[..Dims(l) - 1])
  }

  function ColumnPick(l: Lora, full: seq<Ix>): Option<Pick>
    requires Valid(l) && |full| == Dims(l)
  {
    Picked(full[Dims(l) - 1], RowSize(l))
  }

  lemma PicksOfProduct(l: Lora, full: seq<Ix>)
    requires Valid(l) && |full| == Dims(l)
    ensures Picks(full, ShapeOf(l)) == if RowPicks(l, full).None? || ColumnPick(l, full).None? then None
                                       else Some(RowPicks(l, full).value + [ColumnPick(l, full).value])
  {
    hide Picks, Picked, Ones;
    var n := Dims(l);
    assert full == full[..n - 1] + [full[n - 1]];
    PicksAppend(full[..n - 1], l.B.shape[..n - 1], full[n - 1], RowSize(l));
  }

  lemma PicksOfB(l: Lora, full: seq<Ix>)
    requires Valid(l) && |full| == Dims(l)
    ensures Picks(full[..Dims(l) - 1] + [ALL], l.B.shape) == if RowPicks(l, full).None? then None
                                                             else Some(RowPicks(l, full).value + [Every(Rank(l))])
  {
    hide Picks, Picked, Ones;
    var n := Dims(l);
    AllPicks(Rank(l));
    assert l.B.shape == l.B.shape[..n - 1] + [Rank(l)];
    PicksAppend(full[..n - 1], l.B.shape[..n - 1], ALL, Rank(l));
  }

  lemma PicksOfA(l: Lora, full: seq<Ix>)
    requires Valid(l) && |full| == Dims(l)
    ensures Picks(ForA(full, Dims(l)), l.A.shape) == if ColumnPick(l, full).None? then None
              else Some(FrontPicked(full[..Dims(l) - 2]) + [Every(Rank(l))] + [ColumnPick(l, full).value])
  {
    hide Picks, Picked, Ones, OnFront;
    var n := Dims(l);
    var front := full[..n - 2];
    FrontPicks(front);
    AllPicks(Rank(l));
    PicksAppend(OnFront(front), Ones(n - 2), ALL, Rank(l));
    PicksAppend(OnFront(front) + [ALL], Ones(n - 2) + [Rank(l)], full[n - 1], RowSize(l));
  }

  /** Neither of the last two entries is a number: the result is a matrix or more. */
  predicate KeepsMatrix(ixs: seq<Ix>, n: nat)
    requires n >= 2
  {
    |ixs| <= n ==> !Padded(ixs, n)[n - 1].At? && !Padded(ixs, n)[n - 2].At?
  }

  lemma {:induction false} KeptAppend(ixs: seq<Ix>, ix: Ix)
    ensures Kept(ixs + [ix]) == Kept(ixs) + if ix.At? then 0 else 1
  {
    if ixs == [] {
      assert ixs + [ix] == [ix] && [ix][1..] == [];
    } else {
      assert (ixs + [ix])[1..] == ixs[1..] + [ix];
      KeptAppend(ixs[1..], ix);
    }
  }

  /** The factors indexed, in terms of what is picked from the rows, the columns and A's axes in front. */
  ghost predicate IndexedAs(l: Lora, l': Lora, ps: seq<Pick>, q: Pick, front: seq<Pick>, k: nat) {
    && Valid(l) && q.Many?
    && |PickedShape(ps)| == k + 1 && PickedShape(front) == Ones(k) && Source(front, Zeros(k)) == Zeros(Dims(l) - 2)
    && l'.A == Tensor(PickedShape(front + [Every(Rank(l))] + [q]),
       idx => l.A.at(Source(front + [Every(Rank(l))] + [q], idx)))
    && l'.B == Tensor(PickedShape(ps + [Every(Rank(l))]), idx => l.B.at(Source(ps + [Every(Rank(l))], idx)))
  }

  /** The entries for the factors stand apart if those of the index do. */
  lemma FactorsApart(ixs: seq<Ix>, n: nat)
    requires Apart(ixs) && |ixs| <= n && n >= 2
    ensures var full := Padded(ixs, n); Apart(ForA(full, n)) && Apart(full[..n - 1])
  {
    var full := Padded(ixs, n);
    assert forall i :: 0 <= i < |ixs| ==> full[i] == ixs[i];
    assert Apart(full);
    var a := ForA(full, n);
    assert forall i :: 0 <= i < n - 1 ==> !a[i].List?;
    forall i, j | 0 <= i < n && 0 <= j < n && a[i].List? && !a[j].Slice? ensures i == j {
      assert full[i].List? && !full[j].Slice?;
    }
  }

  lemma IndexedApart(t: Tensor, ixs: seq<Ix>)
    requires Apart(ixs) && |ixs| <= |t.shape|
    ensures var ps := Picks(Padded(ixs, |t.shape|), t.shape);
            Indexed(t, ixs) == if ps.None? then None
              else Some(Tensor(PickedShape(ps.value), idx => t.at(Source(ps.value, idx))))
  {
    hide Picks, Source, PickedShape, Padded;
  }

  lemma IndexedFactors(l: Lora, ixs: seq<Ix>) returns (ps: seq<Pick>, q: Pick)
    requires Valid(l) && LoraIndex(l, ixs).Some? && KeepsMatrix(ixs, Dims(l)) && Apart(ixs)
    ensures |ixs| <= Dims(l)
    ensures q.Many? && Indexed(Dense(l), ixs) == Some(Tensor(PickedShape(ps + [q]),
            idx => Dense(l).at(Source(ps + [q], idx))))
    ensures var front := Padded(ixs, Dims(l))[..Dims(l) - 2];
            IndexedAs(l, LoraIndex(l, ixs).value, ps, q, FrontPicked(front), Kept(front))
  {
    hide Picks, PickedShape, Source, Ones, OnFront, FrontPicked, Dense, Indexed, Apart;
    var n, full := Dims(l), Padded(ixs, Dims(l));
    var front := full[..n - 2];
    FactorsApart(ixs, n);
    IndexedApart(l.A, ForA(full, n));
    IndexedApart(l.B, full[..n - 1]);
    IndexedApart(Dense(l), ixs) by { DenseShape(l); }
    PicksOfA(l, full);
    PicksOfB(l, full);
    PicksOfProduct(l, full);
    FrontPicks(front);
    assert Padded(ForA(full, n), n) == ForA(full, n) && Padded(full[..n - 1], n) == full[..n - 1] + [ALL];
    ps, q := RowPicks(l, full).value, ColumnPick(l, full).value;
    assert Dense(l).shape == ShapeOf(l) by { DenseShape(l); }
    AxesLeft(l, full);
  }

  lemma DenseShape(l: Lora)
    requires Make(l.A, l.B).Some?
    ensures Dense(l).shape == ShapeOf(l)
  {
  }

  lemma AxesLeft(l: Lora, full: seq<Ix>)
    requires Valid(l) && |full| == Dims(l) && RowPicks(l, full).Some? && !full[Dims(l) - 2].At?
    ensures |PickedShape(RowPicks(l, full).value)| == Kept(full[..Dims(l) - 2]) + 1
  {
    hide Picks, PickedShape, Ones;
    var n := Dims(l);
    KeptAxes(full[..n - 1], l.B.shape[..n - 1]);
    assert full[..n - 1] == full[..n - 2] + [full[n - 2]];
    KeptAppend(full[..n - 2], full[n - 2]);
  }

  lemma IndexShapes(l: Lora, l': Lora, ps: seq<Pick>, q: Pick, front: seq<Pick>, k: nat)
    requires IndexedAs(l, l', ps, q, front, k)
    ensures l'.A.shape == Ones(k) + [Rank(l)] + [|q.ks|] && l'.B.shape == PickedShape(ps) + [Rank(l)] && Valid(l')
    ensures Dims(l') == k + 2 && Rank(l') == Rank(l)
  {
    hide PickedShape, Source, Ones;
    ShapeAppend(front, Every(Rank(l)));
    ShapeAppend(front + [Every(Rank(l))], q);
    ShapeAppend(ps, Every(Rank(l)));
  }

  lemma IndexTerm(l: Lora, l': Lora, ps: seq<Pick>, q: Pick, front: seq<Pick>, k: nat, lead: Index, c: nat, r: nat)
    requires IndexedAs(l, l', ps, q, front, k) && Within(PickedShape(ps), lead) && c < |q.ks| && r < Rank(l)
    ensures Term(l', lead, c, r) == Term(l, Source(ps, lead), q.ks[c], r)
  {
    hide PickedShape, Source, Ones, Term;
    IndexShapes(l, l', ps, q, front, k);
    SourceAppend(ps, Every(Rank(l)), lead, r);
    FrontIndex(front, k, Dims(l), Rank(l), q, r, c);
    EqualTerm(l', lead, c, l, Source(ps, lead), q.ks[c], r);
  }

  lemma FrontIndex(front: seq<Pick>, k: nat, n: nat, rank: nat, q: Pick, r: nat, c: nat)
    requires n >= 2 && q.Many? && r < rank && c < |q.ks|
    requires PickedShape(front) == Ones(k) && Source(front, Zeros(k)) == Zeros(n - 2)
    ensures Source(front + [Every(rank)] + [q], ColumnIndex(k + 2, r, c)) == ColumnIndex(n, r, q.ks[c])
  {
    hide PickedShape, Source;
    ShapeAppend(front, Every(rank));
    SourceAppend(front, Every(rank), Zeros(k), r);
    SourceAppend(front + [Every(rank)], q, Zeros(k) + [r], c);
  }

  lemma EqualTerm(l: Lora, i: Index, c: nat, l': Lora, i': Index, c': nat, r: nat)
    requires l.B.at(i + [r]) == l'.B.at(i' + [r])
    requires l.A.at(ColumnIndex(Dims(l), r, c)) == l'.A.at(ColumnIndex(Dims(l'), r, c'))
    ensures Term(l, i, c, r) == Term(l', i', c', r)
  {
  }

  lemma IndexAt(l: Lora, l': Lora, ps: seq<Pick>, q: Pick, front: seq<Pick>, k: nat, lead: Index, c: nat)
    requires Valid(l) && q.Many? && IndexedAs(l, l', ps, q, front, k) && Valid(l') && Rank(l') == Rank(l)
    requires Within(PickedShape(ps), lead) && c < |q.ks|
    ensures Dense(l').at(lead + [c]) == Dense(l).at(Source(ps + [q], lead + [c]))
  {
    hide PickedShape, Source, Ones, Term, Dense, Sum, IndexedAs;
    SourceAppend(ps, q, lead, c);
    DenseAt(l', lead, c);
    DenseAt(l, Source(ps, lead), q.ks[c]);
    forall r: nat | r < Rank(l) ensures Term(l', lead, c, r) == Term(l, Source(ps, lead), q.ks[c], r) {
      IndexTerm(l, l', ps, q, front, k, lead, c, r);
    }
    SumCongruent((r: nat) => Term(l', lead, c, r), (r: nat) => Term(l, Source(ps, lead), q.ks[c], r), Rank(l));
  }

  lemma IndexDenseApart(l: Lora, ixs: seq<Ix>)
    requires Valid(l) && LoraIndex(l, ixs).Some? && KeepsMatrix(ixs, Dims(l)) && Apart(ixs)
    ensures var l' := LoraIndex(l, ixs).value;
            Valid(l') && Indexed(Dense(l), ixs).Some? && Same(Dense(l'), Indexed(Dense(l), ixs).value)
  {
    hide PickedShape, Source, Ones, Term, Sum, IndexedAs, LoraIndex, Indexed, FrontPicked, KeepsMatrix, Apart;
    hide Dense;
    DenseShape(l);
    var ps, q := IndexedFactors(l, ixs);
    var l', d := LoraIndex(l, ixs).value, Indexed(Dense(l), ixs).value;
    var front := Padded(ixs, Dims(l))[..Dims(l) - 2];
    IndexShapes(l, l', ps, q, FrontPicked(front), Kept(front));
    DenseShape(l');
    ShapeAppend(ps, q);
    forall idx | Within(d.shape, idx) ensures Dense(l').at(idx) == d.at(idx) {
      var lead, c := idx[..|idx| - 1], idx[|idx| - 1];
      assert idx == lead + [c];
      IndexAt(l, l', ps, q, FrontPicked(front), Kept(front), lead, c);
    }
  }

  lemma NumberlessA(ixs: seq<Ix>, n: nat)
    requires !HasNumber(ixs) && |ixs| <= n && n >= 2
    ensures var a := ForA(Padded(ixs, n), n); NoneAt(a) && Apart(a)
  {
    assert forall i :: 0 <= i < n ==> !Padded(ixs, n)[i].At?;
  }

  /** Without numbers, A keeps all its axes. */
  lemma AxesOfA(l: Lora, ixs: seq<Ix>)
    requires Valid(l) && LoraIndex(l, ixs).Some? && !HasNumber(ixs)
    ensures |LoraIndex(l, ixs).value.A.shape| == Dims(l)
  {
    hide Picks, PickedShape, Source, Ones, OnFront, Apart, HasNumber, NoneAt;
    var n := Dims(l);
    var a := ForA(Padded(ixs, n), n);
    NumberlessA(ixs, n);
    assert Padded(a, n) == a;
    IndexedApart(l.A, a);
    KeptAxes(a, l.A.shape);
    KeptAll(a);
  }

  predicate NoneAt(ixs: seq<Ix>) {
    forall i :: 0 <= i < |ixs| ==> !ixs[i].At?
  }

  lemma {:induction false} KeptAll(ixs: seq<Ix>)
    requires NoneAt(ixs)
    ensures Kept(ixs) == |ixs|
  {
    if ixs != [] { KeptAll(ixs[1..]); }
  }

  /** Where the factors can be indexed, this indexes the product if and only if no list has another list beside it:
      the factors take two lists one by one, the product takes them in pairs. */
  lemma IndexDense(l: Lora, ixs: seq<Ix>)
    requires Valid(l) && LoraIndex(l, ixs).Some? && KeepsMatrix(ixs, Dims(l))
    ensures Apart(ixs) <==> Indexed(Dense(l), ixs).Some? && Same(Dense(LoraIndex(l, ixs).value),
            Indexed(Dense(l), ixs).value)
    ensures Apart(ixs) ==> Valid(LoraIndex(l, ixs).value)
  {
    if Apart(ixs) {
      IndexDenseApart(l, ixs);
    } else if Indexed(Dense(l), ixs).Some? {
      hide LoraIndex, Indexed, Apart;
      DenseShape(l);
      PairedAxes(Dense(l), ixs);
      AxesOfA(l, ixs);
      DenseShape(LoraIndex(l, ixs).value);
    }
  }

  const FIRST_TWO: Ix := List([0, 1])

  lemma PicksFirstTwo(n: nat)
    requires n >= 2
    ensures Picked(FIRST_TWO, n) == Some(Many([0, 1]))
  {
    assert seq(2, i requires 0 <= i < 2 => if FromEnd([0, 1][i], n) >= 0 then FromEnd([0, 1][i], n) else 0) == [0, 1];
  }

  lemma PicksOfTwo(m: nat, n: nat, ix: Ix, iy: Ix)
    requires Picked(ix, m).Some? && Picked(iy, n).Some?
    ensures Picks([ix, iy], [m, n]) == Some([Picked(ix, m).value, Picked(iy, n).value])
  {
    hide Picked;
    var none: seq<Ix>, flat: Shape := [], [];
    PicksAppend(none, flat, ix, m);
    PicksAppend([ix], [m], iy, n);
    assert none + [ix] == [ix] && flat + [m] == [m] && [ix] + [iy] == [ix, iy] && [m] + [n] == [m, n];
    var p, q := Picked(ix, m).value, Picked(iy, n).value;
    assert Picks([ix], [m]) == Some([p]) by { var none: seq<Pick> := []; assert none + [p] == [p]; }
    assert [p] + [q] == [p, q];
  }

  /** `[[0, 1], [0, 1]]` takes from a matrix the first two entries of its diagonal, and from its factors the upper left
      corner of two by two. */
  lemma CornerForDiagonal(l: Lora)
    requires Valid(l) && Dims(l) == 2 && l.B.shape[0] >= 2 && RowSize(l) >= 2 && Rank(l) >= 2
    ensures var ixs := [FIRST_TWO, FIRST_TWO];
            && LoraIndex(l, ixs).Some? && ShapeOf(LoraIndex(l, ixs).value) == [2, 2]
            && Indexed(Dense(l), ixs).Some? && Indexed(Dense(l), ixs).value.shape == [2]
            && forall k :: 0 <= k < 2 ==> Indexed(Dense(l), ixs).value.at([k]) == Dense(l).at([k, k])
  {
    hide Dense, LoraIndex, Indexed, Ones;
    var ixs := [FIRST_TWO, FIRST_TWO];
    CornerOfFactors(l, ixs);
    DenseShape(l);
    assert Dense(l).shape == [l.B.shape[0], RowSize(l)];
    DiagonalOf(Dense(l), ixs);
  }

  lemma CornerOfFactors(l: Lora, ixs: seq<Ix>)
    requires Valid(l) && Dims(l) == 2 && l.B.shape[0] >= 2 && RowSize(l) >= 2 && Rank(l) >= 2
    requires ixs == [FIRST_TWO, FIRST_TWO]
    ensures LoraIndex(l, ixs).Some? && ShapeOf(LoraIndex(l, ixs).value) == [2, 2]
  {
    hide Picked, Picks, Source;
    var rows, cols, rank := l.B.shape[0], RowSize(l), Rank(l);
    assert Padded(ixs, 2) == ixs && ixs[..1] == [FIRST_TWO] && ForA(ixs, 2) == [ALL, FIRST_TWO];
    assert l.A.shape == [rank, cols] && l.B.shape == [rows, rank];
    assert Padded([FIRST_TWO], 2) == [FIRST_TWO, ALL] && Padded([ALL, FIRST_TWO], 2) == [ALL, FIRST_TWO];
    PicksFirstTwo(rows);
    PicksFirstTwo(cols);
    AllPicks(rank);
    PicksOfTwo(rank, cols, ALL, FIRST_TWO);
    PicksOfTwo(rows, rank, FIRST_TWO, ALL);
    IndexedApart(l.A, [ALL, FIRST_TWO]);
    IndexedApart(l.B, [FIRST_TWO]);
    TwoShapes(Every(rank), Many([0, 1]));
    TwoShapes(Many([0, 1]), Every(rank));
  }

  lemma TwoShapes(p: Pick, q: Pick)
    requires p.Many? && q.Many?
    ensures PickedShape([p, q]) == [|p.ks|, |q.ks|]
  {
    SourceFirst(q, [], []);
    SourceFirst(p, [q], []);
    assert [p] + [q] == [p, q] && [q] + [] == [q];
  }

  lemma DiagonalOf(t: Tensor, ixs: seq<Ix>)
    requires |t.shape| == 2 && t.shape[0] >= 2 && t.shape[1] >= 2 && ixs == [FIRST_TWO, FIRST_TWO]
    ensures Indexed(t, ixs).Some? && Indexed(t, ixs).value.shape == [2]
    ensures forall k :: 0 <= k < 2 ==> Indexed(t, ixs).value.at([k]) == t.at([k, k])
  {
    hide Picked, Picks, PairLength, SliceShape, PairSource, FirstList;
    var ps := [Many([0, 1]), Many([0, 1])];
    assert Padded(ixs, 2) == ixs && t.shape == [t.shape[0], t.shape[1]];
    PicksFirstTwo(t.shape[0]);
    PicksFirstTwo(t.shape[1]);
    PicksOfTwo(t.shape[0], t.shape[1], FIRST_TWO, FIRST_TWO);
    assert !Apart(ixs) by { assert ixs[0].List? && ixs[1].List?; }
    TwoPaired(ixs, ps);
    forall k: nat | k < 2 ensures Indexed(t, ixs).value.at([k]) == t.at([k, k]) {
      assert [k][..0] + [k][1..] == [];
    }
  }

  lemma TwoPaired(ixs: seq<Ix>, ps: seq<Pick>)
    requires ixs == [FIRST_TWO, FIRST_TWO] && ps == [Many([0, 1]), Many([0, 1])]
    ensures PairLength(ixs, ps) == Some(2) && SliceShape(ixs, ps) == [] && FirstList(ixs) == 0
    ensures forall k: nat :: k < 2 ==> PairSource(ixs, ps, k, []) == [k, k]
  {
    assert ixs[1..] == [FIRST_TWO] && ps[1..] == [Many([0, 1])];
    assert ixs[1..][1..] == [] && ps[1..][1..] == [];
    assert PairLength(ixs[1..], ps[1..]) == Some(2) && SliceShape(ixs[1..], ps[1..]) == [];
    forall k: nat | k < 2 ensures PairSource(ixs, ps, k, []) == [k, k] {
      assert PairSource(ixs[1..], ps[1..], k, []) == [k];
    }
  }

  /** Two lists among the rows are refused: B loses an axis that A keeps. */
  lemma RowListsRefused(l: Lora, ixs: seq<Ix>)
    requires Valid(l) && 0 < |ixs| <= Dims(l) && KeepsMatrix(ixs, Dims(l))
    requires !Apart(Padded(ixs, Dims(l))[..Dims(l) - 1])
    ensures LoraIndex(l, ixs).None?
  {
    if LoraIndex(l, ixs).Some? {
      hide Picks, Apart, Paired, Ones;
      var n, full := Dims(l), Padded(ixs, Dims(l));
      PairedAxes(l.B, full[..n - 1]);
      NoNumberLeft(ixs, n);
      AxesOfA(l, ixs);
    }
  }

  lemma NoNumberLeft(ixs: seq<Ix>, n: nat)
    requires |ixs| <= n && n >= 2 && KeepsMatrix(ixs, n) && !HasNumber(Padded(ixs, n)[..n - 1])
    ensures !HasNumber(ixs)
  {
    var full := Padded(ixs, n);
    forall i | 0 <= i < |ixs| ensures !ixs[i].At? {
      assert full[i] == ixs[i];
      if i < n - 1 { assert full[..n - 1][i] == ixs[i]; }
    }
  }
}
