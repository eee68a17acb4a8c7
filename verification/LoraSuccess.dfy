/** When the operations on the factors go through: a matter of the product's shape and the arguments alone. */
module LoraSuccess {
  import opened Arith
  import opened Tensors
  import opened Lora
  import opened LoraPrograms

  // ---------------------------------------------------------------- reshape

  /** `sh` is the shape asked for, -1 standing for any extent. */
  predicate Resolves(shape: seq<int>, sh: Shape) {
    |sh| == |shape| && forall i :: 0 <= i < |sh| ==> shape[i] == sh[i] || shape[i] == -1
  }

  /** Rows of the same size, and as many. */
  predicate KeepsRows(s: Shape, sh: Shape) {
    && |s| >= 2 && |sh| >= 2 && sh[|sh| - 1] == s[|s| - 1]
    && Size(sh[..|sh| - 1]) == Size(s[..|s| - 1])
  }

  /** An extent can be worked out if no other is 0. */
  ghost predicate CanReshape(s: Shape, shape: seq<int>) {
    && OneWildcard(shape) && (-1 in shape ==> 0 !in shape)
    && exists sh :: Resolves(shape, sh) && KeepsRows(s, sh)
  }

  lemma {:induction false} ZeroSize(s: Shape)
    ensures Size(s) == 0 <==> 0 in s
  {
    if s != [] {
      var front, last := s[..|s| - 1], s[|s| - 1];
      ZeroSize(front);
      assert s == front + [last];
      NoZero(Size(front), last);
    }
  }

  lemma NoZero(a: nat, b: nat)
    ensures a * b == 0 <==> a == 0 || b == 0
  {
    if a > 0 && b > 0 { TimesMono(1, a, b); }
  }

  /** One extent more or less. */
  lemma {:induction false} SizeWithout(s: Shape, p: nat)
    requires p < |s|
    ensures Size(s) == Size(s[p := 1]) * s[p]
  {
    var front, last := s[..|s| - 1], s[|s| - 1];
    if p == |s| - 1 {
      assert s[p := 1][..|s| - 1] == front;
    } else {
      assert s[p := 1][..|s| - 1] == front[p := 1];
      SizeWithout(front, p);
      Commuted(Size(front[p := 1]), front[p], last);
    }
  }

  lemma Commuted(a: nat, b: nat, c: nat)
    ensures a * b * c == a * c * b
  {
  }

  lemma OneUnknown(shape: seq<int>, sh: Shape, p: nat)
    requires OneWildcard(shape) && Resolves(shape, sh) && p < |shape| && shape[p] == -1
    ensures Known(shape) == sh[p := 1] && Filled(shape, sh[p]) == sh
  {
    forall i | 0 <= i < |shape| && i != p ensures shape[i] == sh[i] {
      assert shape[i] != -1;
    }
  }

  /** The extent worked out is the one that resolves the shape. */
  lemma ExpandedIsResolved(orig: Shape, shape: seq<int>, sh: Shape)
    requires OneWildcard(shape) && Resolves(shape, sh) && Size(sh) == Size(orig) && (-1 in shape ==> 0 !in shape)
    ensures Expanded(orig, shape) == Some(sh)
  {
    hide Size, OneWildcard;
    if p :| 0 <= p < |shape| && shape[p] == -1 {
      var known := Known(shape);
      OneUnknown(shape, sh, p);
      SizeWithout(sh, p);
      ZeroSize(known);
      NoneMissing(shape, sh, p);
      Shared(Size(orig), Size(known), sh[p]);
      UnknownFilled(orig, shape, sh, p);
    } else {
      AllKnown(orig, sh, shape);
    }
  }

  lemma Shared(total: nat, n: nat, x: nat)
    requires n > 0 && total == n * x
    ensures total % n == 0 && total / n == x
  {
    assert total == x * n + 0;
    DivMod(x, n, 0);
  }

  lemma UnknownFilled(orig: Shape, shape: seq<int>, sh: Shape, p: nat)
    requires p < |shape| == |sh| && shape[p] == -1 && forall i :: 0 <= i < |shape| ==> shape[i] >= -1
    requires var n := Size(Known(shape)); n != 0 && Size(orig) % n == 0 && Size(orig) / n == sh[p]
    requires Filled(shape, sh[p]) == sh
    ensures Expanded(orig, shape) == Some(sh)
  {
    hide Size, Filled;
    assert shape[p] in shape;
  }

  lemma NoneMissing(shape: seq<int>, sh: Shape, p: nat)
    requires Resolves(shape, sh) && p < |sh| && 0 !in shape && Known(shape) == sh[p := 1]
    ensures 0 !in Known(shape) && forall i :: 0 <= i < |shape| ==> shape[i] >= -1
  {
    forall i | 0 <= i < |shape| ensures Known(shape)[i] != 0 && shape[i] >= -1 { assert shape[i] in shape; }
  }

  lemma ResolvedIsExpanded(orig: Shape, shape: seq<int>)
    requires Expanded(orig, shape).Some?
    ensures Resolves(shape, Expanded(orig, shape).value) && (-1 in shape ==> 0 !in shape)
  {
    hide Size;
    if -1 in shape {
      ZeroSize(Known(shape));
      if i :| 0 <= i < |shape| && shape[i] == 0 { assert Known(shape)[i] == 0; }
    }
  }

  lemma SizesOfFactors(l: Lora, lead: Shape)
    requires Valid(l)
    ensures Size(l.A.shape) == Rank(l) * RowSize(l) && Size(l.B.shape) == Size(l.B.shape[..Dims(l) - 1]) * Rank(l)
    ensures Size(ShapeOf(l)) == Size(l.B.shape[..Dims(l) - 1]) * RowSize(l)
    ensures Size(lead + [Rank(l)]) == Size(lead) * Rank(l) && Size(lead + [RowSize(l)]) == Size(lead) * RowSize(l)
  {
    hide Size, Ones;
    var n, rows := Dims(l), l.B.shape[..Dims(l) - 1];
    SizeOfOnes(n, Rank(l), RowSize(l));
    assert l.B.shape == rows + [Rank(l)];
    FlattenAppend(rows, Zeros(n - 1), Rank(l), 0);
    FlattenAppend(rows, Zeros(n - 1), RowSize(l), 0);
    FlattenAppend(lead, Zeros(|lead|), Rank(l), 0);
    FlattenAppend(lead, Zeros(|lead|), RowSize(l), 0);
  }

  lemma SizeOfOnes(n: nat, rank: nat, row: nat)
    requires n >= 2
    ensures Size(Ones(n - 2) + [rank] + [row]) == rank * row
  {
    OnesFlat(n - 2);
    FlattenAppend(Ones(n - 2), Zeros(n - 2), rank, 0);
    FlattenAppend(Ones(n - 2) + [rank], Zeros(n - 2) + [0], row, 0);
  }

  lemma Cancelled(a: nat, b: nat, r: nat)
    requires r > 0 && a * r == b * r
    ensures a == b
  {
    assert (a - b) * r == 0;
    OnlyZero(a - b, r);
  }

  /** Reshaping goes through if and only if the shape asked for has rows of the same size, and as many. */
  lemma ReshapeIff(l: Lora, shape: seq<int>)
    requires Valid(l) && OneWildcard(shape)
    ensures LoraReshape(l, shape).Some? <==> CanReshape(ShapeOf(l), shape)
  {
    hide Size, Ones, Expanded;
    var s := ShapeOf(l);
    assert s[..|s| - 1] == l.B.shape[..Dims(l) - 1];
    if LoraReshape(l, shape).Some? {
      hide LoraReshape;
      ReshapeShapes(l, shape);
      var sh := Expanded(s, shape).value;
      ResolvedIsExpanded(s, shape);
      SizesOfFactors(l, sh[..|sh| - 1]);
      Cancelled(Size(sh[..|sh| - 1]), Size(s[..|s| - 1]), Rank(l));
      assert KeepsRows(s, sh);
    }
    if CanReshape(s, shape) {
      var sh :| Resolves(shape, sh) && KeepsRows(s, sh);
      ReshapeResolved(l, shape, sh);
    }
  }

  lemma ReshapeResolved(l: Lora, shape: seq<int>, sh: Shape)
    requires Valid(l) && OneWildcard(shape) && (-1 in shape ==> 0 !in shape)
    requires Resolves(shape, sh) && KeepsRows(ShapeOf(l), sh)
    ensures LoraReshape(l, shape).Some?
  {
    hide Size, Ones, Expanded;
    var s, lead := ShapeOf(l), sh[..|sh| - 1];
    assert s[..|s| - 1] == l.B.shape[..Dims(l) - 1] && sh == lead + [RowSize(l)];
    SizesOfFactors(l, lead);
    ExpandedIsResolved(s, shape, sh);
    SizeOfOnes(|sh|, Rank(l), RowSize(l));
  }

  // ---------------------------------------------------------------- permute

  /** The dimensions are all there, and the last stays in place; those of a matrix may be swapped. */
  predicate CanPermute(n: nat, dims: seq<int>) {
    && n > 0 && InRange(dims, n) && IsPermutation(FromFront(dims))
    && (FromFront(dims)[n - 1] == n - 1 || n == 2)
  }

  lemma LastInPlace(l: Lora, dims: seq<int>)
    requires Valid(l) && InRange(dims, Dims(l)) && FromFront(dims)[Dims(l) - 1] == Dims(l) - 1
    ensures LoraPermute(l, dims).Some? <==> IsPermutation(FromFront(dims))
  {
    hide IsPermutation, Ones, PermutedShape;
    var n, neg, front := Dims(l), Negative(dims, Dims(l)), FromFront(dims);
    NegativeIsSame(dims);
    assert neg[n - 1] == -1;
    FrontOnes(l);
    hide FromFront, InRange;
    if IsPermutation(front) { PermuteShapes(l, front); }
  }

  lemma MatrixSwapped(l: Lora, dims: seq<int>)
    requires Valid(l) && Dims(l) == 2 && InRange(dims, 2) && FromFront(dims)[1] != 1
    ensures LoraPermute(l, dims).Some? <==> IsPermutation(FromFront(dims))
  {
    hide IsPermutation, Ones, PermutedShape;
    var neg, front := Negative(dims, 2), FromFront(dims);
    NegativeIsSame(dims);
    assert |neg| == 2 && neg[1] != -1 && neg[1] < 0 && neg[0] < 0;
    TwoDims(neg, front);
    hide FromFront, InRange, Negative;
    if IsPermutation(front) { SwapFactors(l); }
  }

  lemma OtherwiseRefused(l: Lora, dims: seq<int>)
    requires Valid(l) && Dims(l) != 2 && InRange(dims, Dims(l)) && FromFront(dims)[Dims(l) - 1] != Dims(l) - 1
    ensures LoraPermute(l, dims).None?
  {
  }

  /** Permuting goes through if and only if the last dimension stays in place or a matrix is transposed. */
  lemma PermuteIff(l: Lora, dims: seq<int>)
    requires Valid(l) && InRange(dims, Dims(l))
    ensures LoraPermute(l, dims).Some? <==> CanPermute(Dims(l), dims)
  {
    hide IsPermutation, Ones, LoraPermute;
    if FromFront(dims)[Dims(l) - 1] == Dims(l) - 1 {
      LastInPlace(l, dims);
    } else if Dims(l) == 2 {
      MatrixSwapped(l, dims);
    } else {
      OtherwiseRefused(l, dims);
    }
  }

  lemma FrontOnes(l: Lora)
    requires Valid(l)
    ensures forall i :: 0 <= i < Dims(l) - 2 ==> l.A.shape[i] == 1
  {
  }

  lemma TwoDims(neg: seq<int>, front: seq<nat>)
    requires InRange(neg, 2) && front == FromFront(neg) && neg[1] < 0 && neg[0] < 0 && neg[1] != -1
    ensures IsPermutation(front) <==> front == SWAP
    ensures front == SWAP <==> neg[1] == -2 && neg[0] == -1
  {
    assert IsPermutation(SWAP) by { SwapIndex(0, 0); }
    assert neg[1] == -2 && front[1] == 0 && |front| == 2;
    if IsPermutation(front) {
      assert front[0] != front[1];
      assert front == SWAP;
    }
    if front == SWAP { assert front[0] == 1; }
  }

  /** Dimensions beyond the range that torch takes can get through: `permute(2, 1)` leaves a matrix of factors as it is,
      and is refused for the product. */
  lemma BeyondRange(l: Lora)
    requires Valid(l) && Dims(l) == 2
    ensures LoraPermute(l, [2, 1]).Some? && TorchPermute(Dense(l), [2, 1]).None?
  {
    hide Ones, Dense, Size, IsPermutation;
    var dims, neg: seq<int> := [2, 1], [0, -1];
    assert !InRange(dims, 2) by { assert dims[0] == 2; }
    assert Negative(dims, 2) == neg && FromFront(neg) == SAME && InRange(neg, 2);
    SameIsPermutation();
    PermuteShapes(l, SAME);
  }

  const SAME: seq<nat> := [0, 1]

  lemma SameIsPermutation()
    ensures IsPermutation(SAME) && SAME[1] == 1
  {
  }

  // ---------------------------------------------------------------- indexing

  /** Positions are counted from the end if negative; slices are cut to size. */
  predicate InBounds(ix: Ix, n: nat) {
    match ix
    case At(k) => 0 <= k + n < 2 * n
    case Slice(_, _) => true
    case List(ks) => forall i :: 0 <= i < |ks| ==> 0 <= ks[i] + n < 2 * n
  }

  /** There are entries, no more than dimensions, and each is in bounds; the last two dimensions stay, and lists stand
      apart. */
  predicate CanIndex(s: Shape, ixs: seq<Ix>) {
    && |s| >= 2 && 0 < |ixs| <= |s| && KeepsMatrix(ixs, |s|) && Apart(ixs)
    && forall i :: 0 <= i < |ixs| ==> InBounds(ixs[i], s[i])
  }

  lemma PickedIff(ix: Ix, n: nat)
    ensures Picked(ix, n).Some? <==> InBounds(ix, n)
  {
  }

  lemma {:induction false} PicksIff(ixs: seq<Ix>, shape: Shape)
    requires |ixs| == |shape|
    ensures Picks(ixs, shape).Some? <==> forall i :: 0 <= i < |ixs| ==> InBounds(ixs[i], shape[i])
  {
    hide Picked, InBounds;
    if ixs != [] {
      PickedIff(ixs[0], shape[0]);
      PicksIff(ixs[1..], shape[1..]);
      assert forall i :: 1 <= i < |ixs| ==> ixs[i] == ixs[1..][i - 1] && shape[i] == shape[1..][i - 1];
      assert forall i :: 0 <= i < |ixs| - 1 ==> ixs[1..][i] == ixs[i + 1] && shape[1..][i] == shape[i + 1];
    }
  }

  /** The entries left out pick everything. */
  lemma PaddedInBounds(ixs: seq<Ix>, s: Shape)
    requires |ixs| <= |s|
    ensures Picks(Padded(ixs, |s|), s).Some? <==> forall i :: 0 <= i < |ixs| ==> InBounds(ixs[i], s[i])
  {
    hide Picks;
    var full := Padded(ixs, |s|);
    PicksIff(full, s);
    assert forall i :: 0 <= i < |ixs| ==> full[i] == ixs[i];
  }

  /** Indexing goes through if and only if the entries are in bounds. */
  lemma IndexIff(l: Lora, ixs: seq<Ix>)
    requires Valid(l) && KeepsMatrix(ixs, Dims(l)) && Apart(ixs)
    ensures LoraIndex(l, ixs).Some? <==> CanIndex(ShapeOf(l), ixs)
  {
    if 0 < |ixs| <= Dims(l) {
      hide Picks, PickedShape, Source, Ones, OnFront, FrontPicked, Indexed, Apart, InBounds;
      var n, full := Dims(l), Padded(ixs, Dims(l));
      FactorsApart(ixs, n);
      IndexedApart(l.A, ForA(full, n));
      IndexedApart(l.B, full[..n - 1]);
      assert Padded(ForA(full, n), n) == ForA(full, n) && Padded(full[..n - 1], n) == full[..n - 1] + [ALL];
      PicksOfA(l, full);
      PicksOfB(l, full);
      PicksOfProduct(l, full);
      PaddedInBounds(ixs, ShapeOf(l));
      if RowPicks(l, full).Some? && ColumnPick(l, full).Some? { FactorsMatch(l, full); }
    }
  }

  /** The factors picked fit together. */
  lemma FactorsMatch(l: Lora, full: seq<Ix>)
    requires Valid(l) && |full| == Dims(l) && RowPicks(l, full).Some? && ColumnPick(l, full).Some?
    requires !full[Dims(l) - 1].At? && !full[Dims(l) - 2].At?
    ensures var every, n := Every(Rank(l)), Dims(l);
            var a := FrontPicked(full[..n - 2]) + [every] + [ColumnPick(l, full).value];
            var b := RowPicks(l, full).value + [every];
            forall f: Index -> real, g: Index -> real ::
              Make(Tensor(PickedShape(a), f), Tensor(PickedShape(b), g)).Some?
  {
    hide Picks, PickedShape, Source, Ones, OnFront, FrontPicked;
    var n := Dims(l);
    FrontPicks(full[..n - 2]);
    AxesLeft(l, full);
    ShapeAppend(FrontPicked(full[..n - 2]), Every(Rank(l)));
    ShapeAppend(FrontPicked(full[..n - 2]) + [Every(Rank(l))], ColumnPick(l, full).value);
    ShapeAppend(RowPicks(l, full).value, Every(Rank(l)));
  }

  // ---------------------------------------------------------------- concatenation

  /** Matrices are joined if and only if they have the same A. */
  lemma CatIff(l: Lora, m: Lora)
    requires Valid(l) && Valid(m) && Dims(l) == 2
    ensures LoraCat(l, m).Some? <==> Same(l.A, m.A)
  {
    if Same(l.A, m.A) {
      hide Same;
      SameShapes(l.A, m.A);
      assert l.B.shape == [l.B.shape[0]] + [Rank(l)] && m.B.shape == [m.B.shape[0]] + [Rank(m)];
    }
  }

  // ---------------------------------------------------------------- programs

  /** Every step can be taken, the shapes being those the product has on the way; only where two results are joined it
      matters what is in the factors. */
  ghost predicate Passes(e: Expr, l: Lora)
    requires Valid(l)
  {
    match e
    case Input => true
    case Reshape(f, shape) => Passes(f, l) && CanReshape(ShapeAfter(f, l), shape)
    case Permute(f, dims) => Passes(f, l) && CanPermute(|ShapeAfter(f, l)|, dims)
    case GetItem(f, ixs) => Passes(f, l) && CanIndex(ShapeAfter(f, l), ixs)
    case Cat(f, g) => Passes(f, l) && Passes(g, l) && |ShapeAfter(f, l)| == 2 && SameA(f, g, l)
  }

  /** The shape of the product after the steps. */
  ghost function ShapeAfter(e: Expr, l: Lora): Shape
    requires Valid(l)
  {
    var t := OnDense(e, Dense(l));
    if t.None? then [] else t.value.shape
  }

  ghost predicate SameA(f: Expr, g: Expr, l: Lora)
    requires Valid(l)
  {
    var m, n := OnFactors(f, l), OnFactors(g, l);
    m.Some? && n.Some? && Same(m.value.A, n.value.A)
  }

  lemma AfterStep(e: Expr, l: Lora)
    requires Valid(l) && OnFactors(e, l).Some?
    ensures Valid(OnFactors(e, l).value) && ShapeAfter(e, l) == ShapeOf(OnFactors(e, l).value)
    ensures |ShapeAfter(e, l)| == Dims(OnFactors(e, l).value)
  {
    hide OnFactors, OnDense, Ones;
    ProgramOnFactors(e, l);
    DenseShape(OnFactors(e, l).value);
  }

  /** The factors get through a program if and only if every step can be taken. */
  lemma {:induction false} ProgramPasses(e: Expr, l: Lora)
    requires Valid(l)
    ensures OnFactors(e, l).Some? <==> Passes(e, l)
  {
    hide Ones, LoraReshape, LoraPermute, LoraIndex, LoraCat, KeepsMatrix, CanReshape, ShapeAfter, Same, Apart,
      ShapeOf, InRange;
    match e
    case Input =>
    case Reshape(f, shape) =>
      ProgramPasses(f, l);
      if OnFactors(f, l).Some? {
        AfterStep(f, l);
        ReshapeStep(OnFactors(f, l).value, shape);
      }
    case Permute(f, dims) =>
      ProgramPasses(f, l);
      if OnFactors(f, l).Some? {
        AfterStep(f, l);
        PermuteStep(OnFactors(f, l).value, dims);
      }
    case GetItem(f, ixs) =>
      ProgramPasses(f, l);
      if OnFactors(f, l).Some? {
        AfterStep(f, l);
        IndexStep(OnFactors(f, l).value, ixs);
      }
    case Cat(f, g) =>
      ProgramPasses(f, l);
      ProgramPasses(g, l);
      if OnFactors(f, l).Some? && OnFactors(g, l).Some? {
        AfterStep(f, l);
        AfterStep(g, l);
        if Dims(OnFactors(f, l).value) == 2 { CatIff(OnFactors(f, l).value, OnFactors(g, l).value); }
      }
  }

  lemma ReshapeStep(m: Lora, shape: seq<int>)
    requires Valid(m)
    ensures OneWildcard(shape) && LoraReshape(m, shape).Some? <==> CanReshape(ShapeOf(m), shape)
  {
    hide LoraReshape;
    if OneWildcard(shape) { ReshapeIff(m, shape); }
  }

  lemma PermuteStep(m: Lora, dims: seq<int>)
    requires Valid(m)
    ensures InRange(dims, Dims(m)) && LoraPermute(m, dims).Some? <==> CanPermute(Dims(m), dims)
  {
    hide LoraPermute;
    if InRange(dims, Dims(m)) { PermuteIff(m, dims); }
  }

  lemma IndexStep(m: Lora, ixs: seq<Ix>)
    requires Valid(m)
    ensures KeepsMatrix(ixs, Dims(m)) && Apart(ixs) && LoraIndex(m, ixs).Some? <==> CanIndex(ShapeOf(m), ixs)
  {
    hide LoraIndex;
    if KeepsMatrix(ixs, Dims(m)) && Apart(ixs) { IndexIff(m, ixs); }
  }
}
