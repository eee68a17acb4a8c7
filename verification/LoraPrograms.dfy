/** Programs of tensor operations run on the factors of a low-rank tensor: they come out as the same program run on the
    product. The converters' own shuffles are such programs. */
module LoraPrograms {
  import opened Arith
  import opened Tensors
  import opened Lora

  datatype Expr =
    | Input
    | Reshape(of: Expr, shape: seq<int>)       // also view, reshape_as
    | Permute(of: Expr, dims: seq<int>)        // also transpose, swapaxes
    | GetItem(of: Expr, ixs: seq<Ix>)
    | Cat(first: Expr, second: Expr)

  /** `torch.cat` of two, along the first axis. Matrices need the same A. */
  ghost function LoraCat(l: Lora, m: Lora): Option<Lora>
    requires Make(l.A, l.B).Some? && Make(m.A, m.B).Some?
  {
    if Dims(l) > 2 then
      if Joined(l.A, m.A).None? || Joined(l.B, m.B).None? then None else Make(Joined(l.A, m.A).value, Joined(l.B,
          m.B).value)
    else if !Same(l.A, m.A) || Joined(l.B, m.B).None? then None
    else Make(l.A, Joined(l.B, m.B).value)
  }

  // ---------------------------------------------------------------- both ways of running a program

  function OnDense(e: Expr, t: Tensor): Option<Tensor> {
    match e
    case Input => Some(t)
    case Reshape(f, shape) =>
      var u := OnDense(f, t);
      if u.None? then None else DenseReshape(u.value, shape)
    case Permute(f, dims) =>
      var u := OnDense(f, t);
      if u.None? then None else TorchPermute(u.value, dims)
    case GetItem(f, ixs) =>
      var u := OnDense(f, t);
      if u.None? then None else Indexed(u.value, ixs)
    case Cat(f, g) =>
      var u, v := OnDense(f, t), OnDense(g, t);
      if u.None? || v.None? then None else Joined(u.value, v.value)
  }

  /** The factors each step yields; nothing if the code raises or leaves the forms below. */
  ghost function OnFactors(e: Expr, l: Lora): Option<Lora>
    requires Valid(l)
  {
    match e
    case Input => Some(l)
    case Reshape(f, shape) =>
      var m := OnFactors(f, l);
      if m.None? || !Make(m.value.A, m.value.B).Some? || !OneWildcard(shape) then None else LoraReshape(m.value, shape)
    case Permute(f, dims) =>
      var m := OnFactors(f, l);
      if m.None? || !Make(m.value.A, m.value.B).Some?
          || !InRange(dims, Dims(m.value)) then None else LoraPermute(m.value, dims)
    case GetItem(f, ixs) =>
      var m := OnFactors(f, l);
      if m.None? || !Valid(m.value) || !KeepsMatrix(ixs, Dims(m.value)) || !Apart(ixs) then None
      else LoraIndex(m.value, ixs)
    case Cat(f, g) =>
      var m, n := OnFactors(f, l), OnFactors(g, l);
      if m.None? || n.None? || !Valid(m.value) || !Valid(n.value)
          || Dims(m.value) != 2 then None else LoraCat(m.value, n.value)
  }

  /** torch allows one dimension to be worked out. */
  predicate OneWildcard(shape: seq<int>) {
    forall i, j :: 0 <= i < j < |shape| ==> shape[i] != -1 || shape[j] != -1
  }

  // ---------------------------------------------------------------- equal tensors stay equal

  lemma ReshapeSame(t: Tensor, u: Tensor, shape: seq<int>)
    requires Same(t, u) && DenseReshape(t, shape).Some?
    ensures DenseReshape(u, shape).Some? && Same(DenseReshape(t, shape).value, DenseReshape(u, shape).value)
  {
    hide Size, Flatten, Unflatten, Expanded;
    var sh := Expanded(t.shape, shape).value;
    forall idx | Within(sh, idx) ensures Within(t.shape, Unflatten(t.shape, Flatten(sh, idx))) {
      FlattenBelow(sh, idx);
      UnflattenWithin(t.shape, Flatten(sh, idx));
    }
  }

  lemma PermuteSame(t: Tensor, u: Tensor, dims: seq<int>)
    requires Same(t, u) && TorchPermute(t, dims).Some?
    ensures TorchPermute(u, dims).Some? && Same(TorchPermute(t, dims).value, TorchPermute(u, dims).value)
  {
    hide IsPermutation, Scatter, PermutedShape;
    var d := FromFront(dims);
    forall idx | Within(PermutedShape(t.shape, d), idx) ensures Within(t.shape, Scatter(d, idx)) {
      ScatterWithin(t, d, idx);
    }
  }

  lemma IndexSame(t: Tensor, u: Tensor, ixs: seq<Ix>)
    requires Same(t, u) && Indexed(t, ixs).Some? && Apart(ixs)
    ensures Indexed(u, ixs).Some? && Same(Indexed(t, ixs).value, Indexed(u, ixs).value)
  {
    hide Picks, PickedShape, Source, Paired, Apart;
    var full := Padded(ixs, |t.shape|);
    var ps := Picks(full, t.shape).value;
    forall idx | Within(PickedShape(ps), idx) ensures Within(t.shape, Source(ps, idx)) {
      SourceWithin(full, t.shape, idx);
    }
  }

  lemma CatWithin(s: Shape, s': Shape, idx: Index)
    requires s != [] && |s'| == |s| && s[1..] == s'[1..] && Within([s[0] + s'[0]] + s[1..], idx)
    ensures if idx[0] < s[0] then Within(s, idx) else Within(s', [idx[0] - s[0]] + idx[1..])
  {
    assert s == [s[0]] + s[1..] && s' == [s'[0]] + s[1..];
  }

  lemma CatSame(t: Tensor, u: Tensor, v: Tensor, w: Tensor)
    requires Same(t, u) && Same(v, w) && Joined(t, v).Some?
    ensures Joined(u, w).Some? && Same(Joined(t, v).value, Joined(u, w).value)
  {
    hide Within;
    var j, k := Joined(t, v).value, Joined(u, w).value;
    forall idx | Within(j.shape, idx) ensures j.at(idx) == k.at(idx) {
      WithinNonempty(j.shape, idx);
      CatWithin(t.shape, v.shape, idx);
    }
  }

  lemma WithinNonempty(s: Shape, idx: Index)
    requires Within(s, idx)
    ensures |idx| == |s|
  {
  }

  lemma SameTrans(t: Tensor, u: Tensor, v: Tensor)
    requires Same(t, u) && Same(u, v)
    ensures Same(t, v)
  {
  }

  // ---------------------------------------------------------------- concatenation

  lemma CatRow(l: Lora, m: Lora, j: Lora, i: nat, c: nat)
    requires Valid(l) && Valid(m) && Dims(l) == 2 && LoraCat(l, m) == Some(j) && Rank(j) == Rank(l) == Rank(m)
    requires i < l.B.shape[0] + m.B.shape[0] && c < RowSize(l)
    ensures Dense(j).at([i] + [c]) == if i < l.B.shape[0] then Dense(l).at([i]
            + [c]) else Dense(m).at([i - l.B.shape[0]] + [c])
  {
    hide Sum, Dense;
    DenseAt(j, [i], c);
    if i < l.B.shape[0] {
      DenseAt(l, [i], c);
      forall r: nat ensures Term(j, [i], c, r) == Term(l, [i], c, r) {}
      SumCongruent((r: nat) => Term(j, [i], c, r), (r: nat) => Term(l, [i], c, r), Rank(l));
    } else {
      var k := i - l.B.shape[0];
      DenseAt(m, [k], c);
      forall r: nat | r < Rank(l) ensures Term(j, [i], c, r) == Term(m, [k], c, r) {
        assert ([i] + [r])[1..] == [r];
        assert Within(l.A.shape, ColumnIndex(2, r, c)) by { assert ColumnIndex(2, r, c) == [r, c]; }
      }
      SumCongruent((r: nat) => Term(j, [i], c, r), (r: nat) => Term(m, [k], c, r), Rank(l));
    }
  }

  lemma JoinedAt(t: Tensor, u: Tensor, i: nat, c: nat)
    requires Joined(t, u).Some?
    ensures Joined(t, u).value.at([i] + [c]) == if i < t.shape[0] then t.at([i] + [c]) else u.at([i - t.shape[0]] + [c])
  {
    assert ([i] + [c])[1..] == [c];
  }

  /** Joining the rows of B joins the rows of the product. */
  lemma CatDense(l: Lora, m: Lora)
    requires Valid(l) && Valid(m) && Dims(l) == 2 && LoraCat(l, m).Some?
    ensures var j := LoraCat(l, m).value;
            Valid(j) && Joined(Dense(l), Dense(m)).Some? && Same(Dense(j), Joined(Dense(l), Dense(m)).value)
  {
    hide Dense, LoraCat, Ones, Joined;
    var j := LoraCat(l, m).value;
    CatShapes(l, m);
    DenseShape(l);
    var d := Joined(Dense(l), Dense(m)).value;
    forall idx | Within(d.shape, idx) ensures Dense(j).at(idx) == d.at(idx) {
      assert idx == [idx[0]] + [idx[1]];
      CatRow(l, m, j, idx[0], idx[1]);
      JoinedAt(Dense(l), Dense(m), idx[0], idx[1]);
    }
  }

  lemma SameShapes(t: Tensor, u: Tensor)
    ensures Same(t, u) ==> t.shape == u.shape
  {
  }

  lemma CatShapes(l: Lora, m: Lora)
    requires Valid(l) && Valid(m) && Dims(l) == 2 && LoraCat(l, m).Some?
    ensures var j := LoraCat(l, m).value;
            Valid(j) && Rank(j) == Rank(l) == Rank(m) && Joined(Dense(l), Dense(m)).Some?
            && Dense(j).shape == Joined(Dense(l), Dense(m)).value.shape == [l.B.shape[0] + m.B.shape[0]] + [RowSize(l)]
  {
    hide Sum, Term, Same, Within;
    SameShapes(l.A, m.A);
    assert l.B.shape == [l.B.shape[0]] + [Rank(l)] && m.B.shape == [m.B.shape[0]] + [Rank(m)];
  }

  // ---------------------------------------------------------------- the theorem

  /** Whatever program the factors get through, the product gets through, with the same outcome. */
  lemma {:induction false} ProgramOnFactors(e: Expr, l: Lora)
    requires Valid(l) && OnFactors(e, l).Some?
    ensures var m := OnFactors(e, l).value;
            Valid(m) && OnDense(e, Dense(l)).Some? && Same(Dense(m), OnDense(e, Dense(l)).value)
  {
    hide Dense, Same, Ones, LoraReshape, LoraPermute, LoraIndex, LoraCat, DenseReshape, TorchPermute, Indexed, Joined,
        KeepsMatrix;
    var t := Dense(l);
    match e
    case Input => InputItself(l);
    case Reshape(f, shape) =>
      ProgramOnFactors(f, l);
      var m, u := OnFactors(f, l).value, OnDense(f, t).value;
      ReshapeDense(m, shape);
      ReshapeSame(Dense(m), u, shape);
      SameTrans(Dense(LoraReshape(m, shape).value), DenseReshape(Dense(m), shape).value, DenseReshape(u, shape).value);
    case Permute(f, dims) =>
      ProgramOnFactors(f, l);
      var m, u := OnFactors(f, l).value, OnDense(f, t).value;
      PermuteDense(m, dims);
      PermuteSame(Dense(m), u, dims);
      SameTrans(Dense(LoraPermute(m, dims).value), TorchPermute(Dense(m), dims).value, TorchPermute(u, dims).value);
    case GetItem(f, ixs) =>
      ProgramOnFactors(f, l);
      var m, u := OnFactors(f, l).value, OnDense(f, t).value;
      IndexDense(m, ixs);
      IndexSame(Dense(m), u, ixs);
      SameTrans(Dense(LoraIndex(m, ixs).value), Indexed(Dense(m), ixs).value, Indexed(u, ixs).value);
    case Cat(f, g) =>
      ProgramOnFactors(f, l);
      ProgramOnFactors(g, l);
      var m, n := OnFactors(f, l).value, OnFactors(g, l).value;
      var u, v := OnDense(f, t).value, OnDense(g, t).value;
      CatDense(m, n);
      CatSame(Dense(m), u, Dense(n), v);
      SameTrans(Dense(LoraCat(m, n).value), Joined(Dense(m), Dense(n)).value, Joined(u, v).value);
  }

  // ---------------------------------------------------------------- the rotary shuffle of LlamaModel.permute

  /** The dimensions in order but for two: what `transpose` passes on to `permute`. */
  function Swapped(n: nat, i: nat, j: nat): seq<int>
    requires i < n && j < n
  {
    seq(n, k => if k == i then j else if k == j then i else k)
  }

  /** `LlamaModel.permute` of a matrix. */
  function LlamaPermute(rows: nat, cols: nat, heads: nat): Expr
    requires heads > 0
  {
    Reshape(Permute(Reshape(Input, [heads, 2, rows / heads / 2, cols]), Swapped(4, 1, 2)), [rows, cols])
  }

  /** Where its row `i` comes from, each head having twice `half` rows. */
  function LlamaRow(i: nat, half: nat): nat
    requires half > 0
  {
    (i / 2 / half * 2 + i % 2) * half + i / 2 % half
  }

  lemma AllKnown(orig: Shape, sh: Shape, shape: seq<int>)
    requires shape == sh
    ensures Expanded(orig, shape) == Some(sh)
  {
    assert forall i :: 0 <= i < |shape| ==> shape[i] == sh[i] >= 0;
    assert Known(shape) == sh;
  }

  lemma ReshapeWorks(l: Lora, shape: seq<int>, lead: Shape)
    requires Valid(l) && RowSize(l) > 0 && lead != [] && shape == lead + [RowSize(l)]
    requires Size(l.B.shape[..Dims(l) - 1]) == Size(lead)
    ensures LoraReshape(l, shape).Some?
    ensures var m := LoraReshape(l, shape).value;
            Valid(m) && m.B.shape == lead + [Rank(l)] && RowSize(m) == RowSize(l) && Rank(m) == Rank(l)
  {
    hide Size, Flatten, Unflatten, Ones;
    var n := |shape|;
    AllKnown(ShapeOf(l), lead + [RowSize(l)], shape);
    assert (lead + [RowSize(l)])[..n - 1] == lead;
    ColumnFlat(Dims(l), Rank(l), RowSize(l), 0, 0);
    ColumnFlat(n, Rank(l), RowSize(l), 0, 0);
    FlattenAppend(lead, Zeros(|lead|), Rank(l), 0);
    FlattenAppend(l.B.shape[..Dims(l) - 1], Zeros(Dims(l) - 1), Rank(l), 0);
    assert l.B.shape == l.B.shape[..Dims(l) - 1] + [Rank(l)];
    ReshapeShapes(l, shape);
  }

  lemma SizeOfThree(a: nat, b: nat, c: nat)
    ensures Size([a]) == a && Size([a] + [b] + [c]) == a * b * c
  {
    FlattenAppend([], [], a, 0);
    FlattenAppend([a], [0], b, 0);
    FlattenAppend([a] + [b], [0, 0], c, 0);
    assert [] + [a] == [a];
  }

  lemma NoWildcard(sh: Shape, shape: seq<int>)
    requires shape == sh
    ensures OneWildcard(shape)
  {
    assert forall i :: 0 <= i < |shape| ==> shape[i] == sh[i] >= 0;
  }

  const MIDDLE: seq<nat> := [0, 2, 1, 3]

  lemma MiddleDims()
    ensures Swapped(4, 1, 2) == MIDDLE && InRange(MIDDLE, 4) && FromFront(MIDDLE) == MIDDLE && IsPermutation(MIDDLE)
    ensures MIDDLE[3] == 3
  {
  }

  lemma PermuteWorks(m: Lora, dims: seq<nat>)
    requires Valid(m) && IsPermutation(dims) && |dims| == Dims(m) && dims[|dims| - 1] == |dims| - 1
    ensures LoraPermute(m, dims) == Some(Lora(m.A, Permuted(m.B, dims).value))
  {
    hide IsPermutation, Permuted;
    PermutationRange(dims);
    NegativeIsSame(dims);
    hide FromFront, InRange;
    PermuteShapes(m, dims);
  }

  lemma PermutationRange(dims: seq<nat>)
    requires IsPermutation(dims)
    ensures InRange(dims, |dims|) && FromFront(dims) == dims
    ensures forall t: Tensor :: |t.shape| == |dims| ==> Permuted(t, dims).Some?
  {
  }

  lemma MiddleSwap(m: Lora, a: nat, b: nat, c: nat)
    requires Valid(m) && m.B.shape == [a] + [b] + [c] + [Rank(m)]
    ensures InRange(MIDDLE, 4) && LoraPermute(m, MIDDLE).Some?
    ensures var p := LoraPermute(m, MIDDLE).value;
            Valid(p) && RowSize(p) == RowSize(m) && p.B.shape[..Dims(p) - 1] == [a] + [c] + [b]
  {
    hide IsPermutation, Ones;
    MiddleDims();
    PermuteWorks(m, MIDDLE);
    PermuteShapes(m, MIDDLE);
  }

  /** The shuffle goes through on the factors. */
  lemma LlamaWorks(l: Lora, heads: nat)
    requires Valid(l) && Dims(l) == 2 && RowSize(l) > 0 && heads > 0
    requires var rows := l.B.shape[0]; rows == heads * 2 * (rows / heads / 2)
    ensures OnFactors(LlamaPermute(l.B.shape[0], RowSize(l), heads), l).Some?
  {
    hide Size, Ones, LoraReshape, LoraPermute, OneWildcard, IsPermutation;
    var rows, cols := l.B.shape[0], RowSize(l);
    var half := rows / heads / 2;
    var lead: Shape := [heads] + [2] + [half];
    var shape, back: seq<int> := [heads, 2, half, cols], [rows, cols];
    var one := Reshape(Input, shape);
    var two := Permute(one, Swapped(4, 1, 2));
    assert shape == lead + [cols] && back == [rows] + [cols];
    assert l.B.shape[..1] == [rows];
    SizeOfThree(heads, 2, half);
    SizeOfThree(rows, 0, 0);
    ReshapeWorks(l, shape, lead);
    NoWildcard(lead + [cols], shape);
    var m := LoraReshape(l, shape).value;
    assert OnFactors(one, l) == Some(m);
    MiddleDims();
    MiddleSwap(m, heads, 2, half);
    var p := LoraPermute(m, MIDDLE).value;
    assert OnFactors(two, l) == Some(p);
    SizeOfThree(heads, half, 2);
    Reorder(heads, half);
    ReshapeWorks(p, back, [rows]);
    NoWildcard([rows] + [cols], back);
  }

  lemma Reorder(a: nat, b: nat)
    ensures a * b * 2 == a * 2 * b
  {
  }

  lemma UnflattenOne(n: nat, x: nat)
    requires x < n
    ensures Unflatten([n], x) == [x]
  {
    assert [n] == [] + [n] && Unflatten([], 0) == [];
    UnflattenAppend([], 0, n, x);
  }

  /** Four dimensions, row-major. */
  lemma FlattenFour(a: nat, b: nat, c: nat, d: nat, i: nat, j: nat, k: nat, x: nat)
    ensures Flatten([a] + [b] + [c] + [d], [i] + [j] + [k] + [x]) == ((i * b + j) * c + k) * d + x
  {
    FlattenAppend([], [], a, i);
    FlattenAppend([a], [i], b, j);
    FlattenAppend([a] + [b], [i] + [j], c, k);
    FlattenAppend([a] + [b] + [c], [i] + [j] + [k], d, x);
    assert [] + [a] == [a] && [] + [i] == [i];
  }

  lemma UnflattenFour(a: nat, b: nat, c: nat, d: nat, i: nat, j: nat, k: nat, x: nat, p: nat, q: nat, r: nat)
    requires i < a && j < b && k < c && x < d && p == i * b + j && q == p * c + k && r == q * d + x
    ensures Unflatten([a] + [b] + [c] + [d], r) == [i] + [j] + [k] + [x]
  {
    hide Unflatten;
    UnflattenOne(a, i);
    UnflattenAppend([a], i, b, j);
    UnflattenAppend([a] + [b], p, c, k);
    UnflattenAppend([a] + [b] + [c], q, d, x);
  }

  lemma MiddleScatter(i: nat, j: nat, k: nat, x: nat)
    ensures Scatter(MIDDLE, [i] + [j] + [k] + [x]) == [i] + [k] + [j] + [x]
  {
    assert MIDDLE[1..] == [2, 1, 3] && MIDDLE[1..][1..] == [1, 3] && MIDDLE[1..][1..][1..] == [3];
    assert PosOf(MIDDLE, 0) == 0 && PosOf(MIDDLE, 2) == 1 && PosOf(MIDDLE, 1) == 2 && PosOf(MIDDLE, 3) == 3;
  }

  /** The parts of a row number: head, position, half. */
  lemma RowParts(heads: nat, half: nat, i: nat)
    requires half > 0 && i < heads * half * 2
    ensures var h, j, k := i / 2 / half, i / 2 % half, i % 2;
            h < heads && i == (h * half + j) * 2 + k && LlamaRow(i, half) == (h * 2 + k) * half + j < heads * 2 * half
  {
    var h, j, k := i / 2 / half, i / 2 % half, i % 2;
    assert i / 2 == h * half + j;
    assert h < heads by { if h >= heads { TimesMono(heads, h, half); } }
    TimesMono(h * 2 + k + 1, heads * 2, half);
  }

  lemma DenseStep(t: Tensor, shape: seq<int>, sh: Shape)
    requires shape == sh
    ensures DenseReshape(t, shape) == Reshaped(t, sh)
  {
    AllKnown(t.shape, sh, shape);
    NoWildcard(sh, shape);
  }

  lemma SizeOfMatrix(a: nat, b: nat, c: nat, d: nat)
    ensures Size([a] + [b] + [c] + [d]) == a * b * c * d && Size([a] + [b]) == a * b
  {
    SizeOfThree(a, b, c);
    FlattenAppend([a] + [b] + [c], [0] + [0] + [0], d, 0);
    FlattenAppend([a], [0], b, 0);
  }

  /** The shuffle of a matrix, step by step. */
  lemma LlamaSteps(t: Tensor, heads: nat, half: nat) returns (one: Tensor, two: Tensor)
    requires heads > 0 && |t.shape| == 2 && t.shape[0] == heads * 2 * half && t.shape[0] / heads / 2 == half
    ensures Reshaped(t, [heads] + [2] + [half] + [t.shape[1]]) == Some(one) && Permuted(one, MIDDLE) == Some(two)
    ensures OnDense(LlamaPermute(t.shape[0], t.shape[1], heads), t) == Reshaped(two, [t.shape[0]] + [t.shape[1]])
    ensures Reshaped(two, [t.shape[0]] + [t.shape[1]]).Some?
  {
    hide DenseReshape, IsPermutation, FromFront, Size, Flatten, Unflatten, PermutedShape, Scatter;
    var rows, cols := t.shape[0], t.shape[1];
    var shape, back: seq<int> := [heads, 2, half, cols], [rows, cols];
    var e := Reshape(Input, shape);
    assert t.shape == [rows] + [cols];
    DenseStep(t, shape, [heads] + [2] + [half] + [cols]);
    SizeOfMatrix(heads, 2, half, cols);
    SizeOfMatrix(rows, cols, 0, 0);
    assert OnDense(e, t) == DenseReshape(t, shape);
    one := OnDense(e, t).value;
    MiddleDims();
    MiddleShape(heads, 2, half, cols);
    var f := Permute(e, Swapped(4, 1, 2));
    assert OnDense(f, t) == TorchPermute(one, MIDDLE);
    two := OnDense(f, t).value;
    SizeOfMatrix(heads, half, 2, cols);
    Reorder(heads, half);
    DenseStep(two, back, [rows] + [cols]);
  }

  /** What the shuffle does to a matrix. */
  lemma LlamaRows(t: Tensor, heads: nat, half: nat, i: nat, c: nat)
    requires heads > 0 && half > 0 && |t.shape| == 2 && t.shape[0] == heads * 2 * half && i < t.shape[0]
             && c < t.shape[1]
    requires t.shape[0] / heads / 2 == half
    ensures var u := OnDense(LlamaPermute(t.shape[0], t.shape[1], heads), t);
            u.Some? && u.value.at([i] + [c]) == t.at([LlamaRow(i, half)] + [c])
  {
    hide LlamaRow, OnDense, LlamaPermute;
    Reorder(heads, half);
    RowParts(heads, half, i);
    LlamaRowAt(t, heads, half, i, c, i / 2 / half, i / 2 % half, i % 2, LlamaRow(i, half));
  }

  lemma LlamaRowAt(t: Tensor, heads: nat, half: nat, i: nat, c: nat, h: nat, j: nat, k: nat, row: nat)
    requires heads > 0 && |t.shape| == 2 && t.shape[0] == heads * 2 * half && c < t.shape[1]
             && t.shape[0] / heads / 2 == half
    requires h < heads && j < half && k < 2 && i == (h * half + j) * 2 + k
             && row == (h * 2 + k) * half + j < heads * 2 * half
    ensures var u := OnDense(LlamaPermute(t.shape[0], t.shape[1], heads), t);
            u.Some? && u.value.at([i] + [c]) == t.at([row] + [c])
  {
    hide Flatten, Unflatten, Size, Scatter, PermutedShape, IsPermutation, OnDense, LlamaPermute;
    var rows, cols := t.shape[0], t.shape[1];
    var one, two := LlamaSteps(t, heads, half);
    MiddleShape(heads, 2, half, cols);
    BackToFour(heads, half, cols, i, h, j, k, c);
    MiddleScatter(h, j, k, c);
    FourToRow(rows, heads, half, cols, row, h, j, k, c);
    ReshapedAt(two, [rows] + [cols], [i] + [c], [h] + [j] + [k] + [c]);
    assert two.at([h] + [j] + [k] + [c]) == one.at([h] + [k] + [j] + [c]);
    assert t.shape == [rows] + [cols];
    ReshapedAt(t, one.shape, [h] + [k] + [j] + [c], [row] + [c]);
  }

  lemma ReshapedAt(t: Tensor, sh: Shape, idx: Index, from: Index)
    requires Reshaped(t, sh).Some? && from == Unflatten(t.shape, Flatten(sh, idx))
    ensures Reshaped(t, sh).value.at(idx) == t.at(from)
  {
  }

  lemma BackToFour(heads: nat, half: nat, cols: nat, i: nat, h: nat, j: nat, k: nat, c: nat)
    requires h < heads && j < half && k < 2 && c < cols && i == (h * half + j) * 2 + k
    ensures Unflatten([heads] + [half] + [2] + [cols], Flatten([heads * 2 * half] + [cols],
            [i] + [c])) == [h] + [j] + [k] + [c]
  {
    hide Flatten, Unflatten;
    FlattenTwo(heads * 2 * half, cols, i, c);
    UnflattenFour(heads, half, 2, cols, h, j, k, c, h * half + j, i, i * cols + c);
  }

  lemma FourToRow(rows: nat, heads: nat, half: nat, cols: nat, row: nat, h: nat, j: nat, k: nat, c: nat)
    requires c < cols && row == (h * 2 + k) * half + j < rows
    ensures Unflatten([rows] + [cols], Flatten([heads] + [2] + [half] + [cols], [h] + [k] + [j] + [c])) == [row] + [c]
  {
    hide Flatten, Unflatten;
    FlattenFour(heads, 2, half, cols, h, k, j, c);
    UnflattenTwo(rows, cols, row, c);
  }

  lemma MiddleShape(a: nat, b: nat, c: nat, d: nat)
    ensures IsPermutation(MIDDLE) && PermutedShape([a] + [b] + [c] + [d], MIDDLE) == [a] + [c] + [b] + [d]
  {
    hide IsPermutation;
    MiddleDims();
    var shape := [a] + [b] + [c] + [d];
    assert shape[0] == a && shape[1] == b && shape[2] == c && shape[3] == d;
    var r := PermutedShape(shape, MIDDLE);
    assert r[0] == a && r[1] == c && r[2] == b && r[3] == d;
  }

  lemma FlattenTwo(a: nat, b: nat, i: nat, x: nat)
    ensures Flatten([a] + [b], [i] + [x]) == i * b + x
  {
    FlattenAppend([], [], a, i);
    FlattenAppend([a], [i], b, x);
    assert [] + [a] == [a] && [] + [i] == [i];
  }

  lemma UnflattenTwo(a: nat, b: nat, i: nat, x: nat)
    requires i < a && x < b
    ensures Unflatten([a] + [b], i * b + x) == [i] + [x]
  {
    UnflattenOne(a, i);
    UnflattenAppend([a], i, b, x);
  }

  /** `LlamaModel.permute` run on the factors moves the rows of the product as it does those of a dense matrix. */
  lemma LlamaOnFactors(l: Lora, heads: nat, half: nat, i: nat, c: nat)
    requires Valid(l) && Dims(l) == 2 && heads > 0 && half > 0
    requires var rows := l.B.shape[0];
             rows == heads * 2 * half && half == rows / heads / 2 && i < rows && c < RowSize(l)
    ensures var m := OnFactors(LlamaPermute(l.B.shape[0], RowSize(l), heads), l);
            m.Some? && Valid(m.value) && Dense(m.value).at([i] + [c]) == Dense(l).at([LlamaRow(i, half)] + [c])
  {
    hide Sum, Term, Ones, OnFactors, OnDense, LlamaRow, LlamaPermute, Size;
    var rows, cols := l.B.shape[0], RowSize(l);
    var e := LlamaPermute(rows, cols, heads);
    LlamaWorks(l, heads);
    ProgramOnFactors(e, l);
    LlamaRows(Dense(l), heads, half, i, c);
    var one, two := LlamaSteps(Dense(l), heads, half);
    assert Within([rows] + [cols], [i] + [c]);
  }

  // ---------------------------------------------------------------- the fused attention weights of Falcon

  /** Query, key and value rows, which come interleaved by group, sorted apart. */
  function FalconQkv(heads: nat, kv: nat, dim: nat, rows: nat, cols: nat): Expr
    requires kv > 0
  {
    var qkv := Reshape(Input, [kv, heads / kv + 2, dim, dim * heads]);
    var q := Reshape(GetItem(qkv, [ALL, Slice(None, Some(-2))]), [heads * dim, dim * heads]);
    var k := Reshape(GetItem(qkv, [ALL, List([-2])]), [kv * dim, dim * heads]);
    var v := Reshape(GetItem(qkv, [ALL, List([-1])]), [kv * dim, dim * heads]);
    Reshape(Cat(q, Cat(k, v)), [rows, cols])
  }

  lemma IndexWorks(m: Lora, ixs: seq<Ix>)
    requires Valid(m) && ixs != [] && |ixs| <= Dims(m) && KeepsMatrix(ixs, Dims(m)) && Apart(ixs)
    requires var full := Padded(ixs, Dims(m)); RowPicks(m, full).Some? && ColumnPick(m, full) == Some(Every(RowSize(m)))
    ensures LoraIndex(m, ixs).Some?
    ensures var full, r := Padded(ixs, Dims(m)), LoraIndex(m, ixs).value;
            && Valid(r) && r.B.shape == PickedShape(RowPicks(m, full).value) + [Rank(m)] && RowSize(r) == RowSize(m)
            && Indexed(m.A, ForA(full, Dims(m))) == Some(r.A)
  {
    hide Picks, PickedShape, Source, Ones, OnFront, FrontPicked, Dense, Indexed, Apart;
    var n, full := Dims(m), Padded(ixs, Dims(m));
    var front := full[..n - 2];
    FactorsApart(ixs, n);
    IndexedApart(m.A, ForA(full, n));
    IndexedApart(m.B, full[..n - 1]);
    PicksOfA(m, full);
    PicksOfB(m, full);
    FrontPicks(front);
    assert Padded(ForA(full, n), n) == ForA(full, n) && Padded(full[..n - 1], n) == full[..n - 1] + [ALL];
    AxesLeft(m, full);
    var r := Lora(Indexed(m.A, ForA(full, n)).value, Indexed(m.B, full[..n - 1]).value);
    IndexShapes(m, r, RowPicks(m, full).value, Every(RowSize(m)), FrontPicked(front), Kept(front));
  }

  /** Picking along the second of three axes. */
  lemma SecondAxis(a: nat, b: nat, c: nat, ix: Ix, ks: seq<nat>)
    requires Picked(ix, b) == Some(Many(ks))
    ensures var ps := Picks([ALL] + [ix] + [ALL], [a] + [b] + [c]);
            ps.Some? && PickedShape(ps.value) == [a] + [|ks|] + [c]
  {
    hide Picked;
    var none: seq<Ix> := [];
    AllPicks(a);
    AllPicks(c);
    PicksAppend([], [], ALL, a);
    PicksAppend([ALL], [a], ix, b);
    PicksAppend([ALL] + [ix], [a] + [b], ALL, c);
    assert none + [ALL] == [ALL] && [] + [a] == [a];
    var p: seq<Pick> := [];
    ShapeAppend(p, Every(a));
    ShapeAppend(p + [Every(a)], Many(ks));
    ShapeAppend(p + [Every(a)] + [Many(ks)], Every(c));
  }

  /** One of the three parts taken from the view `m` of the weights, as a matrix. Its A is the same for all three. */
  lemma FalconPart(m: Lora, a: nat, b: nat, c: nat, ix: Ix, ks: seq<nat>, shape: seq<int>, rows: nat)
    requires Valid(m) && m.B.shape == [a] + [b] + [c] + [Rank(m)] && RowSize(m) > 0
    requires !ix.At? && Picked(ix, b) == Some(Many(ks))
    requires rows == a * |ks| * c && shape == [rows, RowSize(m)]
    ensures LoraIndex(m, [ALL, ix]).Some? && Valid(LoraIndex(m, [ALL, ix]).value) && KeepsMatrix([ALL, ix], 4)
    ensures LoraReshape(LoraIndex(m, [ALL, ix]).value, shape).Some?
    ensures var w := LoraReshape(LoraIndex(m, [ALL, ix]).value, shape).value;
            && Valid(w) && w.B.shape == [rows] + [Rank(m)] && RowSize(w) == RowSize(m)
            && Indexed(m.A, [ALL, ALL, ALL, ALL]).Some?
            && Reshaped(Indexed(m.A, [ALL, ALL, ALL, ALL]).value, Ones(0) + [Rank(m)] + [RowSize(m)]) == Some(w.A)
  {
    hide Picks, Picked, PickedShape, Source, Ones, Indexed, LoraIndex, LoraReshape, Size, Reshaped;
    var ixs := [ALL, ix];
    var full := Padded(ixs, 4);
    assert full == [ALL, ix, ALL, ALL];
    assert full[..3] == [ALL] + [ix] + [ALL] && m.B.shape[..3] == [a] + [b] + [c];
    SecondAxis(a, b, c, ix, ks);
    AllPicks(RowSize(m));
    IndexWorks(m, ixs);
    var r := LoraIndex(m, ixs).value;
    FourAlls(full, ix);
    SizeOfThree(a, |ks|, c);
    SizeOfThree(rows, 0, 0);
    assert r.B.shape[..Dims(r) - 1] == [a] + [|ks|] + [c];
    assert shape == [rows] + [RowSize(r)];
    ReshapeWorks(r, shape, [rows]);
    ReshapedA(r, shape, [rows]);
  }

  lemma FourAlls(full: seq<Ix>, ix: Ix)
    requires full == [ALL, ix, ALL, ALL] && !ix.At?
    ensures ForA(full, 4) == [ALL, ALL, ALL, ALL]
  {
    assert full[..2] == [ALL, ix];
  }

  lemma ReshapedA(r: Lora, shape: seq<int>, lead: Shape)
    requires Valid(r) && shape == lead + [RowSize(r)] && LoraReshape(r, shape).Some?
    ensures Reshaped(r.A, Ones(|lead| - 1) + [Rank(r)] + [RowSize(r)]) == Some(LoraReshape(r, shape).value.A)
  {
    AllKnown(ShapeOf(r), lead + [RowSize(r)], shape);
  }

  lemma CatWorks(l: Lora, m: Lora, a: nat, b: nat)
    requires Valid(l) && Valid(m) && l.A == m.A && l.B.shape == [a] + [Rank(l)] && m.B.shape == [b] + [Rank(m)]
    ensures LoraCat(l, m).Some?
    ensures var j := LoraCat(l, m).value;
            Valid(j) && j.A == l.A && j.B.shape == [a + b] + [Rank(j)] && RowSize(j) == RowSize(l)
  {
    hide Ones;
    assert Same(l.A, m.A);
    assert Rank(l) == l.A.shape[0] == Rank(m);
  }

  /** The A common to the parts. */
  function CommonA(m: Lora): Tensor
    requires Make(m.A, m.B).Some?
  {
    var picked := Indexed(m.A, [ALL, ALL, ALL, ALL]);
    if picked.None? then m.A
    else
      var a := Reshaped(picked.value, Ones(0) + [Rank(m)] + [RowSize(m)]);
      if a.None? then m.A else a.value
  }

  lemma PartWorks(e: Expr, l: Lora, m: Lora, a: nat, b: nat, c: nat, ix: Ix, ks: seq<nat>, shape: seq<int>,
      rows: nat) returns (w: Lora)
    requires Valid(l) && OnFactors(e, l) == Some(m)
    requires Valid(m) && m.B.shape == [a] + [b] + [c] + [Rank(m)] && RowSize(m) > 0
    requires !ix.At? && Picked(ix, b) == Some(Many(ks)) && rows == a * |ks| * c && shape == [rows, RowSize(m)]
    ensures OnFactors(Reshape(GetItem(e, [ALL, ix]), shape), l) == Some(w)
    ensures Valid(w) && w.B.shape == [rows] + [Rank(w)] && RowSize(w) == RowSize(m) && w.A == CommonA(m)
  {
    hide Picked, Indexed, Reshaped, LoraIndex, LoraReshape, Ones, OneWildcard, KeepsMatrix;
    FalconPart(m, a, b, c, ix, ks, shape, rows);
    var f := GetItem(e, [ALL, ix]);
    assert OnFactors(f, l) == LoraIndex(m, [ALL, ix]);
    NoWildcard([rows] + [RowSize(m)], shape);
    w := LoraReshape(LoraIndex(m, [ALL, ix]).value, shape).value;
  }

  /** What the three entries pick of `per + 2` positions. */
  lemma FalconPicks(per: nat)
    ensures Picked(Slice(None, Some(-2)), per + 2) == Some(Every(per))
    ensures Picked(List([-2]), per + 2) == Some(Many([per])) && Picked(List([-1]), per + 2) == Some(Many([per + 1]))
  {
    assert Picked(Slice(None, Some(-2)), per + 2) == Some(Many(seq(per, i => 0 + i)));
    assert seq(per, i => 0 + i) == Every(per).ks;
    var k, v := Picked(List([-2]), per + 2).value.ks, Picked(List([-1]), per + 2).value.ks;
    assert k == [per] && v == [per + 1];
  }

  lemma ReshapeStep(e: Expr, l: Lora, m: Lora, shape: seq<int>, lead: Shape) returns (r: Lora)
    requires Valid(l) && OnFactors(e, l) == Some(m) && Valid(m) && RowSize(m) > 0 && lead != []
             && shape == lead + [RowSize(m)]
    requires Size(m.B.shape[..Dims(m) - 1]) == Size(lead)
    ensures OnFactors(Reshape(e, shape), l) == Some(r)
    ensures Valid(r) && r.B.shape == lead + [Rank(r)] && RowSize(r) == RowSize(m)
  {
    hide Ones, LoraReshape, OneWildcard, Size;
    ReshapeWorks(m, shape, lead);
    NoWildcard(lead + [RowSize(m)], shape);
    r := LoraReshape(m, shape).value;
  }

  lemma CatStep(e: Expr, f: Expr, l: Lora, m: Lora, n: Lora, a: nat, b: nat) returns (j: Lora)
    requires Valid(l) && OnFactors(e, l) == Some(m) && OnFactors(f, l) == Some(n)
    requires Valid(m) && Valid(n) && m.A == n.A && m.B.shape == [a] + [Rank(m)] && n.B.shape == [b] + [Rank(n)]
    ensures OnFactors(Cat(e, f), l) == Some(j)
    ensures Valid(j) && j.A == m.A && j.B.shape == [a + b] + [Rank(j)] && RowSize(j) == RowSize(m)
  {
    hide Ones, LoraCat, OneWildcard, InRange, KeepsMatrix, LoraReshape, LoraPermute, LoraIndex;
    CatWorks(m, n, a, b);
    j := LoraCat(m, n).value;
  }

  lemma InputItself(l: Lora)
    requires Valid(l)
    ensures OnFactors(Input, l) == Some(l) && Same(Dense(l), Dense(l))
  {
  }

  function FalconParts(e: Expr, heads: nat, kv: nat, dim: nat, cols: nat): Expr {
    Cat(Reshape(GetItem(e, [ALL, Slice(None, Some(-2))]), [heads * dim, cols]),
        Cat(Reshape(GetItem(e, [ALL, List([-2])]), [kv * dim, cols]), Reshape(GetItem(e, [ALL, List([-1])]),
            [kv * dim, cols])))
  }

  lemma FalconJoined(e: Expr, parts: Expr, l: Lora, m: Lora, per: nat, kv: nat, dim: nat) returns (all: Lora)
    requires Valid(l) && OnFactors(e, l) == Some(m)
    requires Valid(m) && m.B.shape == [kv] + [per + 2] + [dim] + [Rank(m)] && RowSize(m) > 0
    requires parts == FalconParts(e, per * kv, kv, dim, RowSize(m))
    ensures OnFactors(parts, l) == Some(all)
    ensures Valid(all) && RowSize(all) == RowSize(m) && all.B.shape == [kv * (per + 2) * dim] + [Rank(all)]
  {
    hide Picked, Ones, OnFactors, CommonA;
    var cols, heads := RowSize(m), per * kv;
    FalconPicks(per);
    FalconRows(per, kv, dim);
    var ks := Every(per).ks;
    var q := PartWorks(e, l, m, kv, per + 2, dim, Slice(None, Some(-2)), ks, [heads * dim, cols], heads * dim);
    var k := PartWorks(e, l, m, kv, per + 2, dim, List([-2]), [per], [kv * dim, cols], kv * dim);
    var v := PartWorks(e, l, m, kv, per + 2, dim, List([-1]), [per + 1], [kv * dim, cols], kv * dim);
    var eq := Reshape(GetItem(e, [ALL, Slice(None, Some(-2))]), [heads * dim, cols]);
    var ek := Reshape(GetItem(e, [ALL, List([-2])]), [kv * dim, cols]);
    var ev := Reshape(GetItem(e, [ALL, List([-1])]), [kv * dim, cols]);
    var kvRows := CatStep(ek, ev, l, k, v, kv * dim, kv * dim);
    all := CatStep(eq, Cat(ek, ev), l, q, kvRows, heads * dim, kv * dim + kv * dim);
  }

  lemma FalconRows(per: nat, kv: nat, dim: nat)
    ensures kv * (per + 2) * dim == per * kv * dim + (kv * dim + kv * dim)
    ensures kv * per * dim == per * kv * dim && kv * 1 * dim == kv * dim
  {
    assert kv * (per + 2) == per * kv + kv + kv;
  }

  /** The view with groups apart, one of the three parts of it, and this as a matrix. */
  ghost predicate PartOf(t: Tensor, a: nat, b: nat, c: nat, ix: Ix, ks: seq<nat>, rows: nat, cols: nat, v: Tensor,
      w: Tensor, u: Tensor)
  {
    && t.shape == [a * b * c] + [cols] && Reshaped(t, [a] + [b] + [c] + [cols]) == Some(v)
    && !ix.At? && Picked(ix, b) == Some(Many(ks)) && rows == a * |ks| * c
    && Indexed(v, [ALL, ix]) == Some(w) && Reshaped(w, [rows] + [cols]) == Some(u)
  }

  lemma PicksOfFour(a: nat, b: nat, c: nat, d: nat, ix: Ix, ks: seq<nat>)
    requires Picked(ix, b) == Some(Many(ks))
    ensures var ps := [Every(a)] + [Many(ks)] + [Every(c)] + [Every(d)];
            && Picks(Padded([ALL, ix], 4), [a] + [b] + [c] + [d]) == Some(ps)
            && PickedShape(ps) == [a] + [|ks|] + [c] + [d]
  {
    hide Picked, Picks, PickedShape, Source;
    PicksOfThree(a, b, c, ix, ks);
    AllPicks(d);
    assert Padded([ALL, ix], 4) == [ALL] + [ix] + [ALL] + [ALL];
    PicksAppend([ALL] + [ix] + [ALL], [a] + [b] + [c], ALL, d);
    ThreePicked(a, c, ks);
    ShapeAppend([Every(a)] + [Many(ks)] + [Every(c)], Every(d));
  }

  lemma PicksOfThree(a: nat, b: nat, c: nat, ix: Ix, ks: seq<nat>)
    requires Picked(ix, b) == Some(Many(ks))
    ensures Picks([ALL] + [ix] + [ALL], [a] + [b] + [c]) == Some([Every(a)] + [Many(ks)] + [Every(c)])
  {
    hide Picked;
    AllPicks(a);
    AllPicks(c);
    PicksOfTwo(a, b, ALL, ix);
    assert [ALL] + [ix] == [ALL, ix] && [a] + [b] == [a, b] && [Every(a)] + [Many(ks)] == [Every(a), Many(ks)];
    PicksAppend([ALL] + [ix], [a] + [b], ALL, c);
  }

  lemma ThreePicked(a: nat, c: nat, ks: seq<nat>)
    ensures PickedShape([Every(a)]) == [a] && PickedShape([Every(a)] + [Many(ks)]) == [a] + [|ks|]
    ensures PickedShape([Every(a)] + [Many(ks)] + [Every(c)]) == [a] + [|ks|] + [c]
  {
    hide PickedShape;
    var none: seq<Pick> := [];
    NonePicked();
    SourceFirst(Every(a), none, []);
    assert [Every(a)] + none == [Every(a)];
    ShapeAppend([Every(a)], Many(ks));
    ShapeAppend([Every(a)] + [Many(ks)], Every(c));
  }

  lemma NonePicked()
    ensures PickedShape([]) == [] && Source([], []) == []
  {
  }

  lemma SourceOfFour(a: nat, c: nat, d: nat, ks: seq<nat>, h: nat, x: nat, j: nat, y: nat)
    requires h < a && x < |ks| && j < c && y < d
    ensures Source([Every(a)] + [Many(ks)] + [Every(c)] + [Every(d)], [h] + [x] + [j] + [y])
            == [h] + [ks[x]] + [j] + [y]
  {
    hide PickedShape, Source;
    var none: seq<Pick> := [];
    NonePicked();
    ThreePicked(a, c, ks);
    SourceFirst(Every(a), none, [h]);
    assert [Every(a)] + none == [Every(a)] && [h][1..] == [];
    SourceAppend([Every(a)], Many(ks), [h], x);
    SourceAppend([Every(a)] + [Many(ks)], Every(c), [h] + [x], j);
    SourceAppend([Every(a)] + [Many(ks)] + [Every(c)], Every(d), [h] + [x] + [j], y);
  }

  lemma PartAt(t: Tensor, a: nat, b: nat, c: nat, ix: Ix, ks: seq<nat>, rows: nat, cols: nat, v: Tensor, w: Tensor,
      u: Tensor, h: nat, x: nat, j: nat, y: nat, i: nat, row: nat)
    requires PartOf(t, a, b, c, ix, ks, rows, cols, v, w, u) && h < a && x < |ks| && j < c && y < cols
    requires i == (h * |ks| + x) * c + j && row == (h * b + ks[x]) * c + j < a * b * c
    ensures u.at([i] + [y]) == t.at([row] + [y])
  {
    hide Picked, Picks, PickedShape, Source, Flatten, Unflatten, Size;
    PicksOfFour(a, b, c, cols, ix, ks);
    SourceOfFour(a, c, cols, ks, h, x, j, y);
    IndexedApart(v, [ALL, ix]);
    FlattenTwo(rows, cols, i, y);
    UnflattenFour(a, |ks|, c, cols, h, x, j, y, h * |ks| + x, i, i * cols + y);
    ReshapedAt(w, [rows] + [cols], [i] + [y], [h] + [x] + [j] + [y]);
    FlattenFour(a, b, c, cols, h, ks[x], j, y);
    UnflattenTwo(a * b * c, cols, row, y);
    ReshapedAt(t, v.shape, [h] + [ks[x]] + [j] + [y], [row] + [y]);
  }

  lemma PartStep(t: Tensor, e: Expr, a: nat, b: nat, c: nat, ix: Ix, ks: seq<nat>, rows: nat, cols: nat, v: Tensor)
    returns (w: Tensor, u: Tensor)
    requires t.shape == [a * b * c] + [cols] && OnDense(e, t) == Reshaped(t, [a] + [b] + [c] + [cols]) == Some(v)
    requires !ix.At? && Picked(ix, b) == Some(Many(ks)) && rows == a * |ks| * c
    ensures PartOf(t, a, b, c, ix, ks, rows, cols, v, w, u)
    ensures OnDense(Reshape(GetItem(e, [ALL, ix]), [rows, cols]), t) == Some(u)
  {
    hide Picked, Picks, PickedShape, Source, Size, DenseReshape, Indexed, Flatten, Unflatten;
    PicksOfFour(a, b, c, cols, ix, ks);
    IndexedApart(v, [ALL, ix]);
    w := Indexed(v, [ALL, ix]).value;
    SizeOfMatrix(a, |ks|, c, cols);
    SizeOfMatrix(rows, cols, 0, 0);
    DenseStep(w, [rows, cols], [rows] + [cols]);
    u := Reshaped(w, [rows] + [cols]).value;
    var f := GetItem(e, [ALL, ix]);
    assert OnDense(f, t) == Some(w);
  }

  /** Queries, keys and values one below the other: where a row of each goes. */
  lemma StackedRows(q: Tensor, k: Tensor, v: Tensor, m: nat, n: nat, cols: nat, u: Tensor, i: nat, y: nat)
    requires q.shape == [m] + [cols] && k.shape == v.shape == [n] + [cols]
    requires Joined(k, v).Some? && Joined(q, Joined(k, v).value) == Some(u)
    ensures i < m ==> u.at([i] + [y]) == q.at([i] + [y])
    ensures i < n ==> u.at([m + i] + [y]) == k.at([i] + [y]) && u.at([m + n + i] + [y]) == v.at([i] + [y])
  {
    var kv := Joined(k, v).value;
    assert q.shape[0] == m && k.shape[0] == n;
    hide Joined;
    JoinedAt(q, kv, i, y);
    JoinedAt(q, kv, m + i, y);
    JoinedAt(k, v, i, y);
    JoinedAt(q, kv, m + n + i, y);
    JoinedAt(k, v, n + i, y);
  }

  lemma StackWorks(q: Tensor, k: Tensor, v: Tensor, m: nat, n: nat, cols: nat) returns (u: Tensor)
    requires q.shape == [m] + [cols] && k.shape == v.shape == [n] + [cols]
    ensures Joined(k, v).Some? && Joined(q, Joined(k, v).value) == Some(u) && u.shape == [m + (n + n)] + [cols]
  {
    assert q.shape[1..] == [cols] && k.shape[1..] == [cols];
    assert Joined(k, v).value.shape == [n + n] + [cols];
    u := Joined(q, Joined(k, v).value).value;
  }

  /** Row `j` of the `x`-th of `n` parts of group `h`, each part having `dim` rows. */
  function GroupRow(h: nat, n: nat, x: nat, dim: nat, j: nat): nat { (h * n + x) * dim + j }

  lemma GroupRowBelow(h: nat, kv: nat, n: nat, x: nat, dim: nat, j: nat)
    requires h < kv && x < n && j < dim
    ensures GroupRow(h, n, x, dim, j) < kv * n * dim
  {
    TimesMono(h + 1, kv, n);
    TimesMono(h * n + x + 1, kv * n, dim);
  }

  /** The sorting, step by step, with `m` rows of queries and `n` rows each of keys and values. */
  lemma FalconSteps(t: Tensor, per: nat, kv: nat, dim: nat, cols: nat, rows: nat, heads: nat, m: nat, n: nat)
    returns (v: Tensor, w0: Tensor, w1: Tensor, w2: Tensor, u0: Tensor, u1: Tensor, u2: Tensor, u: Tensor)
    requires kv > 0 && heads == per * kv && cols == dim * heads && rows == kv * (per + 2) * dim
    requires m == heads * dim && n == kv * dim && t.shape == [rows] + [cols]
    ensures PartOf(t, kv, per + 2, dim, Slice(None, Some(-2)), Every(per).ks, m, cols, v, w0, u0)
    ensures PartOf(t, kv, per + 2, dim, List([-2]), [per], n, cols, v, w1, u1)
    ensures PartOf(t, kv, per + 2, dim, List([-1]), [per + 1], n, cols, v, w2, u2)
    ensures Joined(u1, u2).Some? && Joined(u0, Joined(u1, u2).value) == Some(u) && u.shape == t.shape
    ensures u0.shape == [m] + [cols] && u1.shape == u2.shape == [n] + [cols]
    ensures OnDense(FalconQkv(heads, kv, dim, rows, cols), t) == Reshaped(u, t.shape)
  {
    hide Picked, Picks, Indexed, Reshaped, Joined, DenseReshape, OnDense;
    FalconRows(per, kv, dim);
    FalconPicks(per);
    v := ViewOf(t, kv, per + 2, dim, cols);
    var e := Reshape(Input, [kv, per + 2, dim, cols]);
    w0, u0 := PartStep(t, e, kv, per + 2, dim, Slice(None, Some(-2)), Every(per).ks, m, cols, v);
    w1, u1 := PartStep(t, e, kv, per + 2, dim, List([-2]), [per], n, cols, v);
    w2, u2 := PartStep(t, e, kv, per + 2, dim, List([-1]), [per + 1], n, cols, v);
    PartShapes(w0, w1, w2, u0, u1, u2, m, n, cols);
    u := StackWorks(u0, u1, u2, m, n, cols);
    var q := Reshape(GetItem(e, [ALL, Slice(None, Some(-2))]), [m, cols]);
    var k := Reshape(GetItem(e, [ALL, List([-2])]), [n, cols]);
    var x := Reshape(GetItem(e, [ALL, List([-1])]), [n, cols]);
    CatSteps(t, q, k, x, u0, u1, u2, u, rows, cols);
    DivMod(per, kv, 0);
    assert FalconQkv(heads, kv, dim, rows, cols) == Reshape(Cat(q, Cat(k, x)), [rows, cols]);
  }

  lemma PartShapes(w0: Tensor, w1: Tensor, w2: Tensor, u0: Tensor, u1: Tensor, u2: Tensor, m: nat, n: nat, cols: nat)
    requires Reshaped(w0, [m] + [cols]) == Some(u0) && Reshaped(w1, [n] + [cols]) == Some(u1)
    requires Reshaped(w2, [n] + [cols]) == Some(u2)
    ensures u0.shape == [m] + [cols] && u1.shape == u2.shape == [n] + [cols]
  {
  }

  lemma ViewOf(t: Tensor, a: nat, b: nat, c: nat, cols: nat) returns (v: Tensor)
    requires t.shape == [a * b * c] + [cols]
    ensures Reshaped(t, [a] + [b] + [c] + [cols]) == Some(v) && OnDense(Reshape(Input, [a, b, c, cols]), t) == Some(v)
  {
    hide Size, DenseReshape, Flatten, Unflatten;
    SizeOfMatrix(a, b, c, cols);
    SizeOfMatrix(a * b * c, cols, 0, 0);
    DenseStep(t, [a, b, c, cols], [a] + [b] + [c] + [cols]);
    v := Reshaped(t, [a] + [b] + [c] + [cols]).value;
    assert OnDense(Input, t) == Some(t);
  }

  lemma CatSteps(t: Tensor, q: Expr, k: Expr, x: Expr, u0: Tensor, u1: Tensor, u2: Tensor, u: Tensor, rows: nat,
      cols: nat)
    requires OnDense(q, t) == Some(u0) && OnDense(k, t) == Some(u1) && OnDense(x, t) == Some(u2)
    requires Joined(u1, u2).Some? && Joined(u0, Joined(u1, u2).value) == Some(u)
    ensures OnDense(Reshape(Cat(q, Cat(k, x)), [rows, cols]), t) == Reshaped(u, [rows] + [cols])
  {
    hide Joined, DenseReshape, Reshaped;
    DenseStep(u, [rows, cols], [rows] + [cols]);
    assert OnDense(Cat(k, x), t) == Joined(u1, u2);
    assert OnDense(Cat(q, Cat(k, x)), t) == Some(u);
  }

  lemma PartRow(t: Tensor, a: nat, b: nat, c: nat, ix: Ix, ks: seq<nat>, rows: nat, cols: nat, v: Tensor, w: Tensor,
      u: Tensor, h: nat, x: nat, j: nat, y: nat)
    requires PartOf(t, a, b, c, ix, ks, rows, cols, v, w, u) && h < a && x < |ks| && j < c && y < cols && ks[x] < b
    ensures u.at([GroupRow(h, |ks|, x, c, j)] + [y]) == t.at([GroupRow(h, b, ks[x], c, j)] + [y])
    ensures GroupRow(h, |ks|, x, c, j) < rows && u.shape == [rows] + [cols]
  {
    GroupRowBelow(h, a, b, ks[x], c, j);
    GroupRowBelow(h, a, |ks|, x, c, j);
    PartAt(t, a, b, c, ix, ks, rows, cols, v, w, u, h, x, j, y, GroupRow(h, |ks|, x, c, j),
        GroupRow(h, b, ks[x], c, j));
  }

  lemma ReshapedToItself(u: Tensor, rows: nat, cols: nat, i: nat, y: nat)
    requires u.shape == [rows] + [cols] && i < rows && y < cols
    ensures Reshaped(u, u.shape).Some? && Reshaped(u, u.shape).value.shape == u.shape
    ensures Reshaped(u, u.shape).value.at([i] + [y]) == u.at([i] + [y])
  {
    hide Flatten, Unflatten, Size;
    FlattenTwo(rows, cols, i, y);
    UnflattenTwo(rows, cols, i, y);
    ReshapedAt(u, u.shape, [i] + [y], [i] + [y]);
  }

  /** Where the sorting puts, of group `h`, row `j` of query `x`, of the key and of the value. */
  predicate SortedRow(t: Tensor, per: nat, kv: nat, dim: nat, h: nat, x: nat, j: nat, y: nat, u: Tensor) {
    var keys, values := per * kv * dim, per * kv * dim + kv * dim;
    && (x < per ==> u.at([GroupRow(h, per, x, dim, j)] + [y]) == t.at([GroupRow(h, per + 2, x, dim, j)] + [y]))
    && u.at([keys + GroupRow(h, 1, 0, dim, j)] + [y]) == t.at([GroupRow(h, per + 2, per, dim, j)] + [y])
    && u.at([values + GroupRow(h, 1, 0, dim, j)] + [y]) == t.at([GroupRow(h, per + 2, per + 1, dim, j)] + [y])
  }

  lemma PartsSorted(t: Tensor, per: nat, kv: nat, dim: nat, cols: nat, h: nat, x: nat, j: nat, y: nat)
    returns (u: Tensor)
    requires h < kv && j < dim && y < cols && cols == dim * (per * kv) && t.shape == [kv * (per + 2) * dim] + [cols]
    ensures OnDense(FalconQkv(per * kv, kv, dim, kv * (per + 2) * dim, cols), t) == Reshaped(u, t.shape)
    ensures u.shape == t.shape && SortedRow(t, per, kv, dim, h, x, j, y, u)
    ensures var rows := kv * (per + 2) * dim;
            && (x < per ==> GroupRow(h, per, x, dim, j) < rows)
            && per * kv * dim + kv * dim + GroupRow(h, 1, 0, dim, j) < rows
  {
    hide Picked, Indexed, Reshaped, Joined, OnDense, FalconQkv, GroupRow, PartOf;
    var v, w0, w1, w2, u0, u1, u2, u' :=
      FalconSteps(t, per, kv, dim, cols, kv * (per + 2) * dim, per * kv, per * kv * dim, kv * dim);
    u := u';
    var m, n, one := per * kv * dim, kv * dim, GroupRow(h, 1, 0, dim, j);
    FalconRows(per, kv, dim);
    PartRow(t, kv, per + 2, dim, List([-2]), [per], n, cols, v, w1, u1, h, 0, j, y);
    PartRow(t, kv, per + 2, dim, List([-1]), [per + 1], n, cols, v, w2, u2, h, 0, j, y);
    StackedRows(u0, u1, u2, m, n, cols, u, one, y);
    if x < per {
      PartRow(t, kv, per + 2, dim, Slice(None, Some(-2)), Every(per).ks, m, cols, v, w0, u0, h, x, j, y);
      StackedRows(u0, u1, u2, m, n, cols, u, GroupRow(h, per, x, dim, j), y);
    }
  }

  /** What the sorting does to a matrix. */
  lemma FalconSorts(t: Tensor, per: nat, kv: nat, dim: nat, h: nat, x: nat, j: nat, y: nat)
    requires h < kv && j < dim && y < dim * (per * kv) && t.shape == [kv * (per + 2) * dim] + [dim * (per * kv)]
    ensures var r := OnDense(FalconQkv(per * kv, kv, dim, kv * (per + 2) * dim, dim * (per * kv)), t);
            r.Some? && r.value.shape == t.shape && SortedRow(t, per, kv, dim, h, x, j, y, r.value)
  {
    hide Reshaped, OnDense, FalconQkv, GroupRow;
    var rows, cols := kv * (per + 2) * dim, dim * (per * kv);
    var u := PartsSorted(t, per, kv, dim, cols, h, x, j, y);
    var one := GroupRow(h, 1, 0, dim, j);
    if x < per { ReshapedToItself(u, rows, cols, GroupRow(h, per, x, dim, j), y); }
    ReshapedToItself(u, rows, cols, per * kv * dim + one, y);
    ReshapedToItself(u, rows, cols, per * kv * dim + kv * dim + one, y);
  }

  lemma SortedSame(t: Tensor, per: nat, kv: nat, dim: nat, h: nat, x: nat, j: nat, y: nat, u: Tensor, u': Tensor)
    requires h < kv && x < per && j < dim && y < dim * (per * kv) && SortedRow(t, per, kv, dim, h, x, j, y, u)
    requires Same(u', u) && u.shape == [kv * (per + 2) * dim] + [dim * (per * kv)]
    ensures SortedRow(t, per, kv, dim, h, x, j, y, u')
  {
    hide GroupRow;
    RowsWithin(per, kv, dim, h, x, j);
  }

  lemma RowsWithin(per: nat, kv: nat, dim: nat, h: nat, x: nat, j: nat)
    requires h < kv && x < per && j < dim
    ensures GroupRow(h, per, x, dim, j) < kv * (per + 2) * dim
    ensures per * kv * dim + kv * dim + GroupRow(h, 1, 0, dim, j) < kv * (per + 2) * dim
  {
    hide GroupRow;
    FalconRows(per, kv, dim);
    GroupRowBelow(h, kv, per, x, dim, j);
    GroupRowBelow(h, kv, 1, 0, dim, j);
  }

  /** Sorting the fused weights apart goes through on the factors, and so, by `ProgramOnFactors`, gives the factors of
      what it gives on the product: the rows of queries, keys and values of that, sorted. */
  lemma FalconOnFactors(l: Lora, per: nat, kv: nat, dim: nat)
    requires Valid(l) && Dims(l) == 2 && kv > 0 && l.B.shape[0] == kv * (per + 2) * dim
    requires RowSize(l) == dim * (per * kv) && RowSize(l) > 0
    ensures var e := FalconQkv(per * kv, kv, dim, l.B.shape[0], RowSize(l));
            var m := OnFactors(e, l);
            && m.Some? && Valid(m.value) && OnDense(e, Dense(l)).Some?
            && Same(Dense(m.value), OnDense(e, Dense(l)).value)
            && forall h: nat, x: nat, j: nat, y: nat :: h < kv && x < per && j < dim && y < RowSize(l) ==>
                 SortedRow(Dense(l), per, kv, dim, h, x, j, y, Dense(m.value))
  {
    hide Picked, Ones, Size, Dense, Same, OnDense, OnFactors, CommonA, LoraReshape, SortedRow;
    var rows, cols, heads := l.B.shape[0], RowSize(l), per * kv;
    DivMod(per, kv, 0);
    FalconRows(per, kv, dim);
    SizeOfThree(kv, per + 2, dim);
    SizeOfThree(rows, 0, 0);
    assert l.B.shape[..1] == [rows];
    InputItself(l);
    var shape: seq<int> := [kv, per + 2, dim, cols];
    assert shape == ([kv] + [per + 2] + [dim]) + [cols];
    var m := ReshapeStep(Input, l, l, shape, [kv] + [per + 2] + [dim]);
    var e := Reshape(Input, shape);
    var parts := FalconParts(e, heads, kv, dim, cols);
    var all := FalconJoined(e, parts, l, m, per, kv, dim);
    var back: seq<int> := [rows, cols];
    assert all.B.shape[..1] == [rows] && back == [rows] + [cols];
    var _ := ReshapeStep(parts, l, all, back, [rows]);
    assert Reshape(parts, back) == FalconQkv(heads, kv, dim, rows, cols);
    ProgramOnFactors(FalconQkv(heads, kv, dim, rows, cols), l);
    var sort := FalconQkv(heads, kv, dim, rows, cols);
    var u, v := OnFactors(sort, l).value, OnDense(sort, Dense(l)).value;
    DenseShape(l);
    assert ShapeOf(l) == [rows] + [cols];
    forall h: nat, x: nat, j: nat, y: nat | h < kv && x < per && j < dim && y < cols
      ensures SortedRow(Dense(l), per, kv, dim, h, x, j, y, Dense(u))
    {
      FalconSorts(Dense(l), per, kv, dim, h, x, j, y);
      SortedSame(Dense(l), per, kv, dim, h, x, j, y, v, Dense(u));
    }
  }
}
