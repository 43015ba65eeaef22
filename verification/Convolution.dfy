/** test/benchmark/conv.cc and conv_helper.cc: a convolution whose rows are dealt to task groups in bands.
    Integers are unbounded here; the C++ code adds up in `int`. */
module Convolution {
  import opened Wrappers
  import opened Arithmetic
  import opened Sequences

  // ---- row-major addressing ----

  function Offset(width: nat, x: nat, y: nat): nat {
    y * width + x
  }

  /** The two coordinates inside a matrix address a cell of the first width * height. */
  lemma OffsetInside(width: nat, height: nat, x: nat, y: nat)
    requires x < width && y < height
    ensures Offset(width, x, y) < width * height
  {
    Gap(height, y, width);
  }

  class Matrix2D {
    const width: nat
    const height: nat
    const cells: array<int>

    /** new int[sizeof(int) * width * height]: four times as many cells as the matrix has. */
    constructor (width: nat, height: nat)
      ensures this.width == width && this.height == height
      ensures fresh(cells) && cells.Length == 4 * width * height
    {
      this.width, this.height := width, height;
      cells := new int[4 * width * height];
    }

    function Get(x: nat, y: nat): int
      requires Offset(width, x, y) < cells.Length
      reads cells
    {
      cells[Offset(width, x, y)]
    }

    method Set(x: nat, y: nat, val: int)
      requires Offset(width, x, y) < cells.Length
      modifies cells
      ensures cells[..] == old(cells[..])[Offset(width, x, y) := val]
    {
      cells[Offset(width, x, y)] := val;
    }
  }

  // ---- what a convolved cell is ----

  function At(s: seq<int>, i: nat): int {
    if i < |s| then s[i] else 0
  }

  /** An input and a mask, as the loops see them. */
  datatype Images = Images(input: seq<int>, width: nat, mask: seq<int>, side: nat)

  /** The first n products of row y of the mask, laid on the input at (ox, oy). */
  function RowSum(i: Images, ox: nat, oy: nat, y: nat, n: nat): int {
    if n == 0 then 0 else
      RowSum(i, ox, oy, y, n - 1)
      + At(i.input, Offset(i.width, ox + n - 1, oy + y)) * At(i.mask, Offset(i.side, n - 1, y))
  }

  /** The first n rows of the mask. */
  function MaskSum(i: Images, ox: nat, oy: nat, n: nat): int {
    if n == 0 then 0 else MaskSum(i, ox, oy, n - 1) + RowSum(i, ox, oy, n - 1, i.side)
  }

  /** The convolution at (x, y). */
  function Convolved(i: Images, x: nat, y: nat): int
    requires x >= i.side / 2 && y >= i.side / 2
  {
    MaskSum(i, x - i.side / 2, y - i.side / 2, i.side)
  }

  // What the sum is, in three parts that leave no choice: it is additive in the input, and one input cell under
  // the mask counts as often as the mask cell that lies on it says.

  lemma OffsetsDiffer(width: nat, x: nat, y: nat, a: nat, b: nat)
    requires x < width && a < width
    ensures Offset(width, x, y) == Offset(width, a, b) <==> x == a && y == b
  {
    DivMod(Offset(width, x, y), width, y, x);
    DivMod(Offset(width, a, b), width, b, a);
  }

  /** c at (a, b) and nothing elsewhere. */
  predicate Impulse(input: seq<int>, width: nat, a: nat, b: nat, c: int) {
    && Offset(width, a, b) < |input|
    && forall o :: 0 <= o < |input| ==> input[o] == if o == Offset(width, a, b) then c else 0
  }

  lemma {:induction false} RowImpulse(i: Images, a: nat, b: nat, c: int, ox: nat, oy: nat, y: nat, n: nat)
    requires Impulse(i.input, i.width, a, b, c) && a < i.width && ox + n <= i.width
    ensures RowSum(i, ox, oy, y, n)
         == if oy + y == b && ox <= a < ox + n then c * At(i.mask, Offset(i.side, a - ox, y)) else 0
  {
    if n > 0 {
      RowImpulse(i, a, b, c, ox, oy, y, n - 1);
      OffsetsDiffer(i.width, ox + n - 1, oy + y, a, b);
      if ox + n - 1 == a && oy + y == b {
        assert At(i.input, Offset(i.width, a, b)) == c;
      } else {
        assert At(i.input, Offset(i.width, ox + n - 1, oy + y)) == 0;
      }
    }
  }

  lemma {:induction false} MaskImpulse(i: Images, a: nat, b: nat, c: int, ox: nat, oy: nat, n: nat)
    requires Impulse(i.input, i.width, a, b, c) && a < i.width && ox + i.side <= i.width
    ensures MaskSum(i, ox, oy, n)
         == if oy <= b < oy + n && ox <= a < ox + i.side then c * At(i.mask, Offset(i.side, a - ox, b - oy)) else 0
  {
    if n > 0 {
      MaskImpulse(i, a, b, c, ox, oy, n - 1);
      RowImpulse(i, a, b, c, ox, oy, n - 1, i.side);
    }
  }

  /** An input that is c at (a, b) and 0 elsewhere: under the mask laid around (x, y), c times the mask cell in column
      a - (x - side/2) and row b - (y - side/2); not under it, 0. */
  lemma ConvolvedImpulse(i: Images, a: nat, b: nat, c: int, x: nat, y: nat)
    requires Impulse(i.input, i.width, a, b, c) && a < i.width
    requires i.side / 2 <= x && x - i.side / 2 + i.side <= i.width && i.side / 2 <= y
    ensures var ox, oy := x - i.side / 2, y - i.side / 2;
      Convolved(i, x, y) == if ox <= a < ox + i.side && oy <= b < oy + i.side
                            then c * At(i.mask, (b - oy) * i.side + (a - ox)) else 0
  {
    MaskImpulse(i, a, b, c, x - i.side / 2, y - i.side / 2, i.side);
  }

  /** Cell by cell, c is the sum of a and b. */
  predicate SumOf(a: seq<int>, b: seq<int>, c: seq<int>) {
    |a| == |b| == |c| && forall o :: 0 <= o < |c| ==> c[o] == a[o] + b[o]
  }

  lemma {:induction false} RowAdds(i: Images, a: seq<int>, b: seq<int>, ox: nat, oy: nat, y: nat, n: nat)
    requires SumOf(a, b, i.input)
    ensures RowSum(i, ox, oy, y, n)
         == RowSum(i.(input := a), ox, oy, y, n) + RowSum(i.(input := b), ox, oy, y, n)
  {
    if n > 0 {
      RowAdds(i, a, b, ox, oy, y, n - 1);
      var o, m := Offset(i.width, ox + n - 1, oy + y), At(i.mask, Offset(i.side, n - 1, y));
      assert At(i.input, o) == At(a, o) + At(b, o);
      assert (At(a, o) + At(b, o)) * m == At(a, o) * m + At(b, o) * m;
    }
  }

  lemma {:induction false} MaskAdds(i: Images, a: seq<int>, b: seq<int>, ox: nat, oy: nat, n: nat)
    requires SumOf(a, b, i.input)
    ensures MaskSum(i, ox, oy, n) == MaskSum(i.(input := a), ox, oy, n) + MaskSum(i.(input := b), ox, oy, n)
  {
    if n > 0 {
      MaskAdds(i, a, b, ox, oy, n - 1);
      RowAdds(i, a, b, ox, oy, n - 1, i.side);
    }
  }

  lemma ConvolvedAdds(i: Images, a: seq<int>, b: seq<int>, x: nat, y: nat)
    requires SumOf(a, b, i.input) && x >= i.side / 2 && y >= i.side / 2
    ensures Convolved(i, x, y) == Convolved(i.(input := a), x, y) + Convolved(i.(input := b), x, y)
  {
    MaskAdds(i, a, b, x - i.side / 2, y - i.side / 2, i.side);
  }

  ghost function View(input: Matrix2D, mask: Matrix2D): Images
    reads input.cells, mask.cells
  {
    Images(input.cells[..], input.width, mask.cells[..], mask.width)
  }

  /** The mask laid around (x, y) stays inside the input. */
  predicate Covers(input: Matrix2D, mask: Matrix2D, x: nat, y: nat) {
    && mask.width / 2 <= x && x - mask.width / 2 + mask.width <= input.width
    && mask.width / 2 <= y && y - mask.width / 2 + mask.width <= input.height
  }

  ghost predicate Allocated(m: Matrix2D) {
    m.cells.Length == 4 * m.width * m.height
  }

  lemma InAllocation(m: Matrix2D, x: nat, y: nat)
    requires Allocated(m) && x < m.width && y < m.height
    ensures Offset(m.width, x, y) < m.cells.Length
  {
    OffsetInside(m.width, m.height, x, y);
  }

  method ApplyMask(input: Matrix2D, mask: Matrix2D, x: nat, y: nat) returns (sum: int)
    requires Allocated(input) && Allocated(mask) && mask.height == mask.width
    requires Covers(input, mask, x, y)
    ensures sum == Convolved(View(input, mask), x, y)
  {
    sum := 0;
    ghost var i := View(input, mask);
    var ox, oy := x - mask.width / 2, y - mask.height / 2;
    var v := 0;
    while v < mask.width
      invariant 0 <= v <= mask.width
      invariant sum == MaskSum(i, ox, oy, v)
    {
      var u := 0;
      while u < mask.width
        invariant 0 <= u <= mask.width
        invariant sum == MaskSum(i, ox, oy, v) + RowSum(i, ox, oy, v, u)
      {
        InAllocation(input, ox + u, oy + v);
        InAllocation(mask, u, v);
        sum := sum + input.Get(ox + u, oy + v) * mask.Get(u, v);
        u := u + 1;
      }
      v := v + 1;
    }
  }

  // ---- what partialConv writes ----

  /** Offset o is that of some (x, y) with x1 <= x < x2 and y1 <= y < y2. */
  predicate Covered(width: nat, x1: nat, x2: nat, y1: nat, y2: nat, o: nat) {
    && width > 0 && o >= x1
    && y1 <= (o - x1) / width < y2
    && (o - x1) % width < x2 - x1
  }

  lemma CoveredIff(width: nat, x1: nat, x2: nat, y1: nat, y2: nat, x: nat, y: nat)
    requires x1 <= x < x2 && x2 - x1 <= width
    ensures Covered(width, x1, x2, y1, y2, Offset(width, x, y)) <==> y1 <= y < y2
    ensures (Offset(width, x, y) - x1) / width == y && (Offset(width, x, y) - x1) % width == x - x1
  {
    DivMod(Offset(width, x, y) - x1, width, y, x - x1);
  }

  /** What partialConv leaves at offset o. */
  function PaintedCell(i: Images, width: nat, x1: nat, x2: nat, y1: nat, y2: nat, before: seq<int>, o: nat): int
    requires x1 >= i.side / 2 && y1 >= i.side / 2
  {
    if Covered(width, x1, x2, y1, y2, o) then Convolved(i, x1 + (o - x1) % width, (o - x1) / width) else At(before, o)
  }

  /** The cells after a region has been convolved into them. */
  ghost predicate Painted(i: Images, width: nat, x1: nat, x2: nat, y1: nat, y2: nat, before: seq<int>, after: seq<int>)
    requires x1 >= i.side / 2 && y1 >= i.side / 2
  {
    && |after| == |before|
    && forall o :: 0 <= o < |after| ==> after[o] == PaintedCell(i, width, x1, x2, y1, y2, before, o)
  }

  /** In coordinates: every (x, y) of the region holds its convolution, and every offset that belongs to no such
      pair holds what it held before. */
  lemma PaintedMeans(i: Images, width: nat, x1: nat, x2: nat, y1: nat, y2: nat, before: seq<int>, after: seq<int>)
    requires x1 >= i.side / 2 && y1 >= i.side / 2 && x1 <= x2 && x2 - x1 <= width
    requires Painted(i, width, x1, x2, y1, y2, before, after)
    ensures forall x, y :: x1 <= x < x2 && y1 <= y < y2 && Offset(width, x, y) < |after| ==>
      after[Offset(width, x, y)] == Convolved(i, x, y)
    ensures forall o: nat :: o < |after| && !Covered(width, x1, x2, y1, y2, o) ==> after[o] == before[o]
    ensures forall o: nat :: Covered(width, x1, x2, y1, y2, o) ==>
      exists x: nat, y: nat :: x1 <= x < x2 && y1 <= y < y2 && Offset(width, x, y) == o
  {
    forall x, y | x1 <= x < x2 && y1 <= y < y2 && Offset(width, x, y) < |after|
      ensures after[Offset(width, x, y)] == Convolved(i, x, y)
    {
      CoveredIff(width, x1, x2, y1, y2, x, y);
      assert Offset(width, x, y) >= 0;
    }
    forall o: nat | Covered(width, x1, x2, y1, y2, o)
      ensures exists x: nat, y: nat :: x1 <= x < x2 && y1 <= y < y2 && Offset(width, x, y) == o
    {
      var x, y := x1 + (o - x1) % width, (o - x1) / width;
      assert o - x1 == (o - x1) / width * width + (o - x1) % width;
      assert x1 <= x < x2 && y1 <= y < y2 && Offset(width, x, y) == o;
    }
  }

  /** What a row leaves at offset o, columns x1 to x - 1 of row y being done. */
  function RowCell(i: Images, width: nat, x1: nat, x: nat, y: nat, before: seq<int>, o: nat): int
    requires x1 >= i.side / 2 && y >= i.side / 2
  {
    if y * width + x1 <= o < y * width + x then Convolved(i, o - y * width, y) else At(before, o)
  }

  /** One more row of the region covers that row's stretch of offsets and nothing else. */
  lemma CoverRow(width: nat, x1: nat, x2: nat, y1: nat, y: nat, o: nat)
    requires y >= y1 && x1 <= x2 && x2 - x1 <= width && width > 0
    ensures y * width + x1 <= o < y * width + x2 ==>
      && Covered(width, x1, x2, y1, y + 1, o)
      && (o - x1) / width == y && (o - x1) % width == o - x1 - y * width
    ensures !(y * width + x1 <= o < y * width + x2) ==>
      (Covered(width, x1, x2, y1, y + 1, o) <==> Covered(width, x1, x2, y1, y, o))
  {
    if y * width + x1 <= o < y * width + x2 {
      DivMod(o - x1, width, y, o - x1 - y * width);
    } else if o >= x1 {
      assert o - x1 == (o - x1) / width * width + (o - x1) % width;
    }
  }

  lemma PaintRow(i: Images, width: nat, x1: nat, x2: nat, y1: nat, y: nat,
                 before: seq<int>, mid: seq<int>, after: seq<int>)
    requires x1 >= i.side / 2 && y >= y1 >= i.side / 2 && x1 <= x2 && x2 - x1 <= width && width > 0
    requires Painted(i, width, x1, x2, y1, y, before, mid)
    requires |after| == |mid| && forall o :: 0 <= o < |after| ==> after[o] == RowCell(i, width, x1, x2, y, mid, o)
    ensures Painted(i, width, x1, x2, y1, y + 1, before, after)
  {
    forall o | 0 <= o < |after|
      ensures after[o] == PaintedCell(i, width, x1, x2, y1, y + 1, before, o)
    {
      CoverRow(width, x1, x2, y1, y, o);
      assert mid[o] == PaintedCell(i, width, x1, x2, y1, y, before, o);
    }
  }

  /** The region [x1, x2) x [y1, y2) is convolved into the output, cell by cell. */
  method PartialConv(input: Matrix2D, mask: Matrix2D, x1: nat, y1: nat, x2: nat, y2: nat, output: Matrix2D)
    requires Allocated(input) && Allocated(mask) && mask.height == mask.width
    requires output.cells != input.cells && output.cells != mask.cells
    requires x1 <= x2 && y1 <= y2 && x2 - x1 <= output.width && output.width > 0
    requires forall x, y :: x1 <= x < x2 && y1 <= y < y2 ==> Covers(input, mask, x, y)
    requires x1 >= mask.width / 2 && y1 >= mask.width / 2
    requires y1 < y2 && x1 < x2 ==> Offset(output.width, x2 - 1, y2 - 1) < output.cells.Length
    modifies output.cells
    ensures Painted(View(input, mask), output.width, x1, x2, y1, y2, old(output.cells[..]), output.cells[..])
  {
    ghost var i := View(input, mask);
    var y := y1;
    ghost var before := output.cells[..];
    while y < y2
      invariant y1 <= y <= y2
      invariant View(input, mask) == i
      invariant Painted(i, output.width, x1, x2, y1, y, before, output.cells[..])
    {
      ghost var mid := output.cells[..];
      if y < y2 - 1 {
        Gap(y2 - 1, y, output.width);
      }
      var x := x1;
      while x < x2
        invariant x1 <= x <= x2
        invariant View(input, mask) == i
        invariant forall o :: 0 <= o < output.cells.Length ==>
          output.cells[o] == RowCell(i, output.width, x1, x, y, mid, o)
      {
        var sum := ApplyMask(input, mask, x, y);
        output.Set(x, y, sum);
        x := x + 1;
      }
      PaintRow(i, output.width, x1, x2, y1, y, before, mid, output.cells[..]);
      y := y + 1;
    }
  }

  // ---- bands ----

  /** A W x H output split into P bands of h rows; side is the mask's, m its half-width. */
  datatype Plan = Plan(images: Images, W: nat, h: nat, P: nat)
  {
    function m(): nat {
      images.side / 2
    }

    function H(): nat {
      P * h
    }

    /** yPos when band n begins. */
    function Rows(n: nat): nat {
      m() + n * h
    }
  }

  /** conv's loop over the partitions: the rows [start, end) that each one's task is bound to. */
  method Deal(p: Plan) returns (bands: seq<(nat, nat)>)
    ensures |bands| == p.P
    ensures forall n :: 0 <= n < p.P ==> bands[n] == (p.Rows(n), p.Rows(n + 1))
  {
    bands := [];
    var yPos := p.m();
    for n := 0 to p.P
      invariant |bands| == n && yPos == p.Rows(n)
      invariant forall k :: 0 <= k < n ==> bands[k] == (p.Rows(k), p.Rows(k + 1))
    {
      var start := yPos;
      yPos := yPos + p.h;
      assert (n + 1) * p.h == n * p.h + p.h;
      bands := bands + [(start, yPos)];
    }
  }

  datatype State = State(
    out: seq<int>,
    written: seq<nat>,   // per band, how many cells it has written
    finished: set<nat>,  // bands that have raised the semaphore
    sem: int,
    returned: bool)

  function Initial(p: Plan, before: seq<int>): State {
    State(before, seq(p.P, n => 0), {}, 1 - p.P, false)
  }

  /** Band n writes its next cell; band n raises the semaphore; the main thread returns from down(). */
  datatype Action = Write(n: nat) | Up(n: nat) | Down

  /** Where the loops of partialConv stand after k cells of band n. */
  function X(p: Plan, k: nat): (x: nat)
    requires p.W > 0
    ensures x >= p.m()
  {
    p.m() + k % p.W
  }

  function Y(p: Plan, n: nat, k: nat): (y: nat)
    requires p.W > 0
    ensures y >= p.m()
  {
    p.Rows(n) + k / p.W
  }

  predicate Enabled(p: Plan, s: State, a: Action)
    requires p.W > 0
  {
    match a
    case Write(n) => n < |s.written| && s.written[n] < p.h * p.W
                     && Offset(p.W, X(p, s.written[n]), Y(p, n, s.written[n])) < |s.out|
    case Up(n) => n < |s.written| && s.written[n] == p.h * p.W && n !in s.finished
    case Down => s.sem > 0 && !s.returned
  }

  function Apply(p: Plan, s: State, a: Action): State
    requires p.W > 0 && Enabled(p, s, a)
  {
    match a
    case Write(n) =>
      var x, y := X(p, s.written[n]), Y(p, n, s.written[n]);
      s.(out := s.out[Offset(p.W, x, y) := Convolved(p.images, x, y)], written := s.written[n := s.written[n] + 1])
    case Up(n) => s.(finished := s.finished + {n}, sem := s.sem + 1)
    case Down => s.(sem := s.sem - 1, returned := true)
  }

  /** The offset of band n's first cell. */
  function Base(p: Plan, n: nat): nat {
    p.Rows(n) * p.W + p.m()
  }

  /** A band writes consecutive offsets. */
  lemma BandOffset(p: Plan, n: nat, k: nat)
    requires p.W > 0
    ensures Offset(p.W, X(p, k), Y(p, n, k)) == Base(p, n) + k
  {
    var q, r := k / p.W, k % p.W;
    assert k == q * p.W + r;
    assert (p.Rows(n) + q) * p.W == p.Rows(n) * p.W + q * p.W;
  }

  /** The bands follow each other without gap or overlap. */
  lemma BandsAdjacent(p: Plan, n: nat)
    ensures Base(p, n + 1) == Base(p, n) + p.h * p.W
  {
    assert p.Rows(n + 1) == p.Rows(n) + p.h;
    assert (p.Rows(n) + p.h) * p.W == p.Rows(n) * p.W + p.h * p.W;
  }

  lemma {:induction false} BandsApart(p: Plan, n: nat, l: nat)
    requires n < l
    ensures Base(p, n) + p.h * p.W <= Base(p, l)
    decreases l
  {
    BandsAdjacent(p, l - 1);
    if n < l - 1 {
      BandsApart(p, n, l - 1);
    }
  }

  /** No two bands ever write the same cell. */
  lemma BandsDisjoint(p: Plan, n: nat, k: nat, l: nat, i: nat)
    requires p.W > 0 && n != l && k < p.h * p.W && i < p.h * p.W
    ensures Offset(p.W, X(p, k), Y(p, n, k)) != Offset(p.W, X(p, i), Y(p, l, i))
  {
    BandOffset(p, n, k);
    BandOffset(p, l, i);
    if n < l {
      BandsApart(p, n, l);
    } else {
      BandsApart(p, l, n);
    }
  }

  predicate DoneBy(p: Plan, s: State, n: nat, o: nat) {
    n < |s.written| && Base(p, n) <= o < Base(p, n) + s.written[n]
  }

  /** What is at offset o in the sequential result. */
  function Goal(p: Plan, before: seq<int>, o: nat): int {
    PaintedCell(p.images, p.W, p.m(), p.W + p.m(), p.m(), p.m() + p.H(), before, o)
  }

  ghost predicate Invariant(p: Plan, before: seq<int>, s: State) {
    && |s.out| == |before| && |s.written| == p.P
    && (forall n :: 0 <= n < p.P ==> s.written[n] <= p.h * p.W)
    && (forall o :: 0 <= o < |s.out| ==>
          s.out[o] == if exists n :: DoneBy(p, s, n, o) then Goal(p, before, o) else before[o])
    && (forall n :: n in s.finished ==> n < p.P && s.written[n] == p.h * p.W)
    && s.sem == 1 - p.P + |s.finished| - (if s.returned then 1 else 0)
    && (s.returned ==> |s.finished| >= p.P)
  }

  lemma RowInside(p: Plan, n: nat, k: nat)
    requires p.W > 0 && n < p.P && k < p.h * p.W
    ensures p.m() <= Y(p, n, k) < p.m() + p.H()
  {
    Quotient(k, p.h, p.W);
    Gap(p.P, n, p.h);
  }

  predicate Inside(p: Plan, o: nat) {
    Covered(p.W, p.m(), p.W + p.m(), p.m(), p.m() + p.H(), o)
  }

  /** The k-th cell of band n is covered by the whole region, with the value the sequential call gives it. */
  lemma BandGoal(p: Plan, before: seq<int>, n: nat, k: nat)
    requires p.W > 0 && n < p.P && k < p.h * p.W
    ensures Goal(p, before, Base(p, n) + k) == Convolved(p.images, X(p, k), Y(p, n, k))
    ensures Inside(p, Base(p, n) + k)
  {
    RowInside(p, n, k);
    BandOffset(p, n, k);
    CoveredIff(p.W, p.m(), p.W + p.m(), p.m(), p.m() + p.H(), X(p, k), Y(p, n, k));
  }

  lemma WriteInvariant(p: Plan, before: seq<int>, s: State, n: nat)
    requires p.W > 0 && Invariant(p, before, s) && Enabled(p, s, Write(n))
    ensures Invariant(p, before, Apply(p, s, Write(n)))
  {
    var v := Apply(p, s, Write(n));
    var k := s.written[n];
    BandOffset(p, n, k);
    BandGoal(p, before, n, k);
    forall o | 0 <= o < |v.out|
      ensures v.out[o] == if exists l :: DoneBy(p, v, l, o) then Goal(p, before, o) else before[o]
    {
      if o == Base(p, n) + k {
        assert DoneBy(p, v, n, o);
      } else {
        assert forall l :: DoneBy(p, v, l, o) <==> DoneBy(p, s, l, o);
      }
    }
  }

  lemma InvariantStep(p: Plan, before: seq<int>, s: State, a: Action)
    requires p.W > 0 && Invariant(p, before, s) && Enabled(p, s, a)
    ensures Invariant(p, before, Apply(p, s, a))
  {
    match a
    case Write(n) => WriteInvariant(p, before, s, n);
    case Up(n) =>
      var v := Apply(p, s, a);
      assert |v.finished| == |s.finished| + 1;
      assert forall l, o :: DoneBy(p, v, l, o) <==> DoneBy(p, s, l, o);
    case Down =>
      var v := Apply(p, s, a);
      assert forall l, o :: DoneBy(p, v, l, o) <==> DoneBy(p, s, l, o);
  }

  function Run(p: Plan, s: State, schedule: seq<Action>): Option<State>
    requires p.W > 0
  {
    if schedule == [] then Some(s) else
      var last := |schedule| - 1;
      var before := Run(p, s, schedule[..last]);
      if before.Some? && Enabled(p, before.value, schedule[last])
      then Some(Apply(p, before.value, schedule[last])) else None
  }

  lemma {:induction false} RunInvariant(p: Plan, before: seq<int>, schedule: seq<Action>)
    requires p.W > 0 && Run(p, Initial(p, before), schedule).Some?
    ensures Invariant(p, before, Run(p, Initial(p, before), schedule).value)
  {
    if schedule != [] {
      var last := |schedule| - 1;
      RunInvariant(p, before, schedule[..last]);
      InvariantStep(p, before, Run(p, Initial(p, before), schedule[..last]).value, schedule[last]);
    }
  }

  lemma {:induction false} AllBelow(xs: set<nat>, n: nat)
    requires forall x :: x in xs ==> x < n
    ensures |xs| <= n
    ensures |xs| == n ==> forall x: nat :: x < n ==> x in xs
  {
    if n > 0 {
      if n - 1 in xs {
        AllBelow(xs - {n - 1}, n - 1);
      } else {
        AllBelow(xs, n - 1);
      }
    } else {
      assert xs == {};
    }
  }

  /** A cell of the whole region lies in one of the bands. */
  lemma InSomeBand(p: Plan, o: nat) returns (n: nat)
    requires p.W > 0 && Inside(p, o)
    ensures n < p.P && Base(p, n) <= o < Base(p, n) + p.h * p.W
  {
    var q, r := (o - p.m()) / p.W, (o - p.m()) % p.W;
    Quotient(q - p.m(), p.P, p.h);
    n := (q - p.m()) / p.h;
    var j := (q - p.m()) % p.h;
    assert q - p.m() == n * p.h + j;
    assert q == p.Rows(n) + j;
    assert q * p.W == p.Rows(n) * p.W + j * p.W;
    Gap(p.h, j, p.W);
    assert o - p.m() == q * p.W + r;
  }

  /** Whatever the order in which the bands' tasks run and interleave: when the main thread may pass the
      semaphore, and ever after, the output is what the one sequential call makes of the same cells. */
  lemma BandsAreSequential(p: Plan, before: seq<int>, schedule: seq<Action>)
    requires p.W > 0 && Run(p, Initial(p, before), schedule).Some?
    requires var s := Run(p, Initial(p, before), schedule).value; s.returned || Enabled(p, s, Down)
    ensures Painted(p.images, p.W, p.m(), p.W + p.m(), p.m(), p.m() + p.H(), before,
                    Run(p, Initial(p, before), schedule).value.out)
  {
    RunInvariant(p, before, schedule);
    var s := Run(p, Initial(p, before), schedule).value;
    AllBelow(s.finished, p.P);
    forall o | 0 <= o < |s.out|
      ensures s.out[o] == Goal(p, before, o)
    {
      if Inside(p, o) {
        var n := InSomeBand(p, o);
        assert DoneBy(p, s, n, o);
      } else if exists n :: DoneBy(p, s, n, o) {
        var n :| DoneBy(p, s, n, o);
        BandGoal(p, before, n, o - Base(p, n));
      }
    }
  }

  /** In coordinates: every cell of the output region then holds its convolution. */
  lemma BandsConvolve(p: Plan, before: seq<int>, schedule: seq<Action>, x: nat, y: nat)
    requires p.W > 0 && Run(p, Initial(p, before), schedule).Some?
    requires var s := Run(p, Initial(p, before), schedule).value; s.returned || Enabled(p, s, Down)
    requires p.m() <= x < p.m() + p.W && p.m() <= y < p.m() + p.H() && Offset(p.W, x, y) < |before|
    ensures var out := Run(p, Initial(p, before), schedule).value.out;
      |out| == |before| && out[Offset(p.W, x, y)] == Convolved(p.images, x, y)
  {
    BandsAreSequential(p, before, schedule);
    PaintedMeans(p.images, p.W, p.m(), p.W + p.m(), p.m(), p.m() + p.H(), before,
                 Run(p, Initial(p, before), schedule).value.out);
  }

  predicate FitsAt(p: Plan, n: nat, k: nat) {
    n < p.P && k < p.h * p.W ==> Base(p, n) + k < 4 * p.W * p.H()
  }

  lemma LastOffset(p: Plan)
    requires p.W > 0 && p.H() > 0
    ensures p.P > 0 && p.h * p.W > 0
    ensures Base(p, p.P - 1) + p.h * p.W == p.m() * p.W + p.m() + p.W * p.H()
  {
    assert p.P > 0 && p.h > 0;
    Gap(p.h, 0, p.W);
    BandsAdjacent(p, p.P - 1);
    assert p.Rows(p.P) * p.W == p.m() * p.W + p.H() * p.W;
  }

  /** Every write of every band stays inside the four-fold allocation exactly when the margins fit its slack. */
  lemma InsideAllocation(p: Plan)
    requires p.W > 0 && p.H() > 0
    ensures (forall n: nat, k: nat :: FitsAt(p, n, k)) <==> p.m() * p.W + p.m() <= 3 * (p.W * p.H())
  {
    LastOffset(p);
    var n, k := p.P - 1, p.h * p.W - 1;
    assert 4 * p.W * p.H() == 4 * (p.W * p.H());
    assert FitsAt(p, n, k) <==> p.m() * p.W + p.m() <= 3 * (p.W * p.H());
    if FitsAt(p, n, k) {
      forall l: nat, i: nat
        ensures FitsAt(p, l, i)
      {
        if l < n {
          BandsApart(p, l, n);
        }
      }
    }
  }

  /** While the main thread has not returned, some task or the main thread can go on. */
  lemma NeverStuck(p: Plan, before: seq<int>, s: State)
    requires p.W > 0 && Invariant(p, before, s) && !s.returned
    requires |before| == 4 * p.W * p.H() && p.m() * p.W + p.m() <= 3 * (p.W * p.H())
    ensures exists a :: Enabled(p, s, a)
  {
    if n: nat :| n < p.P && s.written[n] < p.h * p.W {
      Gap(p.P, n, p.h);
      InsideAllocation(p);
      BandOffset(p, n, s.written[n]);
      assert FitsAt(p, n, s.written[n]);
      assert Enabled(p, s, Write(n));
    } else if n: nat :| n < p.P && n !in s.finished {
      assert Enabled(p, s, Up(n));
    } else {
      AllBelow(s.finished, p.P);
      Fewest(s.finished, p.P);
      assert Enabled(p, s, Down);
    }
  }

  lemma {:induction false} Fewest(xs: set<nat>, n: nat)
    requires forall x: nat :: x < n ==> x in xs
    ensures |xs| >= n
  {
    if n > 0 {
      Fewest(xs - {n - 1}, n - 1);
    }
  }

  /** With an odd mask and the padded input, applyMask reads inside the input wherever a band writes. */
  lemma BandReadsInside(p: Plan, input: Matrix2D, mask: Matrix2D, n: nat, k: nat)
    requires p.W > 0 && n < p.P && k < p.h * p.W
    requires mask.width == p.images.side && mask.width % 2 == 1
    requires input.width == p.W + (mask.width - 1) && input.height == p.H() + (mask.width - 1)
    ensures Covers(input, mask, X(p, k), Y(p, n, k))
  {
    RowInside(p, n, k);
  }

  /** A region of h rows and one of H rows agree on whether they cover offset o. */
  predicate SameAt(W: nat, m: nat, h: nat, H: nat, o: nat) {
    Covered(W, m, W + m, m, m + h, o) <==> Covered(W, m, W + m, m, m + H, o)
  }

  /** The bands (of inputHeight / partitions rows each) cover what the single call covers exactly when the
      number of partitions divides the height. */
  lemma SameRowsIff(W: nat, H: nat, P: nat, m: nat)
    requires W > 0 && P > 0
    ensures (forall o: nat :: SameAt(W, m, P * (H / P), H, o)) <==> H % P == 0
  {
    assert H == P * (H / P) + H % P;
    if H % P != 0 {
      var o := Offset(W, m, m + P * (H / P));
      CoveredIff(W, m, W + m, m, m + H, m, m + P * (H / P));
      CoveredIff(W, m, W + m, m, m + P * (H / P), m, m + P * (H / P));
      assert !SameAt(W, m, P * (H / P), H, o);
    }
  }

  // ---- checkEqual ----

  predicate EqualAt(a: seq<int>, b: seq<int>, width: nat, x: nat, y: nat) {
    At(a, Offset(width, x, y)) == At(b, Offset(width, x, y))
  }

  /** Whether the two matrices agree. */
  method CheckEqual(mat1: Matrix2D, mat2: Matrix2D) returns (ret: bool)
    requires Allocated(mat1) && Allocated(mat2)
    ensures ret <==>
      && mat1.width == mat2.width && mat1.height == mat2.height
      && forall x: nat, y: nat :: x < mat1.width && y < mat1.height ==>
           EqualAt(mat1.cells[..], mat2.cells[..], mat1.width, x, y)
  {
    if mat1.width != mat2.width || mat1.height != mat2.height {
      return false;
    }
    for x := 0 to mat1.width
      invariant forall u: nat, y: nat :: u < x && y < mat1.height ==>
        EqualAt(mat1.cells[..], mat2.cells[..], mat1.width, u, y)
    {
      for y := 0 to mat1.height
        invariant forall v: nat :: v < y ==> EqualAt(mat1.cells[..], mat2.cells[..], mat1.width, x, v)
      {
        InAllocation(mat1, x, y);
        InAllocation(mat2, x, y);
        if mat1.Get(x, y) != mat2.Get(x, y) {
          assert !EqualAt(mat1.cells[..], mat2.cells[..], mat1.width, x, y);
          return false;
        }
      }
    }
    ret := true;
  }

  /** The region written is one stretch of offsets. */
  lemma InsideIff(p: Plan, o: nat)
    requires p.W > 0
    ensures Inside(p, o) <==> Base(p, 0) <= o < Base(p, 0) + p.W * p.H()
  {
    if o >= p.m() {
      var q, r := (o - p.m()) / p.W, (o - p.m()) % p.W;
      assert o - p.m() == q * p.W + r;
      InRow(q, r, p.m(), p.W);
      InRow(q, r, p.m() + p.H(), p.W);
      assert (p.m() + p.H()) * p.W == p.m() * p.W + p.W * p.H();
    }
  }

  /** checkEqual compares the first W * H cells, of which a region shifted by the margins leaves the first ones
      alone: two convolved outputs pass exactly when they agreed on those to begin with. */
  lemma TestPassesIff(p: Plan, before1: seq<int>, after1: seq<int>, before2: seq<int>, after2: seq<int>)
    requires p.W > 0 && |before1| == |before2| >= p.W * p.H()
    requires Painted(p.images, p.W, p.m(), p.W + p.m(), p.m(), p.m() + p.H(), before1, after1)
    requires Painted(p.images, p.W, p.m(), p.W + p.m(), p.m(), p.m() + p.H(), before2, after2)
    ensures (forall x: nat, y: nat :: x < p.W && y < p.H() ==> EqualAt(after1, after2, p.W, x, y))
       <==> (forall o: nat :: o < p.W * p.H() && o < Base(p, 0) ==> before1[o] == before2[o])
  {
    if forall o: nat :: o < p.W * p.H() && o < Base(p, 0) ==> before1[o] == before2[o] {
      forall x: nat, y: nat | x < p.W && y < p.H()
        ensures EqualAt(after1, after2, p.W, x, y)
      {
        OffsetInside(p.W, p.H(), x, y);
        InsideIff(p, Offset(p.W, x, y));
      }
    }
    if forall x: nat, y: nat :: x < p.W && y < p.H() ==> EqualAt(after1, after2, p.W, x, y) {
      forall o: nat | o < p.W * p.H() && o < Base(p, 0)
        ensures before1[o] == before2[o]
      {
        InsideIff(p, o);
        Quotient(o, p.H(), p.W);
        assert Offset(p.W, o % p.W, o / p.W) == o;
        assert EqualAt(after1, after2, p.W, o % p.W, o / p.W);
      }
    }
  }
}
