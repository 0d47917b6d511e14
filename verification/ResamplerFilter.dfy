/** Filter design as far as it decides lengths and indices, and the two kernels as functions.
    Coefficients, the accumulate step and the interpolation weights are given values. */
module ResamplerFilter {
  import opened Division
  import opened ResamplerStream

  const BASE_LENGTHS: seq<nat> := [8, 16, 32, 48, 64, 80, 96, 128, 160, 192, 256]
  const OVERSAMPLES: seq<nat> := [4, 4, 4, 8, 8, 16, 16, 16, 16, 32, 32]

  /** What a filter is computed from: quality and the reduced ratio num/den. */
  datatype Design = Design(quality: nat, num: nat, den: nat) {
    predicate Valid() {
      quality <= 10 && 1 <= num && 1 <= den
    }

    /** The filter length grows with the ratio when down-sampling, and is a multiple of four. */
    function Length(): (n: nat)
      requires Valid()
      ensures 8 <= n && n % 4 == 0
    {
      var base := BASE_LENGTHS[quality];
      if num > den then
        MulMonotone(den, num, base);
        assert base * num == num * base && base * den == den * base;
        Below(base * num, den, base);
        base * num / den / 4 * 4
      else
        base
    }

    /** One octave of down-sampling after another halves the oversampling of the table, down to one. */
    function Oversample(): (o: nat)
      requires Valid()
      ensures 1 <= o
    {
      var o := OVERSAMPLES[quality];
      if num <= den then o else
        var o1 := if 2 * den < num then o / 2 else o;
        var o2 := if 4 * den < num then o1 / 2 else o1;
        var o3 := if 8 * den < num then o2 / 2 else o2;
        var o4 := if 16 * den < num then o3 / 2 else o3;
        if o4 < 1 then 1 else o4
    }

    /** Whether there is one row of coefficients per phase, or one oversampled filter to interpolate in. */
    predicate Direct()
      requires Valid()
    {
      den <= Oversample()
    }

    function TableLength(): (n: nat)
      requires Valid()
    {
      MulNonneg(Length(), den);
      MulNonneg(Length(), Oversample());
      if Direct() then Length() * den else Length() * Oversample() + 8
    }
  }

  /** When down-sampling, the length is the largest multiple of four that the stretched base length allows;
      otherwise it is the base length. */
  lemma LengthExact(d: Design)
    requires d.Valid()
    ensures d.num <= d.den ==> d.Length() == BASE_LENGTHS[d.quality]
    ensures d.den < d.num ==>
              d.Length() * d.den <= BASE_LENGTHS[d.quality] * d.num < (d.Length() + 4) * d.den
  {
    if d.den < d.num {
      var x, n := BASE_LENGTHS[d.quality] * d.num, d.Length();
      assert x / d.den / 4 * 4 == n && n <= x / d.den < n + 4;
      Below(x, d.den, n);
      Below(x, d.den, n + 4);
    }
  }

  /** Down-sampling by more than 2, 4, 8 or 16 divides the oversampling by 2, 4, 8 or 16, rounded down but
      never below one; every value of the table is a power of two, so the quotient is exact until it is
      one.  A row of coefficients for each phase is kept exactly while there are no more phases than that. */
  lemma OversampleExact(d: Design)
    requires d.Valid()
    ensures var o, h := OVERSAMPLES[d.quality], Halving(d.num, d.den);
            && (d.Oversample() * h == o || (d.Oversample() == 1 && o < h))
            && (d.Direct() <==> d.den * h <= o || d.den == 1)
  {
    var o, h := OVERSAMPLES[d.quality], Halving(d.num, d.den);
    assert o in {4, 8, 16, 32} && h in {1, 2, 4, 8, 16};
  }

  /** By how much a ratio divides the oversampling. */
  function Halving(num: nat, den: nat): nat {
    if num <= 2 * den then 1 else if num <= 4 * den then 2 else if num <= 8 * den then 4
    else if num <= 16 * den then 8 else 16
  }

  /** The numbers the code computes in floating point, as given functions.  mac is one accumulation,
      direct and spread the two table layouts, blend the interpolation between four accumulators from
      the remainder and den, widen and narrow the conversions between 16-bit and working samples. */
  datatype Numerics = Numerics(
    mac: (real, real, real) -> real,
    direct: (Design, int, int) -> real,
    spread: (Design, int) -> real,
    blend: (real, real, real, real, int, int) -> real,
    widen: int -> real,
    narrow: real -> int)

  /** What the kernel loops use of a design: the fields update_filter sets. */
  datatype Tuning = Tuning(filtLen: nat, denRate: nat, oversample: nat, direct: bool, intAdvance: nat, fracAdvance: nat)

  /** Column j of row i of a table with rows of n. */
  function Cell(i: int, n: int, j: int): int {
    i * n + j
  }

  /** Table entry read by accumulator lane (0..3) for tap j. */
  function SpreadCell(oversample: int, offset: int, lane: int, j: int): int {
    4 + (j + 1) * oversample - offset - 2 + lane
  }

  ghost predicate TableFits(nm: Numerics, d: Design, table: seq<real>)
    requires d.Valid()
  {
    && d.TableLength() <= |table|
    && (d.Direct() ==> DirectRows(nm, d, table, d.den))
    && (!d.Direct() ==> SpreadEntries(nm, d, table, d.Length() * d.Oversample() + 8))
  }

  /** The first rows of the table are filled in. */
  ghost predicate DirectRows(nm: Numerics, d: Design, table: seq<real>, rows: nat)
    requires d.Valid()
  {
    forall i, j :: 0 <= i < rows && 0 <= j < d.Length() ==>
      0 <= Cell(i, d.Length(), j) < |table| && table[Cell(i, d.Length(), j)] == nm.direct(d, i, j)
  }

  ghost predicate SpreadEntries(nm: Numerics, d: Design, table: seq<real>, count: nat) {
    count <= |table| && forall i :: 0 <= i < count ==> table[i] == nm.spread(d, i - 4)
  }

  /** The accumulation over the first j taps of a window, in the order the code adds them. */
  function DirectSum(nm: Numerics, d: Design, w: seq<real>, phase: int, j: nat): real
    requires j <= |w|
  {
    if j == 0 then 0.0 else nm.mac(DirectSum(nm, d, w, phase, j - 1), w[j - 1], nm.direct(d, phase, j - 1))
  }

  function SpreadSum(nm: Numerics, d: Design, w: seq<real>, offset: int, lane: int, j: nat): real
    requires j <= |w| && d.Valid()
  {
    if j == 0 then 0.0 else
      nm.mac(SpreadSum(nm, d, w, offset, lane, j - 1), w[j - 1],
             nm.spread(d, SpreadCell(d.Oversample(), offset, lane, j - 1) - 4))
  }

  function SpreadTap(nm: Numerics, d: Design, w: seq<real>, phase: int): real
    requires d.Valid()
  {
    var offset := phase * d.Oversample() / d.den;
    nm.blend(SpreadSum(nm, d, w, offset, 0, |w|), SpreadSum(nm, d, w, offset, 1, |w|),
             SpreadSum(nm, d, w, offset, 2, |w|), SpreadSum(nm, d, w, offset, 3, |w|),
             phase * d.Oversample() % d.den, d.den)
  }

  /** One output sample from the window under the filter and the sub-sample phase. */
  function Tap(nm: Numerics, d: Design, w: seq<real>, phase: int): real
    requires d.Valid()
  {
    if d.Direct() then DirectSum(nm, d, w, phase, |w|) else SpreadTap(nm, d, w, phase)
  }

  function KernelOf(nm: Numerics, d: Design): (k: Kernel)
    requires d.Valid()
    ensures k.Valid() && k.n == d.Length() && k.num == d.num && k.den == d.den
  {
    Kernel(d.Length(), d.num, d.den, (w, phase) => Tap(nm, d, w, phase))
  }

  lemma KernelTap(nm: Numerics, d: Design, w: seq<real>, phase: int)
    requires d.Valid()
    ensures KernelOf(nm, d).tap(w, phase) == Tap(nm, d, w, phase)
  {}

  /** Every index into the direct table is in bounds. */
  lemma CellInTable(d: Design, phase: nat, j: nat)
    requires d.Valid() && d.Direct() && phase < d.den && j < d.Length()
    ensures 0 <= Cell(phase, d.Length(), j) < d.TableLength()
  {
    CellBelow(phase, d.den, d.Length(), j);
  }

  lemma CellBelow(i: nat, rows: nat, n: nat, j: nat)
    requires i < rows && j < n
    ensures 0 <= Cell(i, n, j) < n * rows
  {
    MulNonneg(i, n);
    MulMonotone(i + 1, rows, n);
    assert (i + 1) * n == i * n + n && rows * n == n * rows;
  }

  /** The interpolation offset stays below the oversampling factor. */
  lemma OffsetBound(d: Design, phase: nat)
    requires d.Valid() && phase < d.den
    ensures 0 <= phase * d.Oversample() / d.den < d.Oversample()
  {
    PartOf(phase, d.den, d.Oversample());
  }

  lemma PartOf(phase: nat, den: nat, n: nat)
    requires phase < den && 0 < n
    ensures 0 <= phase * n / den < n
  {
    MulNonneg(phase, n);
    MulMonotone(phase + 1, den, n);
    Distribute(phase, 1, n);
    Commute(den, n);
    Below(phase * n, den, 0);
    Below(phase * n, den, n);
  }

  /** Every index into the interpolated table is in bounds, with all eight guard entries accounted for. */
  lemma SpreadCellInTable(d: Design, offset: nat, lane: nat, j: nat)
    requires d.Valid() && !d.Direct() && offset < d.Oversample() && lane < 4 && j < d.Length()
    ensures 3 <= SpreadCell(d.Oversample(), offset, lane, j) <= d.TableLength() - 3
  {
    MulMonotone(1, j + 1, d.Oversample());
    MulMonotone(j + 1, d.Length(), d.Oversample());
  }
}
