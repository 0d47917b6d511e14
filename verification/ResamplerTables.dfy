/** Filling the coefficient table: the first half of update_filter. */
module ResamplerTables {
  import opened Division
  import opened ResamplerFilter
  import opened ResamplerMemory

  lemma CellsApart(i: nat, j: nat, i': nat, j': nat, n: nat)
    requires j < n && j' < n && Cell(i, n, j) == Cell(i', n, j')
    ensures i == i' && j == j'
  {
    SameQuotient(n, i, j, i', j');
  }

  /** Rows up to i are filled, and row i up to column j. */
  ghost predicate FilledTo(nm: Numerics, d: Design, table: seq<real>, i: nat, j: nat)
    requires d.Valid()
  {
    && DirectRows(nm, d, table, i)
    && forall c :: 0 <= c < j ==>
         0 <= Cell(i, d.Length(), c) < |table| && table[Cell(i, d.Length(), c)] == nm.direct(d, i, c)
  }

  lemma StoreCell(nm: Numerics, d: Design, table: seq<real>, i: nat, j: nat)
    requires d.Valid() && FilledTo(nm, d, table, i, j) && j < d.Length()
    requires 0 <= Cell(i, d.Length(), j) < |table|
    ensures FilledTo(nm, d, table[Cell(i, d.Length(), j) := nm.direct(d, i, j)], i, j + 1)
  {
    hide Cell;
    var n := d.Length();
    var after := table[Cell(i, n, j) := nm.direct(d, i, j)];
    forall a, b | 0 <= a < i && 0 <= b < n
      ensures 0 <= Cell(a, n, b) < |after| && after[Cell(a, n, b)] == nm.direct(d, a, b)
    {
      assert table[Cell(a, n, b)] == nm.direct(d, a, b);
      if Cell(a, n, b) == Cell(i, n, j) { CellsApart(a, b, i, j, n); }
    }
    forall b | 0 <= b < j + 1
      ensures 0 <= Cell(i, n, b) < |after| && after[Cell(i, n, b)] == nm.direct(d, i, b)
    {
      if b < j {
        assert table[Cell(i, n, b)] == nm.direct(d, i, b);
        if Cell(i, n, b) == Cell(i, n, j) { CellsApart(i, b, i, j, n); }
      }
    }
  }

  lemma RowFilled(nm: Numerics, d: Design, table: seq<real>, i: nat)
    requires d.Valid() && FilledTo(nm, d, table, i, d.Length())
    ensures FilledTo(nm, d, table, i + 1, 0)
  {
    hide Cell;
    var n := d.Length();
    forall a, b | 0 <= a < i + 1 && 0 <= b < n
      ensures 0 <= Cell(a, n, b) < |table| && table[Cell(a, n, b)] == nm.direct(d, a, b)
    {
      if a < i { assert table[Cell(a, n, b)] == nm.direct(d, a, b); }
    }
  }

  /** One row of coefficients for every phase. */
  method FillDirect(nm: Numerics, d: Design, table: array<real>)
    requires d.Valid() && d.Length() * d.den <= table.Length
    modifies table
    ensures DirectRows(nm, d, table[..], d.den)
  {
    hide DirectRows, FilledTo, Design.Length, Cell;
    var n := d.Length();
    var i := 0;
    NothingFilled(nm, d, table[..]);
    while i < d.den
      invariant i <= d.den && FilledTo(nm, d, table[..], i, 0)
    {
      var j := 0;
      while j < n
        invariant j <= n && FilledTo(nm, d, table[..], i, j)
      {
        CellBelow(i, d.den, n, j);
        StoreCell(nm, d, table[..], i, j);
        table[Cell(i, n, j)] := nm.direct(d, i, j);
        j := j + 1;
      }
      RowFilled(nm, d, table[..], i);
      i := i + 1;
    }
    AllFilled(nm, d, table[..]);
  }

  lemma NothingFilled(nm: Numerics, d: Design, table: seq<real>)
    requires d.Valid()
    ensures FilledTo(nm, d, table, 0, 0)
  {}

  lemma AllFilled(nm: Numerics, d: Design, table: seq<real>)
    requires d.Valid() && FilledTo(nm, d, table, d.den, 0)
    ensures DirectRows(nm, d, table, d.den)
  {}

  /** One oversampled filter with four guard entries on either side. */
  method FillSpread(nm: Numerics, d: Design, table: array<real>, count: nat)
    requires count <= table.Length
    modifies table
    ensures SpreadEntries(nm, d, table[..], count)
  {
    var i := -4;
    while i < count - 4
      invariant -4 <= i <= count - 4
      invariant SpreadEntries(nm, d, table[..], i + 4)
      decreases count - 4 - i
    {
      table[i + 4] := nm.spread(d, i);
      i := i + 1;
    }
  }

  method FillTable(nm: Numerics, d: Design, table: array<real>)
    requires d.Valid() && d.TableLength() <= table.Length
    modifies table
    ensures TableFits(nm, d, table[..])
  {
    if d.Direct() {
      FillDirect(nm, d, table);
    } else {
      FillSpread(nm, d, table, d.Length() * d.Oversample() + 8);
    }
  }

  method FirstTable(nm: Numerics, d: Design) returns (table: array<real>)
    requires d.Valid()
    ensures fresh(table) && TableFits(nm, d, table[..])
  {
    table := new real[d.TableLength()];
    FillTable(nm, d, table);
  }

  /** Makes the table fit the design and fills it.  A table is replaced only when its recorded length
      is too short; the recorded length of the very first one is zero. */
  method BuildTable(nm: Numerics, d: Design, table0: array<real>, length0: nat) returns (table: array<real>,
                                                                                         length: nat)
    requires d.Valid() && (length0 == 0 || length0 == table0.Length)
    modifies table0
    ensures (table == table0 || fresh(table)) && (length == 0 || length == table.Length)
    ensures TableFits(nm, d, table[..])
  {
    var need := d.TableLength();
    table, length := table0, length0;
    if length < need {
      table := Reallocate(table, need);
      length := need;
    }
    FillTable(nm, d, table);
  }
}
