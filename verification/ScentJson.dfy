/** Scent snapshots as the JSON dictionaries the program sends, and the commitments over them. */
module ScentJson {
  import opened Options
  import opened Geometry
  import opened Turns
  import opened Json
  import opened Crypto

  /** How the runtime prints a number. */
  type Printing = real -> string

  /** The numbers in `values` print as floats, and no two alike. */
  ghost predicate Prints(show: Printing, values: iset<real>) {
    && (forall x :: x in values ==> FloatText(show(x)))
    && (forall x, y :: x in values && y in values && show(x) == show(y) ==> x == y)
  }

  /** The snapshots all of whose values are among `values`. */
  ghost function ShownBy(values: iset<real>): iset<Snapshot> {
    iset smell: Snapshot | AllAmong(smell, values)
  }

  ghost predicate AllAmong(smell: Snapshot, values: iset<real>) {
    forall cell :: cell in smell ==> smell[cell] in values
  }

  function CellKey(cell: Cell): string {
    Decimal(cell.0) + "," + Decimal(cell.1)
  }

  lemma CommaSplits(a: string, x: string, b: string, y: string)
    requires (forall c :: c in a ==> Plain(c)) && (forall c :: c in b ==> Plain(c))
    requires a + "," + x == b + "," + y
    ensures a == b && x == y
  {
    assert a + "," + x == a + ([','] + x) && b + "," + y == b + ([','] + y);
    PlainPrefixUnique(a, [','] + x, b, [','] + y);
    SameHead(',', x, ',', y);
  }

  lemma CellKeyInjective(c: Cell, d: Cell)
    requires CellKey(c) == CellKey(d)
    ensures c == d
  {
    LiteralPlain(Int(c.0));
    LiteralPlain(Int(d.0));
    hide Decimal, Plain;
    CommaSplits(Decimal(c.0), Decimal(c.1), Decimal(d.0), Decimal(d.1));
    DecimalInjective(c.0, d.0);
    DecimalInjective(c.1, d.1);
  }

  lemma SomeCell(cells: set<Cell>) returns (cell: Cell)
    requires cells != {}
    ensures cell in cells
  {
    cell :| cell in cells;
  }

  /** One entry for each cell, in some order. */
  ghost function CellFields(show: Printing, smell: Snapshot): seq<Field>
    decreases |smell.Keys|
  {
    if smell.Keys == {} then []
    else
      assert exists cell :: cell in smell.Keys by { var some := SomeCell(smell.Keys); }
      var cell :| cell in smell.Keys;
      var rest := smell - {cell};
      assert rest.Keys == smell.Keys - {cell};
      [(CellKey(cell), Float(show(smell[cell])))] + CellFields(show, rest)
  }

  ghost predicate IsEntry(show: Printing, smell: Snapshot, field: Field) {
    exists cell :: cell in smell && field == (CellKey(cell), Float(show(smell[cell])))
  }

  lemma {:induction false} CellFieldsExact(show: Printing, smell: Snapshot)
    ensures DistinctKeys(CellFields(show, smell))
    ensures forall field :: field in CellFields(show, smell) <==> IsEntry(show, smell, field)
    decreases |smell.Keys|
  {
    if smell.Keys != {} {
      var fields := CellFields(show, smell);
      var cell :| cell in smell.Keys && fields == [(CellKey(cell), Float(show(smell[cell])))] + CellFields(show, smell - {cell});
      var rest := smell - {cell};
      assert rest.Keys == smell.Keys - {cell};
      CellFieldsExact(show, rest);
      var others := CellFields(show, rest);
      forall i | 0 <= i < |others| ensures others[i].0 != CellKey(cell) {
        assert IsEntry(show, rest, others[i]);
        var other :| other in rest && others[i] == (CellKey(other), Float(show(rest[other])));
        if others[i].0 == CellKey(cell) {
          CellKeyInjective(other, cell);
        }
      }
      forall field ensures field in fields <==> IsEntry(show, smell, field) {
        if IsEntry(show, smell, field) {
          var at :| at in smell && field == (CellKey(at), Float(show(smell[at])));
          if at != cell {
            assert at in rest && rest[at] == smell[at];
            assert IsEntry(show, rest, field);
          }
        }
        if field in others {
          var at :| at in rest && field == (CellKey(at), Float(show(rest[at])));
          assert at in smell && rest[at] == smell[at];
        }
      }
    }
  }

  /** The dictionary from "row,column" to printed intensity. */
  ghost function GridOf(show: Printing): GridJson {
    (smell: Snapshot) => Obj(Dict(CellFields(show, smell)))
  }

  lemma PrintsFloat(show: Printing, values: iset<real>, x: real)
    requires Prints(show, values) && x in values
    ensures WellFormed(Float(show(x)))
  {
    hide FloatText;
  }

  lemma GridWellFormed(show: Printing, values: iset<real>, smell: Snapshot)
    requires Prints(show, values) && AllAmong(smell, values)
    ensures WellFormed(GridOf(show)(smell))
  {
    var fields := CellFields(show, smell);
    CellFieldsExact(show, smell);
    forall i | 0 <= i < |fields| ensures WellFormed(fields[i].1) {
      assert IsEntry(show, smell, fields[i]);
      var cell :| cell in smell && fields[i] == (CellKey(cell), Float(show(smell[cell])));
      PrintsFloat(show, values, smell[cell]);
    }
    DictWellFormed(fields);
  }

  lemma LookupCell(show: Printing, smell: Snapshot, cell: Cell)
    ensures Lookup(Dict(CellFields(show, smell)), CellKey(cell))
         == if cell in smell then Some(Float(show(smell[cell]))) else None
  {
    var fields := CellFields(show, smell);
    CellFieldsExact(show, smell);
    DictKeys(fields, CellKey(cell));
    LookupFinds(Dict(fields), CellKey(cell));
    if cell in smell {
      assert IsEntry(show, smell, (CellKey(cell), Float(show(smell[cell]))));
      var i :| 0 <= i < |fields| && fields[i] == (CellKey(cell), Float(show(smell[cell])));
      DictAt(fields, i);
    } else {
      forall i | 0 <= i < |fields| ensures fields[i].0 != CellKey(cell) {
        assert IsEntry(show, smell, fields[i]);
        var other :| other in smell && fields[i] == (CellKey(other), Float(show(smell[other])));
        if CellKey(other) == CellKey(cell) {
          CellKeyInjective(other, cell);
        }
      }
    }
  }

  lemma SameGridSameSnapshot(show: Printing, values: iset<real>, a: Snapshot, b: Snapshot)
    requires Prints(show, values) && AllAmong(a, values) && AllAmong(b, values)
    requires Normal(GridOf(show)(a)) == Normal(GridOf(show)(b))
    ensures a == b
  {
    GridWellFormed(show, values, a);
    GridWellFormed(show, values, b);
    var x, y := Dict(CellFields(show, a)), Dict(CellFields(show, b));
    NormalForgetsOrder(x, y);
    hide Dict, CellFields, CellKey, WellFormed, SortMembers, NormalMembers;
    forall cell ensures (cell in a <==> cell in b) && (cell in a && cell in b ==> a[cell] == b[cell]) {
      LookupCell(show, a, cell);
      LookupCell(show, b, cell);
      assert NormalAt(x, CellKey(cell)) == NormalAt(y, CellKey(cell));
    }
    assert a.Keys == b.Keys;
  }

  /** The dictionaries the program sends are faithful, for any numbers the runtime prints
      apart. */
  lemma GridIsFaithful(show: Printing, values: iset<real>)
    requires Prints(show, values)
    ensures Faithful(GridOf(show), ShownBy(values))
  {
    var grid := GridOf(show);
    forall smell | smell in ShownBy(values) ensures WellFormed(grid(smell)) {
      GridWellFormed(show, values, smell);
    }
    forall a, b | a in ShownBy(values) && b in ShownBy(values) && Normal(grid(a)) == Normal(grid(b)) ensures a == b {
      SameGridSameSnapshot(show, values, a, b);
    }
  }

  /** The hex commit of a turn whose scent is sent as a dictionary identifies everything sealed
      in it: no hypothesis is left but the hash and the printing of the numbers used. */
  lemma DictionaryCommitBinds<D(!new)>(hash: string -> D, show: Printing, values: iset<real>, s: Sealed, t: Sealed)
    requires Injective(hash) && Prints(show, values)
    requires s.payload.Turn? ==> AllAmong(s.payload.smell, values)
    requires t.payload.Turn? ==> AllAmong(t.payload.smell, values)
    ensures SealedCommit(hash, GridOf(show), s) == SealedCommit(hash, GridOf(show), t) <==> Commit(s) == Commit(t)
  {
    GridIsFaithful(show, values);
    SealedCommitBinds(hash, GridOf(show), ShownBy(values), s, t);
  }

  // ---------- a printing, and the kernel's own numbers ----------

  predicate IsHundredth(x: real) {
    (x * 100.0).Floor as real == x * 100.0
  }

  function PrintHundredth(x: real): string {
    Decimal((x * 100.0).Floor) + "e-2"
  }

  lemma HundredthText(x: real)
    ensures FloatText(PrintHundredth(x))
  {
    var digits := Decimal((x * 100.0).Floor);
    LiteralPlain(Int((x * 100.0).Floor));
    DecimalShape((x * 100.0).Floor);
    hide Decimal;
    assert digits[0] in digits;
    var text := digits + "e-2";
    assert text[0] == digits[0] && text[|digits|] == 'e' && 'e' in text;
  }

  lemma SuffixCancels(a: string, b: string, suffix: string)
    requires a + suffix == b + suffix
    ensures a == b
  {
    assert |a + suffix| == |b + suffix|;
    assert (a + suffix)[..|a|] == a && (b + suffix)[..|b|] == b;
  }

  lemma HundredthsApart(x: real, y: real)
    requires IsHundredth(x) && IsHundredth(y) && PrintHundredth(x) == PrintHundredth(y)
    ensures x == y
  {
    hide Decimal;
    var m, n := (x * 100.0).Floor, (y * 100.0).Floor;
    SuffixCancels(Decimal(m), Decimal(n), "e-2");
    DecimalInjective(m, n);
  }

  lemma KernelHundredths()
    ensures forall x :: x in [0.04, 0.14, 0.20, 0.42, 0.62, 0.90] ==> IsHundredth(x)
  {
    assert IsHundredth(0.04) && IsHundredth(0.14) && IsHundredth(0.20);
    assert IsHundredth(0.42) && IsHundredth(0.62) && IsHundredth(0.90);
    hide IsHundredth;
  }

  /** All hundredths can be printed apart, the values of the scent kernel among them. */
  lemma HundredthsPrint()
    ensures Prints(PrintHundredth, iset x: real | IsHundredth(x))
    ensures forall x :: x in [0.04, 0.14, 0.20, 0.42, 0.62, 0.90] ==> IsHundredth(x)
  {
    KernelHundredths();
    hide IsHundredth, PrintHundredth, FloatText;
    forall x: real ensures FloatText(PrintHundredth(x)) {
      HundredthText(x);
    }
    forall x, y | IsHundredth(x) && IsHundredth(y) && PrintHundredth(x) == PrintHundredth(y) ensures x == y {
      HundredthsApart(x, y);
    }
  }

  /** So there is a faithful encoding, of infinitely many snapshots. */
  lemma FaithfulGridExists()
    ensures Faithful(GridOf(PrintHundredth), ShownBy(iset x: real | IsHundredth(x)))
    ensures forall cell: Cell :: map[cell := 0.90] in ShownBy(iset x: real | IsHundredth(x))
  {
    HundredthsPrint();
    GridIsFaithful(PrintHundredth, iset x: real | IsHundredth(x));
    assert 0.90 in [0.04, 0.14, 0.20, 0.42, 0.62, 0.90];
  }

  /** The key of a cell, spelled out: the row, a comma, the column. */
  lemma KeySpelledOut()
    ensures CellKey((13, -4)) == "13,-4"
  {
    assert Digits(13) == "13" && Digits(4) == "4";
  }
}
