/** The coverage console's completeness figures: per AMC the mean over eight fields of the share of
    its schemes that have the field, rounded to one decimal, and overall the scheme-weighted mean of
    those rounded figures, rounded again. Arithmetic is exact; rounding is to the nearest tenth,
    ties to even. */
module Coverage {
  import opened Prelude

  datatype Field =
    | Constituents | Aum | Ter | Riskometer | Benchmark | Manager | ExitLoad | Category

  function FieldOrder(): (fields: seq<Field>)
    ensures |fields| == 8
  {
    [Constituents, Aum, Ter, Riskometer, Benchmark, Manager, ExitLoad, Category]
  }

  /** One row of the fund table: a plan variant of a scheme. */
  datatype Fund = Fund(amc: string, scheme: string, has: set<Field>)

  /** The distinct schemes of an AMC, and those with a row that has the field. */
  function Schemes(funds: seq<Fund>, amc: string): set<string> {
    set f | f in funds && f.amc == amc :: f.scheme
  }

  function Covered(funds: seq<Fund>, amc: string, field: Field): set<string> {
    set f | f in funds && f.amc == amc && field in f.has :: f.scheme
  }

  function SchemeCount(funds: seq<Fund>, amc: string): nat {
    |Schemes(funds, amc)|
  }

  function CoveredCount(funds: seq<Fund>, amc: string, field: Field): nat {
    |Covered(funds, amc, field)|
  }

  /** A scheme counts for an AMC if some row of it is the AMC's, and as covered if some such row has the
      field; either way once, however many plan variants there are. */
  lemma SchemesAre(funds: seq<Fund>, amc: string, field: Field, scheme: string)
    ensures scheme in Schemes(funds, amc) <==> exists f :: f in funds && f.amc == amc && f.scheme == scheme
    ensures scheme in Covered(funds, amc, field) <==>
            exists f :: f in funds && f.amc == amc && f.scheme == scheme && field in f.has
  {
  }

  lemma CoveredAtMostSchemes(funds: seq<Fund>, amc: string, field: Field)
    ensures CoveredCount(funds, amc, field) <= SchemeCount(funds, amc)
  {
    SubsetSize(Covered(funds, amc, field), Schemes(funds, amc));
  }

  // -------------------------------------------------------------------------------------------
  // Rounding
  // -------------------------------------------------------------------------------------------

  function Round1(x: real): real {
    var n := (10.0 * x).Floor;
    var rest := 10.0 * x - n as real;
    (if rest < 0.5 || (rest == 0.5 && n % 2 == 0) then n else n + 1) as real / 10.0
  }

  /** A whole number of tenths, the nearest one, and of two the even one. */
  lemma RoundIs(x: real) returns (n: int)
    ensures Round1(x) == n as real / 10.0
    ensures -0.5 <= 10.0 * x - n as real <= 0.5
    ensures 10.0 * x - n as real == 0.5 || 10.0 * x - n as real == -0.5 ==> n % 2 == 0
  {
    n := (10.0 * x).Floor;
    var rest := 10.0 * x - n as real;
    if !(rest < 0.5 || (rest == 0.5 && n % 2 == 0)) {
      n := n + 1;
    }
  }

  lemma RoundIsNear(x: real)
    ensures -0.05 <= Round1(x) - x <= 0.05
    ensures 0.0 <= x <= 100.0 ==> 0.0 <= Round1(x) <= 100.0
  {
  }

  // -------------------------------------------------------------------------------------------
  // The figures
  // -------------------------------------------------------------------------------------------

  function Share(covered: nat, schemes: nat): real {
    if schemes == 0 then 0.0 else covered as real / schemes as real
  }

  function FractionSum(funds: seq<Fund>, amc: string, fields: seq<Field>): real {
    if fields == [] then 0.0
    else
      var n := |fields| - 1;
      FractionSum(funds, amc, fields[..n]) +
      Share(CoveredCount(funds, amc, fields[n]), SchemeCount(funds, amc))
  }

  /** How many (scheme, field) pairs are covered. */
  function CoveredCells(funds: seq<Fund>, amc: string, fields: seq<Field>): nat {
    if fields == [] then 0
    else CoveredCells(funds, amc, fields[..|fields| - 1]) + CoveredCount(funds, amc, fields[|fields| - 1])
  }

  function Completeness(fractionSum: real): real {
    Round1(100.0 * fractionSum / 8.0)
  }

  /** One AMC's line: its rounded figure, its schemes, the product of the two, and how many of its
      pairs are covered. */
  datatype Line = Line(completeness: real, schemes: nat, weighted: real, cells: nat)

  function MakeLine(fractionSum: real, schemes: nat, cells: nat): Line {
    var completeness := Completeness(fractionSum);
    Line(completeness, schemes, completeness * schemes as real, cells)
  }

  function LineOf(funds: seq<Fund>, amc: string, fields: seq<Field>): Line {
    MakeLine(FractionSum(funds, amc, fields), SchemeCount(funds, amc), CoveredCells(funds, amc, fields))
  }

  function Lines(funds: seq<Fund>, amcs: seq<string>, fields: seq<Field>): (lines: seq<Line>)
    ensures |lines| == |amcs|
    ensures forall n :: 0 <= n < |amcs| ==> lines[n] == LineOf(funds, amcs[n], fields)
  {
    if amcs == [] then []
    else Lines(funds, amcs[..|amcs| - 1], fields) + [LineOf(funds, amcs[|amcs| - 1], fields)]
  }

  function WeightedSum(lines: seq<Line>): real {
    if lines == [] then 0.0
    else WeightedSum(lines[..|lines| - 1]) + lines[|lines| - 1].weighted
  }

  function TotalSchemes(lines: seq<Line>): nat {
    if lines == [] then 0 else TotalSchemes(lines[..|lines| - 1]) + lines[|lines| - 1].schemes
  }

  function TotalCells(lines: seq<Line>): nat {
    if lines == [] then 0 else TotalCells(lines[..|lines| - 1]) + lines[|lines| - 1].cells
  }

  function Overall(lines: seq<Line>): real {
    if TotalSchemes(lines) == 0 then 0.0 else Round1(WeightedSum(lines) / TotalSchemes(lines) as real)
  }

  /** The inner loop of the endpoint: one AMC's figures. */
  method AmcLine(funds: seq<Fund>, amc: string, fields: seq<Field>)
    returns (completeness: real, schemes: nat, product: real)
    ensures completeness == LineOf(funds, amc, fields).completeness
    ensures schemes == LineOf(funds, amc, fields).schemes
    ensures product == LineOf(funds, amc, fields).weighted
  {
    schemes := SchemeCount(funds, amc);
    var fractionSum := 0.0;
    for k := 0 to |fields|
      invariant fractionSum == FractionSum(funds, amc, fields[..k])
    {
      assert fields[..k + 1][..k] == fields[..k];
      var covered := CoveredCount(funds, amc, fields[k]);
      fractionSum := fractionSum + Share(covered, schemes);
    }
    assert fields[..|fields|] == fields;
    completeness := Round1(100.0 * fractionSum / 8.0);
    product := completeness * schemes as real;
  }

  /** The outer loop, over the AMCs in the order in which they are reported. */
  method GetCoverage(funds: seq<Fund>, amcs: seq<string>, fields: seq<Field>)
    returns (rows: seq<real>, overall: real)
    ensures |rows| == |amcs|
    ensures forall n :: 0 <= n < |amcs| ==> rows[n] == LineOf(funds, amcs[n], fields).completeness
    ensures overall == Overall(Lines(funds, amcs, fields))
  {
    var weighted, total;
    rows, weighted, total := Accumulate(funds, amcs, fields, Lines(funds, amcs, fields));
    overall := if total == 0 then 0.0 else Round1(weighted / total as real);
  }

  method Accumulate(funds: seq<Fund>, amcs: seq<string>, fields: seq<Field>, ghost lines: seq<Line>)
    returns (rows: seq<real>, weighted: real, total: nat)
    requires |lines| == |amcs| && forall n :: 0 <= n < |amcs| ==> lines[n] == LineOf(funds, amcs[n], fields)
    ensures |rows| == |amcs|
    ensures forall n :: 0 <= n < |amcs| ==> rows[n] == lines[n].completeness
    ensures weighted == WeightedSum(lines) && total == TotalSchemes(lines)
  {
    rows, weighted, total := [], 0.0, 0;
    for n := 0 to |amcs|
      invariant |rows| == n
      invariant forall k :: 0 <= k < n ==> rows[k] == lines[k].completeness
      invariant weighted == WeightedSum(lines[..n])
      invariant total == TotalSchemes(lines[..n])
    {
      assert lines[..n + 1][..n] == lines[..n];
      var completeness, schemes, product := AmcLine(funds, amcs[n], fields);
      weighted := weighted + product;
      total := total + schemes;
      rows := rows + [completeness];
    }
    assert lines[..|amcs|] == lines;
  }

  // -------------------------------------------------------------------------------------------
  // The bounds
  // -------------------------------------------------------------------------------------------

  lemma ShareTimes(covered: nat, schemes: nat)
    requires covered <= schemes
    ensures Share(covered, schemes) * schemes as real == covered as real
    ensures 0.0 <= Share(covered, schemes) <= 1.0
  {
    if schemes == 0 {
      assert covered == 0;
    } else {
      ShareAtMostOne(covered as real, schemes as real);
    }
  }

  lemma ShareAtMostOne(c: real, s: real)
    requires 0.0 <= c <= s && s > 0.0
    ensures 0.0 <= c / s <= 1.0 && c / s * s == c
  {
    var q := c / s;
    assert q * s == c;
  }

  lemma {:induction false} FractionsAreCells(funds: seq<Fund>, amc: string, fields: seq<Field>)
    ensures FractionSum(funds, amc, fields) * SchemeCount(funds, amc) as real ==
            CoveredCells(funds, amc, fields) as real
    ensures 0.0 <= FractionSum(funds, amc, fields) <= |fields| as real
  {
    if fields != [] {
      var n := |fields| - 1;
      FractionsAreCells(funds, amc, fields[..n]);
      CoveredAtMostSchemes(funds, amc, fields[n]);
      ShareTimes(CoveredCount(funds, amc, fields[n]), SchemeCount(funds, amc));
      Distribute(FractionSum(funds, amc, fields[..n]),
                 Share(CoveredCount(funds, amc, fields[n]), SchemeCount(funds, amc)),
                 SchemeCount(funds, amc) as real);
    }
  }

  lemma Distribute(a: real, b: real, s: real)
    ensures (a + b) * s == a * s + b * s
  {
  }

  /** `w` is within 0.05 per scheme of the exact weighted percentage of `c` covered pairs, and
      between 0 and 100 per scheme. */
  predicate Within(w: real, c: real, s: real) {
    -0.05 * s <= w - 12.5 * c <= 0.05 * s && 0.0 <= w <= 100.0 * s
  }

  lemma RoundedTimes(f: real, r: real, s: real)
    requires s >= 0.0 && -0.05 <= r - 12.5 * f <= 0.05 && 0.0 <= r <= 100.0
    ensures Within(r * s, f * s, s)
  {
    var e := r - 12.5 * f;
    assert r * s == 12.5 * (f * s) + e * s;
    assert -0.05 * s <= e * s <= 0.05 * s;
  }

  lemma CompletenessNear(f: real)
    requires 0.0 <= f <= 8.0
    ensures -0.05 <= Completeness(f) - 12.5 * f <= 0.05 && 0.0 <= Completeness(f) <= 100.0
  {
    RoundIsNear(100.0 * f / 8.0);
  }

  lemma LineError(f: real, s: real, cells: real)
    requires 0.0 <= f <= 8.0 && s >= 0.0 && f * s == cells
    ensures Within(Completeness(f) * s, cells, s)
  {
    CompletenessNear(f);
    RoundedTimes(f, Completeness(f), s);
  }

  ghost predicate LineWithin(line: Line) {
    Within(line.weighted, line.cells as real, line.schemes as real)
  }

  /** One AMC's rounded figure times its schemes is within 0.05 per scheme of its exact share. */
  lemma AmcError(funds: seq<Fund>, amc: string, fields: seq<Field>)
    requires |fields| == |FieldOrder()|
    ensures LineWithin(LineOf(funds, amc, fields))
  {
    FractionsAreCells(funds, amc, fields);
    LineFrom(FractionSum(funds, amc, fields), SchemeCount(funds, amc), CoveredCells(funds, amc, fields));
  }

  lemma LineFrom(f: real, schemes: nat, cells: nat)
    requires 0.0 <= f <= 8.0 && f * schemes as real == cells as real
    ensures LineWithin(MakeLine(f, schemes, cells))
  {
    LineError(f, schemes as real, cells as real);
  }

  // What the figures count ------------------------------------------------------------------

  /** The covered pairs of a scheme and (the position of) a field. */
  function Pairs(funds: seq<Fund>, amc: string, fields: seq<Field>): set<(string, int)> {
    set k, scheme | 0 <= k < |fields| && scheme in Covered(funds, amc, fields[k]) :: (scheme, k)
  }

  lemma {:induction false} TaggedSize(schemes: set<string>, k: int)
    ensures |set scheme | scheme in schemes :: (scheme, k)| == |schemes|
    decreases |schemes|
  {
    var tagged := set scheme | scheme in schemes :: (scheme, k);
    if schemes == {} {
      assert tagged == {};
    } else {
      var one :| one in schemes;
      TaggedSize(schemes - {one}, k);
      var others := set scheme | scheme in schemes - {one} :: (scheme, k);
      assert tagged == others + {(one, k)} && (one, k) !in others;
    }
  }

  lemma PairsSnoc(funds: seq<Fund>, amc: string, fields: seq<Field>)
    requires fields != []
    ensures var n := |fields| - 1;
      |Pairs(funds, amc, fields)| == |Pairs(funds, amc, fields[..n])| + |Covered(funds, amc, fields[n])|
  {
    var n := |fields| - 1;
    var last := set scheme | scheme in Covered(funds, amc, fields[n]) :: (scheme, n);
    TaggedSize(Covered(funds, amc, fields[n]), n);
    assert Pairs(funds, amc, fields) == Pairs(funds, amc, fields[..n]) + last;
    assert Pairs(funds, amc, fields[..n]) !! last;
  }

  /** The cells of a line are the covered pairs. */
  lemma {:induction false} CellsArePairs(funds: seq<Fund>, amc: string, fields: seq<Field>)
    ensures CoveredCells(funds, amc, fields) == |Pairs(funds, amc, fields)|
  {
    if fields == [] {
      assert Pairs(funds, amc, fields) == {};
    } else {
      CellsArePairs(funds, amc, fields[..|fields| - 1]);
      PairsSnoc(funds, amc, fields);
    }
  }

  lemma {:induction false} NoSchemesNoFractions(funds: seq<Fund>, amc: string, fields: seq<Field>)
    requires Schemes(funds, amc) == {}
    ensures FractionSum(funds, amc, fields) == 0.0
  {
    if fields != [] {
      NoSchemesNoFractions(funds, amc, fields[..|fields| - 1]);
    }
  }

  /** One AMC's figure is within 0.05 of the percentage of its scheme and field pairs that are covered,
      and 0 for an AMC without schemes. */
  lemma AmcFigure(funds: seq<Fund>, amc: string, fields: seq<Field>)
    requires |fields| == |FieldOrder()|
    ensures var s, c := |Schemes(funds, amc)| as real, |Pairs(funds, amc, fields)| as real;
      s > 0.0 ==> -0.05 <= LineOf(funds, amc, fields).completeness - 100.0 * c / (8.0 * s) <= 0.05
    ensures Schemes(funds, amc) == {} ==> LineOf(funds, amc, fields).completeness == 0.0
  {
    if Schemes(funds, amc) == {} {
      NoSchemesNoFractions(funds, amc, fields);
    }
    var f, s := FractionSum(funds, amc, fields), SchemeCount(funds, amc) as real;
    FractionsAreCells(funds, amc, fields);
    CellsArePairs(funds, amc, fields);
    CompletenessNear(f);
    if s > 0.0 {
      FigureOf(f, s, CoveredCells(funds, amc, fields) as real);
    }
  }

  lemma FigureOf(f: real, s: real, c: real)
    requires s > 0.0 && f * s == c
    ensures 100.0 * c / (8.0 * s) == 12.5 * f
  {
    Rearrange(f, s);
    Quotient(100.0 * c, 8.0 * s, 12.5 * f);
  }

  /** The totals are sums over the AMCs of their schemes and of their covered pairs. */
  lemma TotalsAre(funds: seq<Fund>, amcs: seq<string>, amc: string, fields: seq<Field>)
    ensures var some, more := Lines(funds, amcs, fields), Lines(funds, amcs + [amc], fields);
      && TotalSchemes(more) == TotalSchemes(some) + |Schemes(funds, amc)|
      && TotalCells(more) == TotalCells(some) + |Pairs(funds, amc, fields)|
    ensures TotalSchemes(Lines(funds, [], fields)) == 0 == TotalCells(Lines(funds, [], fields))
  {
    assert (amcs + [amc])[..|amcs|] == amcs;
    var some, more := Lines(funds, amcs, fields), Lines(funds, amcs + [amc], fields);
    assert more == some + [LineOf(funds, amc, fields)] && more[..|amcs|] == some;
    CellsArePairs(funds, amc, fields);
  }

  lemma WithinAdds(w: real, c: real, s: real, w': real, c': real, s': real)
    requires Within(w, c, s) && Within(w', c', s')
    ensures Within(w + w', c + c', s + s')
  {
  }

  /** The errors of the lines add up to no more than 0.05 per scheme. */
  lemma {:induction false} WeightedError(lines: seq<Line>)
    requires forall n :: 0 <= n < |lines| ==> LineWithin(lines[n])
    ensures Within(WeightedSum(lines), TotalCells(lines) as real, TotalSchemes(lines) as real)
  {
    if lines != [] {
      var n := |lines| - 1;
      var front, last := lines[..n], lines[n];
      WeightedError(front);
      WithinAdds(WeightedSum(front), TotalCells(front) as real, TotalSchemes(front) as real,
                 last.weighted, last.cells as real, last.schemes as real);
    }
  }

  /** For any fund table, any list of AMCs and any choice of eight fields the overall figure lies between 0 and
      100 and is within 0.1 of the true percentage of covered (scheme, field) pairs, however many
      AMCs' rounded figures went into it. */
  lemma {:induction false} OverallWithinATenth(funds: seq<Fund>, amcs: seq<string>, fields: seq<Field>)
    requires |fields| == |FieldOrder()|
    ensures var lines := Lines(funds, amcs, fields);
      var t := TotalSchemes(lines);
      && 0.0 <= Overall(lines) <= 100.0
      && (t == 0 ==> Overall(lines) == 0.0)
      && (t > 0 ==> -0.1 <= Overall(lines) - 100.0 * TotalCells(lines) as real / (8.0 * t as real) <= 0.1)
  {
    var lines := Lines(funds, amcs, fields);
    forall n | 0 <= n < |lines|
      ensures LineWithin(lines[n])
    {
      AmcError(funds, amcs[n], fields);
    }
    WeightedError(lines);
    OverallNear(lines);
  }

  lemma OverallNear(lines: seq<Line>)
    requires Within(WeightedSum(lines), TotalCells(lines) as real, TotalSchemes(lines) as real)
    ensures 0.0 <= Overall(lines) <= 100.0
    ensures var t := TotalSchemes(lines);
      t > 0 ==> -0.1 <= Overall(lines) - 100.0 * TotalCells(lines) as real / (8.0 * t as real) <= 0.1
  {
    var w, c, t := WeightedSum(lines), TotalCells(lines) as real, TotalSchemes(lines) as real;
    if t > 0.0 {
      RoundIsNear(w / t);
      Quotients(w, c, t);
    }
  }

  lemma Quotient(a: real, b: real, q: real)
    requires b > 0.0 && q * b == a
    ensures a / b == q
  {
  }

  lemma Quotients(w: real, c: real, t: real)
    requires t > 0.0 && Within(w, c, t)
    ensures -0.05 <= w / t - 100.0 * c / (8.0 * t) <= 0.05
    ensures 0.0 <= w / t <= 100.0
  {
    var q, r := w / t, c / t;
    Times(w, t);
    Times(c, t);
    Rearrange(r, t);
    Quotient(100.0 * c, 8.0 * t, 12.5 * r);
    Factor(q, r, t);
    Cancel(q - 12.5 * r, w - 12.5 * c, t, -0.05, 0.05);
    Cancel(q, w, t, 0.0, 100.0);
  }

  lemma Times(a: real, b: real)
    requires b > 0.0
    ensures a / b * b == a
  {
  }

  lemma Rearrange(r: real, t: real)
    ensures 12.5 * r * (8.0 * t) == 100.0 * (r * t)
  {
  }

  lemma Factor(q: real, r: real, t: real)
    ensures (q - 12.5 * r) * t == q * t - 12.5 * (r * t)
  {
  }

  lemma Cancel(x: real, y: real, t: real, lo: real, hi: real)
    requires t > 0.0 && x * t == y && lo * t <= y <= hi * t
    ensures lo <= x <= hi
  {
    ProductPositive(lo - x, t);
    ProductPositive(x - hi, t);
  }

  lemma ProductPositive(a: real, b: real)
    ensures a > 0.0 && b > 0.0 ==> a * b > 0.0
  {
  }
}
