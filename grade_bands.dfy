/** The five letter bands both analytics hooks sort percentages into: A 90-100, B 80-89,
    C 70-79, D 60-69, F 0-59. As written, each band is the closed interval [min, max], so a
    percentage strictly between two bands (89.5, 59.2) or above 100 lands in none of them.
    `BandAsWritten` keeps that behaviour; `BandOf` closes the gaps with half-open bands and is
    the one the rest of the model uses. */
module GradeBands {
  import opened Common

  datatype Band = A | B | C | D | F

  /** The order of the `gradeRanges` array. */
  const Bands: seq<Band> := [A, B, C, D, F]

  function Lo(b: Band): int
  {
    match b
    case A => 90
    case B => 80
    case C => 70
    case D => 60
    case F => 0
  }

  function Hi(b: Band): int
  {
    match b
    case A => 100
    case B => 89
    case C => 79
    case D => 69
    case F => 59
  }

  /** `s >= r.min && s <= r.max` */
  predicate InRangeAsWritten(b: Band, x: real)
  {
    Lo(b) as real <= x <= Hi(b) as real
  }

  /** The intended band: from its minimum up to the next band's minimum; A includes 100. */
  predicate InBand(b: Band, x: real)
  {
    Lo(b) as real <= x && if b == A then x <= 100.0 else x < (Hi(b) + 1) as real
  }

  /** `gradeRanges.find(r => x >= r.min && x <= r.max)`: the band whose closed interval
      holds `x`, if any. */
  function BandAsWritten(x: real): (r: Option<Band>)
    ensures forall b :: r == Some(b) <==> InRangeAsWritten(b, x)
  {
    if InRangeAsWritten(A, x) then Some(A)
    else if InRangeAsWritten(B, x) then Some(B)
    else if InRangeAsWritten(C, x) then Some(C)
    else if InRangeAsWritten(D, x) then Some(D)
    else if InRangeAsWritten(F, x) then Some(F)
    else None
  }

  /** The intended band of a percentage: every value from 0 to 100 has exactly one. */
  function BandOf(x: real): (r: Option<Band>)
    ensures forall b :: r == Some(b) <==> InBand(b, x)
    ensures r.Some? <==> 0.0 <= x <= 100.0
  {
    if InBand(A, x) then Some(A)
    else if InBand(B, x) then Some(B)
    else if InBand(C, x) then Some(C)
    else if InBand(D, x) then Some(D)
    else if InBand(F, x) then Some(F)
    else None
  }

  /** The defect: a percentage between two bands belongs to none as written. */
  lemma GapExample()
    ensures BandAsWritten(89.5) == None
    ensures BandOf(89.5) == Some(B)
  {
  }

  /** The written bands lose exactly the values strictly between two bands and those
      outside 0..100. */
  lemma AsWrittenMisses(x: real)
    ensures BandAsWritten(x) == None <==>
      x < 0.0 || 100.0 < x || 59.0 < x < 60.0 || 69.0 < x < 70.0 || 79.0 < x < 80.0 || 89.0 < x < 90.0
  {
  }

  /** On whole-number percentages the written bands and the intended ones agree. */
  lemma AgreeOnWholeNumbers(n: int)
    ensures BandAsWritten(n as real) == BandOf(n as real)
  {
  }

  /** `xs.filter(s => s >= b.min && s <= b.max).length` */
  function CountAsWritten(xs: seq<real>, b: Band): (n: nat)
    ensures n <= |xs|
  {
    if xs == [] then 0
    else CountAsWritten(xs[..|xs| - 1], b) + if InRangeAsWritten(b, xs[|xs| - 1]) then 1 else 0
  }

  /** The number of values in band `b`, by the intended bands. */
  function CountInBand(xs: seq<real>, b: Band): (n: nat)
    ensures n <= |xs|
  {
    if xs == [] then 0
    else CountInBand(xs[..|xs| - 1], b) + if BandOf(xs[|xs| - 1]) == Some(b) then 1 else 0
  }

  /** The number of values between 0 and 100. */
  function CountInScale(xs: seq<real>): (n: nat)
    ensures n <= |xs|
  {
    if xs == [] then 0
    else CountInScale(xs[..|xs| - 1]) + if 0.0 <= xs[|xs| - 1] <= 100.0 then 1 else 0
  }

  function TotalAsWritten(xs: seq<real>): nat
  {
    CountAsWritten(xs, A) + CountAsWritten(xs, B) + CountAsWritten(xs, C) + CountAsWritten(xs, D) + CountAsWritten(xs, F)
  }

  function Total(xs: seq<real>): nat
  {
    CountInBand(xs, A) + CountInBand(xs, B) + CountInBand(xs, C) + CountInBand(xs, D) + CountInBand(xs, F)
  }

  /** As written, the five counts add up to at most the number of values. */
  lemma {:induction false} TotalAsWrittenBound(xs: seq<real>)
    ensures TotalAsWritten(xs) <= |xs|
  {
    if xs != [] {
      TotalAsWrittenBound(xs[..|xs| - 1]);
      var x := xs[|xs| - 1];
      var _ := BandAsWritten(x);
    }
  }

  /** The intended bands count every value between 0 and 100 exactly once. */
  lemma {:induction false} TotalCountsScale(xs: seq<real>)
    ensures Total(xs) == CountInScale(xs)
  {
    if xs != [] {
      TotalCountsScale(xs[..|xs| - 1]);
      var _ := BandOf(xs[|xs| - 1]);
    }
  }

  /** A single 89.5 is counted once by the intended bands and not at all as written. */
  lemma TotalGapExample()
    ensures TotalAsWritten([89.5]) == 0
    ensures Total([89.5]) == 1
  {
    assert [89.5][..0] == [];
  }

  /** Counting one more value as written adds one to the band whose closed interval holds
      it and leaves every other count. */
  lemma CountsAsWrittenSnoc(xs: seq<real>, x: real)
    ensures forall c: Band :: CountAsWritten(xs + [x], c) == CountAsWritten(xs, c) + if BandAsWritten(x) == Some(c) then 1 else 0
  {
    assert (xs + [x])[..|xs|] == xs;
  }

  /** Counting one more value with the intended bands adds one to its band and leaves
      every other count. */
  lemma CountsInBandSnoc(xs: seq<real>, x: real)
    ensures forall c: Band :: CountInBand(xs + [x], c) == CountInBand(xs, c) + if BandOf(x) == Some(c) then 1 else 0
  {
    assert (xs + [x])[..|xs|] == xs;
  }

  /** Every value is a whole number. */
  predicate WholeNumbers(xs: seq<real>)
  {
    forall i | 0 <= i < |xs| :: xs[i] == xs[i].Floor as real
  }

  /** A value in a written band is in the same intended band, so no band counts more as
      written than intended. */
  lemma {:induction false} CountAsWrittenAtMost(xs: seq<real>, b: Band)
    ensures CountAsWritten(xs, b) <= CountInBand(xs, b)
  {
    if xs != [] {
      CountAsWrittenAtMost(xs[..|xs| - 1], b);
      var _ := BandOf(xs[|xs| - 1]);
    }
  }

  /** On whole-number values every band's written count equals its intended count. */
  lemma {:induction false} CountsAgreeOnWholeNumbers(xs: seq<real>, b: Band)
    requires WholeNumbers(xs)
    ensures CountAsWritten(xs, b) == CountInBand(xs, b)
  {
    if xs != [] {
      CountsAgreeOnWholeNumbers(xs[..|xs| - 1], b);
      AgreeOnWholeNumbers(xs[|xs| - 1].Floor);
    }
  }
}
