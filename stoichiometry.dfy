/**
 * The calculation behind the "calculate" button: the four inputs (loading in wt.%, support
 * mass, active-component molar mass Mx, precursor molar mass Mz) are read, validated in a
 * fixed order, and turned into the precursor mass by five closed-form formulas. The model
 * uses exact reals, so the algebraic identities between the results hold exactly.
 */
module Stoichiometry {
  import opened Wrappers

  /** The four numbers the calculator reads. */
  datatype Inputs = Inputs(loading: real, support: real, mx: real, mz: real)

  /** The five numbers the calculator shows and records. */
  datatype Results = Results(f: real, mxMass: real, totalFinished: real, totalAfter: real, precursorMass: real)

  /** The validation messages, one per check, in the order the checks run. */
  datatype ValidationError =
    | LoadingAtLeast100
    | LoadingNegative
    | SupportNotPositive
    | MxNotPositive
    | MzNotPositive

  /** The input fields, in the order they are read. */
  datatype Field = LoadingField | SupportField | MxField | MzField

  datatype CalcError =
    | NotANumber(field: Field)        // the text of the field is not a number
    | Invalid(reason: ValidationError)  // a number out of range

  datatype Outcome = Computed(inputs: Inputs, results: Results) | Rejected(error: CalcError)

  /**
   * What an input field holds: its placeholder hint, or text the user typed, given here
   * by the result of parsing it as a number (`None` when `float()` would fail).
   */
  datatype Entry = Placeholder | Typed(parsed: Option<real>)

  /** The accepted inputs: a loading in [0, 100) and positive support, Mx and Mz. */
  predicate Valid(x: Inputs) {
    0.0 <= x.loading < 100.0 && x.support > 0.0 && x.mx > 0.0 && x.mz > 0.0
  }

  /** The range checks, run in order; the first that fails is reported. */
  function Validate(x: Inputs): (e: Option<ValidationError>)
    ensures e.None? <==> Valid(x)
    ensures e == Some(LoadingAtLeast100) <==> x.loading >= 100.0
    ensures e == Some(LoadingNegative) <==> x.loading < 0.0
    ensures e == Some(SupportNotPositive) <==> 0.0 <= x.loading < 100.0 && x.support <= 0.0
    ensures e == Some(MxNotPositive) <==> 0.0 <= x.loading < 100.0 && x.support > 0.0 && x.mx <= 0.0
    ensures e == Some(MzNotPositive) <==> 0.0 <= x.loading < 100.0 && x.support > 0.0 && x.mx > 0.0 && x.mz <= 0.0
  {
    if x.loading >= 100.0 then Some(LoadingAtLeast100)
    else if x.loading < 0.0 then Some(LoadingNegative)
    else if x.support <= 0.0 then Some(SupportNotPositive)
    else if x.mx <= 0.0 then Some(MxNotPositive)
    else if x.mz <= 0.0 then Some(MzNotPositive)
    else None
  }

  /**
   * The five formulas with their zero guards, defined for any inputs: f = Mx / Mz (0 when
   * Mz is 0), the finished mass is the support over the support's share (0 at a loading of
   * 100), the active mass is the difference, the precursor mass is the active mass over f
   * (0 when f is 0), and the total after impregnation adds the precursor to the support.
   */
  function Formulas(x: Inputs): (r: Results)
    ensures x.mz != 0.0 ==> r.f * x.mz == x.mx
    ensures x.mz == 0.0 ==> r.f == 0.0
    ensures x.loading != 100.0 ==> r.totalFinished * (1.0 - x.loading / 100.0) == x.support
    ensures x.loading == 100.0 ==> r.totalFinished == 0.0
    ensures r.mxMass + x.support == r.totalFinished
    ensures r.f != 0.0 ==> r.precursorMass * r.f == r.mxMass
    ensures r.f == 0.0 ==> r.precursorMass == 0.0
    ensures r.totalAfter - x.support == r.precursorMass
  {
    var f := if x.mz != 0.0 then x.mx / x.mz else 0.0;
    var totalFinished := if x.loading != 100.0 then x.support / (1.0 - x.loading / 100.0) else 0.0;
    var mxMass := totalFinished - x.support;
    var precursorMass := if f != 0.0 then mxMass / f else 0.0;
    var totalAfter := x.support + precursorMass;
    Results(f, mxMass, totalFinished, totalAfter, precursorMass)
  }

  /** Validation followed by the formulas. */
  function Calculate(x: Inputs): (o: Outcome)
    ensures o.Computed? <==> Valid(x)
    ensures o.Computed? ==> o.inputs == x && o.results == Formulas(x)
    ensures o.Rejected? ==> o.error.Invalid? && Some(o.error.reason) == Validate(x)
  {
    match Validate(x)
    case Some(e) => Rejected(Invalid(e))
    case None => Computed(x, Formulas(x))
  }

  /** A placeholder reads as 0; typed text reads as the number it parses to. */
  function ReadEntry(e: Entry): (r: Option<real>)
    ensures e.Placeholder? ==> r == Some(0.0)
    ensures e.Typed? ==> r == e.parsed
  {
    match e
    case Placeholder => Some(0.0)
    case Typed(p) => p
  }

  /**
   * The whole button handler up to the display: read the four fields in order (the first
   * that is not a number is reported), then validate and compute.
   */
  function CalculateEntries(loading: Entry, support: Entry, mx: Entry, mz: Entry): (o: Outcome)
    ensures o.Rejected? && o.error.NotANumber? <==>
      ReadEntry(loading).None? || ReadEntry(support).None? || ReadEntry(mx).None? || ReadEntry(mz).None?
    ensures o == Rejected(NotANumber(LoadingField)) <==> ReadEntry(loading).None?
    ensures o == Rejected(NotANumber(SupportField)) <==> ReadEntry(loading).Some? && ReadEntry(support).None?
    ensures o == Rejected(NotANumber(MxField)) <==>
      ReadEntry(loading).Some? && ReadEntry(support).Some? && ReadEntry(mx).None?
    ensures o == Rejected(NotANumber(MzField)) <==>
      ReadEntry(loading).Some? && ReadEntry(support).Some? && ReadEntry(mx).Some? && ReadEntry(mz).None?
    ensures ReadEntry(loading).Some? && ReadEntry(support).Some? && ReadEntry(mx).Some? && ReadEntry(mz).Some? ==>
      o == Calculate(Inputs(ReadEntry(loading).value, ReadEntry(support).value, ReadEntry(mx).value, ReadEntry(mz).value))
    ensures o.Computed? ==>
      o.inputs == Inputs(ReadEntry(loading).value, ReadEntry(support).value, ReadEntry(mx).value, ReadEntry(mz).value)
  {
    match (ReadEntry(loading), ReadEntry(support), ReadEntry(mx), ReadEntry(mz))
    case (None, _, _, _) => Rejected(NotANumber(LoadingField))
    case (Some(_), None, _, _) => Rejected(NotANumber(SupportField))
    case (Some(_), Some(_), None, _) => Rejected(NotANumber(MxField))
    case (Some(_), Some(_), Some(_), None) => Rejected(NotANumber(MzField))
    case (Some(l), Some(s), Some(a), Some(p)) => Calculate(Inputs(l, s, a, p))
  }

  /** On accepted inputs no zero guard fires: Mz is not 0, the loading is not 100 and f is positive. */
  lemma GuardsInactive(x: Inputs)
    requires Valid(x)
    ensures x.mz != 0.0 && x.loading != 100.0
    ensures Formulas(x).f == x.mx / x.mz && Formulas(x).f > 0.0
    ensures Formulas(x).totalFinished == x.support / (1.0 - x.loading / 100.0)
  {
  }

  /** The quotient `a / b` times `b` is `a`, for any non-zero `b`. */
  lemma DivMul(a: real, b: real)
    requires b != 0.0
    ensures (a / b) * b == a
  {
  }

  /**
   * On accepted inputs the results are consistent: the finished catalyst is the support
   * plus the active component, whose mass is `loading` percent of the finished mass; the
   * precursor carries exactly that active mass; and the total after impregnation is the
   * support plus the precursor.
   */
  lemma Consistent(x: Inputs)
    requires Valid(x)
    ensures var r := Formulas(x);
      && r.totalAfter - x.support == r.precursorMass
      && r.mxMass == r.totalFinished - x.support
      && r.precursorMass * r.f == r.mxMass
      && r.mxMass == r.totalFinished * x.loading / 100.0
      && r.totalFinished >= x.support
      && r.mxMass >= 0.0 && r.precursorMass >= 0.0
  {
    var r := Formulas(x);
    GuardsInactive(x);
    var q := 1.0 - x.loading / 100.0;
    assert 0.0 < q <= 1.0;
    DivMul(x.support, q);
    assert r.totalFinished * q == x.support;
    assert r.totalFinished * x.loading / 100.0 == r.totalFinished - r.totalFinished * q;
    DivMul(r.mxMass, r.f);
    assert r.totalFinished > 0.0;
    assert r.totalFinished * q <= r.totalFinished * 1.0;
  }

  /** A loading of 0 is accepted and puts nothing on the support. */
  lemma ZeroLoading(x: Inputs)
    requires x.loading == 0.0 && x.support > 0.0 && x.mx > 0.0 && x.mz > 0.0
    ensures Calculate(x).Computed?
    ensures var r := Formulas(x);
      r.totalFinished == x.support && r.mxMass == 0.0 && r.precursorMass == 0.0 && r.totalAfter == x.support
  {
  }

  /** A loading of exactly 100 is rejected instead of producing an infinite or zero mass. */
  lemma FullLoadingRejected(x: Inputs)
    requires x.loading == 100.0
    ensures Calculate(x) == Rejected(Invalid(LoadingAtLeast100))
  {
  }

  /**
   * The worked example: 7 wt.% Ni (Mx = 58.69) from a precursor of Mz = 290.79 on 10 g of
   * support needs about 3.7293 g of precursor.
   */
  lemma NickelExample()
    ensures var r := Formulas(Inputs(7.0, 10.0, 58.69, 290.79));
      && Calculate(Inputs(7.0, 10.0, 58.69, 290.79)).Computed?
      && 0.201829 < r.f < 0.201830
      && 0.752688 < r.mxMass < 0.752689
      && 10.752688 < r.totalFinished < 10.752689
      && 3.72932 < r.precursorMass < 3.72933
      && 13.72932 < r.totalAfter < 13.72933
  {
    var x := Inputs(7.0, 10.0, 58.69, 290.79);
    var r := Formulas(x);
    assert r.totalFinished == 1000.0 / 93.0;
    assert r.mxMass == 70.0 / 93.0;
    assert r.precursorMass == (70.0 * 290.79) / (93.0 * 58.69);
  }

  /** An unfilled support, Mx or Mz field reads as 0 and is always rejected. */
  lemma UnfilledMassRejected(loading: Entry, support: Entry, mx: Entry, mz: Entry)
    requires support == Placeholder || mx == Placeholder || mz == Placeholder
    ensures CalculateEntries(loading, support, mx, mz).Rejected?
  {
  }

  /**
   * An unfilled loading field reads as 0 and is accepted: with valid masses the result is
   * the support alone and no precursor.
   */
  lemma UnfilledLoadingAccepted(support: real, mx: real, mz: real)
    requires support > 0.0 && mx > 0.0 && mz > 0.0
    ensures var o := CalculateEntries(Placeholder, Typed(Some(support)), Typed(Some(mx)), Typed(Some(mz)));
      && o.Computed?
      && o.inputs.loading == 0.0
      && o.results.totalFinished == support
      && o.results.precursorMass == 0.0
  {
  }
}
