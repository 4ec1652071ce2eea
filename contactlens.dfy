/** The contact-lens power calculator: how the Calculate button resolves the
    three text fields, the vertex-distance conversion of each principal
    meridian, and the contact-lens prescription and spherical equivalent the
    screen displays. */
module ContactLens {
  import opened Wrappers
  import opened Rounding
  import opened KotlinText
  import opened Resources
  import opened Functions

  // ---------------------------------------------------------------------------
  // Input resolution

  /** The numbers the Calculate button works with. */
  datatype Inputs = Inputs(sphere: real, cylinder: real, axis: int)

  /** The Calculate button's reading of the fields: a cylinder that does not
      parse is 0, an axis that does not parse is 180, a sphere that does not
      parse is plano when the cylinder is non-zero; None is the
      "invalid spectacle sphere" error. */
  function ResolveInputs(sphereText: string, cylinderText: string, axisText: string): Option<Inputs>
  {
    var cylinder := match ParseDecimal(cylinderText) case Some(c) => c case None => 0.0;
    var axis := match ParseInt(axisText) case Some(a) => a case None => 180;
    match ParseDecimal(sphereText)
    case Some(s) => Some(Inputs(s, cylinder, axis))
    case None => if cylinder != 0.0 then Some(Inputs(0.0, cylinder, axis)) else None
  }

  /** The decision table of the Calculate button, case by case. */
  lemma ResolveInputsCases(sphereText: string, cylinderText: string, axisText: string)
    ensures var r := ResolveInputs(sphereText, cylinderText, axisText);
      && (r.None? <==> ParseDecimal(sphereText).None? &&
                        (ParseDecimal(cylinderText).None? || ParseDecimal(cylinderText) == Some(0.0)))
      && (r.Some? && ParseDecimal(sphereText).Some? ==> r.value.sphere == ParseDecimal(sphereText).value)
      && (r.Some? && ParseDecimal(sphereText).None? ==> r.value.sphere == 0.0 && r.value.cylinder != 0.0)
      && (r.Some? && ParseDecimal(cylinderText).None? ==> r.value.cylinder == 0.0)
      && (r.Some? && ParseDecimal(cylinderText).Some? ==> r.value.cylinder == ParseDecimal(cylinderText).value)
      && (r.Some? && ParseInt(axisText).None? ==> r.value.axis == 180)
      && (r.Some? && ParseInt(axisText).Some? ==> r.value.axis == ParseInt(axisText).value)
  {
  }

  /** A blank sphere with a cylinder is plano; a blank sphere alone is an error. */
  lemma ResolveBlankSphere(cylinderText: string, axisText: string)
    ensures ResolveInputs("", "", axisText) == None
    ensures ParseDecimal(cylinderText).Some? && ParseDecimal(cylinderText).value != 0.0 ==>
      ResolveInputs("", cylinderText, axisText).Some? && ResolveInputs("", cylinderText, axisText).value.sphere == 0.0
  {
  }

  /** What Calculate writes back into the three fields: the sphere "%.2f";
      a zero cylinder clears the cylinder and the axis, otherwise the cylinder
      "%.2f" and the axis as an integer. */
  function FormattedFields(inputs: Inputs): (string, string, string)
  {
    if inputs.cylinder == 0.0 then (FormatDiopter(inputs.sphere, false, false), "", "")
    else (FormatDiopter(inputs.sphere, false, false), FormatDiopter(inputs.cylinder, false, false), IntToString(inputs.axis))
  }

  // ---------------------------------------------------------------------------
  // Display dispatch

  datatype Prescription =
    | Sphere(sphere: real)
    | Spherocylinder(sphere: real, cylinder: real, axis: int)

  /** The prescription the result panel is drawn from: sphere-only when the
      cylinder field is empty; None where `toFloat()` or `toInt()` throws. */
  function DisplayedPrescription(sphereText: string, cylinderText: string, axisText: string): Option<Prescription>
  {
    match ParseDecimal(sphereText)
    case None => None
    case Some(s) =>
      if cylinderText == "" then Some(Sphere(s))
      else
        match (ParseDecimal(cylinderText), ParseInt(axisText))
        case (Some(c), Some(a)) => Some(Spherocylinder(s, c, a))
        case _ => None
  }

  /** The panel shows whatever the fields read as: sphere-only exactly when the
      cylinder field is empty, and otherwise the cylinder with the axis. */
  lemma DisplayOfReadable(sphereText: string, cylinderText: string, axisText: string,
                          sphere: real, cylinder: real, axis: int)
    requires ParseDecimal(sphereText) == Some(sphere)
    requires cylinderText != "" ==> ParseDecimal(cylinderText) == Some(cylinder) && ParseInt(axisText) == Some(axis)
    ensures DisplayedPrescription(sphereText, cylinderText, axisText)
         == if cylinderText == "" then Some(Sphere(sphere)) else Some(Spherocylinder(sphere, cylinder, axis))
  {
  }

  /** After a successful Calculate the panel can be drawn: the fields it wrote
      read back without an exception, as powers of at most two decimals. */
  lemma DisplayAfterCalculate(inputs: Inputs)
    requires IntMin <= inputs.axis <= IntMax
    ensures var (s, c, a) := FormattedFields(inputs);
      && DisplayedPrescription(s, c, a).Some?
      && TwoDecimalPowers(DisplayedPrescription(s, c, a).value)
  {
    PrintedTwoDecimals(inputs.sphere);
    if inputs.cylinder != 0.0 {
      PrintedTwoDecimals(inputs.cylinder);
      AxisParses(inputs.axis);
    }
    var (s, c, a) := FormattedFields(inputs);
    DrawableOfReadable(s, c, a);
  }

  /** Fields that read as two-decimal powers draw a two-decimal prescription. */
  lemma DrawableOfReadable(sphereText: string, cylinderText: string, axisText: string)
    requires ParseDecimal(sphereText).Some? && TwoDecimals(ParseDecimal(sphereText).value)
    requires cylinderText != "" ==>
      && ParseDecimal(cylinderText).Some? && TwoDecimals(ParseDecimal(cylinderText).value)
      && ParseInt(axisText).Some?
    ensures DisplayedPrescription(sphereText, cylinderText, axisText).Some?
    ensures TwoDecimalPowers(DisplayedPrescription(sphereText, cylinderText, axisText).value)
  {
  }

  /** A written power field reads back with at most two decimals. */
  lemma PrintedTwoDecimals(x: real)
    ensures ParseDecimal(FormatDiopter(x, false, false)).Some?
    ensures TwoDecimals(ParseDecimal(FormatDiopter(x, false, false)).value)
  {
    PrintedValue(x);
    HundredthsHaveTwoDecimals(Hundredths(x));
  }

  lemma PrintedValue(x: real)
    ensures ParseDecimal(FormatDiopter(x, false, false)).Some?
    ensures ParseDecimal(FormatDiopter(x, false, false)).value == Hundredths(x) as real / 100.0
  {
    PrintedReadBack(x);
  }

  lemma HundredthsHaveTwoDecimals(h: int)
    ensures TwoDecimals(h as real / 100.0)
  {
    assert 100.0 * (h as real / 100.0) == h as real;
  }

  lemma AxisParses(axis: int)
    requires IntMin <= axis <= IntMax
    ensures ParseInt(IntToString(axis)).Some?
  {
    IntToStringRoundTrip(axis);
  }

  /** "%.2f" of a power reads back as its printed value. */
  lemma PrintedReadBack(x: real)
    ensures ParseDecimal(FormatDiopter(x, false, false)) == Some(Hundredths(x) as real / 100.0)
  {
    UnsignedFormat(x, false, false);
    FixedTwoRoundTrip(x);
  }

  /** A written cylinder field is never empty, so the panel draws it as a
      spherocylinder. */
  lemma PrintedNotEmpty(x: real)
    ensures FormatDiopter(x, false, false) != ""
  {
    UnsignedFormat(x, false, false);
    FixedTwoShape(x);
  }

  // ---------------------------------------------------------------------------
  // The calculator screen's state

  /** The axis field only ever holds "" or a validated axis. */
  predicate AxisFieldOk(axisText: string)
  {
    axisText == "" || (ParseInt(axisText).Some? && 1 <= ParseInt(axisText).value <= 180)
  }

  /** A non-empty validated axis reads back as its value. */
  lemma ValidatedAxisParses(text: string)
    requires GetValidatedAxis(text).Some?
    ensures AxisFieldOk(GetValidatedAxis(text).value)
  {
    ValidatedNumberCanonical(text, 1, 180);
    var r := GetValidatedAxis(text).value;
    if r != "" {
      assert !(r[0] == '-' || r[0] == '+');
    }
  }

  class ContactLensCalculator {
    var spectacleSphere: string
    var spectacleCylinder: string
    var spectacleAxis: string
    var showCalculation: bool
    var errorMessage: Option<string>

    /** The axis field holds a validated axis, and whenever the result panel is
        shown, drawing it reads the fields without an exception and finds powers
        of at most two decimals, which keep the vertex formula defined. */
    predicate Valid()
      reads this
    {
      && AxisFieldOk(spectacleAxis)
      && (showCalculation ==>
            var p := DisplayedPrescription(spectacleSphere, spectacleCylinder, spectacleAxis);
            p.Some? && TwoDecimalPowers(p.value))
    }

    /** What the result panel draws from the fields: the sphere-only card
        exactly when the cylinder field is empty, with the sphere field's power
        as its spectacle line, and the resolved axis on the spherocylinder card. */
    function Shown(): (r: Panel)
      reads this
      requires Valid() && showCalculation
      ensures r.SpherePanel? <==> spectacleCylinder == ""
      ensures r.SpherePanel? ==> ParseDecimal(spectacleSphere).Some? && r.spectacleSphere == ParseDecimal(spectacleSphere).value
      ensures r.SpherocylinderPanel? ==> r.rx.axis == ParseInt(spectacleAxis).value
      ensures r == PanelFor(DisplayedPrescription(spectacleSphere, spectacleCylinder, spectacleAxis).value)
    {
      PanelFor(DisplayedPrescription(spectacleSphere, spectacleCylinder, spectacleAxis).value)
    }

    constructor()
      ensures Valid()
      ensures spectacleSphere == "" && spectacleCylinder == "" && spectacleAxis == ""
      ensures !showCalculation && errorMessage == None
    {
      spectacleSphere, spectacleCylinder, spectacleAxis := "", "", "";
      showCalculation, errorMessage := false, None;
    }

    /** Typing in the sphere field: sanitise, hide the result. */
    method EditSphere(text: string)
      modifies this
      requires Valid()
      ensures Valid()
      ensures spectacleSphere == GetValidatedPower(text) && !showCalculation
      ensures spectacleCylinder == old(spectacleCylinder) && spectacleAxis == old(spectacleAxis)
      ensures errorMessage == old(errorMessage)
    {
      spectacleSphere := GetValidatedPower(text);
      showCalculation := false;
    }

    /** Typing in the cylinder field: sanitise, hide the result. */
    method EditCylinder(text: string)
      modifies this
      requires Valid()
      ensures Valid()
      ensures spectacleCylinder == GetValidatedPower(text) && !showCalculation
      ensures spectacleSphere == old(spectacleSphere) && spectacleAxis == old(spectacleAxis)
      ensures errorMessage == old(errorMessage)
    {
      spectacleCylinder := GetValidatedPower(text);
      showCalculation := false;
    }

    /** Typing in the axis field: sanitise, hide the result. `crashed` reports
        the `toInt()` exception on a digit string beyond 32 bits, after which
        nothing is updated. */
    method EditAxis(text: string) returns (crashed: bool)
      modifies this
      requires Valid()
      ensures Valid()
      ensures crashed <==> GetValidatedAxis(text).None?
      ensures !crashed ==> spectacleAxis == GetValidatedAxis(text).value && !showCalculation
      ensures crashed ==> spectacleAxis == old(spectacleAxis) && showCalculation == old(showCalculation)
      ensures spectacleSphere == old(spectacleSphere) && spectacleCylinder == old(spectacleCylinder)
      ensures errorMessage == old(errorMessage)
    {
      var validated := GetValidatedAxis(text);
      if validated.None? {
        return true;
      }
      ValidatedAxisParses(text);
      spectacleAxis := validated.value;
      showCalculation := false;
      return false;
    }

    /** The Calculate button. */
    method Calculate(getString: StringRes -> string)
      modifies this
      requires Valid()
      ensures Valid()
      ensures match ResolveInputs(old(spectacleSphere), old(spectacleCylinder), old(spectacleAxis))
        case None =>
          && errorMessage == Some(getString(InvalidSpectacleSphere))
          && spectacleSphere == old(spectacleSphere) && spectacleCylinder == old(spectacleCylinder)
          && spectacleAxis == old(spectacleAxis) && showCalculation == old(showCalculation)
        case Some(inputs) =>
          && (spectacleSphere, spectacleCylinder, spectacleAxis) == FormattedFields(inputs)
          && showCalculation && errorMessage == old(errorMessage)
          && 1 <= inputs.axis <= 180
    {
      var sphereValue := ParseDecimal(spectacleSphere);
      var cylinderValue := match ParseDecimal(spectacleCylinder) case Some(c) => c case None => 0.0;
      var axisValue := match ParseInt(spectacleAxis) case Some(a) => a case None => 180;

      if cylinderValue != 0.0 && sphereValue.None? {
        sphereValue := Some(0.0);
      }
      if sphereValue.None? {
        errorMessage := Some(getString(InvalidSpectacleSphere));
        return;
      }

      ghost var inputs := Inputs(sphereValue.value, cylinderValue, axisValue);
      assert ResolveInputs(spectacleSphere, spectacleCylinder, spectacleAxis) == Some(inputs);
      spectacleSphere := FormatDiopter(sphereValue.value, false, false);
      if cylinderValue == 0.0 {
        spectacleCylinder := "";
        spectacleAxis := "";
      } else {
        spectacleCylinder := FormatDiopter(cylinderValue, false, false);
        spectacleAxis := IntToString(axisValue);
        IntToStringRoundTrip(axisValue);
      }
      showCalculation := true;
      DisplayAfterCalculate(inputs);
    }

    /** Dismissing the error dialog. */
    method DismissError()
      modifies this
      requires Valid()
      ensures Valid()
      ensures errorMessage == None
      ensures spectacleSphere == old(spectacleSphere) && spectacleCylinder == old(spectacleCylinder)
      ensures spectacleAxis == old(spectacleAxis) && showCalculation == old(showCalculation)
    {
      errorMessage := None;
    }
  }

  // ---------------------------------------------------------------------------
  // Effective power at the cornea

  /** The vertex formula is defined unless `1 - round5(0.012 M)` is zero. */
  predicate VertexDefined(m: real)
  {
    Round5(0.012 * m) != 1.0
  }

  /** A power with at most two decimals, as "%.2f" writes it. */
  predicate TwoDecimals(m: real)
  {
    (100.0 * m).Floor as real == 100.0 * m
  }

  predicate TwoDecimalPowers(p: Prescription)
  {
    match p
    case Sphere(sphere) => TwoDecimals(sphere)
    case Spherocylinder(sphere, cylinder, _) => TwoDecimals(sphere) && TwoDecimals(cylinder)
  }

  lemma TwoDecimalsSum(a: real, b: real)
    requires TwoDecimals(a) && TwoDecimals(b)
    ensures TwoDecimals(a + b)
  {
    var m, n := (100.0 * a).Floor, (100.0 * b).Floor;
    assert 100.0 * (a + b) == (m + n) as real;
  }

  /** The pole of the vertex formula, 0.012 M = 1, is M = 83.333...; a power
      with at most two decimals never reaches it, because 0.012 M then has at
      most five decimals and is left as it is by the five-decimal rounding. */
  lemma VertexDefinedOfTwoDecimals(m: real)
    requires TwoDecimals(m)
    ensures VertexDefined(m)
  {
    var n := (100.0 * m).Floor;
    var y := 0.012 * m;
    assert 100000.0 * y == (12 * n) as real;
    Round5Exact(y);
  }

  /** `(M / (1 - (0.012 * M).formatDecimal().toFloat())).formatDecimal()`:
      the power M moved 12 mm to the cornea, with both five-decimal roundings. */
  function VertexPower(m: real): real
    requires VertexDefined(m)
  {
    Round5(m / (1.0 - Round5(0.012 * m)))
  }

  lemma VertexPowerZero()
    ensures VertexPower(0.0) == 0.0
  {
    Round5Zero();
  }

  /** A minus (or plano) meridian loses power at the cornea, but keeps its sign:
      the result lies between M (to five decimals) and 0. */
  lemma VertexPowerMinus(m: real)
    requires m <= 0.0
    ensures VertexDefined(m)
    ensures Round5(m) <= VertexPower(m) <= 0.0
  {
    Round5NonPositive(0.012 * m);
    var d := 1.0 - Round5(0.012 * m);
    assert d >= 1.0;
    var f := m / d;
    assert f * d == m;
    assert f <= 0.0;
    assert m - f == f * (d - 1.0);
    NonPositiveProduct(f, d - 1.0);
    Round5Monotone(m, f);
    Round5NonPositive(f);
  }

  /** A plus meridian below the pole of the formula gains power at the cornea. */
  lemma VertexPowerPlus(m: real)
    requires m > 0.0 && Round5(0.012 * m) < 1.0
    ensures VertexDefined(m)
    ensures VertexPower(m) >= Round5(m)
  {
    Round5Monotone(0.0, 0.012 * m);
    Round5Zero();
    var d := 1.0 - Round5(0.012 * m);
    assert 0.0 < d <= 1.0;
    var f := m / d;
    assert f * d == m;
    assert f > 0.0;
    assert f - m == f * (1.0 - d);
    NonNegativeProduct(f, 1.0 - d);
    Round5Monotone(m, f);
  }

  lemma NonPositiveProduct(a: real, b: real)
    requires a <= 0.0 && b >= 0.0
    ensures a * b <= 0.0
  {
  }

  lemma NonNegativeProduct(a: real, b: real)
    requires a >= 0.0 && b >= 0.0
    ensures a * b >= 0.0
  {
  }

  // ---------------------------------------------------------------------------
  // Optical cross

  /** The two principal meridians: the axis carries the sphere, the meridian
      90 degrees away carries sphere + cylinder. */
  datatype OpticalCross = OpticalCross(sphereMeridian: int, sphereMeridianPower: real,
                                       cylinderMeridian: int, cylinderMeridianPower: real)

  function CylinderMeridian(axis: int): int
  {
    if axis < 90 then axis + 90 else axis - 90
  }

  function Cross(p: Prescription): OpticalCross
    requires p.Spherocylinder?
  {
    OpticalCross(p.axis, p.sphere, CylinderMeridian(p.axis), p.sphere + p.cylinder)
  }

  /** The meridians are 90 degrees apart and, for a validated axis, within
      [0, 179]; axis 90 gives meridian 0; away from 180 the map is its own inverse. */
  lemma CylinderMeridianSpec(axis: int)
    ensures CylinderMeridian(axis) - axis == 90 || axis - CylinderMeridian(axis) == 90
    ensures 1 <= axis <= 180 ==> 0 <= CylinderMeridian(axis) <= 179
    ensures axis == 90 ==> CylinderMeridian(axis) == 0
    ensures 0 <= axis < 180 ==> CylinderMeridian(CylinderMeridian(axis)) == axis
  {
  }

  /** The cylinder meridian carries exactly the cylinder more than the sphere meridian. */
  lemma CrossSpec(p: Prescription)
    requires p.Spherocylinder?
    ensures var x := Cross(p);
      && x.cylinderMeridianPower - x.sphereMeridianPower == p.cylinder
      && x.sphereMeridian == p.axis
      && (x.cylinderMeridian - x.sphereMeridian == 90 || x.sphereMeridian - x.cylinderMeridian == 90)
  {
    CylinderMeridianSpec(p.axis);
  }

  // ---------------------------------------------------------------------------
  // Contact-lens prescription

  // Every intermediate value of the panels goes through
  // `x.formatDiopter(round = true, withSign = true).toFloat()`, which reads back
  // as RoundQuarter(x) (Functions.FormatDiopterReadBack); the formulas below
  // write that step as RoundQuarter.

  datatype ClPrescription = ClPrescription(sphere: real, cylinder: real, axis: int)

  /** The result panel: the sphere-only card with the spectacle sphere (the
      power after `formatDecimal`) and the contact-lens sphere, each drawn by
      `formatDiopter(round = true, withSign = true)`; or the optical cross with
      the contact-lens prescription. */
  datatype Panel =
    | SpherePanel(spectacleSphere: real, clSphere: real)
    | SpherocylinderPanel(cross: OpticalCross, rx: ClPrescription)

  /** The sphere-only panel: the effective power, rounded to a quarter. */
  function ClSphere(sphere: real): real
    requires VertexDefined(sphere)
  {
    RoundQuarter(VertexPower(sphere))
  }

  /** The contact-lens sphere is on the quarter grid; for a minus lens it is
      never stronger than the spectacle sphere (rounded the same way) and never
      turns plus. */
  lemma ClSphereSpec(m: real)
    requires VertexDefined(m)
    ensures IsQuarterMultiple(ClSphere(m))
    ensures m <= 0.0 ==> RoundQuarter(Round5(m)) <= ClSphere(m) <= 0.0
  {
    RoundQuarterBounds(VertexPower(m));
    if m <= 0.0 {
      VertexPowerMinus(m);
      RoundQuarterMonotone(Round5(m), VertexPower(m));
      RoundQuarterMonotone(VertexPower(m), 0.0);
      assert RoundQuarter(0.0) == 0.0;
    }
  }

  /** A -4.00 D spectacle sphere is -3.81679 D at the cornea, fitted as -3.75 D. */
  lemma ClSphereMinusFour()
    ensures VertexDefined(-4.0)
    ensures VertexPower(-4.0) == -3.81679
    ensures ClSphere(-4.0) == -3.75
  {
    var d := 1.0 - Round5(0.012 * -4.0);
    Round5Exact(0.012 * -4.0);
    assert d == 1.048;
    var f := -4.0 / d;
    var y := f * 100000.0;
    assert -381680.0 < y < -381679.0;
    assert y.Floor == -381680;
    assert y - (-381680) as real > 0.5;
    assert VertexPower(-4.0) == -3.81679;
    assert 4.0 * -3.81679 + 0.5 == -14.76716;
    assert (-14.76716).Floor == -15;
  }

  /** The spherocylinder panel: the sphere meridian rounded to a quarter, the
      cylinder as the rounded difference to the rounded cylinder meridian, and
      the spectacle axis. */
  function ContactLensRx(p: Prescription): ClPrescription
    requires p.Spherocylinder?
    requires VertexDefined(p.sphere) && VertexDefined(p.sphere + p.cylinder)
  {
    var sphere := RoundQuarter(VertexPower(p.sphere));
    var cylinderMeridian := RoundQuarter(VertexPower(p.sphere + p.cylinder));
    ClPrescription(sphere, RoundQuarter(cylinderMeridian - sphere), p.axis)
  }

  /** Both powers are on the quarter grid, sphere + cylinder is the rounded
      power of the cylinder meridian at the cornea, the axis is the spectacle
      axis, and a zero spectacle cylinder gives a zero contact-lens cylinder. */
  lemma ContactLensRxSpec(p: Prescription)
    requires p.Spherocylinder?
    requires VertexDefined(p.sphere) && VertexDefined(p.sphere + p.cylinder)
    ensures var rx := ContactLensRx(p);
      && IsQuarterMultiple(rx.sphere) && IsQuarterMultiple(rx.cylinder)
      && rx.sphere == RoundQuarter(VertexPower(p.sphere))
      && rx.sphere + rx.cylinder == RoundQuarter(VertexPower(p.sphere + p.cylinder))
      && rx.axis == p.axis
      && (p.cylinder == 0.0 ==> rx.cylinder == 0.0)
  {
    var v1, v2 := VertexPower(p.sphere), VertexPower(p.sphere + p.cylinder);
    var rx := ContactLensRx(p);
    assert rx.cylinder == RoundQuarter(RoundQuarter(v2) - RoundQuarter(v1));
    QuarterCylinder(v1, v2);
  }

  /** The difference of two rounded powers needs no further rounding. */
  lemma QuarterCylinder(v1: real, v2: real)
    ensures var q1, q2 := RoundQuarter(v1), RoundQuarter(v2);
      && IsQuarterMultiple(q1) && IsQuarterMultiple(RoundQuarter(q2 - q1))
      && q1 + RoundQuarter(q2 - q1) == q2
      && (v1 == v2 ==> RoundQuarter(q2 - q1) == 0.0)
  {
    var q1, q2 := RoundQuarter(v1), RoundQuarter(v2);
    RoundQuarterBounds(v1);
    RoundQuarterBounds(v2);
    QuarterDifference(q2, q1);
    RoundQuarterOfQuarter(q2 - q1);
  }

  /** The panel drawn for a prescription: the contact-lens sphere for a
      sphere-only one, otherwise the optical cross and the contact-lens
      prescription; every rounded power is on the quarter grid. */
  function PanelFor(p: Prescription): (r: Panel)
    requires TwoDecimalPowers(p)
    ensures r.SpherePanel? <==> p.Sphere?
    ensures r.SpherePanel? ==>
      && r.spectacleSphere == p.sphere && IsQuarterMultiple(r.clSphere)
      && VertexDefined(p.sphere) && r.clSphere == RoundQuarter(VertexPower(p.sphere))
    ensures r.SpherocylinderPanel? ==>
      && IsQuarterMultiple(r.rx.sphere) && IsQuarterMultiple(r.rx.cylinder)
      && r.rx.axis == r.cross.sphereMeridian == p.axis
      && r.cross.sphereMeridianPower == p.sphere
      && r.cross.cylinderMeridianPower - r.cross.sphereMeridianPower == p.cylinder
      && VertexDefined(p.sphere + p.cylinder)
      && r.rx.sphere + r.rx.cylinder == RoundQuarter(VertexPower(p.sphere + p.cylinder))
  {
    if p.Sphere? then SphereCard(p.sphere) else SpherocylinderCard(p)
  }

  /** `formatDecimal` leaves a two-decimal power unchanged. */
  lemma Round5OfTwoDecimals(m: real)
    requires TwoDecimals(m)
    ensures Round5(m) == m
  {
    var n := (100.0 * m).Floor;
    assert 100.0 * m == n as real;
    assert 100000.0 * m == 1000.0 * (100.0 * m);
    assert 100000.0 * m == (1000 * n) as real;
    assert (100000.0 * m).Floor == 1000 * n;
    Round5Exact(m);
  }

  function SphereCard(sphere: real): (r: Panel)
    requires TwoDecimals(sphere)
    ensures r.SpherePanel? && r.spectacleSphere == sphere && IsQuarterMultiple(r.clSphere)
    ensures VertexDefined(sphere) && r.clSphere == RoundQuarter(VertexPower(sphere))
  {
    VertexDefinedOfTwoDecimals(sphere);
    ClSphereSpec(sphere);
    Round5OfTwoDecimals(sphere);
    SpherePanel(Round5(sphere), ClSphere(sphere))
  }

  function SpherocylinderCard(p: Prescription): (r: Panel)
    requires p.Spherocylinder? && TwoDecimals(p.sphere) && TwoDecimals(p.cylinder)
    ensures r.SpherocylinderPanel?
    ensures IsQuarterMultiple(r.rx.sphere) && IsQuarterMultiple(r.rx.cylinder)
    ensures r.rx.axis == r.cross.sphereMeridian == p.axis
    ensures r.cross.sphereMeridianPower == p.sphere
    ensures r.cross.cylinderMeridianPower - r.cross.sphereMeridianPower == p.cylinder
    ensures VertexDefined(p.sphere + p.cylinder)
    ensures r.rx.sphere + r.rx.cylinder == RoundQuarter(VertexPower(p.sphere + p.cylinder))
  {
    TwoDecimalsSum(p.sphere, p.cylinder);
    VertexDefinedOfTwoDecimals(p.sphere);
    VertexDefinedOfTwoDecimals(p.sphere + p.cylinder);
    ContactLensRxSpec(p);
    CrossSpec(p);
    SpherocylinderPanel(Cross(p), ContactLensRx(p))
  }

  /** `(sphere + cylinder / 2)` rounded to a quarter, as the "SE" panel shows it. */
  function SphericalEquivalent(rx: ClPrescription): real
  {
    RoundQuarter(rx.sphere + rx.cylinder / 2.0)
  }

  /** For a quarter-grid prescription the spherical equivalent is on the grid,
      within an eighth of sphere + cylinder / 2, and between the two meridian
      powers sphere and sphere + cylinder. */
  lemma SphericalEquivalentSpec(rx: ClPrescription)
    requires IsQuarterMultiple(rx.sphere) && IsQuarterMultiple(rx.cylinder)
    ensures var se, a, b := SphericalEquivalent(rx), rx.sphere, rx.sphere + rx.cylinder;
      && IsQuarterMultiple(se)
      && Abs(se - (a + rx.cylinder / 2.0)) <= 0.125
      && (if a <= b then a <= se <= b else b <= se <= a)
  {
    var a, b := rx.sphere, rx.sphere + rx.cylinder;
    var mid := a + rx.cylinder / 2.0;
    RoundQuarterBounds(mid);
    QuarterDifference(a, rx.cylinder);
    if a <= b {
      RoundQuarterMonotone(a, mid);
      RoundQuarterMonotone(mid, b);
    } else {
      RoundQuarterMonotone(b, mid);
      RoundQuarterMonotone(mid, a);
    }
    RoundQuarterOfQuarter(a);
    RoundQuarterOfQuarter(b);
  }

  /** A tie between two quarters goes to the less minus one: -1.00 / -0.25 x 180
      has the spherical equivalent -1.00, not -1.25. */
  lemma SphericalEquivalentTie()
    ensures SphericalEquivalent(ClPrescription(-1.0, -0.25, 180)) == -1.0
  {
    RoundQuarterTieGoesUp(-5);
  }
}
