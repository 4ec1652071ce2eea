/** The accommodation calculator: Hofstetter's expected amplitudes for an age,
    the near-point power for a distance, and the amplitude of accommodation
    (AOA) from the lens that first blurs the target and the distance correction,
    with its category-dependent rejection rules. */
module Accommodation {
  import opened Wrappers
  import opened Rounding
  import opened KotlinText
  import opened Resources
  import opened Functions

  // ---------------------------------------------------------------------------
  // Hofstetter amplitudes

  datatype Amplitudes = Amplitudes(minimum: real, average: real, maximum: real)

  /** `(c - (k * age).formatDecimal().toFloat()).formatDecimal()`. */
  function HofstetterTerm(c: real, k: real, age: int): real
  {
    Round5(c - Round5(k * age as real))
  }

  /** The three panels: 15 - 0.25 age, 18.5 - 0.3 age and 25 - 0.4 age. */
  function Hofstetter(age: int): Amplitudes
  {
    Amplitudes(HofstetterTerm(15.0, 0.25, age), HofstetterTerm(18.5, 0.3, age), HofstetterTerm(25.0, 0.4, age))
  }

  /** Scaling a product by 10^5 scales its first factor. */
  lemma ScaledProduct(k: real, age: int, kk: int)
    requires 100000.0 * k == kk as real
    ensures 100000.0 * (k * age as real) == (kk * age) as real
  {
    assert 100000.0 * (k * age as real) == (100000.0 * k) * age as real;
  }

  /** For a whole age both five-decimal roundings are exact. */
  lemma HofstetterTermExact(c: real, k: real, age: int, ck: int, kk: int)
    requires 100000.0 * c == ck as real && 100000.0 * k == kk as real
    ensures HofstetterTerm(c, k, age) == c - k * age as real
  {
    var x := k * age as real;
    ScaledProduct(k, age, kk);
    var n := kk * age;
    assert (100000.0 * x).Floor == n;
    Round5Exact(x);
    var y := c - x;
    assert 100000.0 * y == (ck - n) as real;
    assert (100000.0 * y).Floor == ck - n;
    Round5Exact(y);
  }

  /** Hofstetter's formulas, exactly. */
  lemma HofstetterExact(age: int)
    ensures Hofstetter(age) == Amplitudes(15.0 - 0.25 * age as real, 18.5 - 0.3 * age as real, 25.0 - 0.4 * age as real)
  {
    HofstetterTermExact(15.0, 0.25, age, 1500000, 25000);
    HofstetterTermExact(18.5, 0.3, age, 1850000, 30000);
    HofstetterTermExact(25.0, 0.4, age, 2500000, 40000);
  }

  lemma HofstetterAtForty()
    ensures Hofstetter(40) == Amplitudes(5.0, 6.5, 9.0)
  {
    HofstetterExact(40);
  }

  /** Every amplitude falls strictly with age. */
  lemma HofstetterDecreasing(younger: int, older: int)
    requires younger < older
    ensures Hofstetter(older).minimum < Hofstetter(younger).minimum
    ensures Hofstetter(older).average < Hofstetter(younger).average
    ensures Hofstetter(older).maximum < Hofstetter(younger).maximum
  {
    HofstetterExact(younger);
    HofstetterExact(older);
  }

  /** The three lines cross: minimum <= average only up to 70, average <= maximum
      only up to 65, so past those ages the panels are out of order. */
  lemma HofstetterOrder(age: int)
    ensures Hofstetter(age).minimum <= Hofstetter(age).average <==> age <= 70
    ensures Hofstetter(age).average <= Hofstetter(age).maximum <==> age <= 65
  {
    HofstetterExact(age);
  }

  /** `age.isNotBlank() && age.toIntOrNull() != null`. */
  predicate ShowHofstetter(age: string)
  {
    !IsBlank(age) && ParseInt(age).Some?
  }

  /** The blank test adds nothing: the panel shows exactly when the age reads as an Int. */
  lemma ShowHofstetterIffParses(age: string)
    ensures ShowHofstetter(age) <==> ParseInt(age).Some?
  {
    if ParseInt(age).Some? {
      ParsedIntNotBlank(age);
    }
  }

  /** The age field and the Hofstetter panel below it. The field's sanitiser
      (`getValidatedInteger`) is not part of this model: the method takes its output. */
  class HofstetterPanel {
    var age: string
    var showHofstetter: bool

    /** Drawing the panel (`age.toInt()`) never throws. */
    predicate Valid()
      reads this
    {
      showHofstetter ==> ParseInt(age).Some?
    }

    constructor()
      ensures Valid() && age == "" && !showHofstetter
    {
      age, showHofstetter := "", false;
    }

    method EditAge(validated: string)
      modifies this
      ensures Valid()
      ensures age == validated
      ensures showHofstetter <==> ParseInt(validated).Some?
    {
      age := validated;
      showHofstetter := !IsBlank(age) && ParseInt(age).Some?;
      ShowHofstetterIffParses(age);
    }

    /** The amplitudes the panel shows. */
    function Shown(): (r: Amplitudes)
      reads this
      requires Valid() && showHofstetter
      ensures var a := ParseInt(age).value as real;
        r == Amplitudes(15.0 - 0.25 * a, 18.5 - 0.3 * a, 25.0 - 0.4 * a)
    {
      HofstetterExact(ParseInt(age).value);
      Hofstetter(ParseInt(age).value)
    }
  }

  // ---------------------------------------------------------------------------
  // Near point of accommodation

  datatype DistanceUnit = Inch | Centimeter | Millimeter

  /** The numerator of `P = k / d` for each unit. */
  function UnitConstant(unit: DistanceUnit): real
  {
    match unit
    case Inch => 40.0
    case Centimeter => 100.0
    case Millimeter => 1000.0
  }

  /** `(k / distance.toFloat()).formatDecimal()`; None where the division by a
      zero distance makes the panel print infinity. */
  function NearPointPower(unit: DistanceUnit, distance: real): Option<real>
  {
    if distance == 0.0 then None else Some(Round5(UnitConstant(unit) / distance))
  }

  /** The power is the unit's constant over the distance, to five decimals:
      P * d is the constant up to that rounding; the centimetre and millimetre
      panels agree on the same distance. */
  lemma NearPointPowerSpec(unit: DistanceUnit, distance: real)
    requires distance != 0.0
    ensures NearPointPower(unit, distance).Some?
    ensures var p, exact := NearPointPower(unit, distance).value, UnitConstant(unit) / distance;
      exact * distance == UnitConstant(unit) && Abs(p - exact) <= 0.000005
    ensures NearPointPower(Centimeter, distance) == NearPointPower(Millimeter, 10.0 * distance)
  {
    Round5Close(UnitConstant(unit) / distance);
    assert 1000.0 / (10.0 * distance) == 100.0 / distance;
  }

  /** A farther near point needs less power. */
  lemma NearPointPowerDecreasing(unit: DistanceUnit, near: real, far: real)
    requires 0.0 < near <= far
    ensures NearPointPower(unit, far).value <= NearPointPower(unit, near).value
  {
    var k := UnitConstant(unit);
    QuotientAntitone(k, near, far);
    Round5Monotone(k / far, k / near);
  }

  lemma QuotientAntitone(k: real, near: real, far: real)
    requires k > 0.0 && 0.0 < near <= far
    ensures k / far <= k / near
  {
    var a, b := k / near, k / far;
    assert a * near == k && b * far == k;
    assert a > 0.0;
    assert a * near <= a * far by { ScaleLe(a, near, far); }
    if b > a {
      ScaleLt(far, a, b);
    }
  }

  lemma ScaleLe(a: real, x: real, y: real)
    requires a >= 0.0 && x <= y
    ensures a * x <= a * y
  {
  }

  lemma ScaleLt(a: real, x: real, y: real)
    requires a > 0.0 && x < y
    ensures a * x < a * y
  {
  }

  /** The near-point tab. The distance sanitiser (`getValidatedDecimal`) is not
      part of this model: the method takes its output. */
  class NearPointPanel {
    var distance: string
    var showNpaSolution: bool
    var unit: DistanceUnit

    /** Drawing the solution (`distance.toFloat()`) never throws. */
    predicate Valid()
      reads this
    {
      showNpaSolution ==> ParseDecimal(distance).Some?
    }

    constructor()
      ensures Valid() && distance == "" && !showNpaSolution && unit == Inch
    {
      distance, showNpaSolution, unit := "", false, Inch;
    }

    method EditDistance(validated: string)
      modifies this
      ensures Valid()
      ensures distance == validated && unit == old(unit)
      ensures showNpaSolution <==> ParseDecimal(validated).Some?
    {
      distance := validated;
      showNpaSolution := !IsBlank(distance) && ParseDecimal(distance).Some?;
      if ParseDecimal(distance).Some? {
        ParsedDecimalNotBlank(distance);
      }
    }

    method SelectUnit(u: DistanceUnit)
      modifies this
      requires Valid()
      ensures Valid()
      ensures unit == u && distance == old(distance) && showNpaSolution == old(showNpaSolution)
    {
      unit := u;
    }

    /** The power the solution shows for the current distance and unit: None
        where a zero distance makes it infinite, otherwise within 0.000005 of
        the unit's constant over the distance. */
    function Shown(): (r: Option<real>)
      reads this
      requires Valid() && showNpaSolution
      ensures var d := ParseDecimal(distance).value;
        && (r.None? <==> d == 0.0)
        && (r.Some? ==> Abs(r.value - UnitConstant(unit) / d) <= 0.000005)
        && r == NearPointPower(unit, d)
    {
      var d := ParseDecimal(distance).value;
      if d == 0.0 then None
      else
        NearPointPowerSpec(unit, d);
        NearPointPower(unit, d)
    }
  }

  /** A text `toFloatOrNull()` reads is never blank. */
  lemma ParsedDecimalNotBlank(s: string)
    requires ParseDecimal(s).Some?
    ensures !IsBlank(s)
  {
    if IsBlank(s) {
      forall i | 0 <= i < |s|
        ensures !IsDigit(s[i])
      {
        assert IsWhitespace(s[i]);
      }
      ParseDecimalNeedsDigit(s);
    }
  }

  // ---------------------------------------------------------------------------
  // Amplitude of accommodation

  datatype Category = NonPresbyope | Presbyope

  datatype AoaError = InvalidPower | PlusForNonPresbyope | MinusForPresbyope

  function ErrorText(e: AoaError): StringRes
  {
    match e
    case InvalidPower => InvalidAoaPower
    case PlusForNonPresbyope => NonPresbyopeButPlus
    case MinusForPresbyope => PresbyopeButMinus
  }

  /** The category rule: a non-presbyope blurs with more minus than the
      distance correction, a presbyope with more plus. */
  predicate Accepted(category: Category, lensToBlur: real, distanceCorrection: real)
  {
    match category
    case NonPresbyope => lensToBlur <= distanceCorrection
    case Presbyope => lensToBlur >= distanceCorrection
  }

  /** The checks of the Calculate button, in order: both powers must parse, then
      the category rule must hold. */
  function CheckAoa(category: Category, lensToBlurText: string, distanceCorrectionText: string): Result<(real, real), AoaError>
  {
    match (ParseDecimal(lensToBlurText), ParseDecimal(distanceCorrectionText))
    case (Some(l), Some(d)) =>
      if category == NonPresbyope && l > d then Failure(PlusForNonPresbyope)
      else if category == Presbyope && l < d then Failure(MinusForPresbyope)
      else Success((l, d))
    case _ => Failure(InvalidPower)
  }

  /** Accepted exactly when both texts parse and the category rule holds, and
      then with the parsed powers; each rejection names the rule that failed. */
  lemma CheckAoaSpec(category: Category, lensToBlurText: string, distanceCorrectionText: string)
    ensures var r, l, d := CheckAoa(category, lensToBlurText, distanceCorrectionText),
                           ParseDecimal(lensToBlurText), ParseDecimal(distanceCorrectionText);
      && (r.Success? <==> l.Some? && d.Some? && Accepted(category, l.value, d.value))
      && (r.Success? ==> r.value == (l.value, d.value))
      && (r == Failure(InvalidPower) <==> l.None? || d.None?)
      && (r == Failure(PlusForNonPresbyope) <==> l.Some? && d.Some? && category == NonPresbyope && l.value > d.value)
      && (r == Failure(MinusForPresbyope) <==> l.Some? && d.Some? && category == Presbyope && l.value < d.value)
  {
  }

  /** `abs(LTB - DC - 2.50)` for a non-presbyope (TMA minus the 40 cm working
      distance), `abs(LTB - DC + 2.50)` for a presbyope (TPA plus it). */
  function Aoa(category: Category, lensToBlur: real, distanceCorrection: real): real
  {
    match category
    case NonPresbyope => Abs(lensToBlur - distanceCorrection - 2.5)
    case Presbyope => Abs(lensToBlur - distanceCorrection + 2.5)
  }

  /** For every accepted pair the absolute value never folds: AOA is the size
      of the TMA/TPA plus the 2.50 D working-distance demand. */
  lemma AoaOfAccepted(category: Category, lensToBlur: real, distanceCorrection: real)
    requires Accepted(category, lensToBlur, distanceCorrection)
    ensures Aoa(category, lensToBlur, distanceCorrection) == Abs(lensToBlur - distanceCorrection) + 2.5
    ensures Aoa(category, lensToBlur, distanceCorrection) >= 2.5
  {
  }

  /** A non-presbyope blurring at +1.00 D over a +3.00 D correction is
      accepted (the rule rejects only a lens to blur above the correction), with
      an AOA of 4.50 D. */
  lemma NonPresbyopeWithinCorrection()
    ensures Accepted(NonPresbyope, 1.0, 3.0) && Aoa(NonPresbyope, 1.0, 3.0) == 4.5
    ensures !Accepted(NonPresbyope, 3.0, 1.0)
  {
  }

  /** Printing both powers to two decimals keeps an accepted pair accepted. */
  lemma PrintedKeepsAccepted(category: Category, lensToBlur: real, distanceCorrection: real)
    requires Accepted(category, lensToBlur, distanceCorrection)
    ensures Accepted(category, Hundredths(lensToBlur) as real / 100.0, Hundredths(distanceCorrection) as real / 100.0)
  {
    if category == NonPresbyope {
      HundredthsMonotone(lensToBlur, distanceCorrection);
    } else {
      HundredthsMonotone(distanceCorrection, lensToBlur);
    }
  }

  /** The fields Calculate writes back pass the same checks again. */
  lemma CheckAoaOfPrinted(category: Category, lensToBlur: real, distanceCorrection: real)
    requires Accepted(category, lensToBlur, distanceCorrection)
    ensures CheckAoa(category, FormatDiopter(lensToBlur, false, false), FormatDiopter(distanceCorrection, false, false)).Success?
  {
    FormatDiopterReadBack(lensToBlur, false, false);
    FormatDiopterReadBack(distanceCorrection, false, false);
    PrintedKeepsAccepted(category, lensToBlur, distanceCorrection);
  }

  /** What the computation panel shows for the fields: the AOA of the two
      powers; None where a `toFloat()` throws. */
  function AoaShown(category: Category, lensToBlurText: string, distanceCorrectionText: string): Option<real>
  {
    match (ParseDecimal(lensToBlurText), ParseDecimal(distanceCorrectionText))
    case (Some(l), Some(d)) => Some(Aoa(category, l, d))
    case _ => None
  }

  class AoaCalculator {
    var distanceCorrection: string
    var lensToBlur: string
    var selectedCategory: Category
    var showAoaComputation: bool
    var errorMessage: Option<string>

    /** Whenever the computation is shown, both fields read as powers the
        category accepts, so the panel draws an AOA of at least 2.50 D. */
    predicate Valid()
      reads this
    {
      showAoaComputation ==> CheckAoa(selectedCategory, lensToBlur, distanceCorrection).Success?
    }

    constructor()
      ensures Valid()
      ensures distanceCorrection == "" && lensToBlur == "" && selectedCategory == NonPresbyope
      ensures !showAoaComputation && errorMessage == None
    {
      distanceCorrection, lensToBlur, selectedCategory := "", "", NonPresbyope;
      showAoaComputation, errorMessage := false, None;
    }

    /** The panel's AOA is at least the working-distance demand. */
    lemma ShownAoaBound()
      requires Valid() && showAoaComputation
      ensures AoaShown(selectedCategory, lensToBlur, distanceCorrection).Some?
      ensures AoaShown(selectedCategory, lensToBlur, distanceCorrection).value >= 2.5
    {
      CheckAoaSpec(selectedCategory, lensToBlur, distanceCorrection);
      var (l, d) := CheckAoa(selectedCategory, lensToBlur, distanceCorrection).value;
      AoaOfAccepted(selectedCategory, l, d);
    }

    /** The category buttons: clear both powers, hide the computation, switch. */
    method SelectCategory(category: Category)
      modifies this
      ensures Valid()
      ensures distanceCorrection == "" && lensToBlur == "" && !showAoaComputation
      ensures selectedCategory == category && errorMessage == old(errorMessage)
    {
      distanceCorrection := "";
      lensToBlur := "";
      showAoaComputation := false;
      selectedCategory := category;
    }

    /** Typing in the lens-to-blur field: sanitise, hide the computation. */
    method EditLensToBlur(text: string)
      modifies this
      ensures Valid()
      ensures lensToBlur == GetValidatedPower(text) && !showAoaComputation
      ensures distanceCorrection == old(distanceCorrection) && selectedCategory == old(selectedCategory)
      ensures errorMessage == old(errorMessage)
    {
      lensToBlur := GetValidatedPower(text);
      showAoaComputation := false;
    }

    /** Typing in the distance-correction field as the screen does it: sanitise,
        and nothing else; the computation stays up. */
    method EditDistanceCorrectionAsWritten(text: string)
      modifies this
      ensures distanceCorrection == GetValidatedPower(text)
      ensures lensToBlur == old(lensToBlur) && selectedCategory == old(selectedCategory)
      ensures showAoaComputation == old(showAoaComputation) && errorMessage == old(errorMessage)
    {
      distanceCorrection := GetValidatedPower(text);
    }

    /** Typing in the distance-correction field as the lens-to-blur field does
        it: sanitise, hide the computation. */
    method EditDistanceCorrection(text: string)
      modifies this
      ensures Valid()
      ensures distanceCorrection == GetValidatedPower(text) && !showAoaComputation
      ensures lensToBlur == old(lensToBlur) && selectedCategory == old(selectedCategory)
      ensures errorMessage == old(errorMessage)
    {
      distanceCorrection := GetValidatedPower(text);
      showAoaComputation := false;
    }

    /** The Calculate button. */
    method Calculate(getString: StringRes -> string)
      modifies this
      ensures Valid()
      ensures selectedCategory == old(selectedCategory)
      ensures match CheckAoa(old(selectedCategory), old(lensToBlur), old(distanceCorrection))
        case Failure(e) =>
          && errorMessage == Some(getString(ErrorText(e))) && !showAoaComputation
          && lensToBlur == old(lensToBlur) && distanceCorrection == old(distanceCorrection)
        case Success((l, d)) =>
          && lensToBlur == FormatDiopter(l, false, false)
          && distanceCorrection == FormatDiopter(d, false, false)
          && showAoaComputation && errorMessage == old(errorMessage)
    {
      var distanceCorrectionValue := ParseDecimal(distanceCorrection);
      var lensToBlurValue := ParseDecimal(lensToBlur);

      if distanceCorrectionValue.None? || lensToBlurValue.None? {
        errorMessage := Some(getString(InvalidAoaPower));
        showAoaComputation := false;
        return;
      }
      var l, d := lensToBlurValue.value, distanceCorrectionValue.value;

      if selectedCategory == NonPresbyope && l > d {
        errorMessage := Some(getString(NonPresbyopeButPlus));
        showAoaComputation := false;
        return;
      }
      if selectedCategory == Presbyope && l < d {
        errorMessage := Some(getString(PresbyopeButMinus));
        showAoaComputation := false;
        return;
      }

      distanceCorrection := FormatDiopter(d, false, false);
      lensToBlur := FormatDiopter(l, false, false);
      showAoaComputation := true;

      CheckAoaOfPrinted(selectedCategory, l, d);
    }

    method DismissError()
      modifies this
      requires Valid()
      ensures Valid()
      ensures errorMessage == None
      ensures distanceCorrection == old(distanceCorrection) && lensToBlur == old(lensToBlur)
      ensures selectedCategory == old(selectedCategory) && showAoaComputation == old(showAoaComputation)
    {
      errorMessage := None;
    }
  }

  /** 0 D to blur over a 1 D correction passes the non-presbyope check. */
  lemma ZeroOverOneAccepted()
    ensures CheckAoa(NonPresbyope, "0", "1") == Success((0.0, 1.0))
  {
    assert ParseDecimal("0") == Some(0.0) && ParseDecimal("1") == Some(1.0);
  }

  /** The screen as written: a successful calculation for 0 D to blur over a
      1 D correction, then clearing the distance-correction field, leaves the
      computation shown over a field `toFloat()` cannot read. */
  method DistanceCorrectionEditWitness(getString: StringRes -> string) returns (shown: bool, parsed: Option<real>)
    ensures shown && parsed == None
  {
    var screen := new AoaCalculator();
    screen.EditLensToBlur("0");
    ValidatedPowerOfDigits("0");
    screen.EditDistanceCorrectionAsWritten("1");
    ValidatedPowerOfDigits("1");
    ZeroOverOneAccepted();
    screen.Calculate(getString);
    screen.EditDistanceCorrectionAsWritten("");
    assert GetValidatedPower("") == "";
    shown, parsed := screen.showAoaComputation, ParseDecimal(screen.distanceCorrection);
  }
}
