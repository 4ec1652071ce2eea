# Clinicus calculators, modelled in Dafny

Clinicus is an Android app of optometry calculators. This project models its
computational core and proves properties of that model:

- **Input validation and formatting** (`utils/Functions.kt`):
  - `getValidatedPower` keeps a signed decimal: digits, one dot, and a leading minus.
  - `getValidatedAxis` and `getValidatedAge` keep the digits and clamp the number into 1..180 and 0..100.
  - `formatDiopter` prints a power to two decimals. It can first round to the quarter-diopter grid, and it can add a plus sign.
  - `formatDecimal` rounds to five decimals.
  - `capitalize` uppercases the first character.
- **The contact-lens screen** (`ContactLensScreen.kt`):
  - the spectacle-prescription form, with its edit handlers and its Calculate button;
  - the vertex-distance formula `F = S / (1 - 0.012 S)`;
  - the optical cross;
  - the contact-lens sphere and cylinder, each rounded to 0.25 D;
  - the spherical equivalent.
- **The accommodation screen** (`AccommodationScreen.kt`):
  - Hofstetter's minimum, average and maximum amplitudes;
  - the near-point power in inches, centimetres or millimetres;
  - the amplitude of accommodation (AOA) by the minus- or plus-lens method, with its three error messages.
- **In-app updates** (`UpdateHandler.kt`):
  - choosing an immediate or a flexible update from version codes and staleness;
  - the install-state listener, including its restart snackbar.
- **Permissions** (`PermissionUtils.checkPermission`): a permission's status is classified from the grant, the rationale flag and the persisted "requested before" flag.
- **Snackbar messages** (`SnackbarMessage.kt`): the three kinds of message, and turning a throwable into one.

## How the model is organised

Each Dafny module follows one source file.

- **Kotlin's conversions**:
  - `KotlinText` models `toIntOrNull`, `toFloatOrNull`, `Int.toString`, `String.format("%.2f")`, `indexOf` and `substringBefore`/`After`.
  - `Rounding` models `Math.round` on quarters, `DecimalFormat("#.#####")` (HALF_EVEN) and the HALF_UP rounding of `"%.2f"`.
- **Pure code** becomes functions with lemmas: the `Functions` validation and formatting helpers, the optics formulas, the update predicates and the snackbar conversions.
- **Screen state becomes classes.** Each Compose screen keeps its state in `rememberSaveable` variables, which its event handlers assign. Each such screen is a class whose fields are those variables:
  - `ContactLens.ContactLensCalculator`;
  - `Accommodation.HofstetterPanel`, `Accommodation.NearPointPanel` and `Accommodation.AoaCalculator`.

  Each handler is a method that states the whole new state. Each class has a `Valid()` invariant, which every handler preserves except `Accommodation.AoaCalculator.EditDistanceCorrectionAsWritten`: that one models the handler as written, which breaks the invariant (see "## Findings"). For example, "when the result is shown, the fields it reads parse".
- **The permission store** is a class holding a map from permission name to flag.
- **Untrusted numbers are strings.** The screens hold their numbers as text, so the model does too. A computation that the source performs with `toFloat()` is modelled through `ParseDecimal`.

## Where the code and its description disagree

The model follows the code in each case.

- **AOA limits.** The non-presbyope AOA check rejects only a lens to blur *greater* than the distance correction (`AccommodationScreen.kt:460`).
  - A non-presbyope blurring at +1.00 D over a +3.00 D correction is therefore accepted, with an AOA of 4.50 D.
  - `Accommodation.NonPresbyopeWithinCorrection` states this.
- **Secondary meridian.** It is `axis + 90` below 90 and `axis - 90` otherwise.
  - An axis of 90 therefore gives a meridian of 0, not 180.
  - The range is 0..179, not 1..180.
- **Missing inputs.** The contact-lens Calculate button reports nothing missing except the sphere:
  - a missing cylinder becomes 0;
  - a missing axis becomes 180;
  - a missing sphere is read as 0 when the cylinder is nonzero.
- **The flexible-update test decides nothing.** The comment of `shouldOfferFlexibleUpdate` (`UpdateHandler.kt:105-106`) says it decides when a flexible update is offered. But `checkForUpdates` starts from the flexible type (`UpdateHandler.kt:33`) and only switches to immediate, so a flexible update is offered whenever the immediate one is not chosen. `Updates.CheckForUpdates` states the outcome without the flexible test.
- **No three-digit cap.** The comments of `getValidatedPower` speak of one, but the code does not limit the number of integer digits. `Functions.ValidatedPowerOfDigits` shows that any string of digits is kept whole.

## Model

| member | source | states |
|---|---|---|
| Rounding.RoundQuarterBounds | app/src/main/java/com/kevintresuelo/clinicus/utils/Functions.kt:122 | rounding to the quarter grid lands on a multiple of 0.25 within an eighth of the input |
| Rounding.RoundQuarterNearest | app/src/main/java/com/kevintresuelo/clinicus/utils/Functions.kt:122 | no multiple of 0.25 is closer to the input than the rounded value |
| Rounding.RoundQuarterTieGoesUp | app/src/main/java/com/kevintresuelo/clinicus/utils/Functions.kt:122 | a value halfway between two quarters rounds up (`Math.round`) |
| Rounding.RoundQuarterOfQuarter | app/src/main/java/com/kevintresuelo/clinicus/utils/Functions.kt:122 | a multiple of 0.25 is left unchanged |
| Rounding.RoundQuarterIdempotent | app/src/main/java/com/kevintresuelo/clinicus/utils/Functions.kt:122 | rounding twice is rounding once |
| Rounding.RoundQuarterMonotone | app/src/main/java/com/kevintresuelo/clinicus/utils/Functions.kt:122 | rounding preserves order |
| Rounding.RoundQuarterSign | app/src/main/java/com/kevintresuelo/clinicus/utils/Functions.kt:121-122 | a positive power never rounds below zero and a negative one never above zero |
| Rounding.QuarterDifference | app/src/main/java/com/kevintresuelo/clinicus/ui/screens/catalog/contactlens/ContactLensScreen.kt:535 | sums and differences of quarter multiples are quarter multiples |
| Rounding.Round5Zero | app/src/main/java/com/kevintresuelo/clinicus/utils/Functions.kt:134-138 | zero formats as zero |
| Rounding.Round5Close | app/src/main/java/com/kevintresuelo/clinicus/utils/Functions.kt:134-138 | five-decimal rounding is within 0.000005 of the input |
| Rounding.Round5Monotone | app/src/main/java/com/kevintresuelo/clinicus/utils/Functions.kt:134-138 | five-decimal rounding preserves order |
| Rounding.Round5TieGoesToEven | app/src/main/java/com/kevintresuelo/clinicus/utils/Functions.kt:134-138 | a five-decimal tie goes to the even neighbour (HALF_EVEN) |
| Rounding.Round5Exact | app/src/main/java/com/kevintresuelo/clinicus/utils/Functions.kt:134-138 | a value with at most five decimals is unchanged |
| Rounding.Round5NonPositive | app/src/main/java/com/kevintresuelo/clinicus/utils/Functions.kt:134-138 | a non-positive value stays non-positive |
| Rounding.HundredthsSign | app/src/main/java/com/kevintresuelo/clinicus/utils/Functions.kt:124 | "%.2f" of a non-negative value is non-negative, of a negative one non-positive |
| Rounding.HundredthsClose | app/src/main/java/com/kevintresuelo/clinicus/utils/Functions.kt:124 | the printed value is within 0.005 of the input |
| Rounding.HundredthsMonotone | app/src/main/java/com/kevintresuelo/clinicus/utils/Functions.kt:124 | printing preserves order |
| Rounding.HundredthsExact | app/src/main/java/com/kevintresuelo/clinicus/utils/Functions.kt:124 | a value with two decimals prints exactly |
| Rounding.HundredthsOfQuarter | app/src/main/java/com/kevintresuelo/clinicus/utils/Functions.kt:122-124 | a quarter-rounded power prints exactly |
| KotlinText.ParsedIntNotBlank | app/src/main/java/com/kevintresuelo/clinicus/ui/screens/catalog/accommodation/AccommodationScreen.kt:84 | a string `toIntOrNull` accepts is not blank |
| KotlinText.IndexOf | app/src/main/java/com/kevintresuelo/clinicus/utils/Functions.kt:89-95 | `indexOf` gives -1 exactly when the character is absent, else its first position |
| KotlinText.SplitAtFirst | app/src/main/java/com/kevintresuelo/clinicus/utils/Functions.kt:89-95 | `substringBefore` + the character + `substringAfter` rebuilds the string when the character occurs |
| KotlinText.ParseInt | app/src/main/java/com/kevintresuelo/clinicus/utils/Functions.kt:102 | `toIntOrNull` yields only 32-bit values |
| KotlinText.NatToStringRoundTrip | app/src/main/java/com/kevintresuelo/clinicus/utils/Functions.kt:102 | printing a natural number and parsing it gives it back |
| KotlinText.IntToStringRoundTrip | app/src/main/java/com/kevintresuelo/clinicus/utils/Functions.kt:102 | `toString` of any 32-bit integer parses back to it |
| KotlinText.ParseDecimalNeedsDigit | app/src/main/java/com/kevintresuelo/clinicus/ui/screens/catalog/accommodation/AccommodationScreen.kt:450-452 | `ParseDecimal` (the modelled grammar of `toFloatOrNull`) rejects a string without a digit, e.g. "", "-", "." |
| KotlinText.FixedTwoShape | app/src/main/java/com/kevintresuelo/clinicus/utils/Functions.kt:124 | "%.2f" prints an optional minus, digits, a dot and exactly two digits |
| KotlinText.FixedTwoRoundTrip | app/src/main/java/com/kevintresuelo/clinicus/utils/Functions.kt:124 | parsing "%.2f" text gives the value rounded to hundredths |
| KotlinText.HundredthsTextValue | app/src/main/java/com/kevintresuelo/clinicus/utils/Functions.kt:124 | the unsigned text of h hundredths reads back as h / 100 |
| KotlinText.ParseDecimalSigned | app/src/main/java/com/kevintresuelo/clinicus/utils/Functions.kt:117 | `toFloat` reads a leading '-' or '+' off before the digits |
| Functions.FilterPowerSubsequence | app/src/main/java/com/kevintresuelo/clinicus/utils/Functions.kt:83-87 | the character filter keeps a subsequence of the input |
| Functions.FilterPowerChars | app/src/main/java/com/kevintresuelo/clinicus/utils/Functions.kt:83-87 | the filter keeps only digits, '.' and '-' |
| Functions.FilterPowerDigits | app/src/main/java/com/kevintresuelo/clinicus/utils/Functions.kt:83-87 | every digit of the input is kept |
| Functions.FilterPowerDots | app/src/main/java/com/kevintresuelo/clinicus/utils/Functions.kt:83-87 | only the first '.' is kept |
| Functions.FilterPowerMinus | app/src/main/java/com/kevintresuelo/clinicus/utils/Functions.kt:83-87 | a '-' is kept only at position 0 |
| Functions.ValidatedPowerPrefix | app/src/main/java/com/kevintresuelo/clinicus/utils/Functions.kt:89-95 | the fraction is cut to two digits after the dot, else the filtered text is kept |
| Functions.ValidatedPowerSubsequence | app/src/main/java/com/kevintresuelo/clinicus/utils/Functions.kt:82-96 | the validated power is a subsequence of the input, made of power characters |
| Functions.ValidatedPowerDot | app/src/main/java/com/kevintresuelo/clinicus/utils/Functions.kt:82-96 | at most one dot, with at most two digits after it |
| Functions.ValidatedPowerMinus | app/src/main/java/com/kevintresuelo/clinicus/utils/Functions.kt:82-96 | a minus only in front, and only if the input starts with one |
| Functions.ValidatedPowerShape | app/src/main/java/com/kevintresuelo/clinicus/utils/Functions.kt:82-96 | the validated power is a signed decimal with at most two fraction digits |
| Functions.FilterPowerKeepsAll | app/src/main/java/com/kevintresuelo/clinicus/utils/Functions.kt:83-87 | a text that already passes the filter is kept whole |
| Functions.ValidatedPowerIdempotent | app/src/main/java/com/kevintresuelo/clinicus/utils/Functions.kt:82-96 | validating an already validated power changes nothing |
| Functions.ValidatedPowerOfDigits | app/src/main/java/com/kevintresuelo/clinicus/utils/Functions.kt:82-96 | a string of digits of any length is kept whole |
| Functions.FilterDigits | app/src/main/java/com/kevintresuelo/clinicus/utils/Functions.kt:99-101 | the digit filter keeps only digits |
| Functions.FilterDigitsCounts | app/src/main/java/com/kevintresuelo/clinicus/utils/Functions.kt:99-101 | every digit of the input is kept, nothing else |
| Functions.FilterDigitsOfDigits | app/src/main/java/com/kevintresuelo/clinicus/utils/Functions.kt:99-101 | a string of digits is kept whole |
| Functions.FilterDigitsEmpty | app/src/main/java/com/kevintresuelo/clinicus/utils/Functions.kt:99-101 | the filter is empty exactly when the input has no digit |
| Functions.CoerceIn | app/src/main/java/com/kevintresuelo/clinicus/utils/Functions.kt:102 | `coerceIn` lands in the range and keeps values already inside it |
| Functions.ValidatedNumberBlank | app/src/main/java/com/kevintresuelo/clinicus/utils/Functions.kt:98-110 | axis and age validation give "" exactly when the input has no digit |
| Functions.ValidatedNumberValue | app/src/main/java/com/kevintresuelo/clinicus/utils/Functions.kt:98-110 | the result is the digits' value clamped into the range, or a failure when they overflow a 32-bit int |
| Functions.ValidatedNumberCanonical | app/src/main/java/com/kevintresuelo/clinicus/utils/Functions.kt:98-110 | a non-empty result is the decimal text of a number in the range |
| Functions.ValidatedNumberSpec | app/src/main/java/com/kevintresuelo/clinicus/utils/Functions.kt:98-110 | the three facts above together |
| Functions.ValidatedNumberIdempotent | app/src/main/java/com/kevintresuelo/clinicus/utils/Functions.kt:98-110 | validating a validated axis or age again changes nothing |
| Functions.FormatDiopterShape | app/src/main/java/com/kevintresuelo/clinicus/utils/Functions.kt:120-132 | the formatted power has two decimals, a '+' exactly when a sign is requested and the value is positive, and a '-' exactly when the printed power is negative |
| Functions.FixedTwoSignOnlyFirst | app/src/main/java/com/kevintresuelo/clinicus/utils/Functions.kt:124 | "%.2f" never prints '+' and prints '-' only in front |
| Functions.FormatDiopterReadBack | app/src/main/java/com/kevintresuelo/clinicus/utils/Functions.kt:120-132 | parsing the formatted power gives the quarter-rounded value, or the value rounded to hundredths |
| Functions.RoundedReadBack | app/src/main/java/com/kevintresuelo/clinicus/utils/Functions.kt:120-132 | a quarter-rounded power reads back as exactly that quarter multiple, with or without its '+' |
| Functions.FormatDiopterExamples | app/src/main/java/com/kevintresuelo/clinicus/utils/Functions.kt:120-132 | 0.1 rounds to "+0.00" with a sign, 0 prints "0.00", -4 prints "-4.00", 0.125 rounds up to "+0.25" |
| Functions.FormatDiopterTextStable | app/src/main/java/com/kevintresuelo/clinicus/utils/Functions.kt:116-118 | formatting the text of a formatted power again gives the text of its quarter-rounded power; the digits are kept, but a signed "+0.00" from a power below an eighth loses its '+' |
| Functions.FormatDiopterTextUnchanged | app/src/main/java/com/kevintresuelo/clinicus/utils/Functions.kt:116-118 | formatting the formatted text again leaves it unchanged exactly when the power is not a signed value strictly between 0 and 0.125 |
| Functions.CapitalizeSpec | app/src/main/java/com/kevintresuelo/clinicus/utils/Functions.kt:34-44 | null and "" give ""; otherwise only the first character is uppercased; capitalizing twice changes nothing |
| ContactLens.ResolveInputsCases | app/src/main/java/com/kevintresuelo/clinicus/ui/screens/catalog/contactlens/ContactLensScreen.kt:129-149 | when Calculate proceeds, and with what sphere, cylinder and axis |
| ContactLens.ResolveBlankSphere | app/src/main/java/com/kevintresuelo/clinicus/ui/screens/catalog/contactlens/ContactLensScreen.kt:129-149 | with no sphere, a nonzero cylinder reads the sphere as 0 and a zero or missing cylinder is an error |
| ContactLens.DisplayOfReadable | app/src/main/java/com/kevintresuelo/clinicus/ui/screens/catalog/contactlens/ContactLensScreen.kt:184-194 | the panel shows a sphere-only prescription exactly when the cylinder field is empty, otherwise a spherocylinder, with the values the fields read as |
| ContactLens.PrintedReadBack | app/src/main/java/com/kevintresuelo/clinicus/ui/screens/catalog/contactlens/ContactLensScreen.kt:151-164 | a power Calculate writes reads back as that power rounded to hundredths |
| ContactLens.PrintedNotEmpty | app/src/main/java/com/kevintresuelo/clinicus/ui/screens/catalog/contactlens/ContactLensScreen.kt:163 | a written cylinder field is never empty, so a nonzero cylinder is drawn as a spherocylinder |
| ContactLens.DisplayAfterCalculate | app/src/main/java/com/kevintresuelo/clinicus/ui/screens/catalog/contactlens/ContactLensScreen.kt:151-194 | after Calculate, drawing the panel reads every field without an exception, as powers of at most two decimals |
| ContactLens.DrawableOfReadable | app/src/main/java/com/kevintresuelo/clinicus/ui/screens/catalog/contactlens/ContactLensScreen.kt:184-194 | fields that read as two-decimal powers are drawn as a two-decimal prescription |
| ContactLens.PrintedTwoDecimals | app/src/main/java/com/kevintresuelo/clinicus/ui/screens/catalog/contactlens/ContactLensScreen.kt:151-164 | a field Calculate writes reads back as a power with at most two decimals |
| ContactLens.ValidatedAxisParses | app/src/main/java/com/kevintresuelo/clinicus/ui/screens/catalog/contactlens/ContactLensScreen.kt:115-118 | an edited axis field is empty or parses into 1..180 |
| ContactLens.ContactLensCalculator.constructor | app/src/main/java/com/kevintresuelo/clinicus/ui/screens/catalog/contactlens/ContactLensScreen.kt:53-59 | all fields start empty, with nothing shown and no error |
| ContactLens.ContactLensCalculator.EditSphere | app/src/main/java/com/kevintresuelo/clinicus/ui/screens/catalog/contactlens/ContactLensScreen.kt:85-88 | the sphere field becomes the validated power and the result is hidden |
| ContactLens.ContactLensCalculator.EditCylinder | app/src/main/java/com/kevintresuelo/clinicus/ui/screens/catalog/contactlens/ContactLensScreen.kt:103-106 | the cylinder field becomes the validated power and the result is hidden |
| ContactLens.ContactLensCalculator.EditAxis | app/src/main/java/com/kevintresuelo/clinicus/ui/screens/catalog/contactlens/ContactLensScreen.kt:115-118 | the axis field becomes the validated axis and the result is hidden; it crashes exactly when the digits overflow an int |
| ContactLens.ContactLensCalculator.Calculate | app/src/main/java/com/kevintresuelo/clinicus/ui/screens/catalog/contactlens/ContactLensScreen.kt:128-170 | on bad input, the error message is set and the fields are kept; otherwise the fields are formatted, the result is shown and the axis is in 1..180 |
| ContactLens.ContactLensCalculator.DismissError | app/src/main/java/com/kevintresuelo/clinicus/ui/screens/catalog/contactlens/ContactLensScreen.kt:202-209 | the error message is cleared and nothing else changes |
| ContactLens.ContactLensCalculator.Shown | app/src/main/java/com/kevintresuelo/clinicus/ui/screens/catalog/contactlens/ContactLensScreen.kt:184-194 | the panel drawn while the result is shown: the sphere card exactly when the cylinder field is empty, with the sphere field's power on its spectacle line, else the spherocylinder card with the field's axis; always defined, because Valid() keeps the powers at two decimals |
| ContactLens.VertexPowerZero | app/src/main/java/com/kevintresuelo/clinicus/ui/screens/catalog/contactlens/ContactLensScreen.kt:229 | a plano lens stays plano |
| ContactLens.VertexPowerMinus | app/src/main/java/com/kevintresuelo/clinicus/ui/screens/catalog/contactlens/ContactLensScreen.kt:229 | a minus lens weakens at the cornea and stays minus |
| ContactLens.VertexPowerPlus | app/src/main/java/com/kevintresuelo/clinicus/ui/screens/catalog/contactlens/ContactLensScreen.kt:229 | a plus lens strengthens at the cornea |
| ContactLens.VertexDefinedOfTwoDecimals | app/src/main/java/com/kevintresuelo/clinicus/ui/screens/catalog/contactlens/ContactLensScreen.kt:229 | a power with at most two decimals never hits the pole of the vertex formula, so the panel never divides by zero |
| ContactLens.TwoDecimalsSum | app/src/main/java/com/kevintresuelo/clinicus/ui/screens/catalog/contactlens/ContactLensScreen.kt:310 | the cylinder meridian S + C of two-decimal powers has two decimals |
| ContactLens.CylinderMeridianSpec | app/src/main/java/com/kevintresuelo/clinicus/ui/screens/catalog/contactlens/ContactLensScreen.kt:312-316 | the secondary meridian is 90 degrees from the axis, in 0..179, and the map is an involution |
| ContactLens.CrossSpec | app/src/main/java/com/kevintresuelo/clinicus/ui/screens/catalog/contactlens/ContactLensScreen.kt:309-316 | the optical cross carries the sphere on the axis meridian and the sphere + cylinder on the other |
| ContactLens.ClSphereSpec | app/src/main/java/com/kevintresuelo/clinicus/ui/screens/catalog/contactlens/ContactLensScreen.kt:229 | the contact-lens sphere is a quarter multiple; a minus sphere stays between the rounded spectacle power and 0 |
| ContactLens.ClSphereMinusFour | app/src/main/java/com/kevintresuelo/clinicus/ui/screens/catalog/contactlens/ContactLensScreen.kt:229 | -4.00 D is -3.81679 D at the cornea and is fitted as -3.75 D |
| ContactLens.ContactLensRxSpec | app/src/main/java/com/kevintresuelo/clinicus/ui/screens/catalog/contactlens/ContactLensScreen.kt:309-310 | sphere and cylinder are quarter multiples; the sphere is the rounded vertex power of the first meridian; sphere + cylinder is that of the second; the axis is kept |
| ContactLens.SphericalEquivalentSpec | app/src/main/java/com/kevintresuelo/clinicus/ui/screens/catalog/contactlens/ContactLensScreen.kt:634 | the spherical equivalent is a quarter multiple, within an eighth of sph + cyl/2, and between the two meridian powers |
| ContactLens.SphericalEquivalentTie | app/src/main/java/com/kevintresuelo/clinicus/ui/screens/catalog/contactlens/ContactLensScreen.kt:634 | a tie rounds toward plus: -1.00 / -0.25 gives -1.00 |
| ContactLens.PanelFor | app/src/main/java/com/kevintresuelo/clinicus/ui/screens/catalog/contactlens/ContactLensScreen.kt:184-194 | the sphere card for a sphere-only prescription, with the spectacle sphere and the quarter-rounded vertex power; otherwise the optical cross (axis, sphere, sphere + cylinder) and the contact-lens prescription on the quarter grid, whose sphere + cylinder is the rounded cylinder-meridian power |
| ContactLens.SphereCard | app/src/main/java/com/kevintresuelo/clinicus/ui/screens/catalog/contactlens/ContactLensScreen.kt:229-293 | the sphere card holds the spectacle sphere and the quarter-rounded vertex power of a two-decimal sphere |
| ContactLens.SpherocylinderCard | app/src/main/java/com/kevintresuelo/clinicus/ui/screens/catalog/contactlens/ContactLensScreen.kt:309-316 | the spherocylinder card carries the optical cross and a quarter-grid contact-lens prescription with the spectacle axis |
| Accommodation.HofstetterTermExact | app/src/main/java/com/kevintresuelo/clinicus/ui/screens/catalog/accommodation/AccommodationScreen.kt:143 | with the app's exact coefficients, the rounded term equals the unrounded formula |
| Accommodation.HofstetterExact | app/src/main/java/com/kevintresuelo/clinicus/ui/screens/catalog/accommodation/AccommodationScreen.kt:139-203 | the amplitudes are 15 - 0.25 age, 18.5 - 0.3 age and 25 - 0.4 age |
| Accommodation.HofstetterAtForty | app/src/main/java/com/kevintresuelo/clinicus/ui/screens/catalog/accommodation/AccommodationScreen.kt:139-203 | at age 40 the amplitudes are 5.00, 6.50 and 9.00 D |
| Accommodation.HofstetterDecreasing | app/src/main/java/com/kevintresuelo/clinicus/ui/screens/catalog/accommodation/AccommodationScreen.kt:139-203 | all three amplitudes strictly fall with age |
| Accommodation.HofstetterOrder | app/src/main/java/com/kevintresuelo/clinicus/ui/screens/catalog/accommodation/AccommodationScreen.kt:139-203 | minimum <= average iff age <= 70, and average <= maximum iff age <= 65 |
| Accommodation.ShowHofstetterIffParses | app/src/main/java/com/kevintresuelo/clinicus/ui/screens/catalog/accommodation/AccommodationScreen.kt:84 | the amplitudes are shown exactly when the age parses |
| Accommodation.HofstetterPanel.constructor | app/src/main/java/com/kevintresuelo/clinicus/ui/screens/catalog/accommodation/AccommodationScreen.kt:53-55 | the age starts empty, with nothing shown |
| Accommodation.HofstetterPanel.EditAge | app/src/main/java/com/kevintresuelo/clinicus/ui/screens/catalog/accommodation/AccommodationScreen.kt:81-85 | the age field is set, and the panel shows exactly when it parses |
| Accommodation.HofstetterPanel.Shown | app/src/main/java/com/kevintresuelo/clinicus/ui/screens/catalog/accommodation/AccommodationScreen.kt:92-203 | the three shown amplitudes are 15 - 0.25 age, 18.5 - 0.3 age and 25 - 0.4 age for the parsed age |
| Accommodation.NearPointPowerSpec | app/src/main/java/com/kevintresuelo/clinicus/ui/screens/catalog/accommodation/AccommodationScreen.kt:299-364 | a nonzero distance has a power; the exact power times the distance is the unit constant; the shown value is within 0.000005; cm agrees with mm |
| Accommodation.NearPointPowerDecreasing | app/src/main/java/com/kevintresuelo/clinicus/ui/screens/catalog/accommodation/AccommodationScreen.kt:299-364 | a farther near point gives a smaller power |
| Accommodation.NearPointPanel.constructor | app/src/main/java/com/kevintresuelo/clinicus/ui/screens/catalog/accommodation/AccommodationScreen.kt:236-240 | the distance starts empty, in inches, with nothing shown |
| Accommodation.NearPointPanel.EditDistance | app/src/main/java/com/kevintresuelo/clinicus/ui/screens/catalog/accommodation/AccommodationScreen.kt:250-254 | the distance is set, and the solution is shown exactly when it parses |
| Accommodation.NearPointPanel.SelectUnit | app/src/main/java/com/kevintresuelo/clinicus/ui/screens/catalog/accommodation/AccommodationScreen.kt:285-288 | only the unit changes |
| Accommodation.NearPointPanel.Shown | app/src/main/java/com/kevintresuelo/clinicus/ui/screens/catalog/accommodation/AccommodationScreen.kt:297-364 | the shown power is missing (infinite) exactly for a zero distance, and is otherwise within 0.000005 of the unit's constant over the parsed distance |
| Accommodation.ParsedDecimalNotBlank | app/src/main/java/com/kevintresuelo/clinicus/ui/screens/catalog/accommodation/AccommodationScreen.kt:252 | a distance that parses is not blank |
| Accommodation.CheckAoaSpec | app/src/main/java/com/kevintresuelo/clinicus/ui/screens/catalog/accommodation/AccommodationScreen.kt:449-477 | bad input, plus for a non-presbyope and minus for a presbyope are the three errors; otherwise both powers are returned |
| Accommodation.AoaOfAccepted | app/src/main/java/com/kevintresuelo/clinicus/ui/screens/catalog/accommodation/AccommodationScreen.kt:515-520 | for accepted input the AOA is the lens-difference + 2.50 D, at least 2.50 D |
| Accommodation.NonPresbyopeWithinCorrection | app/src/main/java/com/kevintresuelo/clinicus/ui/screens/catalog/accommodation/AccommodationScreen.kt:460 | +1.00 over +3.00 is accepted for a non-presbyope with AOA 4.50; +3.00 over +1.00 is not |
| Accommodation.PrintedKeepsAccepted | app/src/main/java/com/kevintresuelo/clinicus/ui/screens/catalog/accommodation/AccommodationScreen.kt:472-473 | reformatting the accepted powers keeps them accepted |
| Accommodation.CheckAoaOfPrinted | app/src/main/java/com/kevintresuelo/clinicus/ui/screens/catalog/accommodation/AccommodationScreen.kt:460-473 | the fields Calculate writes back pass the same check again, so the shown computation never throws |
| Accommodation.AoaCalculator.constructor | app/src/main/java/com/kevintresuelo/clinicus/ui/screens/catalog/accommodation/AccommodationScreen.kt:402-412 | empty fields, the non-presbyope category, nothing shown, no error |
| Accommodation.AoaCalculator.ShownAoaBound | app/src/main/java/com/kevintresuelo/clinicus/ui/screens/catalog/accommodation/AccommodationScreen.kt:485-600 | a shown computation has an AOA of at least 2.50 D |
| Accommodation.AoaCalculator.SelectCategory | app/src/main/java/com/kevintresuelo/clinicus/ui/screens/catalog/accommodation/AccommodationScreen.kt:414-422 | choosing a category clears both fields and hides the computation |
| Accommodation.AoaCalculator.EditLensToBlur | app/src/main/java/com/kevintresuelo/clinicus/ui/screens/catalog/accommodation/AccommodationScreen.kt:424-429 | the lens-to-blur field is validated and the computation is hidden |
| Accommodation.AoaCalculator.EditDistanceCorrectionAsWritten | app/src/main/java/com/kevintresuelo/clinicus/ui/screens/catalog/accommodation/AccommodationScreen.kt:437-441 | the distance-correction field is validated and the computation stays as it was |
| Accommodation.AoaCalculator.EditDistanceCorrection | app/src/main/java/com/kevintresuelo/clinicus/ui/screens/catalog/accommodation/AccommodationScreen.kt:437-441 | as written, but the computation is hidden, which keeps the invariant |
| Accommodation.AoaCalculator.Calculate | app/src/main/java/com/kevintresuelo/clinicus/ui/screens/catalog/accommodation/AccommodationScreen.kt:449-477 | an error sets the message and hides the computation; success reformats both fields and shows it |
| Accommodation.AoaCalculator.DismissError | app/src/main/java/com/kevintresuelo/clinicus/ui/screens/catalog/accommodation/AccommodationScreen.kt:602-610 | only the error message is cleared |
| Accommodation.ZeroOverOneAccepted | app/src/main/java/com/kevintresuelo/clinicus/ui/screens/catalog/accommodation/AccommodationScreen.kt:450-470 | 0 D to blur over a 1 D correction passes the non-presbyope check |
| Accommodation.DistanceCorrectionEditWitness | app/src/main/java/com/kevintresuelo/clinicus/ui/screens/catalog/accommodation/AccommodationScreen.kt:437-441 | after a valid computation, clearing the distance correction leaves it shown with a field that no longer parses |
| Snackbar.ToMessageSpec | app/src/main/java/com/kevintresuelo/clinicus/components/snackbar/SnackbarMessage.kt:13-19 | a text snackbar shows its text; the others show their resource string |
| Snackbar.ActionSpec | app/src/main/java/com/kevintresuelo/clinicus/components/snackbar/SnackbarMessage.kt:21-33 | only an action snackbar has action text and an action, and they are its own |
| Snackbar.FromThrowableShows | app/src/main/java/com/kevintresuelo/clinicus/components/snackbar/SnackbarMessage.kt:35-39 | a throwable's non-blank message is shown, else the generic error, and the snackbar has no action |
| Snackbar.FromThrowableRoundTrip | app/src/main/java/com/kevintresuelo/clinicus/components/snackbar/SnackbarMessage.kt:35-39 | a non-blank message survives being thrown and converted back |
| Permissions.ClassifyCases | app/src/main/java/com/kevintresuelo/clinicus/utils/permissions/PermissionUtils.kt:40-59 | granted, denied with rationale, denied forever after an earlier request, and unknown before any request |
| Permissions.PermissionStore.constructor | app/src/main/java/com/kevintresuelo/clinicus/utils/permissions/PermissionsDataStore.kt:56-59 | no permission starts as requested |
| Permissions.PermissionStore.SetRequested | app/src/main/java/com/kevintresuelo/clinicus/utils/permissions/PermissionsDataStore.kt:38-40 | the permission is recorded as requested and no other entry changes |
| Permissions.PermissionStore.SetAllowed | app/src/main/java/com/kevintresuelo/clinicus/utils/permissions/PermissionsDataStore.kt:42-44 | the permission's flag is cleared and no other entry changes |
| Permissions.CheckPermission | app/src/main/java/com/kevintresuelo/clinicus/utils/permissions/PermissionUtils.kt:33-63 | the status is classified from the stored flag; a grant clears the flag; otherwise the store is unchanged |
| Permissions.GrantedResetsHistory | app/src/main/java/com/kevintresuelo/clinicus/utils/permissions/PermissionUtils.kt:40-44 | after a grant, a later denial without rationale is unknown rather than denied forever |
| Updates.Wrap32 | app/src/main/java/com/kevintresuelo/clinicus/components/updates/UpdateHandler.kt:117 | a 32-bit conversion keeps in-range values and agrees with the input modulo 2^32 |
| Updates.MajorVersionCodeSpec | app/src/main/java/com/kevintresuelo/clinicus/components/updates/UpdateHandler.kt:116-118 | the major version code is the greatest multiple of 10000 not above the version code |
| Updates.MajorVersionUpdateSpec | app/src/main/java/com/kevintresuelo/clinicus/components/updates/UpdateHandler.kt:120-122 | an update is major exactly when its ten-thousands part is greater, and it is then newer |
| Updates.UnknownStaleness | app/src/main/java/com/kevintresuelo/clinicus/components/updates/UpdateHandler.kt:94-114 | unknown staleness never counts as stale |
| Updates.ImmediateStalenessIsFlexible | app/src/main/java/com/kevintresuelo/clinicus/components/updates/UpdateHandler.kt:94-114 | staleness that warrants an immediate update also warrants a flexible one |
| Updates.MajorUpdateGap | app/src/main/java/com/kevintresuelo/clinicus/components/updates/UpdateHandler.kt:94-122 | 9999 to 10000 is major but not five versions apart |
| Updates.CheckForUpdates | app/src/main/java/com/kevintresuelo/clinicus/components/updates/UpdateHandler.kt:26-92 | no update unless one is available; immediate exactly when allowed and warranted, else flexible; the flow starts when there is an activity; the listener is registered only for a flexible update |
| Updates.StatusMessageSpec | app/src/main/java/com/kevintresuelo/clinicus/components/updates/UpdateHandler.kt:58-82 | downloading, canceled and failed show their message; downloaded offers a restart action; other states show nothing |
| Updates.RestartNeedsTwoPresses | app/src/main/java/com/kevintresuelo/clinicus/components/updates/UpdateHandler.kt:63-71 | the first press of "restart" only shows the snackbar again; the second completes the update |

## Left out

- Float and Double arithmetic is modelled on exact reals. Binary rounding error, such as 0.012 × S not being exact, is not modelled.
- `toFloatOrNull` is modelled on optional sign, ASCII digits and one dot. Exponents, "NaN", "Infinity", type suffixes and surrounding whitespace are not modelled. The power and axis fields cannot hold them, because their sanitisers keep only ASCII digits, '.' and '-'.
- The age and distance texts come from sanitisers that are not part of this model, so they are assumed to hold only an ASCII sign, digits and '.'. `toIntOrNull`, which reads the age (app/src/main/java/com/kevintresuelo/clinicus/ui/screens/catalog/accommodation/AccommodationScreen.kt:84), also reads other Unicode decimal digits ("٣" is 3), and `KotlinText.ParseInt` reads only ASCII digits. `toFloatOrNull`, which reads the distance (AccommodationScreen.kt:252), accepts only ASCII digits on the JVM, so there the app and `ParseDecimal` agree.
- Negative zero is not modelled: reals have no signed zero. In the app `"-0".toFloatOrNull()` is -0.0f and `String.format("%.2f", -0.0f)` prints "-0.00", so Calculate writes "-0.00" for the sphere "-0", "-0.0" or "-.0" (the AOA fields likewise). The model reads these as 0 and writes "0.00". Both read back as 0, so nothing displayed changes.
- Functions.FormatDiopterShape: for a negative zero the app prints a '-' although the printed power is not negative; the model has no negative zero, as the line above says.
- Number formatting assumes a locale whose decimal separator is '.'.
- `capitalize` and `isBlank` are modelled on ASCII letters and ASCII whitespace.
- `DecimalFormat("#.#####")` text is modelled by its numeric value (`Rounding.Round5`), because every use reads it back with `toFloat()`.
- The LaTeX strings, colours and Compose layout are not modelled. Only the values they display are.
- ContactLens.VertexPower: it requires the denominator to be nonzero, which fails only at S = 83.333... The panel reads only fields Calculate wrote with "%.2f", which have at most two decimals, so the app never reaches that pole: `ContactLens.VertexDefinedOfTwoDecimals` proves it and `Valid()` carries it.
- Accommodation.NearPointPower: a zero distance is None. The app shows an infinite power there.
- ContactLens.VertexPowerMinus: its bound is stated against the five-decimal rounding of the spectacle power, not the power itself, because the app rounds the result.
- Accommodation.NearPointPowerSpec: the identity power × distance = unit constant is stated for the exact quotient; the displayed value is only within 0.000005 of it.
- ContactLens.DisplayAfterCalculate: states only that the panel can be drawn after Calculate, with two-decimal powers. Which prescription it shows follows from DisplayOfReadable together with PrintedReadBack, PrintedNotEmpty and KotlinText.IntToStringRoundTrip; those are not combined into one lemma.
- ContactLens.ContactLensCalculator.EditAxis: the `NumberFormatException` that `toInt()` throws on an over-long digit string is modelled as a returned flag, with the field left unchanged.
- `getValidatedInteger` and `getValidatedDecimal` are not part of this model. The age and distance edits take their already validated text as a parameter.
- The DataStore writes are suspending calls. They are modelled as immediate map updates.
- The Play update SDK calls (`appUpdateInfo`, `startUpdateFlowForResult`, `registerListener`, `completeUpdate`) become outcome values.
- `BuildConfig.VERSION_CODE` is a parameter.
- `Resources.getString` is a function parameter.
- Snackbar callbacks become action values.
- Logging, ads, notifications, the splash screen and the navigation are not part of this model.
- Android's permission checks (`checkSelfPermission`, `shouldShowRequestPermissionRationale`) become boolean parameters.

## Findings

| source | as written | input that shows it | evidently intended | confidence | as-written member | corrected member |
|---|---|---|---|---|---|---|
| app/src/main/java/com/kevintresuelo/clinicus/ui/screens/catalog/accommodation/AccommodationScreen.kt:437-441 | editing the distance correction leaves `showAoaComputation` set | compute the AOA with lens to blur 0 and distance correction 1, then clear the distance-correction field: the shown computation calls `"".toFloat()` and throws | hide the computation, as the lens-to-blur edit does at lines 424-429 | high; not executed | Accommodation.DistanceCorrectionEditWitness | Accommodation.AoaCalculator.EditDistanceCorrection |
