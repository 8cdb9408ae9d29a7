/** `calculateBMI` and the BMI form's reset button. The arithmetic is done
    on exact reals; NaN and the infinities that `parseFloat` can return are
    kept, because the input guard and the category chain treat them in ways
    of their own. */
module Bmi {

  /** A JavaScript number as `parseFloat` can produce it. */
  datatype Number = NaN | PosInfinity | NegInfinity | Finite(value: real)

  /** `x <= 0`. */
  predicate AtMostZero(x: Number) {
    match x
    case NaN => false
    case PosInfinity => false
    case NegInfinity => true
    case Finite(v) => v <= 0.0
  }

  /** `x < bound`. */
  predicate Below(x: Number, bound: real) {
    match x
    case NaN => false
    case PosInfinity => false
    case NegInfinity => true
    case Finite(v) => v < bound
  }

  /** `x >= bound`. */
  predicate AtLeast(x: Number, bound: real) {
    match x
    case NaN => false
    case PosInfinity => true
    case NegInfinity => false
    case Finite(v) => v >= bound
  }

  predicate PositiveOrInfinite(x: Number) {
    x.PosInfinity? || (x.Finite? && x.value > 0.0)
  }

  /** The guard at the top of `calculateBMI`: either input NaN or not
      greater than zero. It lets through exactly the positive inputs,
      positive infinity included. */
  predicate InputsRejected(weight: Number, height: Number)
    ensures !InputsRejected(weight, height) <==> PositiveOrInfinite(weight) && PositiveOrInfinite(height)
  {
    weight.NaN? || height.NaN? || AtMostZero(weight) || AtMostZero(height)
  }

  /** `weight / (heightM * heightM)` with `heightM = heightCm / 100`, for
      inputs the guard admits. Finite inputs give a positive finite value
      (see BmiIsWeightPerSquareMetre); infinite weight over a finite height
      is infinite; a finite weight over infinite height is 0; both infinite
      give NaN. */
  function BmiValue(weight: Number, heightCm: Number): (bmi: Number)
    requires !InputsRejected(weight, heightCm)
    ensures weight.Finite? && heightCm.Finite? ==> bmi.Finite? && bmi.value > 0.0
    ensures weight.PosInfinity? && heightCm.Finite? ==> bmi == PosInfinity
    ensures weight.Finite? && heightCm.PosInfinity? ==> bmi == Finite(0.0)
    ensures weight.PosInfinity? && heightCm.PosInfinity? ==> bmi == NaN
  {
    if weight.Finite? && heightCm.Finite? then
      var heightM := heightCm.value / 100.0;
      Finite(weight.value / (heightM * heightM))
    else if heightCm.Finite? then
      PosInfinity
    else if weight.Finite? then
      Finite(0.0)
    else
      NaN
  }

  /** For finite inputs the BMI is the weight per square metre of height:
      multiplied by the height in metres squared it gives the weight back. */
  lemma BmiIsWeightPerSquareMetre(weight: real, heightCm: real)
    requires weight > 0.0 && heightCm > 0.0
    ensures var bmi := BmiValue(Finite(weight), Finite(heightCm)).value;
      bmi * ((heightCm / 100.0) * (heightCm / 100.0)) == weight
  {
    var m := heightCm / 100.0;
    PositiveSquare(m);
    assert BmiValue(Finite(weight), Finite(heightCm)).value == weight / (m * m);
    QuotientTimesDivisor(weight, m * m);
  }

  lemma PositiveSquare(m: real)
    requires m > 0.0
    ensures m * m > 0.0
  {
  }

  lemma QuotientTimesDivisor(a: real, b: real)
    requires b > 0.0
    ensures a / b * b == a
  {
  }

  datatype Category = Underweight | Normal | Overweight | Obese

  /** The table of categories: each is a half-open band, closed below. */
  predicate InBand(c: Category, x: real) {
    match c
    case Underweight => x < 18.5
    case Normal => 18.5 <= x < 25.0
    case Overweight => 25.0 <= x < 30.0
    case Obese => 30.0 <= x
  }

  /** The if/else chain of `calculateBMI`, on the unrounded value. A finite
      value gets the band it lies in; NaN fails every comparison and falls
      through to the last branch. */
  function CategoryOf(bmi: Number): (c: Category)
    ensures bmi.Finite? ==> InBand(c, bmi.value)
    ensures bmi.NaN? ==> c == Obese
  {
    if Below(bmi, 18.5) then Underweight
    else if AtLeast(bmi, 18.5) && Below(bmi, 25.0) then Normal
    else if AtLeast(bmi, 25.0) && Below(bmi, 30.0) then Overweight
    else Obese
  }

  function Rank(c: Category): nat {
    match c
    case Underweight => 0
    case Normal => 1
    case Overweight => 2
    case Obese => 3
  }

  /** A finite value lies in exactly one band, and the chain picks that one. */
  lemma CategoryIsBand(x: real, c: Category)
    ensures CategoryOf(Finite(x)) == c <==> InBand(c, x)
  {
  }

  /** A larger value never gets a lower category. */
  lemma CategoryMonotonic(x: real, y: real)
    requires x <= y
    ensures Rank(CategoryOf(Finite(x))) <= Rank(CategoryOf(Finite(y)))
  {
  }

  /** NaN fails every comparison and so falls through to the last branch;
      infinite values land at the ends of the table. */
  lemma CategoryOfNonFinite()
    ensures CategoryOf(NaN) == Obese && CategoryOf(PosInfinity) == Obese
    ensures CategoryOf(NegInfinity) == Underweight
  {
  }

  /** The values at and next to the boundaries of the table. */
  lemma CategoryBoundaries()
    ensures CategoryOf(Finite(18.5)) == Normal && CategoryOf(Finite(24.99)) == Normal
    ensures CategoryOf(Finite(25.0)) == Overweight && CategoryOf(Finite(30.0)) == Obese
    ensures CategoryOf(Finite(18.49)) == Underweight && CategoryOf(Finite(29.99)) == Overweight
  {
  }

  /** `toFixed(1)` on an exact non-negative value: the nearest multiple of
      a tenth, the larger one when two are equally near. A BMI is never
      negative, so the sign handling of `toFixed` is not needed here. */
  function RoundToTenth(x: real): (r: real)
    requires 0.0 <= x
    ensures (r * 10.0).Floor as real == r * 10.0
    ensures r - 0.05 <= x < r + 0.05
  {
    var n := (x * 10.0 + 0.5).Floor;
    n as real / 10.0
  }

  /** What `bmiRounded` shows: `toFixed(1)` of a finite non-negative value, a whole
      number of tenths within half a tenth of it, and "NaN" or "Infinity"
      otherwise. */
  function ToFixed1(x: Number): (r: Number)
    requires x.Finite? ==> x.value >= 0.0
    ensures r.Finite? <==> x.Finite?
    ensures x.Finite? ==> (r.value * 10.0).Floor as real == r.value * 10.0
    ensures x.Finite? ==> r.value - 0.05 <= x.value < r.value + 0.05
    ensures !x.Finite? ==> r == x
  {
    if x.Finite? then Finite(RoundToTenth(x.value)) else x
  }

  /** The category is decided on the unrounded value while the rounded one
      is shown, so every BMI in [18.45, 18.5) is displayed as 18.5 and
      labelled Underweight, although 18.5 itself is Normal. */
  lemma DisplayedBoundaryMismatch(x: real)
    requires 18.45 <= x < 18.5
    ensures ToFixed1(Finite(x)) == Finite(18.5)
    ensures CategoryOf(Finite(x)) == Underweight && CategoryOf(Finite(18.5)) == Normal
  {
    assert 185.0 <= x * 10.0 + 0.5 < 186.0;
    assert (x * 10.0 + 0.5).Floor == 185;
  }

  /** Three worked examples: 70 kg at 175 cm shows 22.9 and is
      Normal; 45 kg at 170 cm shows 15.6 and is Underweight; 110 kg at 170 cm
      shows 38.1 and is Obese. */
  lemma WorkedExamples()
    ensures ToFixed1(BmiValue(Finite(70.0), Finite(175.0))) == Finite(22.9)
    ensures CategoryOf(BmiValue(Finite(70.0), Finite(175.0))) == Normal
    ensures ToFixed1(BmiValue(Finite(45.0), Finite(170.0))) == Finite(15.6)
    ensures CategoryOf(BmiValue(Finite(45.0), Finite(170.0))) == Underweight
    ensures ToFixed1(BmiValue(Finite(110.0), Finite(170.0))) == Finite(38.1)
    ensures CategoryOf(BmiValue(Finite(110.0), Finite(170.0))) == Obese
  {
    assert BmiValue(Finite(70.0), Finite(175.0)) == Finite(70.0 / 3.0625);
    assert (70.0 / 3.0625 * 10.0 + 0.5).Floor == 229;
    assert BmiValue(Finite(45.0), Finite(170.0)) == Finite(45.0 / 2.89);
    assert (45.0 / 2.89 * 10.0 + 0.5).Floor == 156;
    assert BmiValue(Finite(110.0), Finite(170.0)) == Finite(110.0 / 2.89);
    assert (110.0 / 2.89 * 10.0 + 0.5).Floor == 381;
  }

  /** Positive infinity passes the guard: "Infinity" as a weight shows
      "Infinity" and Obese, and as a height shows 0.0 and Underweight. */
  lemma InfinitePassesGuard(w: real, h: real)
    requires w > 0.0 && h > 0.0
    ensures !InputsRejected(PosInfinity, Finite(h)) && CategoryOf(BmiValue(PosInfinity, Finite(h))) == Obese
    ensures !InputsRejected(Finite(w), PosInfinity) && ToFixed1(BmiValue(Finite(w), PosInfinity)) == Finite(0.0)
    ensures CategoryOf(BmiValue(Finite(w), PosInfinity)) == Underweight
  {
    assert (0.0 * 10.0 + 0.5).Floor == 0;
  }

  function Label(c: Category): string {
    match c
    case Underweight => "Underweight"
    case Normal => "Normal"
    case Overweight => "Overweight"
    case Obese => "Obese"
  }

  /** The advice `calculateBMI` writes for each category. */
  const UnderweightAdvice: string := "You may need to gain weight. Consider consulting with our healthcare professionals for personalized advice."
  const NormalAdvice: string := "You have a healthy weight. Keep up the good work with a balanced diet and regular exercise!"
  const OverweightAdvice: string := "You may benefit from weight management. Our team can help you develop a healthy eating and exercise plan."
  const ObeseAdvice: string := "Your health may be at risk. We recommend scheduling a consultation with our healthcare professionals."

  function Advice(c: Category): string {
    match c
    case Underweight => UnderweightAdvice
    case Normal => NormalAdvice
    case Overweight => OverweightAdvice
    case Obese => ObeseAdvice
  }

  function StyleClass(c: Category): string {
    match c
    case Underweight => "underweight"
    case Normal => "normal"
    case Overweight => "overweight"
    case Obese => "obese"
  }

  /** The text written to `#bmi-category`. */
  function CategoryLine(c: Category): string {
    "Category: " + Label(c)
  }

  /** The class attribute written to `#bmi-result`. */
  function ResultClass(c: Category): string {
    "bmi-result " + StyleClass(c)
  }

  /** The statement form of `CategoryOf`: the if/else chain as
      `calculateBMI` runs it, picking the branch that sets `category`,
      `message` and `categoryClass`. `CategoryOf` is the same chain as an
      expression, for use in contracts and lemmas. */
  method Classify(bmi: Number) returns (category: Category)
    ensures category == CategoryOf(bmi)
    ensures bmi.Finite? ==> InBand(category, bmi.value)
  {
    if Below(bmi, 18.5) {
      category := Underweight;
    } else if AtLeast(bmi, 18.5) && Below(bmi, 25.0) {
      category := Normal;
    } else if AtLeast(bmi, 25.0) && Below(bmi, 30.0) {
      category := Overweight;
    } else {
      category := Obese;
    }
  }

  /** The result panel `#bmi-result` and the three elements inside it. */
  class BmiResult {
    var visible: bool          // style.display is 'block' rather than 'none'
    var number: Number         // the number #bmi-number spells
    var categoryText: string   // text of #bmi-category
    var message: string        // text of #bmi-message
    var className: string      // class attribute of #bmi-result

    /** The panel as the page loads it: hidden and empty. */
    constructor ()
      ensures !visible && categoryText == [] && message == [] && className == "bmi-result"
    {
      visible := false;
      number := NaN;
      categoryText := [];
      message := [];
      className := "bmi-result";
    }

    /** `calculateBMI` on already parsed inputs. `alerted` is true when the
        guard raises its alert; nothing on the panel is written then. */
    method Calculate(weight: Number, heightCm: Number) returns (alerted: bool)
      modifies this
      ensures alerted <==> InputsRejected(weight, heightCm)
      ensures alerted ==> unchanged(this)
      ensures !alerted ==>
        var bmi := BmiValue(weight, heightCm);
        && visible
        && number == ToFixed1(bmi)
        && categoryText == CategoryLine(CategoryOf(bmi))
        && message == Advice(CategoryOf(bmi))
        && className == ResultClass(CategoryOf(bmi))
    {
      if InputsRejected(weight, heightCm) {
        return true;
      }
      var bmi := BmiValue(weight, heightCm);
      var rounded := ToFixed1(bmi);
      var category := Classify(bmi);
      number := rounded;
      categoryText := CategoryLine(category);
      message := Advice(category);
      visible := true;
      className := ResultClass(category);
      alerted := false;
    }

    /** The reset button: the form is reset and the panel hidden; its texts
        stay as they were. */
    method ResetClicked()
      modifies this
      ensures !visible
      ensures number == old(number) && categoryText == old(categoryText)
      ensures message == old(message) && className == old(className)
    {
      visible := false;
    }
  }

  /** Calculating twice with the same inputs shows what calculating once
      shows. */
  method CalculateTwice(panel: BmiResult, weight: Number, heightCm: Number)
    modifies panel
    ensures !InputsRejected(weight, heightCm) ==>
      var bmi := BmiValue(weight, heightCm);
      && panel.visible
      && panel.number == ToFixed1(bmi)
      && panel.categoryText == CategoryLine(CategoryOf(bmi))
      && panel.message == Advice(CategoryOf(bmi))
      && panel.className == ResultClass(CategoryOf(bmi))
    ensures InputsRejected(weight, heightCm) ==> unchanged(panel)
  {
    var first := panel.Calculate(weight, heightCm);
    var second := panel.Calculate(weight, heightCm);
  }
}
