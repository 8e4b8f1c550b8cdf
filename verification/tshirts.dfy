/**
  The T-shirt size classifier: a chest measurement in centimetres mapped to
  "S", "M" or "L" by three comparisons, and the `Tshirt` facade that forwards
  to an injected classifier.
 */
module Tshirts {

  /** An injected `ITshirtSizeClassifier`. */
  type Classifier = int -> string

  predicate IsSize(r: string) {
    r == "S" || r == "M" || r == "L"
  }

  /** The order of the sizes: S before M before L. */
  function SizeRank(size: string): nat
    requires IsSize(size)
  {
    if size == "S" then 0 else if size == "M" then 1 else 2
  }

  /**
    `TshirtSizeClassifier.Size` as written: below 38 is S, strictly between
    38 and 42 is M, and everything else, the values 38 and 42 included, is L.
   */
  function Size(cms: int): (r: string)
    ensures IsSize(r)
    ensures r == "S" <==> cms < 38
    ensures r == "M" <==> 38 < cms < 42
    ensures r == "L" <==> cms == 38 || cms >= 42
  {
    if cms < 38 then "S"
    else if cms > 38 && cms < 42 then "M"
    else "L"
  }

  /** The values the tests probe, as the code classifies them. */
  lemma SizeExamples()
    ensures Size(37) == "S" && Size(40) == "M" && Size(43) == "L"
    ensures Size(38) == "L" && Size(42) == "L"
  {
  }

  /** As written, a larger measurement can get a smaller size: 38 is L but 39 is M. */
  lemma SizeNotMonotone()
    ensures 38 < 39 && SizeRank(Size(38)) > SizeRank(Size(39))
  {
  }

  /**
    The classifier the boundary tests ask for: below 38 is S, 38 through 42
    (both included) is M, above 42 is L.
   */
  function SizeCorrected(cms: int): (r: string)
    ensures IsSize(r)
    ensures r == "S" <==> cms < 38
    ensures r == "M" <==> 38 <= cms <= 42
    ensures r == "L" <==> cms > 42
  {
    if cms < 38 then "S"
    else if cms <= 42 then "M"
    else "L"
  }

  lemma SizeCorrectedExamples()
    ensures SizeCorrected(37) == "S" && SizeCorrected(40) == "M" && SizeCorrected(43) == "L"
    ensures SizeCorrected(38) == "M" && SizeCorrected(42) == "M"
  {
  }

  /** The corrected sizes never decrease as the measurement grows. */
  lemma SizeCorrectedMonotone(a: int, b: int)
    requires a <= b
    ensures SizeRank(SizeCorrected(a)) <= SizeRank(SizeCorrected(b))
  {
  }

  /** The correction changes the answer at the two boundary values and nowhere else. */
  lemma CorrectionOnlyAtBoundaries(cms: int)
    ensures Size(cms) != SizeCorrected(cms) <==> cms == 38 || cms == 42
  {
  }

  /** `Tshirt`: holds a classifier and forwards every request to it. */
  datatype Tshirt = Tshirt(classifier: Classifier) {

    function GetSize(cms: int): (r: string)
      ensures r == classifier(cms)
    {
      classifier(cms)
    }
  }

  /** The test double: answers "MOCK_SIZE" whatever the measurement. */
  const MockClassifier: Classifier := _ => "MOCK_SIZE"

  /** The facade returns what its classifier returns, the production one or the double. */
  lemma TshirtForwards(cms: int)
    ensures Tshirt(Size).GetSize(cms) == Size(cms)
    ensures Tshirt(MockClassifier).GetSize(cms) == "MOCK_SIZE"
  {
  }
}
