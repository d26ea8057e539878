/**
 * Risk banding of a classifier's positive-class probability. The same
 * conditional expression is written out three times in the prediction page,
 * once per disease; here it is defined once.
 */
module Risk {
  import opened Wrappers

  datatype Band = Low | Medium | High

  /** The label shown to the user and passed on to the suggestion prompt;
      `BandOfLabel` reads it back. */
  function Label(b: Band): (s: string)
    ensures BandOfLabel(s) == Some(b)
  {
    match b
    case Low => "Low Risk"
    case Medium => "Medium Risk"
    case High => "High Risk"
  }

  /** Position of a band in the order Low < Medium < High. */
  function Rank(b: Band): (n: nat)
    ensures n <= 2
  {
    match b
    case Low => 0
    case Medium => 1
    case High => 2
  }

  /** `'Low Risk' if r < 0.3 else 'Medium Risk' if 0.3 <= r < 0.7 else 'High Risk'`.
      The score is an exact real; 0.3 and 0.7 are the exact decimals. */
  function Classify(score: real): (b: Band)
    ensures b == Low <==> score < 0.3
    ensures b == Medium <==> 0.3 <= score < 0.7
    ensures b == High <==> 0.7 <= score
  {
    if score < 0.3 then Low
    else if 0.3 <= score && score < 0.7 then Medium
    else High
  }

  /** The banding without the redundant `0.3 <=` guard. */
  function ClassifyByThresholds(score: real): Band
  {
    if score < 0.3 then Low else if score < 0.7 then Medium else High
  }

  /** The `0.3 <= r` guard of the middle branch never changes the band. */
  lemma GuardRedundant(score: real)
    ensures Classify(score) == ClassifyByThresholds(score)
  {
  }

  /** Every score gets exactly one of the three label strings. */
  lemma LabelOfScore(score: real)
    ensures Label(Classify(score)) == "Low Risk" <==> score < 0.3
    ensures Label(Classify(score)) == "Medium Risk" <==> 0.3 <= score < 0.7
    ensures Label(Classify(score)) == "High Risk" <==> 0.7 <= score
  {
  }

  /** Exactly 0.3 is Medium, exactly 0.7 is High. */
  lemma Boundaries()
    ensures Classify(0.3) == Medium
    ensures Classify(0.7) == High
    ensures forall r: real :: r < 0.3 ==> Classify(r) == Low
  {
  }

  /** A higher score never gets a lower band. */
  lemma Monotone(r1: real, r2: real)
    requires r1 <= r2
    ensures Rank(Classify(r1)) <= Rank(Classify(r2))
  {
  }

  /** The band a label names, if any. */
  function BandOfLabel(s: string): (b: Option<Band>)
  {
    if s == "Low Risk" then Some(Low)
    else if s == "Medium Risk" then Some(Medium)
    else if s == "High Risk" then Some(High)
    else None
  }

  /** No label contains a question mark. */
  lemma LabelHasNoQuestionMark(b: Band)
    ensures '?' !in Label(b)
  {
  }
}
