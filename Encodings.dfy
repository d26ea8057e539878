/**
 * The binary text encodings used by the forms: Yes/No answers stored in the
 * heart-disease table and the patient's sex fed to the heart-disease model.
 */
module Encodings {

  /** The text values that pass `CHECK (x IN (0,1))` once SQLite's integer
      column affinity has turned them into numbers. */
  const BinaryColumnValues: set<string> := {"0", "1"}

  /** `'1' if answer == 'Yes' else '0'`. */
  function EncodeYesNo(answer: string): (v: string)
    ensures v in BinaryColumnValues && |v| == 1
    ensures v == "1" <==> answer == "Yes"
    ensures v == "0" <==> answer != "Yes"
  {
    if answer == "Yes" then "1" else "0"
  }

  /** `'1' if gender == 'Female' else '0'`. */
  function EncodeSex(gender: string): (v: string)
    ensures v in BinaryColumnValues && |v| == 1
    ensures v == "1" <==> gender == "Female"
    ensures v == "0" <==> gender != "Female"
  {
    if gender == "Female" then "1" else "0"
  }

  /** Reading a stored flag back as a truth value. */
  function FlagIsSet(v: string): bool
  {
    v == "1"
  }

  /** The four flags of a heart-disease record, in the order the table
      stores them: anaemia, diabetes, high blood pressure, smoking. */
  function HeartFlags(anaemia: string, diabetes: string, highBloodPressure: string, smoking: string)
    : (flags: seq<string>)
    ensures |flags| == 4
    ensures forall k :: 0 <= k < 4 ==> flags[k] in BinaryColumnValues && flags[k] != ""
    ensures FlagIsSet(flags[0]) == (anaemia == "Yes")
    ensures FlagIsSet(flags[1]) == (diabetes == "Yes")
    ensures FlagIsSet(flags[2]) == (highBloodPressure == "Yes")
    ensures FlagIsSet(flags[3]) == (smoking == "Yes")
  {
    [EncodeYesNo(anaemia), EncodeYesNo(diabetes), EncodeYesNo(highBloodPressure), EncodeYesNo(smoking)]
  }
}
