/**
 * Feature-vector assembly for the three classifiers. A stored record is a
 * row of column values; each vector is an ordered selection of row columns,
 * plus the patient's age and sex for some models.
 */
module Features {
  import opened Wrappers
  import Encodings

  /** A column value as the database driver returns it. */
  datatype Value = Integer(i: int) | Real(r: real) | Str(s: string) | Null

  /** Where one entry of a feature vector comes from. */
  datatype Slot = Column(index: nat) | Age | Sex

  /** `TypeError` on a record that was not found (`None[...]`), or
      `IndexError` on a row too short for a column index. */
  datatype FeatureError = MissingRow | IndexOutOfRange(index: nat)

  // Column counts of the tables, as created by the schema.
  const PatientColumns: nat := 8      // id, name, age, gender, address, phone_number, email, created_at
  const DiabetesColumns: nat := 10    // id, patient_id, 7 measurements, created_at
  const HeartColumns: nat := 12       // id, patient_id, 10 measurements
  const ParkinsonsColumns: nat := 25  // id, patient_id, 22 measurements, created_at

  predicate Fits(slot: Slot, width: nat)
  {
    slot.Column? ==> slot.index < width
  }

  function Pick<T>(slot: Slot, row: seq<T>, age: T, sex: T): T
    requires Fits(slot, |row|)
  {
    match slot
    case Column(i) => row[i]
    case Age => age
    case Sex => sex
  }

  /** Evaluate a list of slots left to right, as a Python list literal of
      subscripts is evaluated; the first out-of-range column raises. */
  function Assemble<T>(layout: seq<Slot>, row: seq<T>, age: T, sex: T): (r: Result<seq<T>, FeatureError>)
    ensures r.Success? <==> forall k :: 0 <= k < |layout| ==> Fits(layout[k], |row|)
    ensures r.Success? ==> |r.value| == |layout|
    ensures r.Success? ==> forall k :: 0 <= k < |layout| ==> r.value[k] == Pick(layout[k], row, age, sex)
    ensures r.Failure? ==> r.error.IndexOutOfRange? && Column(r.error.index) in layout
                           && r.error.index >= |row|
  {
    if |layout| == 0 then Success([])
    else if !Fits(layout[0], |row|) then Failure(IndexOutOfRange(layout[0].index))
    else
      match Assemble(layout[1..], row, age, sex)
      case Failure(e) => Failure(e)
      case Success(rest) => Success([Pick(layout[0], row, age, sex)] + rest)
  }

  /** Python's `row[lo:hi]` for non-negative bounds: clamped, never raises. */
  function Slice<T>(row: seq<T>, lo: nat, hi: nat): (r: seq<T>)
    ensures |r| == if hi <= lo || |row| <= lo then 0
                   else if |row| < hi then |row| - lo else hi - lo
    ensures forall k :: 0 <= k < |r| ==> r[k] == row[lo + k]
  {
    if hi <= lo || |row| <= lo then [] else if |row| < hi then row[lo..] else row[lo..hi]
  }

  /** The diabetes vector: seven measurements, then age. */
  const DiabetesLayout: seq<Slot> :=
    [Column(2), Column(3), Column(4), Column(5), Column(6), Column(7), Column(8), Age]

  /** The heart-disease vector: age, eight measurements, sex, two more. */
  const HeartLayout: seq<Slot> :=
    [Age, Column(2), Column(3), Column(4), Column(5), Column(6), Column(7), Column(8),
     Column(9), Sex, Column(10), Column(11)]

  /** The Parkinson's vector `row[2:24]` as a selection of columns. */
  const ParkinsonsLayout: seq<Slot> := seq(22, k requires 0 <= k < 22 => Column(k + 2))

  /** The layouts have the shapes the three models were trained on. */
  lemma LayoutShapes()
    ensures |DiabetesLayout| == 8 && DiabetesLayout[7] == Age
    ensures forall k :: 0 <= k < 7 ==> DiabetesLayout[k] == Column(k + 2)
    ensures |HeartLayout| == 12 && HeartLayout[0] == Age && HeartLayout[9] == Sex
    ensures forall k :: 1 <= k <= 8 ==> HeartLayout[k] == Column(k + 1)
    ensures HeartLayout[10] == Column(10) && HeartLayout[11] == Column(11)
    ensures |ParkinsonsLayout| == 22
    ensures forall k :: 0 <= k < 22 ==> ParkinsonsLayout[k] == Column(k + 2)
  {
  }

  /** No vector reads the record id (column 0) or the patient id (column 1). */
  lemma NoIdentifierColumns()
    ensures forall s :: s in DiabetesLayout ==> s.Column? ==> s.index >= 2
    ensures forall s :: s in HeartLayout ==> s.Column? ==> s.index >= 2
    ensures forall s :: s in ParkinsonsLayout ==> s.Column? ==> s.index >= 2
  {
  }

  /** The diabetes layout fits exactly the rows with at least nine columns,
      and the heart layout those with at least twelve. */
  lemma LayoutWidths(width: nat)
    ensures (forall k :: 0 <= k < |DiabetesLayout| ==> Fits(DiabetesLayout[k], width)) <==> width >= 9
    ensures (forall k :: 0 <= k < |HeartLayout| ==> Fits(HeartLayout[k], width)) <==> width >= 12
  {
    LayoutShapes();
    assert !Fits(DiabetesLayout[6], width) <== width < 9;
    assert !Fits(HeartLayout[11], width) <== width < 12;
  }

  /** On a row of at least 24 columns the Parkinson's slice is the
      Parkinson's layout. */
  lemma ParkinsonsSliceIsLayout<T>(row: seq<T>, age: T, sex: T)
    requires |row| >= 24
    ensures Assemble(ParkinsonsLayout, row, age, sex) == Success(Slice(row, 2, 24))
  {
    var r := Assemble(ParkinsonsLayout, row, age, sex);
    assert forall k :: 0 <= k < |ParkinsonsLayout| ==> Fits(ParkinsonsLayout[k], |row|);
    assert r.value == Slice(row, 2, 24);
  }

  /** The three model inputs, before the `float` conversion. */
  datatype Inputs = Inputs(diabetes: seq<Value>, heart: seq<Value>, parkinsons: seq<Value>)

  /** Age is column 2 of the patient row; sex is the encoded column 3. */
  function PatientAgeAndSex(patient: Option<seq<Value>>): (r: Result<(Value, Value), FeatureError>)
    ensures r.Success? <==> patient.Some? && |patient.value| >= 4
    ensures r.Success? ==> r.value.0 == patient.value[2]
    ensures r.Success? ==> r.value.1 in {Str("0"), Str("1")}
    ensures r.Success? ==> (r.value.1 == Str("1") <==> patient.value[3] == Str("Female"))
  {
    match patient
    case None => Failure(MissingRow)
    case Some(row) =>
      if |row| <= 2 then Failure(IndexOutOfRange(2))
      else if |row| <= 3 then Failure(IndexOutOfRange(3))
      else
        // Only a text column can equal the string 'Female'.
        var gender := if row[3].Str? then row[3].s else "";
        Success((row[2], Str(Encodings.EncodeSex(gender))))
  }

  /** The three vectors, assembled in the order the prediction page builds
      them; the first missing record or short row stops the page. */
  function PredictionInputs(patient: Option<seq<Value>>, diabetesRow: Option<seq<Value>>,
                            heartRow: Option<seq<Value>>, parkinsonsRow: Option<seq<Value>>)
    : (r: Result<Inputs, FeatureError>)
    ensures r.Success? <==> (patient.Some? && |patient.value| >= 4
                             && diabetesRow.Some? && |diabetesRow.value| >= 9
                             && heartRow.Some? && |heartRow.value| >= 12
                             && parkinsonsRow.Some?)
    ensures r.Success? ==> |r.value.diabetes| == 8 && |r.value.heart| == 12
                           && |r.value.parkinsons| <= 22
    ensures r.Success? && |parkinsonsRow.value| >= 24 ==> |r.value.parkinsons| == 22
    ensures r.Success? ==> r.value.diabetes[7] == patient.value[2] && r.value.heart[0] == patient.value[2]
    ensures r.Success? ==> (r.value.heart[9] == Str("1") <==> patient.value[3] == Str("Female"))
  {
    LayoutShapes();
    match PatientAgeAndSex(patient)
    case Failure(e) => Failure(e)
    case Success((age, sex)) =>
      if diabetesRow.None? then Failure(MissingRow) else
      LayoutWidths(|diabetesRow.value|);
      match Assemble(DiabetesLayout, diabetesRow.value, age, sex)
      case Failure(e) => Failure(e)
      case Success(diabetes) =>
        if heartRow.None? then Failure(MissingRow) else
        LayoutWidths(|heartRow.value|);
        match Assemble(HeartLayout, heartRow.value, age, sex)
        case Failure(e) => Failure(e)
        case Success(heart) =>
          if parkinsonsRow.None? then Failure(MissingRow) else
          Success(Inputs(diabetes, heart, Slice(parkinsonsRow.value, 2, 24)))
  }

  /** Records of the widths the schema creates always give full vectors,
      each entry taken from the column the models expect. */
  lemma SchemaRowsGiveFullVectors(patient: seq<Value>, diabetesRow: seq<Value>,
                                  heartRow: seq<Value>, parkinsonsRow: seq<Value>)
    requires |patient| == PatientColumns && |diabetesRow| == DiabetesColumns
    requires |heartRow| == HeartColumns && |parkinsonsRow| == ParkinsonsColumns
    ensures var r := PredictionInputs(Some(patient), Some(diabetesRow), Some(heartRow), Some(parkinsonsRow));
            && r.Success?
            && |r.value.diabetes| == 8 && |r.value.heart| == 12 && |r.value.parkinsons| == 22
            && (forall k :: 0 <= k < 7 ==> r.value.diabetes[k] == diabetesRow[k + 2])
            && r.value.diabetes[7] == patient[2]
            && r.value.heart[0] == patient[2]
            && (forall k :: 1 <= k <= 8 ==> r.value.heart[k] == heartRow[k + 1])
            && (r.value.heart[9] == Str("1") <==> patient[3] == Str("Female"))
            && r.value.heart[10] == heartRow[10] && r.value.heart[11] == heartRow[11]
            && (forall k :: 0 <= k < 22 ==> r.value.parkinsons[k] == parkinsonsRow[k + 2])
  {
    LayoutShapes();
    var (age, sex) := PatientAgeAndSex(Some(patient)).value;
    LayoutWidths(|diabetesRow|);
    LayoutWidths(|heartRow|);
    var d := Assemble(DiabetesLayout, diabetesRow, age, sex);
    var h := Assemble(HeartLayout, heartRow, age, sex);
    assert d.Success? && h.Success?;
    assert h.value[9] == sex;
  }

  /** The stored records, each table keyed by the text the page looks it up
      with: the patients table by its `id` column, the health tables by their
      `patient_id` column (the row `fetchone` returns). */
  datatype Store = Store(patients: map<string, seq<Value>>, diabetes: map<string, seq<Value>>,
                         heart: map<string, seq<Value>>, parkinsons: map<string, seq<Value>>)

  /** A point lookup: the row, or `None` when no row matches. */
  function Lookup(table: map<string, seq<Value>>, key: string): (r: Option<seq<Value>>)
    ensures r.Some? <==> key in table
    ensures r.Some? ==> r.value == table[key]
  {
    if key in table then Some(table[key]) else None
  }

  /** The prediction page as written, after Submit: nothing happens (`None`)
      when the patient id field is empty; otherwise the patient row is looked
      up with the name field and the three health records with the patient
      id field. */
  function PageInputsAsWritten(store: Store, idField: string, nameField: string)
    : (r: Option<Result<Inputs, FeatureError>>)
    ensures r.None? <==> idField == ""
    ensures idField != "" && nameField !in store.patients ==> r == Some(Failure(MissingRow))
    ensures nameField == idField ==> r == PageInputs(store, idField, nameField)
  {
    if idField == "" then None
    else Some(PredictionInputs(Lookup(store.patients, nameField), Lookup(store.diabetes, idField),
                               Lookup(store.heart, idField), Lookup(store.parkinsons, idField)))
  }

  /** Schema-width records for patient `7` entered with the name `Alice`
      stop the page as written, because no patient has the id `Alice`, and
      give the three vectors on the intended page. */
  lemma AsWrittenMissesPatient(p: seq<Value>, d: seq<Value>, h: seq<Value>, k: seq<Value>)
    requires |p| == PatientColumns && |d| == DiabetesColumns
    requires |h| == HeartColumns && |k| == ParkinsonsColumns
    ensures var store := Store(map["7" := p], map["7" := d], map["7" := h], map["7" := k]);
            && PageInputsAsWritten(store, "7", "Alice") == Some(Failure(MissingRow))
            && PageInputs(store, "7", "Alice").Some?
            && PageInputs(store, "7", "Alice").value.Success?
  {
    var store := Store(map["7" := p], map["7" := d], map["7" := h], map["7" := k]);
    PageInputsOnSchemaRows(store, "7", "Alice");
  }

  /** The prediction page as intended, after Submit: nothing happens when the
      patient id field is empty; otherwise every record, the patient row
      included, is looked up with the patient id field. */
  function PageInputs(store: Store, idField: string, nameField: string)
    : (r: Option<Result<Inputs, FeatureError>>)
    ensures r.None? <==> idField == ""
    ensures r.Some? ==>
              (r.value.Success? <==> (idField in store.patients && |store.patients[idField]| >= 4
                                      && idField in store.diabetes && |store.diabetes[idField]| >= 9
                                      && idField in store.heart && |store.heart[idField]| >= 12
                                      && idField in store.parkinsons))
    ensures r.Some? && r.value.Success? ==>
              |r.value.value.diabetes| == 8 && |r.value.value.heart| == 12
    ensures r.Some? && r.value.Success? ==>
              r.value.value.diabetes[7] == store.patients[idField][2]
              && r.value.value.heart[0] == store.patients[idField][2]
              && (r.value.value.heart[9] == Str("1") <==> store.patients[idField][3] == Str("Female"))
  {
    if idField == "" then None
    else Some(PredictionInputs(Lookup(store.patients, idField), Lookup(store.diabetes, idField),
                               Lookup(store.heart, idField), Lookup(store.parkinsons, idField)))
  }

  /** Schema-width records stored under a non-empty patient id always give
      the three full vectors on the intended page. */
  lemma PageInputsOnSchemaRows(store: Store, idField: string, nameField: string)
    requires idField != ""
    requires idField in store.patients && |store.patients[idField]| == PatientColumns
    requires idField in store.diabetes && |store.diabetes[idField]| == DiabetesColumns
    requires idField in store.heart && |store.heart[idField]| == HeartColumns
    requires idField in store.parkinsons && |store.parkinsons[idField]| == ParkinsonsColumns
    ensures PageInputs(store, idField, nameField).Some?
    ensures PageInputs(store, idField, nameField).value.Success?
    ensures |PageInputs(store, idField, nameField).value.value.parkinsons| == 22
  {
    SchemaRowsGiveFullVectors(store.patients[idField], store.diabetes[idField],
                              store.heart[idField], store.parkinsons[idField]);
  }
}
