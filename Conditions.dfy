/**
 * Condition detection for patient-specific chatbot queries: which of the
 * three known conditions a query mentions, and which health-record table is
 * consulted for it.
 */
module Conditions {
  import opened Wrappers
  import opened Text

  /** The conditions, in the order they are tried. */
  const ConditionList: seq<string> := ["diabetic", "heart disease", "parkinsons"]

  /** The three conditions are distinct, non-empty and already lower case. */
  lemma ConditionListShape()
    ensures |ConditionList| == 3
    ensures forall i, j :: 0 <= i < j < |ConditionList| ==> ConditionList[i] != ConditionList[j]
    ensures forall k :: 0 <= k < |ConditionList| ==> |ConditionList[k]| > 0
    ensures forall k :: 0 <= k < |ConditionList| ==> Lower(ConditionList[k]) == ConditionList[k]
  {
    forall k | 0 <= k < |ConditionList| ensures Lower(ConditionList[k]) == ConditionList[k] {
      ConditionsAreLower(k);
    }
  }

  /** `condition.lower() in query.lower()`. */
  predicate Mentions(query: string, condition: string): (b: bool)
    ensures b <==> exists i: nat :: OccursAt(Lower(query), Lower(condition), i)
  {
    ContainsIff(Lower(query), Lower(condition));
    Contains(Lower(query), Lower(condition))
  }

  /** Index of the first condition at or after `from` that the query mentions. */
  function FirstMentionFrom(conditions: seq<string>, query: string, from: nat): (r: Option<nat>)
    requires from <= |conditions|
    ensures r.Some? ==> from <= r.value < |conditions| && Mentions(query, conditions[r.value])
    ensures r.Some? ==> forall j :: from <= j < r.value ==> !Mentions(query, conditions[j])
    ensures r.None? <==> forall j :: from <= j < |conditions| ==> !Mentions(query, conditions[j])
    decreases |conditions| - from
  {
    if from == |conditions| then None
    else if Mentions(query, conditions[from]) then Some(from)
    else FirstMentionFrom(conditions, query, from + 1)
  }

  /** `identify_condition_in_query`: the first listed condition the query
      mentions, or `None`. */
  function IdentifyCondition(query: string): (r: Option<string>)
    ensures r.None? <==> forall c :: c in ConditionList ==> !Mentions(query, c)
    ensures r.Some? ==> r.value in ConditionList && Contains(Lower(query), r.value)
  {
    match FirstMentionFrom(ConditionList, query, 0)
    case None => None
    case Some(k) =>
      ConditionsAreLower(k);
      Some(ConditionList[k])
  }

  /** The listed conditions are already lower case. */
  lemma ConditionsAreLower(k: nat)
    requires k < |ConditionList|
    ensures Lower(ConditionList[k]) == ConditionList[k]
  {
    var c := ConditionList[k];
    forall i | 0 <= i < |c| ensures LowerChar(c[i]) == c[i] {
      assert c[i] in "abcdefghijklmnopqrstuvwxyz ";
    }
  }

  /** First match wins: when condition `k` is returned, no earlier condition
      is mentioned by the query. */
  lemma FirstMatchWins(query: string, k: nat)
    requires k < |ConditionList|
    requires IdentifyCondition(query) == Some(ConditionList[k])
    ensures Mentions(query, ConditionList[k])
    ensures forall j :: 0 <= j < k ==> !Mentions(query, ConditionList[j])
  {
    var i := FirstMentionFrom(ConditionList, query, 0).value;
    assert ConditionList[i] == ConditionList[k];
    assert i == k;
  }

  /** A query and its lower-cased form identify the same condition. */
  lemma IdentifyIgnoresCase(query: string)
    ensures IdentifyCondition(Lower(query)) == IdentifyCondition(query)
  {
    LowerIdempotent(query);
    assert forall c :: Mentions(Lower(query), c) == Mentions(query, c);
  }

  /** The record tables the chatbot can consult. */
  datatype Table = DiabetesTable | HeartDiseaseTable | ParkinsonsTable

  /** `condition_to_db`. */
  const ConditionToTable: map<string, Table> :=
    map["diabetic" := DiabetesTable, "heart disease" := HeartDiseaseTable,
        "parkinsons" := ParkinsonsTable]

  /** `condition_to_db` has exactly the listed conditions as keys and sends
      different conditions to different tables. */
  lemma ConditionTablesCover()
    ensures forall c :: c in ConditionToTable <==> c in ConditionList
    ensures forall c1, c2 ::
              (c1 in ConditionToTable && c2 in ConditionToTable
               && ConditionToTable[c1] == ConditionToTable[c2]) ==> c1 == c2
  {
  }

  /** Every identified condition is a key of `condition_to_db`, so the
      membership test before the lookup passes whenever a condition was found. */
  lemma IdentifiedConditionHasTable(query: string)
    requires IdentifyCondition(query).Some?
    ensures IdentifyCondition(query).value in ConditionToTable
    ensures |IdentifyCondition(query).value| > 0
  {
  }

  /** What the chatbot does with a patient-specific query. */
  datatype Reply =
    | Generate(table: Table)        // fetched a record; reply from the generator
    | NoData(condition: string)     // "Sorry, no data found for Patient ID ..."
    | UnknownCondition              // "Sorry, I'm not sure which condition ..."

  /** The dispatch of a patient-specific query, where `hasRecord` is the set
      of tables holding a record for the requested patient id. */
  function PlanReply(query: string, hasRecord: set<Table>): (r: Reply)
    ensures r == UnknownCondition <==> IdentifyCondition(query).None?
    ensures r.Generate? ==> r.table in hasRecord
    ensures r.NoData? ==> r.condition in ConditionList
                          && ConditionToTable[r.condition] !in hasRecord
  {
    var condition := IdentifyCondition(query);
    if condition.Some? && |condition.value| > 0 && condition.value in ConditionToTable then
      var table := ConditionToTable[condition.value];
      if table in hasRecord then Generate(table) else NoData(condition.value)
    else UnknownCondition
  }

  /** Once a condition is identified, the record is fetched from that
      condition's table, and the apology names that condition. */
  lemma ReplyUsesIdentifiedTable(query: string, hasRecord: set<Table>)
    requires IdentifyCondition(query).Some?
    ensures var c := IdentifyCondition(query).value;
            c in ConditionToTable
            && PlanReply(query, hasRecord)
               == if ConditionToTable[c] in hasRecord then Generate(ConditionToTable[c]) else NoData(c)
  {
  }

  /** One entry of the patient-specific chat history. */
  datatype ChatEntry = ChatEntry(patientId: string, user: string, bot: string)

  /** The reply text of each outcome; `generated` is the generator's output. */
  function ReplyText(reply: Reply, patientId: string, generated: string): (text: string)
    ensures reply.Generate? ==> text == Strip(generated)
    ensures !reply.Generate? ==> |text| > 0
  {
    match reply
    case Generate(_) => Strip(generated)
    case NoData(condition) =>
      "Sorry, no data found for Patient ID " + patientId + " related to " + condition + "."
    case UnknownCondition =>
      "Sorry, I'm not sure which condition you're asking about. Please try again."
  }

  /** The chat history after a render, as written: nothing is done unless
      both the patient id and the query are non-empty; then only a generated
      reply is appended, so the two apologies are computed and never shown. */
  function HistoryAsWritten(history: seq<ChatEntry>, patientId: string, query: string,
                            hasRecord: set<Table>, generated: string): (h: seq<ChatEntry>)
    ensures patientId == "" || query == "" ==> h == history
    ensures patientId != "" && query != "" && PlanReply(query, hasRecord).Generate? ==>
              h == history + [ChatEntry(patientId, query, Strip(generated))]
    ensures !PlanReply(query, hasRecord).Generate? ==> h == history
  {
    if patientId == "" || query == "" then history
    else
      var reply := PlanReply(query, hasRecord);
      if reply.Generate? then history + [ChatEntry(patientId, query, ReplyText(reply, patientId, generated))]
      else history
  }

  /** A query naming no condition leaves the displayed history unchanged:
      the user sees no answer at all. */
  lemma UnknownConditionNotShown(history: seq<ChatEntry>, generated: string)
    ensures IdentifyCondition("hello") == None
    ensures HistoryAsWritten(history, "7", "hello", {}, generated) == history
    ensures History(history, "7", "hello", {}, generated)
            == history + [ChatEntry("7", "hello", ReplyText(UnknownCondition, "7", generated))]
  {
    // Every condition is longer than the query, so none can occur in it.
    forall c | c in ConditionList ensures !Mentions("hello", c) {
      assert |Lower(c)| > |Lower("hello")|;
    }
  }

  /** The chat history after a render as intended: nothing is done unless
      both the patient id and the query are non-empty; then every outcome,
      apology or generated reply, is appended and so shown. */
  function History(history: seq<ChatEntry>, patientId: string, query: string,
                   hasRecord: set<Table>, generated: string): (h: seq<ChatEntry>)
    ensures patientId == "" || query == "" ==> h == history
    ensures patientId != "" && query != "" ==>
              |h| == |history| + 1 && h[..|history|] == history
              && h[|history|] == ChatEntry(patientId, query,
                                           ReplyText(PlanReply(query, hasRecord), patientId, generated))
    ensures patientId == "" || query == "" || PlanReply(query, hasRecord).Generate? ==>
              h == HistoryAsWritten(history, patientId, query, hasRecord, generated)
  {
    if patientId == "" || query == "" then history
    else history + [ChatEntry(patientId, query, ReplyText(PlanReply(query, hasRecord), patientId, generated))]
  }
}
