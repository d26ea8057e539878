# HealthPredictX decision and text-processing core

HealthPredictX is a Streamlit demo that stores patient records in SQLite, runs
three pickled classifiers (diabetes, heart disease, Parkinson's) and asks a
GPT-2 pipeline for short treatment suggestions and chatbot replies. Almost all
of it is form handling, SQL and foreign library calls. This project models
the pure helpers of `app.py` that decide or transform something:

- **Risk banding** (`Risk`): the positive-class probability becomes
  `Low Risk` below 0.3, `Medium Risk` from 0.3 up to 0.7, `High Risk` from 0.7.
  The page writes the expression out three times; it is defined once here.
- **Condition detection** (`Conditions`): `identify_condition_in_query` returns
  the first of `diabetic`, `heart disease`, `parkinsons` found in the
  lower-cased query. The model also covers the `condition_to_db` dispatch and
  the choice of reply for a patient-specific query.
- **Suggestion post-processing** (`Suggestions`): the prompt of
  `get_ai_health_suggestions`, the `response_start` computed from it, and the
  cut-strip-truncate-punctuate steps applied to the generated text. The
  generated text is an input.
- **Binary encodings** (`Encodings`): Yes/No answers and the patient's sex as
  `'1'`/`'0'`.
- **Feature vectors** (`Features`): the fixed-order vectors built from stored
  rows. A row is a sequence of column values and a vector is a list of slots
  (a column index, the age or the sex). Missing records and short rows are
  error results, standing for Python's `TypeError` and `IndexError`.
- **Python string operations** (`Text`): `lower`, `strip`, `in`, `split`,
  `join` and `replace(old, '')`, each with its defining property proved.

The score is a Dafny `real` and is compared against the exact decimals 0.3
and 0.7.

The suggestion post-processing cuts every copy of the response start (for
the prediction page, the whole prompt) out of the generated text, strips it,
keeps the first two `'. '`-separated pieces and adds a full stop when one is
missing; it removes no other repeated text. On the prediction page, Submit
does nothing while the patient id field is empty; otherwise a patient row
that is not found makes `patient_result[2]` fail with a `TypeError` on `None`
(`MissingRow` here), and an `IndexError` (`IndexOutOfRange`) needs a row that
exists but is too short. The patient-specific chat does nothing while the
patient id or the query is empty.

## Model

| member | source | states |
|---|---|---|
| `Risk.Classify` | app.py:467 | Low exactly when the score is below 0.3, Medium exactly when it is in [0.3, 0.7), High exactly when it is at least 0.7 |
| `Risk.Label` | app.py:467 | each band's label names that band and no other |
| `Risk.GuardRedundant` | app.py:467 | the `0.3 <= r` guard of the middle branch never changes the band: it equals plain two-threshold banding |
| `Risk.LabelOfScore` | app.py:485 | each score gets exactly one label string, and which one is fixed by the two thresholds |
| `Risk.Boundaries` | app.py:501 | exactly 0.3 is Medium, exactly 0.7 is High, everything below 0.3 is Low |
| `Risk.Monotone` | app.py:467 | a higher score never gets a lower band in the order Low < Medium < High |
| `Risk.LabelHasNoQuestionMark` | app.py:467 | no label contains `?`, which the suggestion prompt relies on |
| `Conditions.FirstMentionFrom` | app.py:131-134 | the search returns the first index whose condition the query mentions, or none exactly when no later condition is mentioned |
| `Conditions.ConditionListShape` | app.py:129 | the condition list has three distinct, non-empty, already lower-case entries |
| `Conditions.IdentifyCondition` | app.py:128-134 | `None` exactly when no listed condition occurs in the lower-cased query; otherwise a listed condition that does occur |
| `Conditions.ConditionsAreLower` | app.py:129-132 | the listed conditions are their own lower-case form, so `condition.lower()` is the condition itself |
| `Conditions.Mentions` | app.py:132 | `condition.lower() in query.lower()` holds exactly when the lower-cased condition occurs at some position of the lower-cased query |
| `Conditions.FirstMatchWins` | app.py:131-133 | when condition k is returned, it is mentioned and no earlier condition is |
| `Conditions.IdentifyIgnoresCase` | app.py:132 | a query and its lower-cased form identify the same condition |
| `Conditions.IdentifiedConditionHasTable` | app.py:612-618 | every identified condition is a non-empty key of `condition_to_db`, so the test before the lookup passes |
| `Conditions.ConditionTablesCover` | app.py:612-616 | the keys of `condition_to_db` are exactly the listed conditions, and different conditions go to different tables |
| `Conditions.PlanReply` | app.py:610-632 | the "not sure which condition" reply exactly when no condition is identified; a generated reply only from a table holding a record; a no-data reply names a listed condition whose table holds none |
| `Conditions.ReplyUsesIdentifiedTable` | app.py:618-620 | once a condition c is identified, it is a key of `condition_to_db` and the reply is generated from c's own table exactly when that table holds a record, and is otherwise the no-data reply naming c |
| `Conditions.ReplyText` | app.py:626-632 | a generated reply is the stripped generator output; the no-data and not-sure replies are non-empty apologies |
| `Conditions.HistoryAsWritten` | app.py:618-632 | as written, the history is unchanged unless both the patient id and the query are non-empty; then it gains the entry (patient id, query, stripped output) exactly when a reply is generated, and is unchanged after either apology |
| `Conditions.UnknownConditionNotShown` | app.py:632 | the query `hello` for patient `7` identifies no condition; as written the history is unchanged, so the apology is never shown, while the intended history gains the not-sure apology |
| `Conditions.History` | app.py:618-637 | as intended, nothing changes unless both the patient id and the query are non-empty; then exactly one entry carrying the reply text of the outcome is appended; it agrees with the code as written whenever nothing is done or a reply is generated |
| `Suggestions.Prompt` | app.py:115-116 | the prompt is never empty; what the page relies on, that its fixed text holds no `?`, is `Suggestions.PromptHasNoQuestionMark` |
| `Suggestions.Outcome` | app.py:115 | the prompt's outcome word is `positive` or `negative`, and `positive` exactly when the prediction is 1 |
| `Suggestions.ResponseStart` | app.py:119 | `prompt.split(marker)[0]` is a prefix of the prompt |
| `Suggestions.PromptHasNoQuestionMark` | app.py:115-116 | the fixed prompt text has no `?`, so neither does a prompt whose risk level and disease lack one |
| `Suggestions.ResponseStartIsPrompt` | app.py:115-119 | when neither the risk level nor the disease contains `?`, the marker cannot occur and the response start is the whole prompt |
| `Suggestions.PagePromptIsResponseStart` | app.py:470 | for the three disease names and any band label, the response start is the whole prompt |
| `Suggestions.FirstTwoSentences` | app.py:123-124 | the first two `'. '`-separated pieces, rejoined, are a prefix of the response, and equal it exactly when it has at most two pieces |
| `Suggestions.Response` | app.py:120 | after cutting out the response start and stripping, the text has no whitespace at either end |
| `Suggestions.Suggestion` | app.py:124-126 | the suggestion is never empty, always ends with `.`, and does not start with whitespace |
| `Suggestions.EndsWithFullStop` | app.py:126 | `endswith('.')` holds only for a non-empty text that is some text followed by `.`, and that `.` is not whitespace, so stripping keeps it |
| `Suggestions.SuggestionFromFirstSentences` | app.py:123-126 | the suggestion is the stripped first two sentences when they end in `.`, and those sentences with `.` appended exactly when they do not |
| `Suggestions.ShortResponseKept` | app.py:123-126 | a response of at most two sentences is returned whole when it ends in `.`, and with `.` appended exactly when it does not |
| `Suggestions.LongResponseTruncated` | app.py:123-124 | a longer response is exactly the kept two sentences, a `'. '`, and the dropped remaining sentences |
| `Suggestions.EmptyGeneration` | app.py:118-126 | empty generated text gives the suggestion `.` |
| `Suggestions.EchoedPromptRemoved` | app.py:118-120 | output that echoes the prompt and then does not repeat it is reduced to the stripped continuation |
| `Suggestions.HealthSuggestion` | app.py:113-126 | `get_ai_health_suggestions` returns a non-empty text ending in `.` for every generated text |
| `Suggestions.PageSuggestionUsesContinuation` | app.py:113-120 | on the prediction page, a prompt echoed by the generator never reaches the suggestion |
| `Text.LowerChar` | app.py:132 | capitals move to their lower-case letter, the Kelvin sign becomes `k`, and no other character changes |
| `Text.Lower` | app.py:132 | lower-casing keeps the length and maps each character independently |
| `Text.LowerIdempotent` | app.py:132 | lower-casing twice equals lower-casing once |
| `Text.LeadingSpaces` | app.py:120 | the longest all-whitespace prefix |
| `Text.TrailingSpaces` | app.py:120 | the longest all-whitespace suffix |
| `Text.Strip` | app.py:120 | the stripped text has no whitespace at either end |
| `Text.IsSpace` | app.py:120 | the characters `str.isspace()` accepts: space, tab, newline and carriage return among them, and no visible ASCII character |
| `Text.StripIsInfix` | app.py:120 | the stripped text is the original minus an all-whitespace prefix and suffix |
| `Text.StripTrimmed` | app.py:124 | text without whitespace at its ends is unchanged by strip |
| `Text.StripIdempotent` | app.py:124 | stripping twice equals stripping once |
| `Text.FindFrom` | app.py:132 | the first occurrence at or after a position, or none exactly when there is no later occurrence |
| `Text.Find` | app.py:132 | the first occurrence of a substring, or none exactly when it does not occur |
| `Text.ContainsIff` | app.py:132 | `p in s` holds exactly when `p` occurs at some position of `s` |
| `Text.Contains` | app.py:132 | `p in s` holds for the empty pattern and for every prefix of `s`, and never for a pattern longer than `s` |
| `Text.MissingCharNotContained` | app.py:119 | a text lacking one of the pattern's characters does not contain the pattern |
| `Text.Split` | app.py:123 | splitting gives at least one piece and no piece contains the separator |
| `Text.PrefixBeforeFirst` | app.py:123 | the text before the first separator does not contain it |
| `Text.JoinSplit` | app.py:123-124 | joining the pieces of a split with the separator gives back the original text |
| `Text.Join` | app.py:124 | the first part is a prefix of the joined text |
| `Text.JoinAppend` | app.py:124 | a join is the join of its first k parts, the separator, and the join of the rest |
| `Text.FirstPieceIsPrefix` | app.py:119 | the first piece of a split is a prefix of the text |
| `Text.Take` | app.py:124 | `parts[:n]` is a prefix of the parts: all of them when there are at most n, exactly the first n otherwise |
| `Text.RemoveAll` | app.py:120 | removing occurrences never lengthens the text; `Text.RemoveAllIsJoinSplit` pins down which occurrences go |
| `Text.RemoveAllAbsent` | app.py:120 | a text not containing the pattern is unchanged |
| `Text.RemoveAllLeading` | app.py:120 | a leading copy of the pattern is deleted |
| `Text.RemoveAllSkip` | app.py:120 | a stretch in which no occurrence starts is copied unchanged |
| `Text.RemoveAllAtFirst` | app.py:120 | the text before the first occurrence is kept and the occurrence itself is deleted |
| `Text.ConcatSplitAtFirst` | app.py:120 | concatenating the pieces of a split keeps the text before the first separator and drops the separator |
| `Text.RemoveAllIsJoinSplit` | app.py:120 | `s.replace(pat, '')` equals `''.join(s.split(pat))` for every non-empty pattern: exactly the occurrences split cuts at are deleted |
| `Encodings.EncodeYesNo` | app.py:321-324 | the value is the single character `'1'` or `'0'`, satisfying the `CHECK (x IN (0,1))` columns, and `'1'` exactly for `'Yes'` |
| `Encodings.EncodeSex` | app.py:450 | the value is the single character `'1'` or `'0'`, and `'1'` exactly for `'Female'` |
| `Encodings.HeartFlags` | app.py:321-329 | the four stored flags are each non-empty and in the check domain, and each is set exactly when its answer is `'Yes'` |
| `Features.Assemble` | app.py:456 | a list of slots succeeds exactly when every column index is inside the row; the vector then has one entry per slot, each from its slot; a failure names an out-of-range column of the list |
| `Features.Slice` | app.py:491 | Python's clamped `row[lo:hi]`: its length, and entry k is row entry lo + k |
| `Features.LayoutShapes` | app.py:456-491 | diabetes: 8 entries, columns 2..8 then age; heart: 12 entries, age, columns 2..9, sex, columns 10 and 11; Parkinson's: columns 2..23 |
| `Features.NoIdentifierColumns` | app.py:456-491 | no vector reads column 0 (record id) or column 1 (patient id) |
| `Features.LayoutWidths` | app.py:456-474 | the diabetes vector needs at least 9 columns, the heart vector at least 12 |
| `Features.ParkinsonsSliceIsLayout` | app.py:491 | on a row of at least 24 columns the slice `row[2:24]` is the 22-column selection |
| `Features.PatientAgeAndSex` | app.py:448-450 | age is patient column 2; sex is `'1'` or `'0'`, `'1'` exactly when column 3 is `'Female'`; a missing or short patient row fails |
| `Features.PredictionInputs` | app.py:448-491 | the three vectors are produced exactly when all four records exist and the patient, diabetes and heart rows are long enough; then they have 8, 12 and at most 22 entries (22 on a full Parkinson's row), the age (patient column 2) is diabetes entry 7 and heart entry 0, and heart entry 9 is `'1'` exactly when patient column 3 is `'Female'` |
| `Features.SchemaRowsGiveFullVectors` | app.py:456-491 | rows of the widths the schema creates always give full vectors, each entry from the expected column |
| `Features.Lookup` | create_db.py:116-121 | a point lookup returns a row exactly when the key is stored, and then the stored row |
| `Features.PageInputsAsWritten` | app.py:446-453 | as written, Submit with an empty patient id does nothing; otherwise a name field that is not a stored patient id stops the page with the `TypeError` (`MissingRow`); when the name field holds the patient id it agrees with the intended page |
| `Features.AsWrittenMissesPatient` | app.py:448 | for any records of the schema widths (patient 8, diabetes 10, heart 12, Parkinson's 25 columns) stored under patient `7`, entering name `Alice` fails with `MissingRow` as written and yields the three vectors as intended |
| `Features.PageInputs` | app.py:446-491 | as intended, Submit with an empty patient id does nothing; otherwise the page succeeds exactly when all four records are stored under the patient id with rows long enough, and the vectors then have 8 and 12 entries, carry the patient's age and encode the sex from column 3 |
| `Features.PageInputsOnSchemaRows` | app.py:456-491 | schema-width records stored under a non-empty patient id always give the three full vectors, 22 Parkinson's features included |

## Left out

- The Streamlit pages, widgets and session state (login flags, chat histories), the `create_pdf` report and the logout flow: user interface and I/O. The patient-specific chat history is modelled as a sequence of entries; clearing it and displaying it are not.
- The SQLite layer (`create_db.py`) and registration/login (`auth.py`): their behaviour is that of the database engine. Rows fetched from it are inputs of the model; `None` for a missing record is an `Option`.
- Database lookups are maps from a key string to one row: the first matching row that `fetchone` returns, with SQLite's type affinity between the text field and the integer id column reduced to string equality.
- The offline training scripts, pickle loading, `predict` and `predict_proba`: foreign numeric code. The score is an input.
- GPT-2 generation: its output is an arbitrary input string. The prompt of the patient-specific chat and the general chatbot tab, which only strips the generated reply, are not modelled.
- The `float(x)` conversion of vector entries and the `:.2f` formatting of scores: the vectors are modelled before conversion.
- Risk.Classify: the score is an exact real compared with exact 0.3 and 0.7; Python compares doubles with the doubles nearest those decimals.
- Text.LowerChar: Python's `lower()` is modelled only for ASCII capitals and the Kelvin sign, the characters whose lower case is a single ASCII letter. Other characters keep their case here. The one other character whose lower case contains an ASCII letter is U+0130, which lower-cases to `i` followed by the combining dot U+0307. Every `i` in the three conditions is followed by another letter, so that inserted mark can never complete a match. Leaving U+0130 unchanged therefore never changes whether a query mentions a condition.
- Text.Strip: whitespace is the set of characters for which Python's `str.isspace()` holds; it is written out as a fixed set.
- Features.Assemble: its failure contract says that the error names an out-of-range column of the layout, not that it is the first one in evaluation order.

## Findings

| source | as written | input that shows it | evidently intended | confidence | as-written member | corrected member |
|---|---|---|---|---|---|---|
| app.py:448 | the patient row is looked up with the text of the name field, but the lookup matches it against the patient id column | patient id field `7`, name field `Alice`, all four records stored under `7`: the page stops with a `TypeError` | look the patient row up with the patient id, as the three health-record lookups do | medium, not executed | `Features.PageInputsAsWritten` (`Features.AsWrittenMissesPatient`) | `Features.PageInputs` |
| app.py:630-632 | the no-data and not-sure apologies are assigned to `chatbot_reply` but never appended to the history, which is all that is displayed | query `hello`: no condition is identified and the history shown is unchanged | append the apology to the history, as a generated reply is | medium, not executed | `Conditions.HistoryAsWritten` (`Conditions.UnknownConditionNotShown`) | `Conditions.History` |
