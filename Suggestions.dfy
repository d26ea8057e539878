/**
 * `get_ai_health_suggestions`: the prompt sent to the text generator and the
 * post-processing that turns the generated text into a short suggestion. The
 * generated text itself is an input: generation is not modelled.
 */
module Suggestions {
  import opened Text
  import Risk

  /** The word the prompt uses for the predicted class. */
  function Outcome(prediction: int): (w: string)
    ensures w in {"positive", "negative"}
    ensures w == "positive" <==> prediction == 1
  {
    if prediction == 1 then "positive" else "negative"
  }

  // The fixed text of the prompt; the closing request is kept in three pieces
  // so that its characters can be inspected piece by piece.
  const Opening: string := "The patient's prediction for "
  const Request1: string := "Based on this, provide "
  const Request2: string := "a recommendation on whether "
  const Request3: string := "further testing is required."

  /** The prompt built from the prediction, the risk label and the disease name. */
  function Prompt(prediction: int, riskLevel: string, disease: string): (p: string)
    ensures |p| > 0
  {
    Opening + disease + " is " + Outcome(prediction)
      + " and their risk level is " + riskLevel + ". "
      + (Request1 + Request2 + Request3)
  }

  /** The separator the prompt is split on to find the start of the response. */
  const ResponseMarker: string := "recommendation regarding further testing?"

  /** `prompt.split(marker)[0]`. */
  function ResponseStart(prompt: string): (r: string)
    ensures r <= prompt
  {
    FirstPieceIsPrefix(prompt, ResponseMarker);
    Split(prompt, ResponseMarker)[0]
  }

  /** A prompt built from a risk level and a disease name without question
      marks has none either. */
  lemma PromptHasNoQuestionMark(prediction: int, riskLevel: string, disease: string)
    requires '?' !in riskLevel && '?' !in disease
    ensures '?' !in Prompt(prediction, riskLevel, disease)
  {
    assert '?' !in Opening by { assert forall i :: 0 <= i < |Opening| ==> Opening[i] != '?'; }
    assert '?' !in Request1 by { assert forall i :: 0 <= i < |Request1| ==> Request1[i] != '?'; }
    assert '?' !in Request2 by { assert forall i :: 0 <= i < |Request2| ==> Request2[i] != '?'; }
    assert '?' !in Request3 by { assert forall i :: 0 <= i < |Request3| ==> Request3[i] != '?'; }
    var head := Opening + disease + " is " + Outcome(prediction);
    assert '?' !in head;
    var middle := head + " and their risk level is " + riskLevel + ". ";
    assert '?' !in middle;
    var request := Request1 + Request2 + Request3;
    assert '?' !in request;
  }

  /** The marker never occurs in a prompt whose risk level and disease name
      carry no question mark, so the response start is the whole prompt. */
  lemma ResponseStartIsPrompt(prediction: int, riskLevel: string, disease: string)
    requires '?' !in riskLevel && '?' !in disease
    ensures ResponseStart(Prompt(prediction, riskLevel, disease)) == Prompt(prediction, riskLevel, disease)
  {
    var p := Prompt(prediction, riskLevel, disease);
    PromptHasNoQuestionMark(prediction, riskLevel, disease);
    assert ResponseMarker[|ResponseMarker| - 1] == '?';
    MissingCharNotContained(p, ResponseMarker, '?');
    assert Split(p, ResponseMarker) == [p];
  }

  /** In the prediction page the risk level is a band label and the disease
      one of three names; the response start is then always the prompt. */
  lemma PagePromptIsResponseStart(prediction: int, band: Risk.Band, disease: string)
    requires disease in {"Diabetes", "Heart Disease", "Parkinsons"}
    ensures ResponseStart(Prompt(prediction, Risk.Label(band), disease))
            == Prompt(prediction, Risk.Label(band), disease)
  {
    Risk.LabelHasNoQuestionMark(band);
    ResponseStartIsPrompt(prediction, Risk.Label(band), disease);
  }

  const SentenceBreak: string := ". "

  /** `'. '.join(response.split('. ')[:2])`: the first two sentences. */
  function FirstTwoSentences(response: string): (r: string)
    ensures r <= response
    ensures |Split(response, SentenceBreak)| <= 2 <==> r == response
  {
    var parts := Split(response, SentenceBreak);
    JoinSplit(response, SentenceBreak);
    if |parts| > 2 then
      JoinAppend(parts, SentenceBreak, 2);
      assert |Join(parts[..2], SentenceBreak)| < |response|;
      Join(Take(parts, 2), SentenceBreak)
    else
      Join(Take(parts, 2), SentenceBreak)
  }

  /** The text after the prompt has been cut out and the ends trimmed. */
  function Response(generated: string, responseStart: string): (r: string)
    ensures r == [] || (!IsSpace(r[0]) && !IsSpace(r[|r| - 1]))
  {
    Strip(RemoveAll(generated, responseStart))
  }

  /** `s.endswith('.')`. */
  predicate EndsWithFullStop(s: string): (b: bool)
    ensures b ==> |s| > 0 && s == s[..|s| - 1] + "."
    ensures b ==> !IsSpace(s[|s| - 1])
  {
    |s| > 0 && s[|s| - 1] == '.'
  }

  /** The suggestion returned to the prediction page. */
  function Suggestion(generated: string, responseStart: string): (r: string)
    ensures |r| > 0 && r[|r| - 1] == '.'
    ensures !IsSpace(r[0])
  {
    var result := Strip(FirstTwoSentences(Response(generated, responseStart)));
    assert result == [] || !IsSpace(result[0]);
    if EndsWithFullStop(result) then result else result + "."
  }

  /** The suggestion is the trimmed first two sentences of the response,
      with a full stop added exactly when they do not already end in one. */
  lemma SuggestionFromFirstSentences(generated: string, responseStart: string)
    ensures var body := Strip(FirstTwoSentences(Response(generated, responseStart)));
            && (EndsWithFullStop(body) ==> Suggestion(generated, responseStart) == body)
            && (!EndsWithFullStop(body) ==> Suggestion(generated, responseStart) == body + ".")
    ensures FirstTwoSentences(Response(generated, responseStart)) <= Response(generated, responseStart)
  {
  }

  /** A response of at most two sentences is kept whole, gaining a full stop
      exactly when it does not already end in one. */
  lemma ShortResponseKept(generated: string, responseStart: string)
    requires |Split(Response(generated, responseStart), SentenceBreak)| <= 2
    ensures var resp := Response(generated, responseStart);
            && (EndsWithFullStop(resp) ==> Suggestion(generated, responseStart) == resp)
            && (!EndsWithFullStop(resp) ==> Suggestion(generated, responseStart) == resp + ".")
  {
    StripTrimmed(Response(generated, responseStart));
  }

  /** A longer response loses exactly its third and later sentences. */
  lemma LongResponseTruncated(generated: string, responseStart: string)
    requires |Split(Response(generated, responseStart), SentenceBreak)| > 2
    ensures var resp := Response(generated, responseStart);
            var parts := Split(resp, SentenceBreak);
            resp == FirstTwoSentences(resp) + SentenceBreak + Join(parts[2..], SentenceBreak)
  {
    var resp := Response(generated, responseStart);
    var parts := Split(resp, SentenceBreak);
    JoinSplit(resp, SentenceBreak);
    JoinAppend(parts, SentenceBreak, 2);
  }

  /** Empty generated text yields the suggestion ".". */
  lemma EmptyGeneration(responseStart: string)
    ensures Suggestion("", responseStart) == "."
  {
  }

  /** When the generator echoes the prompt and continues with text that does
      not repeat it, the suggestion is built from the continuation alone. */
  lemma EchoedPromptRemoved(prompt: string, continuation: string)
    requires |prompt| > 0 && !Contains(continuation, prompt)
    ensures Response(prompt + continuation, prompt) == Strip(continuation)
  {
    RemoveAllLeading(prompt, continuation);
    RemoveAllAbsent(continuation, prompt);
  }

  /** `get_ai_health_suggestions(prediction, risk_level, disease)`, with the
      generator's output `generated` given as an input. */
  function HealthSuggestion(generated: string, prediction: int, riskLevel: string, disease: string): (r: string)
    ensures |r| > 0 && r[|r| - 1] == '.'
  {
    Suggestion(generated, ResponseStart(Prompt(prediction, riskLevel, disease)))
  }

  /** On the prediction page, output that echoes the prompt and continues
      without repeating it is reduced to the trimmed continuation before the
      sentences are cut. */
  lemma PageSuggestionUsesContinuation(prediction: int, band: Risk.Band, disease: string,
                                       continuation: string)
    requires disease in {"Diabetes", "Heart Disease", "Parkinsons"}
    requires !Contains(continuation, Prompt(prediction, Risk.Label(band), disease))
    ensures var prompt := Prompt(prediction, Risk.Label(band), disease);
            HealthSuggestion(prompt + continuation, prediction, Risk.Label(band), disease)
            == Suggestion(continuation, prompt)
  {
    var prompt := Prompt(prediction, Risk.Label(band), disease);
    PagePromptIsResponseStart(prediction, band, disease);
    EchoedPromptRemoved(prompt, continuation);
    RemoveAllAbsent(continuation, prompt);
  }
}
