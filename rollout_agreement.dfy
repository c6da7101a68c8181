/** The two rollout computations of the extension side by side. The outline transformer
    (src/transform/transformers.ts) reads a segment's rollout as the text of its symbol and folds
    the segment states from `'0%'`; the flag file indexer (src/flagpoleFile.ts) reads the parsed
    number and folds from `undefined`. */
module RolloutAgreement {
  import opened Wrappers
  import opened Types
  import Transformers
  import FlagpoleFiles

  /** The feature states agree exactly when the feature has segments and either one of them is
      full, none is partial, or the first one is partial; a feature without segments is off for
      the transformer and `undefined` for the indexer. */
  lemma FeatureReductionsAgree(states: seq<RolloutState>)
    ensures FlagpoleFiles.ReduceRollouts(states) == Some(Transformers.FeatureRolloutState(states)) <==>
              states != [] && (Full in states || Partial !in states || states[0] == Partial)
  {
    FlagpoleFiles.FeatureRolloutAsWritten(states);
    if states != [] {
      assert states[0] in states;
    }
  }

  /** An off segment followed by a partial one: partial for the transformer, off for the
      indexer. */
  lemma LeadingOffSegmentDisagrees()
    ensures Transformers.FeatureRolloutState([Off, Partial]) == Partial
    ensures FlagpoleFiles.ReduceRollouts([Off, Partial]) == Some(Off)
  {
    FeatureReductionsAgree([Off, Partial]);
    FlagpoleFiles.FeatureRolloutAsWritten([Off, Partial]);
  }

  /** The rollout the indexer reads for a segment whose `rollout` value has the text `detail`:
      absent when the key is; a value written empty, which the YAML parser gives as `null` or
      `''`, is neither 0 nor 100 (as `NaN` is); otherwise the number the text names. */
  function ParsedRollout(detail: Option<string>): (r: Option<JsNumber>)
    ensures r.None? <==> detail.None?
    ensures detail == Some("") ==> r == Some(NaN)
    ensures detail.Some? && detail.value != "" ==> r == Some(NumberOf(detail.value))
  {
    match detail
    case None => None
    case Some(text) => if text == "" then Some(NaN) else Some(NumberOf(text))
  }

  /** The segment states agree unless the text is neither empty, `"0"` nor `"100"` but names 0,
      or names 100 for a segment without conditions. */
  lemma SegmentStatesAgree(detail: Option<string>, name: string, conditions: seq<Condition>)
    ensures FlagpoleFiles.GetSegmentRollout(Segment(name, ParsedRollout(detail), conditions))
              == Transformers.SegmentRolloutState(detail, |conditions|)
            <==> !(&& detail.Some? && detail.value != "" && detail.value != "0" && detail.value != "100"
                   && (NumberOf(detail.value) == Finite(0) || (NumberOf(detail.value) == Finite(100) && conditions == [])))
  {
    NumberOfCanonicalTexts();
  }

  /** A rollout written empty: partial for both computations. */
  lemma EmptyRolloutAgrees(name: string)
    ensures FlagpoleFiles.GetSegmentRollout(Segment(name, ParsedRollout(Some("")), [])) == Partial
    ensures Transformers.SegmentRolloutState(Some(""), 0) == Partial
  {
    SegmentStatesAgree(Some(""), name, []);
  }

  /** A rollout written `00`: off for the indexer, partial for the transformer. */
  lemma ZeroWithLeadingZeroDisagrees(name: string)
    ensures FlagpoleFiles.GetSegmentRollout(Segment(name, ParsedRollout(Some("00")), [])) == Off
    ensures Transformers.SegmentRolloutState(Some("00"), 0) == Partial
  {
    NumberOfCanonicalTexts();
  }
}
