/**
 * The part of `get_guardian_news` that follows the network call: normalise the
 * API payload, then select the top article of each requested section.
 */
module Pipeline {
  import opened Wrappers
  import opened Normalizer
  import opened Selector

  /** The first error of either stage. */
  datatype NewsError = ProcessingFailed(processError: ProcessError) | SelectionFailed(selectError: SelectError)

  /** Lines 138-139, for a payload already fetched. */
  method HighlightsFromPayload(payload: Payload, sectionFilter: string)
    returns (r: Result<seq<Article>, NewsError>)
    ensures ProcessedAsWritten(payload).Failure? ==> r == Failure(ProcessingFailed(ProcessedAsWritten(payload).error))
    ensures r.Success? ==>
      ProcessedAsWritten(payload).Success? &&
      var sections := Strings.Split(sectionFilter, SectionSeparator);
      && |r.value| == |sections|
      && forall k :: 0 <= k < |sections| ==>
           IsFirstOf(ProcessedAsWritten(payload).value, sections[k], r.value[k])
    ensures ProcessedAsWritten(payload).Success? ==>
      (r.Success? <==>
         var sections := Strings.Split(sectionFilter, SectionSeparator);
         forall k :: 0 <= k < |sections| ==> HasSection(ProcessedAsWritten(payload).value, sections[k]))
    ensures ProcessedAsWritten(payload).Success? && r.Failure? ==>
      var sections := Strings.Split(sectionFilter, SectionSeparator);
      var articles := ProcessedAsWritten(payload).value;
      exists k :: (0 <= k < |sections| && r.error == SelectionFailed(NoMatch(sections[k])) &&
                   !HasSection(articles, sections[k]) &&
                   forall j :: 0 <= j < k ==> HasSection(articles, sections[j]))
  {
    var allTheArticles := ProcessArticles(payload);
    if allTheArticles.Failure? {
      return Failure(ProcessingFailed(allTheArticles.error));
    }
    var articles := SelectSectionHighlights(allTheArticles.value, sectionFilter);
    if articles.Failure? {
      return Failure(SelectionFailed(articles.error));
    }
    r := Success(articles.value);
  }
}
