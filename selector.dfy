/**
 * `select_section_highlights`: the top article of each requested section.
 *
 * The articles arrive in relevance order, so the first one of a section is that
 * section's most important article. The requested sections are the pieces of a
 * `|`-separated filter string.
 */
module Selector {
  import opened Wrappers
  import opened Strings
  import opened Normalizer

  const SectionSeparator := '|'

  /** `next(...)` raises StopIteration for this section: no article belongs to it. */
  datatype SelectError = NoMatch(section: string)

  /** Some article belongs to `section`. */
  ghost predicate HasSection(items: seq<Article>, section: string)
  {
    exists i :: 0 <= i < |items| && items[i].sectionId == section
  }

  /** `a` is the first article of `section` in `items`. */
  ghost predicate IsFirstOf(items: seq<Article>, section: string, a: Article)
  {
    exists i :: 0 <= i < |items| && items[i] == a && a.sectionId == section &&
      forall j :: 0 <= j < i ==> items[j].sectionId != section
  }

  /** The generator scan of line 120: the index of the first article of `section`. */
  function FirstMatch(items: seq<Article>, section: string): (r: Option<nat>)
    ensures r.Some? ==> r.value < |items| && items[r.value].sectionId == section
    ensures r.Some? ==> forall j :: 0 <= j < r.value ==> items[j].sectionId != section
    ensures r.None? <==> forall j :: 0 <= j < |items| ==> items[j].sectionId != section
  {
    if items == [] then None
    else if items[0].sectionId == section then Some(0)
    else
      match FirstMatch(items[1..], section)
      case None => None
      case Some(i) => Some(i + 1)
  }

  /** `select_section_highlights` (lines 105-123). */
  method SelectSectionHighlights(newsItems: seq<Article>, sectionFilter: string)
    returns (r: Result<seq<Article>, SelectError>)
    ensures var sections := Split(sectionFilter, SectionSeparator);
      r.Success? <==> forall k :: 0 <= k < |sections| ==> HasSection(newsItems, sections[k])
    ensures var sections := Split(sectionFilter, SectionSeparator);
      r.Success? ==>
        && |r.value| == |sections|
        && (forall k :: 0 <= k < |sections| ==>
              r.value[k].sectionId == sections[k] && IsFirstOf(newsItems, sections[k], r.value[k]))
        && (forall j, k :: 0 <= j < |sections| && 0 <= k < |sections| && sections[j] == sections[k] ==>
              r.value[j] == r.value[k])
    ensures var sections := Split(sectionFilter, SectionSeparator);
      r.Failure? ==>
        exists k :: (0 <= k < |sections| && r.error == NoMatch(sections[k]) &&
                     !HasSection(newsItems, sections[k]) &&
                     forall j :: 0 <= j < k ==> HasSection(newsItems, sections[j]))
  {
    var topArticles: seq<Article> := [];
    var sections := Split(sectionFilter, SectionSeparator);
    var k := 0;
    while k < |sections|
      invariant k <= |sections|
      invariant |topArticles| == k
      invariant forall m :: 0 <= m < k ==>
        HasSection(newsItems, sections[m]) &&
        topArticles[m].sectionId == sections[m] && IsFirstOf(newsItems, sections[m], topArticles[m])
    {
      var section := sections[k];
      var found := FirstMatch(newsItems, section);
      if found.None? {
        return Failure(NoMatch(section));
      }
      var i := found.value;
      assert IsFirstOf(newsItems, section, newsItems[i]);
      topArticles := topArticles + [newsItems[i]];
      k := k + 1;
    }
    forall j, m | 0 <= j < |sections| && 0 <= m < |sections| && sections[j] == sections[m]
      ensures topArticles[j] == topArticles[m]
    {
      FirstOfUnique(newsItems, sections[j], topArticles[j], topArticles[m]);
    }
    r := Success(topArticles);
  }

  // ---------------------------------------------------------------------------
  // Properties

  /** A section has one first article, so a section requested twice yields the same record twice. */
  lemma FirstOfUnique(items: seq<Article>, section: string, a: Article, b: Article)
    requires IsFirstOf(items, section, a) && IsFirstOf(items, section, b)
    ensures a == b
  {
  }

  /**
   * Relevance order decides within a section, request order across sections:
   * with two `world` articles before a `sport` one, `world|sport` picks the
   * first `world` article and the `sport` article, and `politics` has none.
   */
  lemma SelectionExample(a: Article, b: Article, c: Article)
    requires a.sectionId == "world" && b.sectionId == "world" && c.sectionId == "sport"
    ensures FirstMatch([a, b, c], "world") == Some(0)
    ensures FirstMatch([a, b, c], "sport") == Some(2)
    ensures FirstMatch([a, b, c], "politics") == None
    ensures forall w :: IsFirstOf([a, b, c], "world", w) ==> w == a
    ensures forall s :: IsFirstOf([a, b, c], "sport", s) ==> s == c
    ensures !HasSection([a, b, c], "politics")
  {
    assert [a, b, c][1..] == [b, c] && [b, c][1..] == [c];
    assert FirstMatch([c], "sport") == Some(0);
    assert FirstMatch([b, c], "sport") == Some(1);
  }

  /** `"world|sport".split('|')` requests `world`, then `sport`. */
  lemma FilterExample()
    ensures Split("world|sport", SectionSeparator) == ["world", "sport"]
  {
    assert "world|sport" == "world" + [SectionSeparator] + "sport";
    SplitAfterPiece("world", SectionSeparator, "sport");
    SplitWhole("sport", SectionSeparator);
  }
}
