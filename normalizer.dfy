/**
 * `process_articles`: flattening the search API's results into article records
 * and dropping live blogs.
 *
 * The raw JSON is modelled by datatypes whose optional entries are `Option`s.
 * The values that make the per-item `try` block raise get their own variants:
 * `fields` present but not an object, and a body the parser refuses (for example,
 * one that is not a string).
 * A result item that is not an object makes `.get` raise in the `try` block, and
 * again in the `except` handler's message, so that case aborts the whole call.
 * The handler's f-string reuses its own quotes inside `{...}`, which parses only
 * from Python 3.12 on; the model describes the module as Python 3.12+ runs it.
 */
module Normalizer {
  import opened Wrappers
  import opened Html
  import opened Strings

  /** The `body` entry: a parsed HTML fragment, or a value the parser refuses. */
  datatype Markup = Parsed(soup: Soup) | Unparseable

  /** The `fields` entry of a result: a map with optional entries, or something else. */
  datatype RawFields =
    | Fields(trailText: Option<string>, byline: Option<string>, body: Option<Markup>,
             thumbnail: Option<string>, wordcount: Option<string>)
    | NotAMap

  /** One element of `response.results`. */
  datatype RawItem =
    | Item(sectionId: Option<string>, sectionName: Option<string>, webPublicationDate: Option<string>,
           webTitle: Option<string>, fields: Option<RawFields>)
    | NotAnObject

  /** The API response; `results` is absent when `response` or `response.results` is missing. */
  datatype Payload = Payload(results: Option<seq<RawItem>>)

  /** The nine-entry record built for each result. */
  datatype Article = Article(
    sectionId: string,
    sectionName: string,
    datePublished: string,
    title: string,
    subheading: string,
    author: string,
    mainText: Document,
    thumbnail: string,
    wordcount: string)

  datatype ProcessError =
    | MissingResults  // `api_response['response']['results']` raises KeyError
    | HandlerFailed   // the `except` handler itself raises on a result that is not an object

  const LiveBlogMarker := "as it happened"

  /** `.get('fields', {})` when `fields` is absent. */
  const NoFields := Fields(None, None, None, None, None)

  /** `.get(key, '')`. */
  function Entry(o: Option<string>): string
  {
    o.GetOr("")
  }

  /** The body the sanitiser receives: `.get('body', '')` parses to an empty fragment. */
  function BodyMarkup(f: RawFields): Markup
    requires f.Fields?
  {
    f.body.GetOr(Parsed([]))
  }

  /** The `try` block for one result (lines 72-94): the record, or None when it raises. */
  function BuildRecord(item: RawItem): Option<Article>
  {
    if item.NotAnObject? then None
    else
      var f := item.fields.GetOr(NoFields);
      if f.NotAMap? then None
      else
        var body := BodyMarkup(f);
        if body.Unparseable? then None
        else
          Some(Article(Entry(item.sectionId), Entry(item.sectionName), Entry(item.webPublicationDate),
                       Entry(item.webTitle), Entry(f.trailText), Entry(f.byline), Clean(body.soup),
                       Entry(f.thumbnail), Entry(f.wordcount)))
  }

  /** The records that were built, in result order; a result whose block raised is skipped. */
  function Built(items: seq<RawItem>): seq<Article>
  {
    if items == [] then []
    else
      (match BuildRecord(items[0])
         case Some(a) => [a]
         case None => [])
      + Built(items[1..])
  }

  predicate IsLiveBlog(a: Article)
  {
    Contains(a.title, LiveBlogMarker)
  }

  /** The comprehension of line 100. */
  function WithoutLiveBlogs(arts: seq<Article>): seq<Article>
  {
    if arts == [] then []
    else (if IsLiveBlog(arts[0]) then [] else [arts[0]]) + WithoutLiveBlogs(arts[1..])
  }

  /** The article collection: every result whose record can be built, minus live blogs. */
  function Normalize(items: seq<RawItem>): seq<Article>
  {
    WithoutLiveBlogs(Built(items))
  }

  /** What `process_articles` returns or raises, as the code is written. */
  function ProcessedAsWritten(payload: Payload): Result<seq<Article>, ProcessError>
  {
    match payload.results
    case None => Failure(MissingResults)
    case Some(items) =>
      if NotAnObject in items then Failure(HandlerFailed) else Success(Normalize(items))
  }

  /** What `process_articles` is meant to do: every failing result skipped, none fatal. */
  function ProcessedIntended(payload: Payload): Result<seq<Article>, ProcessError>
  {
    match payload.results
    case None => Failure(MissingResults)
    case Some(items) => Success(Normalize(items))
  }

  /** `process_articles` (lines 62-102). */
  method ProcessArticles(payload: Payload) returns (r: Result<seq<Article>, ProcessError>)
    ensures r == ProcessedAsWritten(payload)
  {
    if payload.results.None? {
      return Failure(MissingResults);
    }
    var results := payload.results.value;
    var unfiltered: seq<Article> := [];
    var k := 0;
    while k < |results|
      invariant k <= |results|
      invariant unfiltered == Built(results[..k])
      invariant NotAnObject !in results[..k]
    {
      var item := results[k];
      if item.NotAnObject? {
        // `.get` raises; the handler's `news_item.get('webTitle', ...)` raises again
        return Failure(HandlerFailed);
      }
      BuiltConcat(results[..k], [item]);
      assert results[..k + 1] == results[..k] + [item];
      var f := item.fields.GetOr(NoFields);
      if f.Fields? {
        var body := BodyMarkup(f);
        if body.Parsed? {
          var mainText := CleanArticleHtml(body.soup);
          unfiltered := unfiltered + [Article(
            Entry(item.sectionId), Entry(item.sectionName), Entry(item.webPublicationDate),
            Entry(item.webTitle), Entry(f.trailText), Entry(f.byline), mainText,
            Entry(f.thumbnail), Entry(f.wordcount))];
        }
      }
      k := k + 1;
    }
    assert results[..k] == results;
    r := Success(WithoutLiveBlogs(unfiltered));
  }

  // ---------------------------------------------------------------------------
  // Properties

  /**
   * A record is built exactly when nothing in the block raises, and then every
   * entry is the item's value or '' when absent; the body is the sanitised body,
   * or the sanitised empty fragment when absent.
   */
  lemma RecordShape(item: RawItem)
    ensures BuildRecord(item).Some? <==>
      item.Item? && item.fields != Some(NotAMap) &&
      (item.fields.Some? ==> item.fields.value.body != Some(Unparseable))
    ensures BuildRecord(item).Some? ==>
      var a := BuildRecord(item).value;
      var f := item.fields.GetOr(NoFields);
      && a.sectionId == item.sectionId.GetOr("")
      && a.sectionName == item.sectionName.GetOr("")
      && a.datePublished == item.webPublicationDate.GetOr("")
      && a.title == item.webTitle.GetOr("")
      && a.subheading == f.trailText.GetOr("")
      && a.author == f.byline.GetOr("")
      && a.mainText == Clean(if f.body.Some? then f.body.value.soup else [])
      && a.thumbnail == f.thumbnail.GetOr("")
      && a.wordcount == f.wordcount.GetOr("")
      && !HasTag(a.mainText, LinkTag) && !HasTag(a.mainText, FigureTag)
  {
    if BuildRecord(item).Some? {
      var f := item.fields.GetOr(NoFields);
      CleanRemovesLinksAndFigures(BodyMarkup(f).soup);
    }
  }

  /** Each result is handled on its own: what one result yields does not depend on the others. */
  lemma {:induction false} BuiltConcat(xs: seq<RawItem>, ys: seq<RawItem>)
    ensures Built(xs + ys) == Built(xs) + Built(ys)
  {
    if xs == [] {
      assert xs + ys == ys;
    } else {
      assert (xs + ys)[0] == xs[0] && (xs + ys)[1..] == xs[1..] + ys;
      BuiltConcat(xs[1..], ys);
    }
  }

  lemma {:induction false} WithoutLiveBlogsConcat(xs: seq<Article>, ys: seq<Article>)
    ensures WithoutLiveBlogs(xs + ys) == WithoutLiveBlogs(xs) + WithoutLiveBlogs(ys)
  {
    if xs == [] {
      assert xs + ys == ys;
    } else {
      assert (xs + ys)[0] == xs[0] && (xs + ys)[1..] == xs[1..] + ys;
      WithoutLiveBlogsConcat(xs[1..], ys);
    }
  }

  /**
   * A result whose block raises is skipped and the batch carries on: it
   * contributes nothing and the results around it are processed as if it were absent.
   */
  lemma FailureIsSkipped(xs: seq<RawItem>, bad: RawItem, ys: seq<RawItem>)
    requires BuildRecord(bad).None?
    ensures Normalize(xs + [bad] + ys) == Normalize(xs) + Normalize(ys)
  {
    BuiltConcat(xs + [bad], ys);
    BuiltConcat(xs, [bad]);
    assert Built([bad]) == [];
    assert Built(xs + [bad]) == Built(xs);
    assert Built(xs + [bad] + ys) == Built(xs) + Built(ys);
    WithoutLiveBlogsConcat(Built(xs), Built(ys));
  }

  /** The filter keeps exactly the articles whose title lacks the marker. */
  lemma {:induction false} WithoutLiveBlogsMembers(arts: seq<Article>)
    ensures forall a :: a in WithoutLiveBlogs(arts) <==> a in arts && !IsLiveBlog(a)
  {
    if arts != [] {
      WithoutLiveBlogsMembers(arts[1..]);
      assert arts == [arts[0]] + arts[1..];
    }
  }

  /** The result is a record that the collection keeps: it is built and is not a live blog. */
  predicate Survives(item: RawItem)
  {
    BuildRecord(item).Some? && !IsLiveBlog(BuildRecord(item).value)
  }

  /** The collection, one result at a time. */
  lemma NormalizeStep(items: seq<RawItem>)
    requires items != []
    ensures Normalize(items) ==
      (if Survives(items[0]) then [BuildRecord(items[0]).value] else []) + Normalize(items[1..])
  {
    var head := match BuildRecord(items[0]) case Some(a) => [a] case None => [];
    assert Built(items) == head + Built(items[1..]);
    WithoutLiveBlogsConcat(head, Built(items[1..]));
  }

  /** The indices, from `from` on, of the results the collection keeps. */
  function Kept(items: seq<RawItem>, from: nat): seq<nat>
    decreases |items| - from
  {
    if from >= |items| then []
    else (if Survives(items[from]) then [from] else []) + Kept(items, from + 1)
  }

  /**
   * The collection is an order-preserving selection of the results: its m-th
   * article is the record of the `Kept(items, 0)[m]`-th result, those indices
   * increase, and a result is kept exactly when its record is built and is not
   * a live blog.
   */
  lemma NormalizeSelects(items: seq<RawItem>)
    ensures |Kept(items, 0)| == |Normalize(items)|
    ensures forall m :: 0 <= m < |Kept(items, 0)| ==>
      Kept(items, 0)[m] < |items| && BuildRecord(items[Kept(items, 0)[m]]) == Some(Normalize(items)[m])
    ensures forall m, n :: 0 <= m < n < |Kept(items, 0)| ==> Kept(items, 0)[m] < Kept(items, 0)[n]
    ensures forall k :: 0 <= k < |items| ==> (k in Kept(items, 0) <==> Survives(items[k]))
  {
    assert items[0..] == items;
    KeptPicks(items, 0);
    KeptIncreases(items, 0);
    KeptMembers(items, 0);
  }

  lemma {:induction false} KeptPicks(items: seq<RawItem>, from: nat)
    requires from <= |items|
    ensures |Kept(items, from)| == |Normalize(items[from..])|
    ensures forall m :: 0 <= m < |Kept(items, from)| ==>
      from <= Kept(items, from)[m] < |items| &&
      BuildRecord(items[Kept(items, from)[m]]) == Some(Normalize(items[from..])[m])
    decreases |items| - from
  {
    if from < |items| {
      KeptPicks(items, from + 1);
      NormalizeStep(items[from..]);
      assert items[from..][0] == items[from] && items[from..][1..] == items[from + 1..];
    }
  }

  lemma {:induction false} KeptIncreases(items: seq<RawItem>, from: nat)
    ensures forall m :: 0 <= m < |Kept(items, from)| ==> from <= Kept(items, from)[m]
    ensures forall m, n :: 0 <= m < n < |Kept(items, from)| ==> Kept(items, from)[m] < Kept(items, from)[n]
    decreases |items| - from
  {
    if from < |items| {
      KeptIncreases(items, from + 1);
    }
  }

  lemma {:induction false} KeptMembers(items: seq<RawItem>, from: nat)
    ensures forall k :: from <= k < |items| ==> (k in Kept(items, from) <==> Survives(items[k]))
    ensures forall k :: k in Kept(items, from) ==> from <= k < |items|
    decreases |items| - from
  {
    if from < |items| {
      KeptMembers(items, from + 1);
    }
  }

  /** The collection is never longer than the result list. */
  lemma {:induction false} NormalizeLength(items: seq<RawItem>)
    ensures |Normalize(items)| <= |items|
  {
    if items != [] {
      NormalizeLength(items[1..]);
      NormalizeStep(items);
    }
  }

  /**
   * No live blog survives, every built record without the marker does, and
   * every article's body is free of links and figures.
   */
  lemma {:induction false} NormalizeContents(items: seq<RawItem>)
    ensures forall a :: a in Normalize(items) ==> !Contains(a.title, LiveBlogMarker)
    ensures forall k :: 0 <= k < |items| && Survives(items[k]) ==> BuildRecord(items[k]).value in Normalize(items)
    ensures forall a :: a in Normalize(items) ==> !HasTag(a.mainText, LinkTag) && !HasTag(a.mainText, FigureTag)
  {
    NormalizeSelects(items);
    WithoutLiveBlogsMembers(Built(items));
    forall k | 0 <= k < |items| && Survives(items[k])
      ensures BuildRecord(items[k]).value in Normalize(items)
    {
      var m :| 0 <= m < |Kept(items, 0)| && Kept(items, 0)[m] == k;
    }
    forall a | a in Normalize(items)
      ensures !HasTag(a.mainText, LinkTag) && !HasTag(a.mainText, FigureTag)
    {
      var m :| 0 <= m < |Normalize(items)| && Normalize(items)[m] == a;
      RecordShape(items[Kept(items, 0)[m]]);
    }
  }

  /** When every result is an object, `process_articles` returns the collection. */
  lemma ProcessedWhenAllObjects(items: seq<RawItem>)
    requires forall k :: 0 <= k < |items| ==> items[k].Item?
    ensures ProcessedAsWritten(Payload(Some(items))) == Success(Normalize(items))
  {
  }

  /** A live blog is dropped and an ordinary article kept. */
  lemma LiveBlogExample()
    ensures
      var fire := Item(Some("world"), None, None, Some("Fire as it happened: Day 3"), None);
      var budget := Item(Some("politics"), None, None, Some("Budget update"), None);
      Normalize([fire, budget]) == [BuildRecord(budget).value]
  {
    var fire := Item(Some("world"), None, None, Some("Fire as it happened: Day 3"), None);
    var budget := Item(Some("politics"), None, None, Some("Budget update"), None);
    var title := "Fire as it happened: Day 3";
    assert title[5..5 + |LiveBlogMarker|] == LiveBlogMarker;
    assert OccursAt(title, LiveBlogMarker, 5);
    ContainsIff(title, LiveBlogMarker);
    assert Built([fire, budget]) == [BuildRecord(fire).value] + Built([budget]);
    assert Built([budget]) == [BuildRecord(budget).value];
    assert !Contains("Budget update", LiveBlogMarker);
  }

  /**
   * A result that is not an object aborts the whole call, so the good article
   * beside it is lost, although skipping the bad result would keep it.
   */
  lemma NonObjectResultAbortsBatch()
    ensures
      var good := Item(Some("world"), None, None, Some("Budget update"), None);
      && ProcessedAsWritten(Payload(Some([NotAnObject, good]))) == Failure(HandlerFailed)
      && Normalize([NotAnObject, good]) == [BuildRecord(good).value]
  {
    var good := Item(Some("world"), None, None, Some("Budget update"), None);
    assert [NotAnObject, good][0] == NotAnObject;
    assert Built([NotAnObject, good]) == Built([good]);
    assert Built([good]) == [BuildRecord(good).value];
    assert !Contains("Budget update", LiveBlogMarker);
  }

  /** The code as written behaves as intended exactly when no result is a non-object. */
  lemma AsWrittenDiffersOnNonObjects(payload: Payload)
    ensures ProcessedAsWritten(payload) == ProcessedIntended(payload) <==>
      payload.results.None? || NotAnObject !in payload.results.value
  {
  }
}
