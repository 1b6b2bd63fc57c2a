# Guardian news digest: normaliser, sanitiser and section selector in Dafny

This project models the logic of `src/guardian_news.py`, a small client of The Guardian's content API. That logic is three steps:

- **Sanitiser.** `clean_article_html` parses an article body. It replaces every `a` element by a text node holding that element's text (in the model, every string beneath it: see `Html.TextOf` under Left out). It then removes every `figure` element together with its subtree.
- **Normaliser.** `process_articles` walks the API's `response.results` list and builds a nine-entry record per result. Each absent entry becomes `''`, and the body runs through the sanitiser. A result whose processing raises is skipped, except a result that is not an object (see Findings). Finally, every record whose title contains `as it happened` (a live blog) is dropped.
- **Selector.** `select_section_highlights` splits the `|`-separated section filter. For each section, in request order, it picks the first record of that section. The results arrive in relevance order, so this is the section's top article. Selection raises if a section has no article.

Modules, one file each:

- `html.dfy` (`Html`): the parsed body is a forest of `Text` and `Element` nodes. Each element carries an `id` that stands for the identity of the parser's tag object, and a `Soup` is a forest whose ids are distinct.
  - `find_all` becomes `FindAll`, which returns the ids in document order. `replace_with` and `decompose` become `ReplaceWithText` and `Decompose`, which act on the element with that id wherever it is. Once that element has left the tree, they change nothing, which is what the parser's objects do once detached.
  - The two loops `UnwrapLinks` and `DropFigures` iterate over the list that `find_all` returned. They are proved to compute `FlattenLinks` and `RemoveFigures`, so `CleanArticleHtml` computes `Clean = RemoveFigures ∘ FlattenLinks`.
- `normalizer.dfy` (`Normalizer`): raw results are datatypes with optional entries. Entries that make the `try` block raise have their own variants: a `fields` value that is not an object (`NotAMap`), and a body the parser refuses (`Unparseable`).
  - `ProcessArticles` is the loop of lines 70-97 followed by the live-blog filter of line 100. It is proved equal to `ProcessedAsWritten`.
  - `Normalize` is the article collection: every result whose record can be built, with live blogs removed.
- `selector.dfy` (`Selector`): `SelectSectionHighlights` is the loop of lines 119-121. `FirstMatch` is the `next(...)` scan. The filter is split by `Strings.Split`.
- `strings.dfy` (`Strings`): Python's `str.split(sep)`, kept with its empty pieces, with its inverse `Join`. Also the `in` substring test, with a positional reference definition.
- `pipeline.dfy` (`Pipeline`): lines 138-139 of `get_guardian_news`, starting from an already fetched payload.
- `wrappers.dfy` (`Wrappers`): `Option` and `Result`.

## Model

| member | source | states |
|---|---|---|
| `Html.CleanArticleHtml` | src/guardian_news.py:42-59 | the sanitised body equals links flattened first and figures removed second, and it holds no `a` and no `figure` element |
| `Html.UnwrapLinks` | src/guardian_news.py:52-53 | replacing each `a` object found by `find_all` with its text, in document order, yields every outermost link replaced in place by its subtree's text |
| `Html.DropFigures` | src/guardian_news.py:56-57 | decomposing each `figure` object found, in document order, yields the tree with every figure subtree removed and all other nodes in their order and nesting |
| `Html.FindAllMembers` | src/guardian_news.py:52 | `find_all(t)` returns exactly the element ids whose tag is `t` |
| `Html.ReplaceShrinksTags` | src/guardian_news.py:53 | `replace_with` takes the replaced object out of the tree and adds no element |
| `Html.DecomposeShrinksTags` | src/guardian_news.py:57 | `decompose` takes the object out of the tree and adds no element |
| `Html.ReplaceKeepsText` | src/guardian_news.py:53 | replacing an element with a string of its own text keeps the document's text unchanged |
| `Html.FlattenAfterReplace` | src/guardian_news.py:52-53 | one iteration of the link loop, including one on a link already detached, leaves the pass's final result unchanged |
| `Html.RemoveAfterDecompose` | src/guardian_news.py:56-57 | one iteration of the figure loop, including one on a figure already removed, leaves the pass's final result unchanged |
| `Html.FlattenKeepsDistinct` | src/guardian_news.py:52-53 | after the link pass every element object still occurs once |
| `Html.FlattenLinksSpec` | src/guardian_news.py:52-53 | after the link pass no `a` element is left, the visible text is unchanged and no new tag appears |
| `Html.RemoveFiguresSpec` | src/guardian_news.py:56-57 | after the figure pass no `figure` element is left and no new tag appears |
| `Html.FlattenWithoutLinks` | src/guardian_news.py:52-53 | the link pass leaves a tree without links unchanged |
| `Html.RemoveWithoutFigures` | src/guardian_news.py:56-57 | the figure pass leaves a tree without figures unchanged |
| `Html.CleanRemovesLinksAndFigures` | src/guardian_news.py:49-59 | a sanitised body contains neither an `a` nor a `figure` element |
| `Html.CleanWithoutLinksOrFigures` | src/guardian_news.py:49-59 | a body without links and figures comes back unchanged |
| `Html.CleanIdempotent` | src/guardian_news.py:49-59 | sanitising a sanitised body changes nothing |
| `Html.CleanConcat` | src/guardian_news.py:49-59 | sanitising works node by node and keeps the top-level order |
| `Html.LinkAndFigureExample` | src/guardian_news.py:49-59 | `<p>See <a href="x">this</a> story</p><figure>…<figcaption>cap</figcaption></figure>` becomes `<p>See this story</p>` |
| `Html.FigureInsideLinkExample` | src/guardian_news.py:52-57 | a figure inside a link keeps its caption as text because links go first; pruning first would lose the caption |
| `Strings.Split` | src/guardian_news.py:117 | `split` always yields at least one piece (`''` yields `['']`) |
| `Strings.SplitPieces` | src/guardian_news.py:117 | no piece contains the separator, and there is exactly one piece more than there are separators, so empty pieces are kept |
| `Strings.JoinSplit` | src/guardian_news.py:117 | joining the pieces with the separator gives back the filter string |
| `Strings.SplitJoin` | src/guardian_news.py:117 | splitting a join of separator-free pieces gives back those pieces |
| `Strings.ContainsIff` | src/guardian_news.py:100 | the `in` test holds exactly when the marker occurs at some position of the title |
| `Normalizer.ProcessArticles` | src/guardian_news.py:62-102 | the loop fails with a KeyError when `results` is missing. It fails when a result is not an object. Otherwise it returns the built records, live blogs removed, in result order |
| `Normalizer.RecordShape` | src/guardian_news.py:72-94 | a record is built exactly when neither `fields` nor the body makes the block raise. Then all nine entries hold the item's value or `''`, `main_text` is the sanitised body or the sanitised empty body, and it has no link or figure |
| `Normalizer.BuiltConcat` | src/guardian_news.py:70-97 | results are processed independently: the records of two result lists, one after the other, are the records of their concatenation |
| `Normalizer.FailureIsSkipped` | src/guardian_news.py:95-97 | a result whose block raises contributes nothing, and the results on both sides are processed as if it were absent |
| `Normalizer.WithoutLiveBlogsMembers` | src/guardian_news.py:100 | the filter keeps exactly the articles whose title lacks `as it happened` |
| `Normalizer.NormalizeSelects` | src/guardian_news.py:70-100 | the collection's m-th article is the record of the result at an increasing index, and a result is kept exactly when its record is built and is not a live blog |
| `Normalizer.NormalizeLength` | src/guardian_news.py:70-100 | the collection is never longer than the result list |
| `Normalizer.NormalizeContents` | src/guardian_news.py:82-100 | no kept title contains `as it happened`, every built record without it is kept, and no kept body has a link or figure |
| `Normalizer.ProcessedWhenAllObjects` | src/guardian_news.py:70-102 | when every result is an object, the call returns the collection |
| `Normalizer.LiveBlogExample` | src/guardian_news.py:100 | `Fire as it happened: Day 3` is dropped and `Budget update` kept |
| `Normalizer.NonObjectResultAbortsBatch` | src/guardian_news.py:95-96 | a result that is not an object aborts the call and loses the good result beside it |
| `Normalizer.AsWrittenDiffersOnNonObjects` | src/guardian_news.py:70-102 | the behaviour as written equals the intended skip-every-failure behaviour exactly when no result is a non-object |
| `Selector.FirstMatch` | src/guardian_news.py:120 | the scan finds an index of an article of the section with none of that section before it, and finds nothing exactly when no article belongs to the section |
| `Selector.SelectSectionHighlights` | src/guardian_news.py:105-123 | selection succeeds exactly when every requested piece has an article. Then it returns one record per piece, in request order, each the first of its section, and the same record for a repeated section. Otherwise it fails on the first unmatched piece, with no partial list |
| `Selector.FirstOfUnique` | src/guardian_news.py:119-121 | a section has only one first article |
| `Selector.SelectionExample` | src/guardian_news.py:119-121 | over articles of sections `world`, `world`, `sport`, the scan finds index 0 for `world`, 2 for `sport` and none for `politics`; the first `world` article is the first one, the first `sport` article is the third, and no article is in `politics` |
| `Selector.FilterExample` | src/guardian_news.py:117 | the filter `world`, separator, `sport` requests `world`, then `sport` |
| `Pipeline.HighlightsFromPayload` | src/guardian_news.py:137-141 | a processing failure is passed on. A success carries one first-of-section article of the collection per requested piece, and selection succeeds exactly when every piece has an article. Otherwise the error names the first requested piece without an article |

## Findings

| source | as written | input that shows it | evidently intended | confidence | as-written member | corrected member |
|---|---|---|---|---|---|---|
| src/guardian_news.py:95-96 | the `except` handler calls `news_item.get('webTitle', 'Unknown')` to report a failure. For a result that is not a JSON object this raises again, outside any handler, so one bad result aborts the whole call | `results = [<non-object>, {'webTitle': 'Budget update', ...}]` | skip the bad result and keep the others, as the catch-all handler means to | not executed; medium (assumes Python 3.12+, where line 96 parses) | `Normalizer.NonObjectResultAbortsBatch` | `Normalizer.FailureIsSkipped` |

`Normalizer.ProcessArticles` models the code as written. The corrected behaviour is `Normalizer.ProcessedIntended`, which returns `Normalize` whenever `results` is present. `Normalize` is the definition the collection properties are proved about, and the one the as-written call returns whenever every result is an object (`Normalizer.AsWrittenDiffersOnNonObjects`).

## Behaviour worth knowing

- `next` at line 120 raises `StopIteration` for an unmatched section, and that exception carries no section. The model's `NoMatch(section)` also names the first unmatched piece, in request order.
- The catch-all `except Exception: ... continue` of lines 95-97 does not skip a result that is not an object: see Findings.
- `wordcount` is kept as the value the API returns (lines 80 and 93), a string; it is not converted to an integer.
- The f-string of line 96 reuses its enclosing quotes inside the braces, which parses only from Python 3.12 on. The model, and the Finding, describe the module as Python 3.12 or later runs it; on earlier versions the module does not load at all.

## Left out

- `fetch_guardian_news` (lines 9-39): one HTTP request, environment lookup of the API key, and date arithmetic on the current time. The fetched payload is a parameter of `Pipeline.HighlightsFromPayload`.
- `get_guardian_news` (lines 126-141) is modelled only from the payload onward.
- Parsing the body with `html.parser` (line 49) and serialising with `str(soup)` (line 59) belong to a foreign library. The body is given as the parsed tree, and `main_text` is the sanitised tree rather than its string. Adjacent text nodes are not merged; the parser does not merge them either, and serialisation concatenates them.
- Comment, doctype and processing-instruction nodes are not modelled; the tree has only text and element nodes.
- Html.TextOf: the parser's `.text` (line 53) skips the strings it files under `script`, `style`, `template`, `rt` and `rp` as special string types, but `TextOf` concatenates every string under the link. So a link holding a script, such as `<a>Read<script>track()</script></a>`, becomes `Readtrack()` in the model and `Read` in the source. The string types are not modelled.
- Html.CleanArticleHtml: the in-place mutation of the parsed tree is modelled on values. Each `replace_with` or `decompose` yields a new tree, and object identity is represented by the element ids.
- JSON values other than strings in the top-level entries and `fields` entries are not modelled. For example, a numeric, boolean or null title would make line 100 raise.
- Malformed result shapes other than a non-object result, a non-object `fields` and an unparseable body are not modelled. Examples are a non-list `results`, or a `response` that is not an object.
- The diagnostic `print` of line 96 is console output; the model keeps only skip-and-continue.
- `src/main.py` is directory creation, console output and placeholders, and is not part of this model.
- `Split` models only the one-character separator that the code uses.
