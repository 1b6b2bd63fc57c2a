/**
 * The article-body sanitiser `clean_article_html` over an abstract HTML tree.
 *
 * The parsed body is a forest of nodes: text strings and elements. Each element
 * carries an `id` standing for the identity of the parser's tag object, so that
 * the two loops of the sanitiser can be modelled the way the source runs them:
 * `find_all` collects the matching objects once, in document order, and each
 * `replace_with` / `decompose` then acts on that object wherever it now is. Once
 * an object has been detached from the document (because an enclosing object was
 * replaced or removed first) acting on it changes nothing in the document.
 */
module Html {

  datatype Attr = Attr(name: string, value: string)

  datatype Node =
    | Text(text: string)
    | Element(id: nat, tag: string, attrs: seq<Attr>, children: seq<Node>)

  /** The top-level contents of a parsed fragment. */
  type Document = seq<Node>

  const LinkTag := "a"
  const FigureTag := "figure"

  // ---------------------------------------------------------------------------
  // Observations of a document

  /**
   * The `.text` of a subtree: all its strings concatenated in document order.
   * Strings inside `script`, `style`, `template`, `rt` and `rp`, which the parser
   * gives special string types that `.text` skips, are counted here too.
   */
  function TextOf(d: Document): string
  {
    if d == [] then ""
    else
      (match d[0]
         case Text(s) => s
         case Element(_, _, _, ch) => TextOf(ch))
      + TextOf(d[1..])
  }

  /** Some element of the document, at any depth, has tag `t`. */
  predicate HasTag(d: Document, t: string)
  {
    if d == [] then false
    else
      (match d[0]
         case Text(_) => false
         case Element(_, tag, _, ch) => tag == t || HasTag(ch, t))
      || HasTag(d[1..], t)
  }

  /** The tags of the elements whose identity is `x` (one entry per element). */
  function TagsOf(d: Document, x: nat): multiset<string>
  {
    if d == [] then multiset{}
    else
      (match d[0]
         case Text(_) => multiset{}
         case Element(id, tag, _, ch) => (if id == x then multiset{tag} else multiset{}) + TagsOf(ch, x))
      + TagsOf(d[1..], x)
  }

  /** Every element object occurs at most once in the tree, as in any parsed document. */
  ghost predicate DistinctIds(d: Document)
  {
    forall x :: |TagsOf(d, x)| <= 1
  }

  /** A document as the parser builds it. */
  type Soup = d: Document | DistinctIds(d) witness []

  // ---------------------------------------------------------------------------
  // The parser's primitives

  /** `find_all(t)`: the elements with tag `t`, in document (pre-)order. */
  function FindAll(d: Document, t: string): seq<nat>
  {
    if d == [] then []
    else
      (match d[0]
         case Text(_) => []
         case Element(id, tag, _, ch) => (if tag == t then [id] else []) + FindAll(ch, t))
      + FindAll(d[1..], t)
  }

  /** `e.replace_with(NavigableString(e.text))` for the element object `x`. */
  function ReplaceWithText(d: Document, x: nat): Document
  {
    if d == [] then []
    else
      (match d[0]
         case Text(_) => [d[0]]
         case Element(id, tag, attrs, ch) =>
           if id == x then [Text(TextOf(ch))] else [Element(id, tag, attrs, ReplaceWithText(ch, x))])
      + ReplaceWithText(d[1..], x)
  }

  /** `e.decompose()` for the element object `x`: it leaves the tree with its subtree. */
  function Decompose(d: Document, x: nat): Document
  {
    if d == [] then []
    else
      (match d[0]
         case Text(_) => [d[0]]
         case Element(id, tag, attrs, ch) =>
           if id == x then [] else [Element(id, tag, attrs, Decompose(ch, x))])
      + Decompose(d[1..], x)
  }

  // ---------------------------------------------------------------------------
  // What the sanitiser computes

  /** First pass: every outermost link becomes a text node holding its subtree's text. */
  function FlattenLinks(d: Document): Document
  {
    if d == [] then []
    else
      (match d[0]
         case Text(_) => [d[0]]
         case Element(id, tag, attrs, ch) =>
           if tag == LinkTag then [Text(TextOf(ch))] else [Element(id, tag, attrs, FlattenLinks(ch))])
      + FlattenLinks(d[1..])
  }

  /** Second pass: every figure is removed together with its subtree. */
  function RemoveFigures(d: Document): Document
  {
    if d == [] then []
    else
      (match d[0]
         case Text(_) => [d[0]]
         case Element(id, tag, attrs, ch) =>
           if tag == FigureTag then [] else [Element(id, tag, attrs, RemoveFigures(ch))])
      + RemoveFigures(d[1..])
  }

  /** The sanitised body: links flattened first, figures removed second. */
  function Clean(d: Document): Document
  {
    RemoveFigures(FlattenLinks(d))
  }

  /** `clean_article_html` on an already parsed body (lines 49-59). */
  method CleanArticleHtml(soup: Soup) returns (clean: Document)
    ensures clean == Clean(soup)
    ensures !HasTag(clean, LinkTag) && !HasTag(clean, FigureTag)
  {
    var flat := UnwrapLinks(soup);
    FlattenKeepsDistinct(soup);
    clean := DropFigures(flat);
    CleanRemovesLinksAndFigures(soup);
  }

  /** The first loop (lines 52-53): each link found is replaced by its text. */
  method UnwrapLinks(soup: Soup) returns (flat: Document)
    ensures flat == FlattenLinks(soup)
  {
    var doc: Document := soup;
    var links := FindAll(doc, LinkTag);
    LoopStart(doc, LinkTag);
    var i := 0;
    while i < |links|
      invariant i <= |links|
      invariant FlattenLinks(doc) == FlattenLinks(soup)
      invariant Pending(doc, links[i..], LinkTag)
    {
      assert links[i..][0] == links[i] && links[i..][1..] == links[i + 1..];
      ReplaceStep(doc, links[i..]);
      doc := ReplaceWithText(doc, links[i]);
      i := i + 1;
    }
    LoopEnd(doc, LinkTag);
    FlattenWithoutLinks(doc);
    flat := doc;
  }

  /** The second loop (lines 56-57): each figure found is removed. */
  method DropFigures(soup: Soup) returns (pruned: Document)
    ensures pruned == RemoveFigures(soup)
  {
    var doc: Document := soup;
    var figures := FindAll(doc, FigureTag);
    LoopStart(doc, FigureTag);
    var j := 0;
    while j < |figures|
      invariant j <= |figures|
      invariant RemoveFigures(doc) == RemoveFigures(soup)
      invariant Pending(doc, figures[j..], FigureTag)
    {
      assert figures[j..][0] == figures[j] && figures[j..][1..] == figures[j + 1..];
      DecomposeStep(doc, figures[j..]);
      doc := Decompose(doc, figures[j]);
      j := j + 1;
    }
    LoopEnd(doc, FigureTag);
    RemoveWithoutFigures(doc);
    pruned := doc;
  }

  /**
   * The loop state: every element tagged `t` still in the tree is one of the
   * objects `ids` still to visit, and each of those is, where still present, tagged `t`.
   */
  ghost predicate Pending(d: Document, ids: seq<nat>, t: string)
  {
    && (forall y :: t in TagsOf(d, y) ==> y in ids)
    && (forall k :: 0 <= k < |ids| ==> TagsOf(d, ids[k]) <= multiset{t})
  }

  /** What `find_all(t)` gives the loop to start from. */
  lemma LoopStart(d: Soup, t: string)
    ensures Pending(d, FindAll(d, t), t)
  {
    FindAllMembers(d, t);
    forall k | 0 <= k < |FindAll(d, t)|
      ensures TagsOf(d, FindAll(d, t)[k]) <= multiset{t}
    {
      SingleTag(TagsOf(d, FindAll(d, t)[k]), t);
    }
  }

  /** Once every object found has been visited, no element tagged `t` is left. */
  lemma LoopEnd(d: Document, t: string)
    requires Pending(d, [], t)
    ensures !HasTag(d, t)
  {
    NoTagFromTags(d, t);
  }

  /** One iteration of the link loop keeps the loop state and the pass's result. */
  lemma ReplaceStep(d: Document, ids: seq<nat>)
    requires ids != [] && Pending(d, ids, LinkTag)
    ensures Pending(ReplaceWithText(d, ids[0]), ids[1..], LinkTag)
    ensures FlattenLinks(ReplaceWithText(d, ids[0])) == FlattenLinks(d)
  {
    assert ids == [ids[0]] + ids[1..];
    ReplaceShrinksTags(d, ids[0]);
    FlattenAfterReplace(d, ids[0]);
    var d' := ReplaceWithText(d, ids[0]);
    forall k | 0 <= k < |ids[1..]|
      ensures TagsOf(d', ids[1..][k]) <= multiset{LinkTag}
    {
      assert ids[1..][k] == ids[k + 1];
    }
  }

  /** One iteration of the figure loop keeps the loop state and the pass's result. */
  lemma DecomposeStep(d: Document, ids: seq<nat>)
    requires ids != [] && Pending(d, ids, FigureTag)
    ensures Pending(Decompose(d, ids[0]), ids[1..], FigureTag)
    ensures RemoveFigures(Decompose(d, ids[0])) == RemoveFigures(d)
  {
    assert ids == [ids[0]] + ids[1..];
    DecomposeShrinksTags(d, ids[0]);
    RemoveAfterDecompose(d, ids[0]);
    var d' := Decompose(d, ids[0]);
    forall k | 0 <= k < |ids[1..]|
      ensures TagsOf(d', ids[1..][k]) <= multiset{FigureTag}
    {
      assert ids[1..][k] == ids[k + 1];
    }
  }

  // ---------------------------------------------------------------------------
  // Distribution over concatenation

  lemma {:induction false} TextOfConcat(a: Document, b: Document)
    ensures TextOf(a + b) == TextOf(a) + TextOf(b)
  {
    if a == [] {
      assert a + b == b;
    } else {
      assert (a + b)[0] == a[0] && (a + b)[1..] == a[1..] + b;
      TextOfConcat(a[1..], b);
    }
  }

  lemma {:induction false} HasTagConcat(a: Document, b: Document, t: string)
    ensures HasTag(a + b, t) <==> HasTag(a, t) || HasTag(b, t)
  {
    if a == [] {
      assert a + b == b;
    } else {
      assert (a + b)[0] == a[0] && (a + b)[1..] == a[1..] + b;
      HasTagConcat(a[1..], b, t);
    }
  }

  lemma {:induction false} TagsOfConcat(a: Document, b: Document, x: nat)
    ensures TagsOf(a + b, x) == TagsOf(a, x) + TagsOf(b, x)
  {
    if a == [] {
      assert a + b == b;
    } else {
      assert (a + b)[0] == a[0] && (a + b)[1..] == a[1..] + b;
      TagsOfConcat(a[1..], b, x);
    }
  }

  // ---------------------------------------------------------------------------
  // Identities and the parser's primitives

  /** `find_all(t)` returns exactly the identities of the elements tagged `t`. */
  lemma {:induction false} FindAllMembers(d: Document, t: string)
    ensures forall x :: x in FindAll(d, t) <==> t in TagsOf(d, x)
  {
    if d != [] {
      FindAllMembers(d[1..], t);
      match d[0]
      case Text(_) =>
      case Element(id, tag, _, ch) =>
        FindAllMembers(ch, t);
    }
  }

  lemma SingleTag(m: multiset<string>, t: string)
    requires |m| <= 1 && t in m
    ensures m == multiset{t}
  {
    var rest := m - multiset{t};
    assert m == rest + multiset{t};
    assert |rest| == 0;
  }

  lemma SubsetCard(a: multiset<string>, b: multiset<string>)
    requires a <= b
    ensures |a| <= |b|
  {
    assert b == a + (b - a);
  }

  /** A document with no element tagged `t` under any identity has no such element. */
  lemma {:induction false} NoTagFromTags(d: Document, t: string)
    requires forall y :: t !in TagsOf(d, y)
    ensures !HasTag(d, t)
  {
    if d != [] {
      match d[0]
      case Text(_) =>
        assert forall y :: TagsOf(d[1..], y) <= TagsOf(d, y);
        NoTagFromTags(d[1..], t);
      case Element(id, tag, _, ch) =>
        assert forall y :: TagsOf(ch, y) <= TagsOf(d, y) && TagsOf(d[1..], y) <= TagsOf(d, y);
        assert t !in TagsOf(d, id);
        NoTagFromTags(ch, t);
        NoTagFromTags(d[1..], t);
    }
  }

  /** `replace_with` on object `x` removes `x` from the tree and adds no element. */
  lemma {:induction false} ReplaceShrinksTags(d: Document, x: nat)
    ensures forall y :: TagsOf(ReplaceWithText(d, x), y) <= TagsOf(d, y)
    ensures TagsOf(ReplaceWithText(d, x), x) == multiset{}
  {
    if d != [] {
      ReplaceShrinksTags(d[1..], x);
      var head := match d[0]
        case Text(_) => [d[0]]
        case Element(id, tag, attrs, ch) =>
          if id == x then [Text(TextOf(ch))] else [Element(id, tag, attrs, ReplaceWithText(ch, x))];
      assert ReplaceWithText(d, x) == head + ReplaceWithText(d[1..], x);
      match d[0]
      case Text(_) =>
      case Element(id, tag, attrs, ch) =>
        ReplaceShrinksTags(ch, x);
      forall y ensures TagsOf(ReplaceWithText(d, x), y) == TagsOf(head, y) + TagsOf(ReplaceWithText(d[1..], x), y) {
        TagsOfConcat(head, ReplaceWithText(d[1..], x), y);
      }
    }
  }

  /** `decompose` on object `x` removes `x` from the tree and adds no element. */
  lemma {:induction false} DecomposeShrinksTags(d: Document, x: nat)
    ensures forall y :: TagsOf(Decompose(d, x), y) <= TagsOf(d, y)
    ensures TagsOf(Decompose(d, x), x) == multiset{}
  {
    if d != [] {
      DecomposeShrinksTags(d[1..], x);
      var head := match d[0]
        case Text(_) => [d[0]]
        case Element(id, tag, attrs, ch) =>
          if id == x then [] else [Element(id, tag, attrs, Decompose(ch, x))];
      assert Decompose(d, x) == head + Decompose(d[1..], x);
      match d[0]
      case Text(_) =>
      case Element(id, tag, attrs, ch) =>
        DecomposeShrinksTags(ch, x);
      forall y ensures TagsOf(Decompose(d, x), y) == TagsOf(head, y) + TagsOf(Decompose(d[1..], x), y) {
        TagsOfConcat(head, Decompose(d[1..], x), y);
      }
    }
  }

  /** Replacing an element by its own text leaves the text of the tree unchanged. */
  lemma {:induction false} ReplaceKeepsText(d: Document, x: nat)
    ensures TextOf(ReplaceWithText(d, x)) == TextOf(d)
  {
    if d != [] {
      ReplaceKeepsText(d[1..], x);
      var head := match d[0]
        case Text(_) => [d[0]]
        case Element(id, tag, attrs, ch) =>
          if id == x then [Text(TextOf(ch))] else [Element(id, tag, attrs, ReplaceWithText(ch, x))];
      assert ReplaceWithText(d, x) == head + ReplaceWithText(d[1..], x);
      TextOfConcat(head, ReplaceWithText(d[1..], x));
      match d[0]
      case Text(_) =>
      case Element(id, tag, attrs, ch) =>
        if id != x {
          ReplaceKeepsText(ch, x);
        }
    }
  }

  /** One iteration of the link loop leaves the final flattened document unchanged. */
  lemma {:induction false} FlattenAfterReplace(d: Document, x: nat)
    requires TagsOf(d, x) <= multiset{LinkTag}
    ensures FlattenLinks(ReplaceWithText(d, x)) == FlattenLinks(d)
  {
    if d != [] {
      var head := match d[0]
        case Text(_) => [d[0]]
        case Element(id, tag, attrs, ch) =>
          if id == x then [Text(TextOf(ch))] else [Element(id, tag, attrs, ReplaceWithText(ch, x))];
      var rest := ReplaceWithText(d[1..], x);
      assert ReplaceWithText(d, x) == head + rest;
      assert TagsOf(d[1..], x) <= TagsOf(d, x);
      FlattenAfterReplace(d[1..], x);
      FlattenConcat(head, rest);
      match d[0]
      case Text(_) =>
      case Element(id, tag, attrs, ch) =>
        assert TagsOf(ch, x) <= TagsOf(d, x);
        if id == x {
          assert tag in TagsOf(d, x);
        } else if tag == LinkTag {
          ReplaceKeepsText(ch, x);
        } else {
          FlattenAfterReplace(ch, x);
        }
    }
  }

  /** One iteration of the figure loop leaves the final pruned document unchanged. */
  lemma {:induction false} RemoveAfterDecompose(d: Document, x: nat)
    requires TagsOf(d, x) <= multiset{FigureTag}
    ensures RemoveFigures(Decompose(d, x)) == RemoveFigures(d)
  {
    if d != [] {
      var head := match d[0]
        case Text(_) => [d[0]]
        case Element(id, tag, attrs, ch) =>
          if id == x then [] else [Element(id, tag, attrs, Decompose(ch, x))];
      var rest := Decompose(d[1..], x);
      assert Decompose(d, x) == head + rest;
      assert TagsOf(d[1..], x) <= TagsOf(d, x);
      RemoveAfterDecompose(d[1..], x);
      RemoveConcat(head, rest);
      match d[0]
      case Text(_) =>
      case Element(id, tag, attrs, ch) =>
        assert TagsOf(ch, x) <= TagsOf(d, x);
        if id == x {
          assert tag in TagsOf(d, x);
        } else if tag != FigureTag {
          RemoveAfterDecompose(ch, x);
        }
    }
  }

  // ---------------------------------------------------------------------------
  // Properties of the two passes

  lemma {:induction false} FlattenConcat(a: Document, b: Document)
    ensures FlattenLinks(a + b) == FlattenLinks(a) + FlattenLinks(b)
  {
    if a == [] {
      assert a + b == b;
    } else {
      assert (a + b)[0] == a[0] && (a + b)[1..] == a[1..] + b;
      FlattenConcat(a[1..], b);
    }
  }

  lemma {:induction false} RemoveConcat(a: Document, b: Document)
    ensures RemoveFigures(a + b) == RemoveFigures(a) + RemoveFigures(b)
  {
    if a == [] {
      assert a + b == b;
    } else {
      assert (a + b)[0] == a[0] && (a + b)[1..] == a[1..] + b;
      RemoveConcat(a[1..], b);
    }
  }

  /**
   * After the first pass no link is left, the visible text is unchanged, and
   * no tag appears that was not there before.
   */
  lemma {:induction false} FlattenLinksSpec(d: Document)
    ensures !HasTag(FlattenLinks(d), LinkTag)
    ensures TextOf(FlattenLinks(d)) == TextOf(d)
    ensures forall t :: HasTag(FlattenLinks(d), t) ==> HasTag(d, t)
  {
    if d != [] {
      FlattenLinksSpec(d[1..]);
      var head := match d[0]
        case Text(_) => [d[0]]
        case Element(id, tag, attrs, ch) =>
          if tag == LinkTag then [Text(TextOf(ch))] else [Element(id, tag, attrs, FlattenLinks(ch))];
      var rest := FlattenLinks(d[1..]);
      assert FlattenLinks(d) == head + rest;
      TextOfConcat(head, rest);
      forall t ensures HasTag(FlattenLinks(d), t) <==> HasTag(head, t) || HasTag(rest, t) {
        HasTagConcat(head, rest, t);
      }
      match d[0]
      case Text(_) =>
      case Element(id, tag, attrs, ch) =>
        if tag != LinkTag {
          FlattenLinksSpec(ch);
        }
    }
  }

  /** After the second pass no figure is left and no tag appears that was not there before. */
  lemma {:induction false} RemoveFiguresSpec(d: Document)
    ensures !HasTag(RemoveFigures(d), FigureTag)
    ensures forall t :: HasTag(RemoveFigures(d), t) ==> HasTag(d, t)
  {
    if d != [] {
      RemoveFiguresSpec(d[1..]);
      var head := match d[0]
        case Text(_) => [d[0]]
        case Element(id, tag, attrs, ch) =>
          if tag == FigureTag then [] else [Element(id, tag, attrs, RemoveFigures(ch))];
      var rest := RemoveFigures(d[1..]);
      assert RemoveFigures(d) == head + rest;
      forall t ensures HasTag(RemoveFigures(d), t) <==> HasTag(head, t) || HasTag(rest, t) {
        HasTagConcat(head, rest, t);
      }
      match d[0]
      case Text(_) =>
      case Element(id, tag, attrs, ch) =>
        if tag != FigureTag {
          RemoveFiguresSpec(ch);
        }
    }
  }

  /** The first pass adds no element object and keeps the parsed tree's objects distinct. */
  lemma {:induction false} FlattenKeepsDistinct(d: Document)
    requires DistinctIds(d)
    ensures DistinctIds(FlattenLinks(d))
  {
    FlattenShrinksTags(d);
    forall y ensures |TagsOf(FlattenLinks(d), y)| <= 1 {
      SubsetCard(TagsOf(FlattenLinks(d), y), TagsOf(d, y));
    }
  }

  lemma {:induction false} FlattenShrinksTags(d: Document)
    ensures forall y :: TagsOf(FlattenLinks(d), y) <= TagsOf(d, y)
  {
    if d != [] {
      FlattenShrinksTags(d[1..]);
      var head := match d[0]
        case Text(_) => [d[0]]
        case Element(id, tag, attrs, ch) =>
          if tag == LinkTag then [Text(TextOf(ch))] else [Element(id, tag, attrs, FlattenLinks(ch))];
      assert FlattenLinks(d) == head + FlattenLinks(d[1..]);
      match d[0]
      case Text(_) =>
      case Element(id, tag, attrs, ch) =>
        FlattenShrinksTags(ch);
      forall y ensures TagsOf(FlattenLinks(d), y) == TagsOf(head, y) + TagsOf(FlattenLinks(d[1..]), y) {
        TagsOfConcat(head, FlattenLinks(d[1..]), y);
      }
    }
  }

  /** A document without links is left as it is by the first pass. */
  lemma {:induction false} FlattenWithoutLinks(d: Document)
    requires !HasTag(d, LinkTag)
    ensures FlattenLinks(d) == d
  {
    if d != [] {
      FlattenWithoutLinks(d[1..]);
      match d[0]
      case Text(_) =>
      case Element(id, tag, attrs, ch) =>
        FlattenWithoutLinks(ch);
    }
  }

  /** A document without figures is left as it is by the second pass. */
  lemma {:induction false} RemoveWithoutFigures(d: Document)
    requires !HasTag(d, FigureTag)
    ensures RemoveFigures(d) == d
  {
    if d != [] {
      RemoveWithoutFigures(d[1..]);
      match d[0]
      case Text(_) =>
      case Element(id, tag, attrs, ch) =>
        RemoveWithoutFigures(ch);
    }
  }

  /** The sanitised body holds neither a link nor a figure. */
  lemma CleanRemovesLinksAndFigures(d: Document)
    ensures !HasTag(Clean(d), LinkTag) && !HasTag(Clean(d), FigureTag)
  {
    FlattenLinksSpec(d);
    RemoveFiguresSpec(FlattenLinks(d));
  }

  /** A body with neither links nor figures comes back unchanged. */
  lemma CleanWithoutLinksOrFigures(d: Document)
    requires !HasTag(d, LinkTag) && !HasTag(d, FigureTag)
    ensures Clean(d) == d
  {
    FlattenWithoutLinks(d);
    RemoveWithoutFigures(d);
  }

  /** Sanitising a sanitised body changes nothing. */
  lemma CleanIdempotent(d: Document)
    ensures Clean(Clean(d)) == Clean(d)
  {
    CleanRemovesLinksAndFigures(d);
    CleanWithoutLinksOrFigures(Clean(d));
  }

  /** Sanitising works node by node: the top-level order is kept. */
  lemma CleanConcat(a: Document, b: Document)
    ensures Clean(a + b) == Clean(a) + Clean(b)
  {
    FlattenConcat(a, b);
    RemoveConcat(FlattenLinks(a), FlattenLinks(b));
  }

  // ---------------------------------------------------------------------------
  // Examples

  /**
   * `<p>See <a href="x">this</a> story</p><figure><img src="y"><figcaption>cap</figcaption></figure>`
   * sanitises to `<p>See this story</p>`: the link's text stays in place, the figure goes.
   */
  lemma LinkAndFigureExample()
    ensures
      var body := [
        Element(0, "p", [], [Text("See "), Element(1, LinkTag, [Attr("href", "x")], [Text("this")]), Text(" story")]),
        Element(2, FigureTag, [], [Element(3, "img", [Attr("src", "y")], []),
                                   Element(4, "figcaption", [], [Text("cap")])])];
      Clean(body) == [Element(0, "p", [], [Text("See "), Text("this"), Text(" story")])]
  {
    var link := Element(1, LinkTag, [Attr("href", "x")], [Text("this")]);
    var para := [Text("See "), link, Text(" story")];
    var flat := [Text("See "), Text("this"), Text(" story")];
    var figure := Element(2, FigureTag, [], [Element(3, "img", [Attr("src", "y")], []),
                                             Element(4, "figcaption", [], [Text("cap")])]);
    var p := Element(0, "p", [], para);
    assert para == [Text("See ")] + ([link] + [Text(" story")]);
    FlattenConcat([Text("See ")], [link] + [Text(" story")]);
    FlattenConcat([link], [Text(" story")]);
    assert TextOf([Text("this")]) == "this";
    assert FlattenLinks(para) == flat;
    assert [p, figure] == [p] + [figure];
    FlattenConcat([p], [figure]);
    assert FlattenLinks([p]) == [Element(0, "p", [], flat)];
    assert FlattenLinks([figure])[0].tag == FigureTag;
    assert RemoveFigures(FlattenLinks([figure])) == [];
    RemoveWithoutFigures(flat);
    RemoveConcat([Element(0, "p", [], flat)], FlattenLinks([figure]));
  }

  /**
   * The pass order matters: a figure inside a link is flattened with the link
   * first, so its caption survives as text; pruning first would lose it.
   */
  lemma FigureInsideLinkExample()
    ensures
      var body := [Element(0, LinkTag, [], [Element(1, FigureTag, [], [Element(2, "figcaption", [], [Text("cap")])])])];
      && Clean(body) == [Text("cap")]
      && FlattenLinks(RemoveFigures(body)) == [Text("")]
  {
    var caption := [Element(2, "figcaption", [], [Text("cap")])];
    var inner := [Element(1, FigureTag, [], caption)];
    assert TextOf([Text("cap")]) == "cap";
    assert TextOf(caption) == "cap";
    assert TextOf(inner) == "cap";
    assert FlattenLinks([Element(0, LinkTag, [], inner)]) == [Text("cap")];
    assert RemoveFigures([Text("cap")]) == [Text("cap")];
    assert RemoveFigures(inner) == [];
    assert RemoveFigures([Element(0, LinkTag, [], inner)]) == [Element(0, LinkTag, [], [])];
    assert TextOf([]) == "";
  }
}
