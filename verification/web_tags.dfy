/**
 * The web platform's tag tables, consulted by the markup tokenizer's
 * implicit-close rules. Each is an exact, case-sensitive membership test
 * over a fixed list of element names, written out in the lists' own order.
 */
module WebTags {

  /**
   * The shape of every name in the tables: one to ten characters, the
   * first a lower-case ASCII letter. The tests are case-sensitive, so a
   * name written with a capital first letter is in none of them.
   */
  predicate IsTableName(tag: string) {
    1 <= |tag| <= 10 && 'a' <= tag[0] <= 'z'
  }

  /**
   * Void elements: never pushed on the open-element stack. The body is the
   * `isUnaryTag` table of src/platforms/web/compiler/util.js (lines 5-8),
   * name for name.
   */
  function IsUnaryTag(tag: string): (r: bool)
    ensures r ==> IsTableName(tag)
  {
    || tag == "area" || tag == "base" || tag == "br" || tag == "col" || tag == "embed" || tag == "frame" || tag == "hr" || tag == "img" || tag == "input" || tag == "isindex" || tag == "keygen"
    || tag == "link" || tag == "meta" || tag == "param" || tag == "source" || tag == "track" || tag == "wbr"
  }

  /**
   * Elements a template may intentionally leave open; a sibling of the same
   * name closes them. The body is the `canBeLeftOpenTag` table of
   * src/platforms/web/compiler/util.js (lines 13-15), name for name.
   */
  function CanBeLeftOpenTag(tag: string): (r: bool)
    ensures r ==> IsTableName(tag)
  {
    || tag == "colgroup" || tag == "dd" || tag == "dt" || tag == "li" || tag == "options" || tag == "p" || tag == "td" || tag == "tfoot" || tag == "th" || tag == "thead" || tag == "tr" || tag == "source"
  }

  /**
   * Elements outside the phrasing-content category; a `p` cannot contain
   * them. The body is the `isNonPhrasingTag` table of
   * src/platforms/web/compiler/util.js (lines 20-26), name for name.
   */
  function IsNonPhrasingTag(tag: string): (r: bool)
    ensures r ==> IsTableName(tag)
  {
    || tag == "address" || tag == "article" || tag == "aside" || tag == "base" || tag == "blockquote" || tag == "body" || tag == "caption" || tag == "col" || tag == "colgroup" || tag == "dd"
    || tag == "details" || tag == "dialog" || tag == "div" || tag == "dl" || tag == "dt" || tag == "fieldset" || tag == "figcaption" || tag == "figure" || tag == "footer" || tag == "form"
    || tag == "h1" || tag == "h2" || tag == "h3" || tag == "h4" || tag == "h5" || tag == "h6" || tag == "head" || tag == "header" || tag == "hgroup" || tag == "hr" || tag == "html" || tag == "legend" || tag == "li" || tag == "menuitem" || tag == "meta"
    || tag == "optgroup" || tag == "option" || tag == "param" || tag == "rp" || tag == "rt" || tag == "source" || tag == "style" || tag == "summary" || tag == "tbody" || tag == "td" || tag == "tfoot" || tag == "th" || tag == "thead"
    || tag == "title" || tag == "tr" || tag == "track"
  }

  /** Common void elements, and common containers that are not void. */
  lemma UnaryExamples()
    ensures IsUnaryTag("br") && IsUnaryTag("img") && IsUnaryTag("input") && IsUnaryTag("wbr")
    ensures !IsUnaryTag("div") && !IsUnaryTag("p") && !IsUnaryTag("span")
    ensures !IsUnaryTag("BR") && !IsUnaryTag("Img")
  {
  }

  /** `options` (not `option`) is the listed name, so `option` is not left open. */
  lemma LeftOpenExamples()
    ensures CanBeLeftOpenTag("li") && CanBeLeftOpenTag("p") && CanBeLeftOpenTag("td")
    ensures CanBeLeftOpenTag("tr") && CanBeLeftOpenTag("dd") && CanBeLeftOpenTag("dt")
    ensures CanBeLeftOpenTag("options") && !CanBeLeftOpenTag("option")
  {
  }

  /** Block-level names close an open `p`. */
  lemma NonPhrasingExamples()
    ensures IsNonPhrasingTag("div") && IsNonPhrasingTag("li") && IsNonPhrasingTag("tr")
    ensures IsNonPhrasingTag("h1") && IsNonPhrasingTag("h2") && IsNonPhrasingTag("h3")
    ensures IsNonPhrasingTag("h4") && IsNonPhrasingTag("h5") && IsNonPhrasingTag("h6")
  {
  }

  /** Phrasing elements do not close an open `p`. */
  lemma PhrasingExamples()
    ensures !IsNonPhrasingTag("p") && !IsNonPhrasingTag("span")
  {
  }

  /** Nor do the list and table containers, which the table leaves out. */
  lemma ContainerExamples()
    ensures !IsNonPhrasingTag("ul") && !IsNonPhrasingTag("table")
  {
  }

  /** `source` is in all three tables; four void elements are also non-phrasing. */
  lemma TableOverlaps()
    ensures IsUnaryTag("source") && CanBeLeftOpenTag("source") && IsNonPhrasingTag("source")
    ensures forall t :: t in {"hr", "meta", "param", "track"} ==> IsUnaryTag(t) && IsNonPhrasingTag(t)
  {
  }
}
