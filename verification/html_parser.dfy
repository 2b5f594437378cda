/**
 * The markup tokenizer: a cursor over the template string with a stack of
 * open elements. It reports start tags, end tags, text and comments, in
 * source order, to an event log (the callbacks of the original), and
 * dev-mode warnings to a warning log. It never fails: stray end tags,
 * implicitly closed elements, a `<` that begins no markup, and unclosed
 * elements at the end are all recovered from by fixed rules.
 */
module HtmlParser {
  import opened Wrappers
  import opened Strings
  import opened WebTags
  import opened HtmlPatterns

  datatype Attr = Attr(name: string, value: string)

  /** Where an event's text lies in the template. */
  datatype Span = Span(start: nat, end: nat)

  /** One callback invocation: `start`, `end`, `chars` or `comment`, with the arguments passed. */
  datatype Event =
    | Start(tag: string, attrs: seq<Attr>, unary: bool, start: nat, end: nat)
    | End(tag: string, start: nat, end: nat)
    | Chars(text: string, span: Option<Span>)
    | Comment(text: string, start: nat, end: nat)

  datatype Warning =
    | NoMatchingEnd(tag: string, start: nat, end: nat)
    | MalformedAtEnd(rest: string)

  /** An open element on the stack. */
  datatype StackEntry = StackEntry(tag: string, lowerCasedTag: string, attrs: seq<Attr>, start: nat, end: nat)

  /** The options the tokenizer reads; an absent tag table is `_ => false`. */
  datatype Options = Options(
    expectHTML: bool,
    isUnaryTag: string -> bool,
    canBeLeftOpenTag: string -> bool,
    shouldKeepComment: bool,
    shouldDecodeNewlines: bool,
    shouldDecodeNewlinesForHref: bool)

  /** A start tag read up to its closing `>`: name, raw attributes, `/>`, and its span. */
  datatype StartMatch = StartMatch(tagName: string, attrs: seq<AttrMatch>, unarySlash: bool, start: nat, end: nat)

  /* ---------- the open-element discipline of the event log ---------- */

  /** The open-element names after one event, or `None` when an `end` does not close the innermost element. */
  function Apply(open: seq<string>, e: Event): Option<seq<string>> {
    match e
    case Start(tag, _, unary, _, _) => Some(if unary then open else open + [tag])
    case End(tag, _, _) => if open != [] && open[|open| - 1] == tag then Some(open[..|open| - 1]) else None
    case _ => Some(open)
  }

  /** Replays an event log from the open elements `open`. */
  function Replay(open: seq<string>, events: seq<Event>): Option<seq<string>>
    decreases |events|
  {
    if events == [] then Some(open)
    else match Apply(open, events[0])
      case None => None
      case Some(next) => Replay(next, events[1..])
  }

  /** Properly nested: every non-unary `start` is closed by an `end` of the same name, innermost first. */
  predicate Balanced(events: seq<Event>) {
    Replay([], events) == Some([])
  }

  lemma {:induction false} ReplayAppend(open: seq<string>, a: seq<Event>, b: seq<Event>)
    ensures Replay(open, a + b) == (if Replay(open, a).Some? then Replay(Replay(open, a).value, b) else None)
    decreases |a|
  {
    if a != [] {
      assert (a + b)[0] == a[0];
      assert (a + b)[1..] == a[1..] + b;
      var next := Apply(open, a[0]);
      if next.Some? {
        ReplayAppend(next.value, a[1..], b);
      }
    } else {
      assert a + b == b;
    }
  }

  lemma ReplaySnoc(open: seq<string>, a: seq<Event>, e: Event)
    requires Replay(open, a).Some?
    ensures Replay(open, a + [e]) == Apply(Replay(open, a).value, e)
  {
    ReplayAppend(open, a, [e]);
    var mid := Replay(open, a).value;
    assert [e][1..] == [];
  }

  /** The names on the stack, bottom first. */
  function Tags(stack: seq<StackEntry>): (r: seq<string>)
    ensures |r| == |stack| && forall i :: 0 <= i < |stack| ==> r[i] == stack[i].tag
  {
    seq(|stack|, i requires 0 <= i < |stack| => stack[i].tag)
  }

  /** `lastTag`: the innermost open element's name. */
  function TopTag(stack: seq<StackEntry>): Option<string> {
    if stack == [] then None else Some(stack[|stack| - 1].tag)
  }

  /* ---------- parseEndTag as values ---------- */

  /** The nearest stack position whose lower-cased name is `lower`, or -1. */
  function FindOpen(stack: seq<StackEntry>, lower: string): (pos: int)
    ensures -1 <= pos < |stack|
    ensures pos >= 0 ==> stack[pos].lowerCasedTag == lower
    ensures forall k :: pos < k < |stack| ==> stack[k].lowerCasedTag != lower
  {
    if stack == [] then -1
    else if stack[|stack| - 1].lowerCasedTag == lower then |stack| - 1
    else FindOpen(stack[..|stack| - 1], lower)
  }

  /** The nearest match is unique: any position with the two defining properties is it. */
  lemma FindOpenUnique(stack: seq<StackEntry>, lower: string, p: int)
    requires -1 <= p < |stack|
    requires p >= 0 ==> stack[p].lowerCasedTag == lower
    requires forall k :: p < k < |stack| ==> stack[k].lowerCasedTag != lower
    ensures FindOpen(stack, lower) == p
  {
  }

  /** A truthy tag name. */
  predicate Named(tagName: Option<string>) {
    tagName.Some? && tagName.value != ""
  }

  /** Where `parseEndTag(tagName)` truncates the stack; 0 (close everything) without a name. */
  function EndTagPos(stack: seq<StackEntry>, tagName: Option<string>): (pos: int)
    ensures -1 <= pos <= |stack|
  {
    if Named(tagName) then FindOpen(stack, Lower(tagName.value)) else 0
  }

  /** The `end` events for stack positions `|stack| - 1` down to `pos`. */
  function Closes(stack: seq<StackEntry>, pos: nat, start: nat, end: nat): (r: seq<Event>)
    requires pos <= |stack|
    ensures |r| == |stack| - pos
  {
    seq(|stack| - pos, k requires 0 <= k < |stack| - pos => End(stack[|stack| - 1 - k].tag, start, end))
  }

  /** The warnings for stack positions `|stack| - 1` down to `low`. */
  function Warns(stack: seq<StackEntry>, low: nat): (r: seq<Warning>)
    requires low <= |stack|
    ensures |r| == |stack| - low
  {
    seq(|stack| - low, k requires 0 <= k < |stack| - low =>
      NoMatchingEnd(stack[|stack| - 1 - k].tag, stack[|stack| - 1 - k].start, stack[|stack| - 1 - k].end))
  }

  lemma ClosesSnoc(stack: seq<StackEntry>, i: nat, start: nat, end: nat)
    requires i < |stack|
    ensures Closes(stack, i, start, end) == Closes(stack, i + 1, start, end) + [End(stack[i].tag, start, end)]
  {
  }

  /** Closing just the innermost element is one `end` event. */
  lemma ClosesTop(stack: seq<StackEntry>, start: nat, end: nat)
    requires stack != []
    ensures Closes(stack, |stack| - 1, start, end) == [End(stack[|stack| - 1].tag, start, end)]
  {
  }

  lemma WarnsSnoc(stack: seq<StackEntry>, i: nat)
    requires i < |stack|
    ensures Warns(stack, i) == Warns(stack, i + 1) + [NoMatchingEnd(stack[i].tag, stack[i].start, stack[i].end)]
  {
  }

  /** Closing down to `b` in two rounds, first to `a` and then on the truncated stack, is closing down to `b`. */
  lemma ClosesConcat(stack: seq<StackEntry>, a: nat, b: nat, start: nat, end: nat)
    requires b <= a <= |stack|
    ensures Closes(stack, a, start, end) + Closes(stack[..a], b, start, end) == Closes(stack, b, start, end)
  {
  }

  /** Closing from the top keeps the replayed open elements in step with the truncated stack. */
  lemma {:induction false} ReplayCloses(events: seq<Event>, stack: seq<StackEntry>, pos: nat, start: nat, end: nat)
    requires pos <= |stack|
    requires Replay([], events) == Some(Tags(stack))
    ensures Replay([], events + Closes(stack, pos, start, end)) == Some(Tags(stack[..pos]))
    decreases |stack| - pos
  {
    if pos == |stack| {
      assert Closes(stack, pos, start, end) == [];
      assert events + [] == events;
      assert stack[..pos] == stack;
    } else {
      var n := |stack|;
      var e := End(stack[n - 1].tag, start, end);
      var shorter := stack[..n - 1];
      assert Closes(stack, pos, start, end) == [e] + Closes(shorter, pos, start, end);
      ReplaySnoc([], events, e);
      assert Tags(stack)[..n - 1] == Tags(shorter);
      ReplayCloses(events + [e], shorter, pos, start, end);
      assert events + [e] + Closes(shorter, pos, start, end) == events + Closes(stack, pos, start, end);
      assert shorter[..pos] == stack[..pos];
    }
  }

  /**
   * How many open elements `handleStartTag` closes before the new tag: an
   * open `p` when the new tag is non-phrasing, then an open element of the
   * same name when that name can be left open. Only with `expectHTML`.
   */
  function ImplicitCloses(stack: seq<StackEntry>, tag: string, opts: Options): (c: nat)
    ensures c <= |stack| && c <= 2
  {
    if !opts.expectHTML then 0
    else
      var c1 := if TopTag(stack) == Some("p") && IsNonPhrasingTag(tag) then 1 else 0;
      var c2 := if opts.canBeLeftOpenTag(tag) && TopTag(stack[..|stack| - c1]) == Some(tag) then 1 else 0;
      c1 + c2
  }

  /** The two closes of `handleStartTag`, one after the other, are `ImplicitCloses`'s. */
  lemma ImplicitClosesInTwo(stack: seq<StackEntry>, tag: string, opts: Options, c1: nat, c2: nat, at: nat, before: seq<Event>)
    requires opts.expectHTML
    requires c1 == if TopTag(stack) == Some("p") && IsNonPhrasingTag(tag) then 1 else 0
    requires c1 <= |stack| && c2 == if opts.canBeLeftOpenTag(tag) && TopTag(stack[..|stack| - c1]) == Some(tag) then 1 else 0
    ensures ImplicitCloses(stack, tag, opts) == c1 + c2
    ensures stack[..|stack| - c1][..|stack| - c1 - c2] == stack[..|stack| - (c1 + c2)]
    ensures before + Closes(stack, |stack| - c1, at, at) + Closes(stack[..|stack| - c1], |stack| - c1 - c2, at, at)
      == before + Closes(stack, |stack| - (c1 + c2), at, at)
  {
    var first, second := Closes(stack, |stack| - c1, at, at), Closes(stack[..|stack| - c1], |stack| - c1 - c2, at, at);
    ClosesConcat(stack, |stack| - c1, |stack| - c1 - c2, at, at);
    assert before + first + second == before + (first + second);
  }

  /** An open `p` is closed before a block-level tag; it stays open before a phrasing one. */
  lemma ParagraphClosedByBlock(stack: seq<StackEntry>, tag: string, opts: Options)
    requires opts.expectHTML && TopTag(stack) == Some("p")
    ensures IsNonPhrasingTag(tag) ==> ImplicitCloses(stack, tag, opts) >= 1
    ensures !IsNonPhrasingTag(tag) && tag != "p" ==> ImplicitCloses(stack, tag, opts) == 0
  {
  }

  /** A second `li` closes the open `li` with the web tables; nothing is closed without `expectHTML`. */
  lemma SiblingAutoClose(stack: seq<StackEntry>, opts: Options)
    requires TopTag(stack) == Some("li") && opts.canBeLeftOpenTag == CanBeLeftOpenTag
    ensures opts.expectHTML ==> ImplicitCloses(stack, "li", opts) == 1
    ensures !opts.expectHTML ==> ImplicitCloses(stack, "li", opts) == 0
  {
  }

  /** Which decoding applies to an attribute: `href` on `a` has its own flag. */
  function DecodeFlag(tag: string, name: string, opts: Options): bool {
    if tag == "a" && name == "href" then opts.shouldDecodeNewlinesForHref else opts.shouldDecodeNewlines
  }

  function DecodedAttr(tag: string, a: AttrMatch, opts: Options): Attr {
    Attr(a.name, DecodeAttr(a.value, DecodeFlag(tag, a.name, opts)))
  }

  /** The `attrs` handed to `start`: every raw attribute with its value decoded. */
  function DecodedAttrs(tag: string, ms: seq<AttrMatch>, opts: Options): (r: seq<Attr>)
    ensures |r| == |ms| && forall i :: 0 <= i < |ms| ==> r[i] == DecodedAttr(tag, ms[i], opts)
  {
    seq(|ms|, i requires 0 <= i < |ms| => DecodedAttr(tag, ms[i], opts))
  }

  /** The attributes and the close a start tag's attribute loop reads from `s`. */
  datatype AttrScan = AttrScan(attrs: seq<AttrMatch>, consumed: nat, close: Option<TagClose>)

  /** The attribute loop as a value: attributes until a start-tag close, or until neither matches. */
  function ScanAttrs(s: string): (r: AttrScan)
    ensures r.consumed <= |s|
    ensures r.close.Some? ==> r.consumed + r.close.value.length <= |s|
    decreases |s|
  {
    var end := StartTagClose(s);
    if end.Some? then AttrScan([], 0, end)
    else match NextAttribute(s)
      case None => AttrScan([], 0, None)
      case Some(a) =>
        var rest := ScanAttrs(s[a.length..]);
        AttrScan([a] + rest.attrs, a.length + rest.consumed, rest.close)
  }

  /** One round of the attribute loop: `a` is recorded and consumed. */
  lemma ScanAttrsStep(s: string, a: AttrMatch)
    requires StartTagClose(s).None? && NextAttribute(s) == Some(a)
    ensures a.length <= |s|
    ensures ScanAttrs(s).attrs == [a] + ScanAttrs(s[a.length..]).attrs
    ensures ScanAttrs(s).consumed == a.length + ScanAttrs(s[a.length..]).consumed
    ensures ScanAttrs(s).close == ScanAttrs(s[a.length..]).close
  {
  }

  /** The attributes read so far, `acc`, then the rest of the scan, do not change when `a` moves over. */
  lemma ScanAttrsAccumulate(s: string, a: AttrMatch, acc: seq<AttrMatch>)
    requires StartTagClose(s).None? && NextAttribute(s) == Some(a)
    ensures acc + ScanAttrs(s).attrs == (acc + [a]) + ScanAttrs(s[a.length..]).attrs
  {
    ScanAttrsStep(s, a);
    var rest := ScanAttrs(s[a.length..]).attrs;
    assert acc + ([a] + rest) == (acc + [a]) + rest;
  }

  /** Where the attribute loop stops: at a close, or where neither a close nor an attribute matches. */
  lemma ScanAttrsStop(s: string)
    ensures StartTagClose(s).Some? ==> ScanAttrs(s) == AttrScan([], 0, StartTagClose(s))
    ensures StartTagClose(s).None? && NextAttribute(s).None? ==> ScanAttrs(s) == AttrScan([], 0, None)
  {
  }

  /* ---------- the text scanner ---------- */

  /**
   * `t` is where the text run that begins at `t0` ends: `t0` or a `<`, no
   * `<` from `t0` up to `t` (nor `t0` itself) begins markup, and either `t`
   * begins markup or no `<` follows it.
   */
  ghost predicate IsTextEnd(html: string, t0: nat, t: nat) {
    && t0 <= t <= |html|
    && (t == t0 || (t < |html| && html[t] == '<'))
    && (forall q :: t0 <= q < t && (q == t0 || html[q] == '<') ==> !BeginsMarkup(html[q..]))
    && (BeginsMarkup(html[t..]) || forall q :: t < q < |html| ==> html[q] != '<')
  }

  /** There is only one such end. */
  lemma TextEndUnique(html: string, t0: nat, t1: nat, t2: nat)
    requires IsTextEnd(html, t0, t1) && IsTextEnd(html, t0, t2)
    ensures t1 == t2
  {
  }

  /** A `<` in `s` at index `k` is an occurrence of `"<"` there. */
  lemma LtOccurs(s: string, k: nat)
    requires k < |s|
    ensures OccursAt(s, "<", k) <==> s[k] == '<'
  {
  }

  /** The loop's invariant: the text run goes on at least up to `t`. */
  ghost predicate TextScanned(html: string, t0: nat, t: nat) {
    && t0 <= t <= |html|
    && (t == t0 || (t < |html| && html[t] == '<'))
    && (forall q :: t0 <= q < t && (q == t0 || html[q] == '<') ==> !BeginsMarkup(html[q..]))
  }

  /** One hop: to the next `<`, or to the end of the run when there is none. */
  lemma TextHop(html: string, t0: nat, t: nat, next: int)
    requires TextScanned(html, t0, t) && !BeginsMarkup(html[t..])
    requires next == IndexOf(html[t..], "<", 1)
    ensures next < 0 ==> IsTextEnd(html, t0, t)
    ensures next >= 0 ==> t < t + next && TextScanned(html, t0, t + next)
  {
    if next < 0 {
      NoLtAfter(html, t, |html| - t);
    } else {
      NoLtAfter(html, t, next);
      LtOccurs(html[t..], next);
    }
  }

  /** `"<"` does not occur in `html[t..]` at offsets `1` to `n - 1`: no `<` there. */
  lemma NoLtAfter(html: string, t: nat, n: nat)
    requires t + n <= |html|
    requires forall k :: 1 <= k < n ==> !OccursAt(html[t..], "<", k)
    ensures forall q :: t < q < t + n ==> html[q] != '<'
  {
    forall q | t < q < t + n ensures html[q] != '<' {
      LtOccurs(html[t..], q - t);
    }
  }

  /** A text run has an end: hop from `<` to `<` until one begins markup or none is left. */
  lemma {:induction false} TextEndExists(html: string, t0: nat, t: nat)
    requires TextScanned(html, t0, t)
    ensures exists e :: IsTextEnd(html, t0, e)
    decreases |html| - t
  {
    if BeginsMarkup(html[t..]) {
      assert IsTextEnd(html, t0, t);
    } else {
      var next := IndexOf(html[t..], "<", 1);
      TextHop(html, t0, t, next);
      if next >= 0 {
        TextEndExists(html, t0, t + next);
      }
    }
  }

  /** Where the text run from `t0` ends: the one position `IsTextEnd` allows. */
  ghost function TextEnd(html: string, t0: nat): (t: nat)
    requires t0 <= |html|
    ensures IsTextEnd(html, t0, t)
  {
    TextEndExists(html, t0, t0);
    var t :| IsTextEnd(html, t0, t); t
  }

  /**
   * The `<`-as-text loop: from `t0`, hop from `<` to `<` until one begins
   * markup or none is left.
   */
  method FindTextEnd(html: string, t0: nat) returns (t: nat)
    requires t0 <= |html|
    ensures IsTextEnd(html, t0, t) && t == TextEnd(html, t0)
  {
    ghost var e := TextEnd(html, t0);
    t := t0;
    var rest := html[t..];
    while !BeginsMarkup(rest)
      invariant TextScanned(html, t0, t) && rest == html[t..]
      decreases |html| - t
    {
      var next := IndexOf(rest, "<", 1);
      TextHop(html, t0, t, next);
      if next < 0 {
        TextEndUnique(html, t0, t, e);
        return;
      }
      t := t + next;
      rest := html[t..];
    }
    TextEndUnique(html, t0, t, e);
  }

  /**
   * In `a < b` the first `<` begins no markup and no `<` follows it: the
   * text run from it ends right there, not at the end of the input. The
   * loop reports `a ` as text, and `< b` is left to the no-progress guard.
   */
  lemma StrayLtEndsRun(html: string)
    requires html == "a < b"
    ensures IndexOf(html, "<", 0) == 2
    ensures IsTextEnd(html, 2, 2) && !IsTextEnd(html, 2, |html|)
    ensures IsTextEnd(html[2..], 0, 0)
  {
    LtOccurs(html, 0);
    LtOccurs(html, 1);
    LtOccurs(html, 2);
    var rest := html[2..];
    assert rest == "< b";
    assert QName(rest, 1) == 0;
    assert !BeginsMarkup(rest);
  }

  /* ---------- one markup step as values ---------- */

  /**
   * The markup the remaining input begins with, tried in the loop's order:
   * a closed comment, a closed conditional comment, a doctype, an end tag,
   * and otherwise (possibly) a start tag.
   */
  datatype Markup =
    | ClosedComment(commentEnd: nat)
    | ConditionalComment(conditionalEnd: nat)
    | DoctypeDecl(length: nat)
    | EndTagMarkup(tag: TagMatch)
    | OtherMarkup

  function MarkupAt(s: string): Markup {
    if BeginsComment(s) && IndexOf(s, "-->", 0) >= 0 then ClosedComment(IndexOf(s, "-->", 0))
    else if BeginsConditionalComment(s) && IndexOf(s, "]>", 0) >= 0 then ConditionalComment(IndexOf(s, "]>", 0))
    else if Doctype(s).Some? then DoctypeDecl(Doctype(s).value)
    else if EndTag(s).Some? then EndTagMarkup(EndTag(s).value)
    else OtherMarkup
  }

  /** The stack `parseEndTag(tagName)` leaves: cut at the match, or unchanged without one. */
  function EndTagStack(stack: seq<StackEntry>, tagName: Option<string>): seq<StackEntry> {
    var pos := EndTagPos(stack, tagName);
    if pos >= 0 then stack[..pos] else stack
  }

  /** The events `parseEndTag(tagName, start, end)` emits. */
  function EndTagEvents(stack: seq<StackEntry>, tagName: Option<string>, start: nat, end: nat): seq<Event> {
    var pos := EndTagPos(stack, tagName);
    if pos >= 0 then Closes(stack, pos, start, end)
    else if Lower(tagName.value) == "br" then [Start(tagName.value, [], true, start, end)]
    else if Lower(tagName.value) == "p" then [Start(tagName.value, [], false, start, end), End(tagName.value, start, end)]
    else []
  }

  /** The warnings `parseEndTag(tagName)` gives: one per element closed above the match. */
  function EndTagWarnings(stack: seq<StackEntry>, tagName: Option<string>): seq<Warning> {
    var pos := EndTagPos(stack, tagName);
    if pos >= 0 then Warns(stack, if Named(tagName) then pos + 1 else pos) else []
  }

  /** What `parseStartTag` returns for the remaining input `s` at offset `at`. */
  function StartTagMatch(s: string, at: nat): (r: Option<StartMatch>)
    ensures r.Some? ==> r.value.tagName != "" && r.value.start == at < r.value.end <= at + |s|
  {
    match StartTagOpen(s)
    case None => None
    case Some(open) =>
      var scan := ScanAttrs(s[open.length..]);
      if scan.close.None? then None
      else Some(StartMatch(open.name, scan.attrs, scan.close.value.unarySlash, at,
                           at + open.length + scan.consumed + scan.close.value.length))
  }

  /**
   * What `parseStartTag` is specified to return and consume, step by step,
   * is `StartTagMatch`, and `StartTagSkipped` without a match.
   */
  lemma StartTagMatchOf(s: string, at: nat, m: Option<StartMatch>, end: nat)
    requires StartTagOpen(s).None? ==> m.None? && end == at
    requires StartTagOpen(s).Some? ==>
      var open := StartTagOpen(s).value;
      var scan := ScanAttrs(s[open.length..]);
      && end == at + open.length + scan.consumed + (if scan.close.Some? then scan.close.value.length else 0)
      && m == (if scan.close.Some? then Some(StartMatch(open.name, scan.attrs, scan.close.value.unarySlash, at, end)) else None)
    ensures m == StartTagMatch(s, at)
    ensures m.None? ==> end == at + StartTagSkipped(s)
    ensures m.Some? ==> end == m.value.end
  {
  }

  /** How much `parseStartTag` consumes from `s` when it returns no match. */
  function StartTagSkipped(s: string): nat {
    match StartTagOpen(s)
    case None => 0
    case Some(open) => open.length + ScanAttrs(s[open.length..]).consumed
  }

  /** `unary` of `handleStartTag`: a void element, or written with `/>`. */
  predicate IsUnary(m: StartMatch, opts: Options) {
    opts.isUnaryTag(m.tagName) || m.unarySlash
  }

  /** The stack after `handleStartTag(m)`: the implicit closes, then `m` pushed unless unary. */
  function StackAfterStart(stack: seq<StackEntry>, m: StartMatch, opts: Options): seq<StackEntry> {
    var c := ImplicitCloses(stack, m.tagName, opts);
    stack[..|stack| - c] +
      (if IsUnary(m, opts) then [] else [StackEntry(m.tagName, Lower(m.tagName), DecodedAttrs(m.tagName, m.attrs, opts), m.start, m.end)])
  }

  /** The events of `handleStartTag(m)`: the implicit `end`s, then one `start`. */
  function StartEvents(stack: seq<StackEntry>, m: StartMatch, opts: Options): seq<Event> {
    var c := ImplicitCloses(stack, m.tagName, opts);
    Closes(stack, |stack| - c, m.end, m.end) +
      [Start(m.tagName, DecodedAttrs(m.tagName, m.attrs, opts), IsUnary(m, opts), m.start, m.end)]
  }

  /* ---------- one round of the main loop as values ---------- */

  /**
   * The tokenizer's state between two rounds: the cursor (the remaining
   * input is the template from there on), the open elements and the two
   * logs. `lastTag` is always `TopTag(stack)`.
   */
  datatype ParseState = ParseState(index: nat, stack: seq<StackEntry>, events: seq<Event>, warnings: seq<Warning>)

  /**
   * The markup branch of one round, at a `<`: the new state, and whether
   * some markup was matched (`continue`). A start tag that never reaches
   * `>` is not matched, but what `parseStartTag` read is consumed.
   */
  function MarkupRound(input: string, opts: Options, s: ParseState): (r: (ParseState, bool))
    requires s.index <= |input|
    ensures s.index <= r.0.index <= |input|
    ensures r.1 ==> s.index < r.0.index
    ensures !r.1 ==> r.0.stack == s.stack && r.0.events == s.events && r.0.warnings == s.warnings
    ensures s.events <= r.0.events && s.warnings <= r.0.warnings
  {
    var html := input[s.index..];
    match MarkupAt(html)
    case ClosedComment(commentEnd) =>
      var index := s.index + commentEnd + 3;
      var comment := if opts.shouldKeepComment then [Comment(Substring(html, 4, commentEnd), s.index, index)] else [];
      (s.(index := index, events := s.events + comment), true)
    case ConditionalComment(conditionalEnd) =>
      (s.(index := s.index + conditionalEnd + 2), true)
    case DoctypeDecl(length) =>
      (s.(index := s.index + length), true)
    case EndTagMarkup(tag) =>
      var index := s.index + tag.length;
      (ParseState(index, EndTagStack(s.stack, Some(tag.name)),
                  s.events + EndTagEvents(s.stack, Some(tag.name), s.index, index),
                  s.warnings + EndTagWarnings(s.stack, Some(tag.name))), true)
    case OtherMarkup =>
      StartTagRound(input, opts, s)
  }

  /** `MarkupRound`, field by field, for each kind of markup. */
  lemma MarkupRoundFields(input: string, opts: Options, s: ParseState)
    requires s.index <= |input|
    ensures var html := input[s.index..];
      var r := MarkupRound(input, opts, s);
      match MarkupAt(html)
      case ClosedComment(commentEnd) =>
        && r.1 && r.0.index == s.index + commentEnd + 3 && r.0.stack == s.stack && r.0.warnings == s.warnings
        && r.0.events == s.events +
             (if opts.shouldKeepComment then [Comment(Substring(html, 4, commentEnd), s.index, r.0.index)] else [])
      case ConditionalComment(conditionalEnd) =>
        && r.1 && r.0.index == s.index + conditionalEnd + 2
        && r.0.stack == s.stack && r.0.events == s.events && r.0.warnings == s.warnings
      case DoctypeDecl(length) =>
        && r.1 && r.0.index == s.index + length
        && r.0.stack == s.stack && r.0.events == s.events && r.0.warnings == s.warnings
      case EndTagMarkup(tag) =>
        && r.1 && r.0.index == s.index + tag.length
        && r.0.stack == EndTagStack(s.stack, Some(tag.name))
        && r.0.events == s.events + EndTagEvents(s.stack, Some(tag.name), s.index, r.0.index)
        && r.0.warnings == s.warnings + EndTagWarnings(s.stack, Some(tag.name))
      case OtherMarkup =>
        r == StartTagRound(input, opts, s)
  {
  }

  /** A closed comment: the state that skips it, keeping it as an event when asked to, is `MarkupRound`'s. */
  lemma MarkupRoundComment(input: string, opts: Options, s: ParseState, commentEnd: nat, r: ParseState)
    requires s.index <= |input| && MarkupAt(input[s.index..]) == ClosedComment(commentEnd)
    requires r.index == s.index + commentEnd + 3 && r.stack == s.stack && r.warnings == s.warnings
    requires r.events == s.events +
      (if opts.shouldKeepComment then [Comment(Substring(input[s.index..], 4, commentEnd), s.index, r.index)] else [])
    ensures MarkupRound(input, opts, s) == (r, true)
  {
  }

  /** Markup skipped without an event (a conditional comment or a doctype) leaves the rest of the state. */
  lemma MarkupRoundSkip(input: string, opts: Options, s: ParseState, r: ParseState)
    requires s.index <= |input|
    requires match MarkupAt(input[s.index..])
      case ConditionalComment(conditionalEnd) => r.index == s.index + conditionalEnd + 2
      case DoctypeDecl(length) => r.index == s.index + length
      case _ => false
    requires r.stack == s.stack && r.events == s.events && r.warnings == s.warnings
    ensures MarkupRound(input, opts, s) == (r, true)
  {
  }

  /** An end tag: the state `parseEndTag` leaves after the tag is consumed is `MarkupRound`'s. */
  lemma MarkupRoundEndTag(input: string, opts: Options, s: ParseState, tag: TagMatch, r: ParseState)
    requires s.index <= |input| && MarkupAt(input[s.index..]) == EndTagMarkup(tag)
    requires r.index == s.index + tag.length && r.stack == EndTagStack(s.stack, Some(tag.name))
    requires r.events == s.events + EndTagEvents(s.stack, Some(tag.name), s.index, r.index)
    requires r.warnings == s.warnings + EndTagWarnings(s.stack, Some(tag.name))
    ensures MarkupRound(input, opts, s) == (r, true)
  {
  }

  /**
   * The start-tag part of the markup branch: a tag read up to `>` is
   * handled and consumed, then a newline right after `pre` or `textarea`;
   * otherwise what `parseStartTag` read is consumed and nothing matched.
   */
  function StartTagRound(input: string, opts: Options, s: ParseState): (r: (ParseState, bool))
    requires s.index <= |input|
    ensures s.index <= r.0.index <= |input|
    ensures r.1 ==> s.index < r.0.index
    ensures !r.1 ==> r.0.stack == s.stack && r.0.events == s.events && r.0.warnings == s.warnings
    ensures s.events <= r.0.events && s.warnings == r.0.warnings
  {
    var html := input[s.index..];
    match StartTagMatch(html, s.index)
    case None =>
      (s.(index := s.index + StartTagSkipped(html)), false)
    case Some(m) =>
      var skip := if ShouldIgnoreFirstNewline(m.tagName, html[m.end - m.start..]) then 1 else 0;
      (ParseState(m.end + skip, StackAfterStart(s.stack, m, opts), s.events + StartEvents(s.stack, m, opts), s.warnings), true)
  }

  /** `StartTagRound` when `parseStartTag` returns a match. */
  lemma StartTagRoundMatched(input: string, opts: Options, s: ParseState, m: StartMatch)
    requires s.index <= |input| && StartTagMatch(input[s.index..], s.index) == Some(m)
    ensures m.start == s.index < m.end <= |input|
    ensures var r := StartTagRound(input, opts, s);
      && r.1 && r.0.stack == StackAfterStart(s.stack, m, opts) && r.0.warnings == s.warnings
      && r.0.events == s.events + StartEvents(s.stack, m, opts)
      && r.0.index == m.end + (if ShouldIgnoreFirstNewline(m.tagName, input[m.end..]) then 1 else 0)
  {
    assert input[s.index..][m.end - m.start..] == input[m.end..];
  }

  /** A matched start tag: the state left once it is handled and consumed is `StartTagRound`'s. */
  lemma StartTagRoundOf(input: string, opts: Options, s: ParseState, m: StartMatch, r: ParseState)
    requires s.index <= |input| && StartTagMatch(input[s.index..], s.index) == Some(m) && m.end <= |input|
    requires r.stack == StackAfterStart(s.stack, m, opts) && r.warnings == s.warnings
    requires r.events == s.events + StartEvents(s.stack, m, opts)
    requires r.index == m.end + (if ShouldIgnoreFirstNewline(m.tagName, input[m.end..]) then 1 else 0)
    ensures StartTagRound(input, opts, s) == (r, true)
  {
    StartTagRoundMatched(input, opts, s, m);
    var q := StartTagRound(input, opts, s);
    assert q.0.index == r.index && q.0.stack == r.stack && q.0.events == r.events && q.0.warnings == r.warnings;
    assert q.0 == r;
  }

  /** `StartTagRound` when `parseStartTag` returns no match. */
  lemma StartTagRoundUnmatched(input: string, opts: Options, s: ParseState)
    requires s.index <= |input| && StartTagMatch(input[s.index..], s.index).None?
    ensures var r := StartTagRound(input, opts, s);
      && !r.1 && r.0.stack == s.stack && r.0.events == s.events && r.0.warnings == s.warnings
      && r.0.index == s.index + StartTagSkipped(input[s.index..])
  {
  }

  /**
   * The text branch of one round: the run from the head of the remaining
   * input to where the scan from `textEnd` stops (all of it when `textEnd`
   * is -1), reported with its span when it is not empty.
   */
  ghost function TextRound(input: string, s: ParseState, textEnd: int): (r: ParseState)
    requires s.index <= |input| && textEnd <= |input| - s.index
    ensures s.index <= r.index <= |input|
    ensures r.stack == s.stack && r.warnings == s.warnings && s.events <= r.events
  {
    var html := input[s.index..];
    var length := if textEnd < 0 then |html| else TextEnd(html, textEnd);
    if length == 0 then s
    else ParseState(s.index + length, s.stack, s.events + [Chars(html[..length], Some(Span(s.index, s.index + length)))], s.warnings)
  }

  /** `TextRound`, field by field. */
  lemma TextRoundFields(input: string, s: ParseState, textEnd: int)
    requires s.index <= |input| && textEnd <= |input| - s.index
    ensures var html := input[s.index..];
      var length := if textEnd < 0 then |html| else TextEnd(html, textEnd);
      var r := TextRound(input, s, textEnd);
      && r.index == s.index + length && r.stack == s.stack && r.warnings == s.warnings
      && r.events == s.events + (if length > 0 then [Chars(html[..length], Some(Span(s.index, s.index + length)))] else [])
  {
  }

  /** The state left once a text of the length `TextRound` picks is consumed and reported is `TextRound`'s. */
  lemma TextRoundOf(input: string, s: ParseState, textEnd: int, length: nat, r: ParseState)
    requires s.index <= |input| && textEnd <= |input| - s.index
    requires length == if textEnd < 0 then |input| - s.index else TextEnd(input[s.index..], textEnd)
    requires r.index == s.index + length && r.stack == s.stack && r.warnings == s.warnings
    requires r.events == s.events + (if length > 0 then [Chars(input[s.index..s.index + length], Some(Span(s.index, s.index + length)))] else [])
    ensures TextRound(input, s, textEnd) == r
  {
    assert input[s.index..][..length] == input[s.index..s.index + length];
  }

  /**
   * What the raw-text branch consumes before the `end`: the characters
   * consumed, the length of the close tag among them, and the text event.
   * Everything up to the close tag is one text, without a leading newline
   * in `textarea`; with no close tag nothing is consumed or reported.
   */
  function RawText(html: string, stackedTag: string): (r: (nat, nat, seq<Event>))
    ensures r.1 <= r.0 <= |html|
    ensures r.0 == 0 ==> r.1 == 0 && r.2 == []
  {
    match RawTextClose(html, stackedTag)
    case None => (0, 0, [])
    case Some(close) =>
      var text := html[..close.text];
      var text' := if ShouldIgnoreFirstNewline(stackedTag, text) then text[1..] else text;
      (close.end, close.end - close.text, [Chars(text', None)])
  }

  /** `RawText` by whether a close tag follows: nothing without one; otherwise the text before it, and the close tag, consumed. */
  lemma RawTextCases(html: string, stackedTag: string)
    ensures var r := RawText(html, stackedTag);
      match RawTextClose(html, stackedTag)
      case None => r == (0, 0, [])
      case Some(close) =>
        var text := html[..close.text];
        var text' := if ShouldIgnoreFirstNewline(stackedTag, text) then text[1..] else text;
        r == (close.end, close.end - close.text, [Chars(text', None)])
  {
  }

  /**
   * The raw-text branch of one round, inside `script`, `style` or
   * `textarea`: the text up to the close tag (with no leading newline in
   * `textarea`), then the `end` of the element, which leaves the stack. With
   * no close tag nothing is consumed and the `end` comes alone.
   */
  function PlainRound(input: string, s: ParseState): (r: ParseState)
    requires s.index <= |input| && s.stack != []
    ensures s.index <= r.index <= |input|
    ensures r.stack == s.stack[..|s.stack| - 1] && r.warnings == s.warnings && s.events <= r.events
  {
    var tag := s.stack[|s.stack| - 1].tag;
    var raw := RawText(input[s.index..], Lower(tag));
    var index := s.index + raw.0;
    ParseState(index, s.stack[..|s.stack| - 1], s.events + raw.2 + [End(tag, index - raw.1, index)], s.warnings)
  }

  /** A state built from the raw-text part and the close at its end is the one `PlainRound` gives. */
  lemma PlainRoundOf(input: string, s: ParseState, tag: string, raw: (nat, nat, seq<Event>), closeStart: nat, closeEnd: nat, r: ParseState)
    requires s.index <= |input| && s.stack != [] && tag == s.stack[|s.stack| - 1].tag
    requires raw == RawText(input[s.index..], Lower(tag))
    requires closeEnd == s.index + raw.0 && closeStart + raw.1 == closeEnd
    requires r == ParseState(closeEnd, s.stack[..|s.stack| - 1], s.events + raw.2 + [End(tag, closeStart, closeEnd)], s.warnings)
    ensures r == PlainRound(input, s)
  {
    var q := PlainRound(input, s);
    assert q.index == closeEnd && closeEnd - raw.1 == closeStart;
    assert q.events == s.events + raw.2 + [End(tag, closeStart, closeEnd)];
  }

  /** `PlainRound`, field by field. */
  lemma PlainRoundFields(input: string, s: ParseState)
    requires s.index <= |input| && s.stack != []
    ensures var html := input[s.index..];
      var tag := s.stack[|s.stack| - 1].tag;
      var r := PlainRound(input, s);
      && r.stack == s.stack[..|s.stack| - 1] && r.warnings == s.warnings
      && match RawTextClose(html, Lower(tag))
         case None =>
           r.index == s.index && r.events == s.events + [End(tag, s.index, s.index)]
         case Some(close) =>
           var text := html[..close.text];
           var text' := if ShouldIgnoreFirstNewline(Lower(tag), text) then text[1..] else text;
           && r.index == s.index + close.end
           && r.events == s.events + [Chars(text', None), End(tag, r.index - (close.end - close.text), r.index)]
  {
    var html := input[s.index..];
    var tag := s.stack[|s.stack| - 1].tag;
    var raw := RawText(html, Lower(tag));
    RawTextCases(html, Lower(tag));
    var r := PlainRound(input, s);
    var e := End(tag, r.index - raw.1, r.index);
    assert r.index == s.index + raw.0 && r.events == s.events + raw.2 + [e];
    match RawTextClose(html, Lower(tag))
    case None =>
      assert raw.2 == [];
    case Some(close) =>
      assert s.events + raw.2 + [e] == s.events + (raw.2 + [e]);
  }

  /**
   * The no-progress guard: when a round consumed nothing, the remaining
   * input is reported as text without a span, with a warning when no
   * element is open, and the loop stops.
   */
  function Guard(input: string, start: nat, next: ParseState): (r: (ParseState, bool))
    requires start <= next.index <= |input|
    ensures r.1 <==> next.index == start
    ensures r.0.index == next.index && r.0.stack == next.stack
    ensures next.events <= r.0.events && next.warnings <= r.0.warnings
  {
    if next.index != start then (next, false)
    else
      var rest := input[start..];
      var warning := if next.stack == [] then [MalformedAtEnd(rest)] else [];
      (next.(events := next.events + [Chars(rest, None)], warnings := next.warnings + warning), true)
  }

  /** `Guard`, field by field. */
  lemma GuardFields(input: string, start: nat, next: ParseState)
    requires start <= next.index <= |input|
    ensures var r := Guard(input, start, next);
      && r.0.index == next.index && r.0.stack == next.stack
      && if next.index != start then r == (next, false)
         else
           && r.1
           && r.0.events == next.events + [Chars(input[start..], None)]
           && r.0.warnings == next.warnings + (if next.stack == [] then [MalformedAtEnd(input[start..])] else [])
  {
  }

  /**
   * One round of `parseHTML`'s `while (html)` loop on a non-empty remaining
   * input: the new state, and whether the loop stops (`break`). A round that
   * does not stop consumes input; every round only appends to the logs.
   */
  ghost function Round(input: string, opts: Options, s: ParseState): (r: (ParseState, bool))
    requires s.index < |input|
    ensures s.index <= r.0.index <= |input|
    ensures !r.1 ==> s.index < r.0.index
    ensures r.1 ==> r.0.index == s.index
    ensures s.events <= r.0.events && s.warnings <= r.0.warnings
  {
    var html := input[s.index..];
    var top := TopTag(s.stack);
    if top.Some? && IsPlainTextElement(top.value) then
      Guard(input, s.index, PlainRound(input, s))
    else
      var textEnd := IndexOf(html, "<", 0);
      if textEnd == 0 then
        var (s1, matched) := MarkupRound(input, opts, s);
        if matched then (s1, false) else Guard(input, s.index, TextRound(input, s1, 0))
      else
        Guard(input, s.index, TextRound(input, s, textEnd))
  }

  /** Inside a raw-text element, a round is the raw-text branch and the guard. */
  lemma RoundPlain(input: string, opts: Options, s: ParseState)
    requires s.index < |input| && TopTag(s.stack).Some? && IsPlainTextElement(TopTag(s.stack).value)
    ensures s.stack != [] && Round(input, opts, s) == Guard(input, s.index, PlainRound(input, s))
  {
  }

  /** Elsewhere, at a `<` whose markup is consumed, the round ends there without stopping. */
  lemma RoundMarkup(input: string, opts: Options, s: ParseState)
    requires s.index < |input| && !(TopTag(s.stack).Some? && IsPlainTextElement(TopTag(s.stack).value))
    requires IndexOf(input[s.index..], "<", 0) == 0 && MarkupRound(input, opts, s).1
    ensures Round(input, opts, s) == (MarkupRound(input, opts, s).0, false)
  {
  }

  /** At a `<` that starts no markup, the text branch follows from what the markup branch left. */
  lemma RoundMarkupText(input: string, opts: Options, s: ParseState)
    requires s.index < |input| && !(TopTag(s.stack).Some? && IsPlainTextElement(TopTag(s.stack).value))
    requires IndexOf(input[s.index..], "<", 0) == 0 && !MarkupRound(input, opts, s).1
    ensures var s1 := MarkupRound(input, opts, s).0;
      s1.index <= |input| && Round(input, opts, s) == Guard(input, s.index, TextRound(input, s1, 0))
  {
  }

  /** Away from a `<`, a round is the text branch and the guard. */
  lemma RoundText(input: string, opts: Options, s: ParseState, textEnd: int)
    requires s.index < |input| && !(TopTag(s.stack).Some? && IsPlainTextElement(TopTag(s.stack).value))
    requires textEnd == IndexOf(input[s.index..], "<", 0) && textEnd != 0
    ensures Round(input, opts, s) == Guard(input, s.index, TextRound(input, s, textEnd))
  {
  }

  /** The state the guard code leaves, given field by field, is `Guard`'s. */
  lemma GuardOf(input: string, start: nat, next: ParseState, r: ParseState, stop: bool)
    requires start <= next.index <= |input|
    requires stop <==> next.index == start
    requires r.index == next.index && r.stack == next.stack
    requires !stop ==> r.events == next.events && r.warnings == next.warnings
    requires stop ==> r.events == next.events + [Chars(input[start..], None)]
    requires stop ==> r.warnings == next.warnings + (if next.stack == [] then [MalformedAtEnd(input[start..])] else [])
    ensures Guard(input, start, next) == (r, stop)
  {
  }

  /** The main loop: rounds until the input is consumed or a round stops it. */
  ghost function Rounds(input: string, opts: Options, s: ParseState): (r: ParseState)
    requires s.index <= |input|
    ensures s.index <= r.index <= |input|
    ensures s.events <= r.events && s.warnings <= r.warnings
    decreases |input| - s.index
  {
    if s.index == |input| then s
    else
      var (next, stop) := Round(input, opts, s);
      if stop then next else Rounds(input, opts, next)
  }

  /** The final `parseEndTag()`: every open element is closed, with a warning each. */
  function Finished(s: ParseState): (r: ParseState)
    ensures r.index == s.index && r.stack == []
    ensures r.events == s.events + Closes(s.stack, 0, s.index, s.index)
    ensures r.warnings == s.warnings + Warns(s.stack, 0)
  {
    ParseState(s.index, [], s.events + Closes(s.stack, 0, s.index, s.index), s.warnings + Warns(s.stack, 0))
  }

  /** What `parseHTML` reports for a whole template: the loop from the start, then the final close. */
  ghost function Tokenize(input: string, opts: Options): ParseState {
    Finished(Rounds(input, opts, ParseState(0, [], [], [])))
  }

  /* ---------- the tokenizer ---------- */

  class Parser {
    /** The whole template. */
    const input: string
    const opts: Options
    /** The part not consumed yet, and where it starts in `input`. */
    var html: string
    var index: nat
    var lastTag: Option<string>
    var stack: seq<StackEntry>
    var events: seq<Event>
    var warnings: seq<Warning>

    /**
     * `html` is what follows `index`; `lastTag` names the innermost open
     * element; and the events so far leave exactly the stack's elements open.
     */
    ghost predicate Valid()
      reads this
    {
      && index <= |input| && html == input[index..]
      && lastTag == TopTag(stack)
      && (forall i :: 0 <= i < |stack| ==> stack[i].tag != "" && stack[i].lowerCasedTag == Lower(stack[i].tag))
      && Replay([], events) == Some(Tags(stack))
    }

    /** The state between rounds, as a value. */
    function State(): ParseState
      reads this
    {
      ParseState(index, stack, events, warnings)
    }

    constructor (input: string, opts: Options)
      ensures Valid()
      ensures this.input == input && this.opts == opts
      ensures html == input && index == 0 && stack == [] && events == [] && warnings == []
    {
      this.input := input;
      this.opts := opts;
      html := input;
      index := 0;
      lastTag := None;
      stack := [];
      events := [];
      warnings := [];
    }

    /** `advance(n)`: moves the cursor `n` characters on. */
    method Advance(n: nat)
      requires Valid()
      requires n <= |html|
      modifies this
      ensures Valid()
      ensures index == old(index) + n && html == old(html)[n..]
      ensures lastTag == old(lastTag) && stack == old(stack) && events == old(events) && warnings == old(warnings)
    {
      index := index + n;
      html := html[n..];
    }

    /** The search loop of `parseEndTag`: the nearest open element whose lower-cased name is `lower`. */
    method FindOpenElement(lower: string) returns (pos: int)
      ensures pos == FindOpen(stack, lower)
    {
      pos := |stack| - 1;
      while pos >= 0 && stack[pos].lowerCasedTag != lower
        invariant -1 <= pos < |stack|
        invariant forall k :: pos < k < |stack| ==> stack[k].lowerCasedTag != lower
        decreases pos + 1
      {
        pos := pos - 1;
      }
      FindOpenUnique(stack, lower, pos);
    }

    /**
     * The closing loop of `parseEndTag`: emits `end` for every element from
     * the top of the stack down to `pos`, warns for each of them except a
     * matched one at `pos`, and truncates the stack.
     */
    method CloseDownTo(pos: nat, named: bool, start: nat, end: nat)
      requires Valid()
      requires pos <= |stack| && (named ==> pos < |stack|)
      modifies this
      ensures Valid()
      ensures html == old(html) && index == old(index)
      ensures stack == old(stack)[..pos]
      ensures events == old(events) + Closes(old(stack), pos, start, end)
      ensures warnings == old(warnings) + Warns(old(stack), if named then pos + 1 else pos)
    {
      EmitCloses(pos, named, start, end);
      ReplayCloses(old(events), stack, pos, start, end);
      stack := stack[..pos];
      lastTag := if pos == 0 then None else Some(stack[pos - 1].tag);
    }

    /** The loop itself: the events and warnings, from the top of the stack down to `pos`. */
    method EmitCloses(pos: nat, named: bool, start: nat, end: nat)
      requires pos <= |stack| && (named ==> pos < |stack|)
      modifies this
      ensures stack == old(stack) && html == old(html) && index == old(index) && lastTag == old(lastTag)
      ensures events == old(events) + Closes(stack, pos, start, end)
      ensures warnings == old(warnings) + Warns(stack, if named then pos + 1 else pos)
    {
      var low := if named then pos + 1 else pos;
      var i := |stack| - 1;
      while i >= pos
        invariant pos - 1 <= i < |stack| && low <= |stack|
        invariant events == old(events) + Closes(stack, i + 1, start, end)
        invariant warnings == old(warnings) + Warns(stack, if i + 1 < low then low else i + 1)
        invariant stack == old(stack) && html == old(html) && index == old(index) && lastTag == old(lastTag)
        decreases i + 1
      {
        if i > pos || !named {
          WarnsSnoc(stack, i);
          warnings := warnings + [NoMatchingEnd(stack[i].tag, stack[i].start, stack[i].end)];
        }
        ClosesSnoc(stack, i, start, end);
        events := events + [End(stack[i].tag, start, end)];
        i := i - 1;
      }
    }

    /**
     * `parseEndTag(tagName, start, end)`: closes every element from the top
     * of the stack down to the nearest one with the same lower-cased name
     * (everything, without a name), warning for each element closed other
     * than the matched one. An unmatched `br` becomes a unary `br` start, an
     * unmatched `p` an empty `p`; any other unmatched end tag is dropped.
     */
    method ParseEndTag(tagName: Option<string>, start: nat, end: nat)
      requires Valid()
      modifies this
      ensures Valid()
      ensures html == old(html) && index == old(index)
      ensures var pos := EndTagPos(old(stack), tagName);
        pos >= 0 ==>
          && stack == old(stack)[..pos]
          && events == old(events) + Closes(old(stack), pos, start, end)
          && warnings == old(warnings) + Warns(old(stack), if Named(tagName) then pos + 1 else pos)
      ensures EndTagPos(old(stack), tagName) < 0 ==> stack == old(stack) && warnings == old(warnings)
      ensures EndTagPos(old(stack), tagName) < 0 && Lower(tagName.value) == "br" ==>
        events == old(events) + [Start(tagName.value, [], true, start, end)]
      ensures EndTagPos(old(stack), tagName) < 0 && Lower(tagName.value) == "p" ==>
        events == old(events) + [Start(tagName.value, [], false, start, end), End(tagName.value, start, end)]
      ensures EndTagPos(old(stack), tagName) < 0 && Lower(tagName.value) != "br" && Lower(tagName.value) != "p" ==>
        events == old(events)
      ensures stack == EndTagStack(old(stack), tagName)
      ensures events == old(events) + EndTagEvents(old(stack), tagName, start, end)
      ensures warnings == old(warnings) + EndTagWarnings(old(stack), tagName)
    {
      var named := tagName.Some? && tagName.value != "";
      var lowerCasedTagName := "";
      var pos: int := 0;
      if named {
        lowerCasedTagName := Lower(tagName.value);
        pos := FindOpenElement(lowerCasedTagName);
      }
      if pos >= 0 {
        CloseDownTo(pos, named, start, end);
      } else if lowerCasedTagName == "br" {
        ReplaySnoc([], events, Start(tagName.value, [], true, start, end));
        events := events + [Start(tagName.value, [], true, start, end)];
      } else if lowerCasedTagName == "p" {
        ReplaySnoc([], events, Start(tagName.value, [], false, start, end));
        events := events + [Start(tagName.value, [], false, start, end)];
        ReplaySnoc([], events, End(tagName.value, start, end));
        events := events + [End(tagName.value, start, end)];
        assert events == old(events) + [Start(tagName.value, [], false, start, end), End(tagName.value, start, end)];
      }
    }

    /**
     * The attribute loop of `parseStartTag`: consumes attributes until a
     * `>` or `/>` can be read, or until neither an attribute nor a close
     * matches.
     */
    method ParseAttrs() returns (attrs: seq<AttrMatch>, end: Option<TagClose>)
      requires Valid()
      modifies this
      ensures Valid()
      ensures lastTag == old(lastTag) && stack == old(stack) && events == old(events) && warnings == old(warnings)
      ensures var scan := ScanAttrs(old(html));
        attrs == scan.attrs && end == scan.close && index == old(index) + scan.consumed
    {
      ghost var rest0 := html;
      ghost var index0 := index;
      attrs := [];
      while true
        invariant Valid()
        invariant lastTag == old(lastTag) && stack == old(stack) && events == old(events) && warnings == old(warnings)
        invariant index0 <= index
        invariant ScanAttrs(rest0).attrs == attrs + ScanAttrs(html).attrs
        invariant ScanAttrs(rest0).consumed == index - index0 + ScanAttrs(html).consumed
        invariant ScanAttrs(rest0).close == ScanAttrs(html).close
        decreases |html|
      {
        end := StartTagClose(html);
        if end.Some? {
          ScanAttrsStop(html);
          break;
        }
        var attr := NextAttribute(html);
        if attr.None? {
          ScanAttrsStop(html);
          break;
        }
        var a := attr.value;
        ScanAttrsStep(html, a);
        ScanAttrsAccumulate(html, a, attrs);
        Advance(a.length);
        attrs := attrs + [a];
      }
      assert attrs + [] == attrs;
    }

    /**
     * `parseStartTag`: reads `<name`, then attributes until `>` or `/>`.
     * The cursor moves past whatever was read even when no close follows,
     * in which case there is no match.
     */
    method ParseStartTag() returns (m: Option<StartMatch>)
      requires Valid()
      modifies this
      ensures Valid()
      ensures lastTag == old(lastTag) && stack == old(stack) && events == old(events) && warnings == old(warnings)
      ensures StartTagOpen(old(html)).None? ==> m.None? && index == old(index)
      ensures StartTagOpen(old(html)).Some? ==>
        var open := StartTagOpen(old(html)).value;
        var scan := ScanAttrs(old(html)[open.length..]);
        && index == old(index) + open.length + scan.consumed + (if scan.close.Some? then scan.close.value.length else 0)
        && m == (if scan.close.Some? then
                   Some(StartMatch(open.name, scan.attrs, scan.close.value.unarySlash, old(index), index))
                 else None)
    {
      var start := StartTagOpen(html);
      if start.None? {
        return None;
      }
      var matchStart := index;
      Advance(start.value.length);
      var attrs, end := ParseAttrs();
      if end.Some? {
        Advance(end.value.length);
        return Some(StartMatch(start.value.name, attrs, end.value.unarySlash, matchStart, index));
      }
      return None;
    }

    /**
     * `parseEndTag(tag, start, end)` when `tag` names the innermost open
     * element up to letter case: closes exactly that one, silently.
     */
    method CloseInnermost(tag: string, start: nat, end: nat)
      requires Valid() && stack != [] && tag != "" && Lower(tag) == stack[|stack| - 1].lowerCasedTag
      modifies this
      ensures Valid()
      ensures html == old(html) && index == old(index) && warnings == old(warnings)
      ensures stack == old(stack)[..|old(stack)| - 1]
      ensures events == old(events) + Closes(old(stack), |old(stack)| - 1, start, end)
      ensures events == old(events) + [End(old(stack)[|old(stack)| - 1].tag, start, end)]
    {
      assert FindOpen(stack, Lower(tag)) == |stack| - 1;
      ClosesTop(stack, start, end);
      ParseEndTag(Some(tag), start, end);
    }

    /**
     * The HTML-specific closes of `handleStartTag`: an open `p` before a
     * non-phrasing tag, then an open element of the same name that may be
     * left open. They never warn, since the element closed is the innermost.
     */
    method CloseImplicitly(tag: string)
      requires Valid()
      modifies this
      ensures Valid()
      ensures html == old(html) && index == old(index) && warnings == old(warnings)
      ensures stack == old(stack)[..|old(stack)| - ImplicitCloses(old(stack), tag, opts)]
      ensures events == old(events) + Closes(old(stack), |old(stack)| - ImplicitCloses(old(stack), tag, opts), index, index)
    {
      if opts.expectHTML {
        ghost var stack0, events0 := stack, events;
        ghost var c1 := if TopTag(stack) == Some("p") && IsNonPhrasingTag(tag) then 1 else 0;
        CloseParagraph(tag);
        ghost var c2 := if opts.canBeLeftOpenTag(tag) && TopTag(stack) == Some(tag) then 1 else 0;
        CloseLeftOpen(tag);
        ImplicitClosesInTwo(stack0, tag, opts, c1, c2, index, events0);
      } else {
        assert stack[..|stack|] == stack;
        assert events + Closes(stack, |stack|, index, index) == events;
      }
    }

    /** An open `p` is closed before a tag that is not phrasing content. */
    method CloseParagraph(tag: string)
      requires Valid()
      modifies this
      ensures Valid()
      ensures html == old(html) && index == old(index) && warnings == old(warnings)
      ensures var c := if TopTag(old(stack)) == Some("p") && IsNonPhrasingTag(tag) then 1 else 0;
        && stack == old(stack)[..|old(stack)| - c]
        && events == old(events) + Closes(old(stack), |old(stack)| - c, index, index)
    {
      if lastTag == Some("p") && IsNonPhrasingTag(tag) {
        CloseInnermost("p", index, index);
      } else {
        assert old(stack)[..|old(stack)|] == old(stack);
      }
    }

    /** An open element of the same name that may be left open is closed by a new one. */
    method CloseLeftOpen(tag: string)
      requires Valid()
      modifies this
      ensures Valid()
      ensures html == old(html) && index == old(index) && warnings == old(warnings)
      ensures var c := if opts.canBeLeftOpenTag(tag) && TopTag(old(stack)) == Some(tag) then 1 else 0;
        && stack == old(stack)[..|old(stack)| - c]
        && events == old(events) + Closes(old(stack), |old(stack)| - c, index, index)
    {
      if opts.canBeLeftOpenTag(tag) && lastTag == Some(tag) {
        CloseInnermost(tag, index, index);
      } else {
        assert old(stack)[..|old(stack)|] == old(stack);
      }
    }

    /** The attribute loop of `handleStartTag`: decodes every raw attribute value. */
    method DecodeAttrs(tag: string, ms: seq<AttrMatch>) returns (attrs: seq<Attr>)
      ensures attrs == DecodedAttrs(tag, ms, opts)
    {
      attrs := [];
      var i := 0;
      while i < |ms|
        invariant 0 <= i <= |ms|
        invariant |attrs| == i && forall k :: 0 <= k < i ==> attrs[k] == DecodedAttr(tag, ms[k], opts)
      {
        attrs := attrs + [DecodedAttr(tag, ms[i], opts)];
        i := i + 1;
      }
    }

    /**
     * `handleStartTag`: the implicit closes, then the `start` event; a
     * non-unary element is pushed and becomes `lastTag`.
     */
    method HandleStartTag(m: StartMatch)
      requires Valid()
      requires m.tagName != ""
      modifies this
      ensures Valid()
      ensures html == old(html) && index == old(index) && warnings == old(warnings)
      ensures
        var c := ImplicitCloses(old(stack), m.tagName, opts);
        var unary := opts.isUnaryTag(m.tagName) || m.unarySlash;
        stack == old(stack)[..|old(stack)| - c] +
          (if unary then [] else [StackEntry(m.tagName, Lower(m.tagName), DecodedAttrs(m.tagName, m.attrs, opts), m.start, m.end)])
      ensures
        var c := ImplicitCloses(old(stack), m.tagName, opts);
        var unary := opts.isUnaryTag(m.tagName) || m.unarySlash;
        events == old(events) + Closes(old(stack), |old(stack)| - c, index, index) +
          [Start(m.tagName, DecodedAttrs(m.tagName, m.attrs, opts), unary, m.start, m.end)]
      ensures stack == StackAfterStart(old(stack), m, opts)
      ensures index == m.end ==> events == old(events) + StartEvents(old(stack), m, opts)
    {
      CloseImplicitly(m.tagName);
      var unary := opts.isUnaryTag(m.tagName) || m.unarySlash;
      var attrs := DecodeAttrs(m.tagName, m.attrs);
      var e := Start(m.tagName, attrs, unary, m.start, m.end);
      ReplaySnoc([], events, e);
      if !unary {
        ghost var before := stack;
        stack := stack + [StackEntry(m.tagName, Lower(m.tagName), attrs, m.start, m.end)];
        lastTag := Some(m.tagName);
        assert Tags(stack) == Tags(before) + [m.tagName];
      }
      events := events + [e];
    }

    /**
     * The markup branch, taken when the remaining input starts with `<`: a
     * comment (reported only with `shouldKeepComment`), a conditional
     * comment or a doctype (both skipped), an end tag, or a start tag
     * (after which a first newline inside `pre` or `textarea` is dropped).
     * Without a match nothing is reported; a start tag that never closes
     * has still been consumed.
     */
    method MarkupStep() returns (matched: bool)
      requires Valid()
      modifies this
      ensures Valid() && old(index) <= index
      ensures matched ==> old(index) < index
      ensures !matched ==> stack == old(stack) && events == old(events) && warnings == old(warnings)
      ensures match MarkupAt(old(html))
        case ClosedComment(commentEnd) =>
          && matched && index == old(index) + commentEnd + 3 && stack == old(stack) && warnings == old(warnings)
          && events == old(events) +
               (if opts.shouldKeepComment then [Comment(Substring(old(html), 4, commentEnd), old(index), index)] else [])
        case ConditionalComment(conditionalEnd) =>
          && matched && index == old(index) + conditionalEnd + 2
          && stack == old(stack) && events == old(events) && warnings == old(warnings)
        case DoctypeDecl(length) =>
          && matched && index == old(index) + length
          && stack == old(stack) && events == old(events) && warnings == old(warnings)
        case EndTagMarkup(tag) =>
          && matched && index == old(index) + tag.length
          && stack == EndTagStack(old(stack), Some(tag.name))
          && events == old(events) + EndTagEvents(old(stack), Some(tag.name), old(index), index)
          && warnings == old(warnings) + EndTagWarnings(old(stack), Some(tag.name))
        case OtherMarkup =>
          match StartTagMatch(old(html), old(index))
          case None =>
            && !matched && index == old(index) + StartTagSkipped(old(html))
          case Some(m) =>
            && matched && warnings == old(warnings)
            && stack == StackAfterStart(old(stack), m, opts)
            && events == old(events) + StartEvents(old(stack), m, opts)
            && index == m.end + (if ShouldIgnoreFirstNewline(m.tagName, old(html)[m.end - m.start..]) then 1 else 0)
      ensures var r := MarkupRound(input, opts, old(State())); matched == r.1 && State() == r.0
    {
      ghost var s0 := State();
      assert html == input[s0.index..];
      if BeginsComment(html) {
        var commentEnd := IndexOf(html, "-->", 0);
        if commentEnd >= 0 {
          SkipComment(commentEnd);
          MarkupRoundComment(input, opts, s0, commentEnd, State());
          return true;
        }
      }
      if BeginsConditionalComment(html) {
        var conditionalEnd := IndexOf(html, "]>", 0);
        if conditionalEnd >= 0 {
          Advance(conditionalEnd + 2);
          MarkupRoundSkip(input, opts, s0, State());
          return true;
        }
      }
      var doctypeMatch := Doctype(html);
      if doctypeMatch.Some? {
        Advance(doctypeMatch.value);
        MarkupRoundSkip(input, opts, s0, State());
        return true;
      }
      var endTagMatch := EndTag(html);
      if endTagMatch.Some? {
        SkipEndTag(endTagMatch.value);
        MarkupRoundEndTag(input, opts, s0, endTagMatch.value, State());
        return true;
      }
      assert MarkupAt(input[s0.index..]) == OtherMarkup;
      matched := StartTagStep();
    }

    /** A comment closed at `commentEnd` is consumed, and reported when comments are kept. */
    method SkipComment(commentEnd: nat)
      requires Valid() && commentEnd + 3 <= |html|
      modifies this
      ensures Valid() && index == old(index) + commentEnd + 3 && stack == old(stack) && warnings == old(warnings)
      ensures events == old(events) +
        (if opts.shouldKeepComment then [Comment(Substring(old(html), 4, commentEnd), old(index), index)] else [])
    {
      if opts.shouldKeepComment {
        var e := Comment(Substring(html, 4, commentEnd), index, index + commentEnd + 3);
        ReplaySnoc([], events, e);
        events := events + [e];
      }
      Advance(commentEnd + 3);
    }

    /** An end tag is consumed, then `parseEndTag` runs on its name and span. */
    method SkipEndTag(tag: TagMatch)
      requires Valid() && tag.length <= |html|
      modifies this
      ensures Valid() && index == old(index) + tag.length
      ensures stack == EndTagStack(old(stack), Some(tag.name))
      ensures events == old(events) + EndTagEvents(old(stack), Some(tag.name), old(index), index)
      ensures warnings == old(warnings) + EndTagWarnings(old(stack), Some(tag.name))
    {
      var curIndex := index;
      Advance(tag.length);
      ParseEndTag(Some(tag.name), curIndex, index);
    }

    /** The start-tag part of the markup branch. */
    method StartTagStep() returns (matched: bool)
      requires Valid()
      modifies this
      ensures Valid() && old(index) <= index
      ensures matched ==> old(index) < index
      ensures !matched ==> stack == old(stack) && events == old(events) && warnings == old(warnings)
      ensures StartTagOpen(old(html)).Some? && ScanAttrs(old(html)[StartTagOpen(old(html)).value.length..]).close.None? ==>
        !matched
      ensures match StartTagMatch(old(html), old(index))
        case None =>
          && !matched && index == old(index) + StartTagSkipped(old(html))
        case Some(m) =>
          && matched && warnings == old(warnings)
          && stack == StackAfterStart(old(stack), m, opts)
          && events == old(events) + StartEvents(old(stack), m, opts)
          && index == m.end + (if ShouldIgnoreFirstNewline(m.tagName, old(html)[m.end - m.start..]) then 1 else 0)
      ensures var r := StartTagRound(input, opts, old(State())); matched == r.1 && State() == r.0
    {
      ghost var html0, index0, stack0, events0 := html, index, stack, events;
      ghost var s0 := State();
      assert html0 == input[s0.index..];
      var startTagMatch := ParseStartTag();
      StartTagMatchOf(html0, index0, startTagMatch, index);
      if startTagMatch.Some? {
        var m := startTagMatch.value;
        StartTagRoundMatched(input, opts, s0, m);
        assert html == input[m.end..];
        AcceptStartTag(m);
        StartTagRoundOf(input, opts, s0, m, State());
        return true;
      }
      StartTagRoundUnmatched(input, opts, s0);
      return false;
    }

    /** A matched start tag is handled, then a newline right after `pre` or `textarea` is dropped. */
    method AcceptStartTag(m: StartMatch)
      requires Valid() && m.tagName != "" && index == m.end
      modifies this
      ensures Valid()
      ensures stack == StackAfterStart(old(stack), m, opts) && warnings == old(warnings)
      ensures events == old(events) + StartEvents(old(stack), m, opts)
      ensures index == m.end + (if ShouldIgnoreFirstNewline(m.tagName, old(html)) then 1 else 0)
    {
      HandleStartTag(m);
      if ShouldIgnoreFirstNewline(m.tagName, html) {
        Advance(1);
      }
    }

    /**
     * The text part of the loop: the text runs from the head of the
     * remaining input to the `<` the scan from `textEnd` stops at (to the
     * end, when `textEnd` is -1), and is consumed and reported when not
     * empty.
     */
    method TextStep(textEnd: int) returns (textLength: nat)
      requires Valid()
      requires textEnd <= |html|
      modifies this
      ensures Valid()
      ensures textEnd < 0 ==> textLength == |old(html)|
      ensures textEnd >= 0 ==> IsTextEnd(old(html), textEnd, textLength)
      ensures index == old(index) + textLength && stack == old(stack) && warnings == old(warnings)
      ensures events == old(events) +
        (if textLength > 0 then [Chars(old(html)[..textLength], Some(Span(old(index), index)))] else [])
      ensures State() == TextRound(input, old(State()), textEnd)
    {
      ghost var s0 := State();
      assert html == input[s0.index..];
      if textEnd < 0 {
        textLength := |html|;
      } else {
        textLength := FindTextEnd(html, textEnd);
      }
      assert input[s0.index..s0.index + textLength] == html[..textLength];
      EmitText(textLength);
      TextRoundOf(input, s0, textEnd, textLength, State());
    }

    /** A text of `length` characters is consumed and reported with its span, unless it is empty. */
    method EmitText(length: nat)
      requires Valid() && length <= |html|
      modifies this
      ensures Valid() && index == old(index) + length && stack == old(stack) && warnings == old(warnings)
      ensures events == old(events) + (if length > 0 then [Chars(old(html)[..length], Some(Span(old(index), index)))] else [])
    {
      if length > 0 {
        var text := html[..length];
        Advance(length);
        var e := Chars(text, Some(Span(index - length, index)));
        ReplaySnoc([], events, e);
        events := events + [e];
      }
    }

    /**
     * The raw-text branch, taken inside `script`, `style` or `textarea`.
     * With a matching close tag, everything before it is reported as one
     * text (without a leading newline in `textarea`), then the element's
     * `end`. With no close tag nothing is consumed and the `end` comes
     * alone, silently; the content is left for the no-progress guard of
     * `Iterate`, which reports it after the `end` as text without a span
     * (and warns when no element is left open).
     */
    method PlainTextStep()
      requires Valid()
      requires lastTag.Some? && IsPlainTextElement(lastTag.value)
      modifies this
      ensures Valid() && old(index) <= index
      ensures stack == old(stack)[..|old(stack)| - 1] && warnings == old(warnings)
      ensures State() == PlainRound(input, old(State()))
    {
      ghost var s0 := State();
      assert html == input[s0.index..];
      var stackedTag := Lower(lastTag.value);
      ghost var tag := lastTag.value;
      assert stack[|stack| - 1].tag == tag;
      ghost var raw := RawText(input[s0.index..], stackedTag);
      var endTagLength := EmitRawText(stackedTag);
      LowerIdempotent(tag);
      var closeStart, closeEnd := index - endTagLength, index;
      assert closeEnd == s0.index + raw.0 && closeStart == closeEnd - raw.1;
      CloseInnermost(stackedTag, closeStart, closeEnd);
      ghost var e := End(tag, closeStart, closeEnd);
      assert events == s0.events + raw.2 + [e];
      PlainRoundOf(input, s0, tag, raw, closeStart, closeEnd, State());
    }

    /** The text part of the raw-text branch; `endTagLength` is 0 when no close tag follows. */
    method EmitRawText(stackedTag: string) returns (endTagLength: nat)
      requires Valid()
      modifies this
      ensures Valid() && old(index) + endTagLength <= index
      ensures stack == old(stack) && lastTag == old(lastTag) && warnings == old(warnings)
      ensures match RawTextClose(old(html), stackedTag)
        case None => index == old(index) && events == old(events) && endTagLength == 0
        case Some(close) =>
          var text := old(html)[..close.text];
          var text' := if ShouldIgnoreFirstNewline(stackedTag, text) then text[1..] else text;
          && index == old(index) + close.end && endTagLength == close.end - close.text
          && events == old(events) + [Chars(text', None)]
      ensures var r := RawText(old(html), stackedTag); index == old(index) + r.0 && endTagLength == r.1 && events == old(events) + r.2
    {
      endTagLength := 0;
      var close := RawTextClose(html, stackedTag);
      if close.Some? {
        endTagLength := close.value.end - close.value.text;
        var text := html[..close.value.text];
        if ShouldIgnoreFirstNewline(stackedTag, text) {
          text := text[1..];
        }
        var e := Chars(text, None);
        ReplaySnoc([], events, e);
        events := events + [e];
        Advance(close.value.end);
      }
    }

    /**
     * One round of the main loop. It consumes input, or else it hits the
     * no-progress guard: the remaining input is reported as text (with a
     * warning when no element is open) and the loop stops.
     */
    method Iterate() returns (stop: bool)
      requires Valid() && html != ""
      modifies this
      ensures Valid() && old(index) <= index
      ensures !stop ==> old(index) < index
      ensures stop ==> html == old(html) && events != [] && events[|events| - 1] == Chars(html, None)
      ensures stop ==> warnings == old(warnings) + (if stack == [] then [MalformedAtEnd(html)] else [])
      ensures old(events) <= events && old(warnings) <= warnings
      ensures var r := Round(input, opts, old(State())); stop == r.1 && State() == r.0
    {
      ghost var s0 := State();
      assert html == input[s0.index..];
      var last := html;
      if lastTag.None? || !IsPlainTextElement(lastTag.value) {
        var textEnd := IndexOf(html, "<", 0);
        if textEnd == 0 {
          var matched := MarkupStep();
          if matched {
            RoundMarkup(input, opts, s0);
            return false;
          }
          RoundMarkupText(input, opts, s0);
        } else {
          RoundText(input, opts, s0, textEnd);
        }
        var _ := TextStep(textEnd);
      } else {
        RoundPlain(input, opts, s0);
        PlainTextStep();
      }
      stop := CheckProgress(last, s0.index);
    }

    /**
     * The no-progress guard: when the round consumed nothing, what is left
     * is reported as text without a span, with a warning when no element is
     * open, and the loop stops.
     */
    method CheckProgress(last: string, ghost start: nat) returns (stop: bool)
      requires Valid() && start <= index && last == input[start..]
      modifies this
      ensures Valid() && html == old(html) && index == old(index) && stack == old(stack)
      ensures stop <==> index == start
      ensures !stop ==> events == old(events) && warnings == old(warnings)
      ensures stop ==> html == last && events == old(events) + [Chars(html, None)]
      ensures stop ==> events != [] && events[|events| - 1] == Chars(html, None)
      ensures stop ==> warnings == old(warnings) + (if stack == [] then [MalformedAtEnd(html)] else [])
      ensures var r := Guard(input, start, old(State())); stop == r.1 && State() == r.0
    {
      ghost var next := State();
      assert |html| == |input| - index && |last| == |input| - start;
      if html == last {
        var e := Chars(html, None);
        ReplaySnoc([], events, e);
        events := events + [e];
        if stack == [] {
          warnings := warnings + [MalformedAtEnd(html)];
        }
        GuardOf(input, start, next, State(), true);
        return true;
      }
      GuardOf(input, start, next, State(), false);
      return false;
    }

    /** The final `parseEndTag()`: closes every element still open, with a warning for each. */
    method Finish()
      requires Valid()
      modifies this
      ensures Valid() && stack == [] && html == old(html) && index == old(index)
      ensures events == old(events) + Closes(old(stack), 0, index, index)
      ensures warnings == old(warnings) + Warns(old(stack), 0)
    {
      ParseEndTag(None, index, index);
    }

    /** `parseHTML`'s main loop, then the final close. */
    method Parse()
      requires Valid()
      modifies this
      ensures Valid() && stack == []
      ensures Balanced(events)
      ensures old(events) <= events && old(warnings) <= warnings
      ensures var s := Rounds(input, opts, old(State()));
        events == s.events + Closes(s.stack, 0, s.index, s.index) && warnings == s.warnings + Warns(s.stack, 0)
      ensures State() == Finished(Rounds(input, opts, old(State())))
    {
      while html != ""
        invariant Valid()
        invariant Rounds(input, opts, State()) == Rounds(input, opts, old(State()))
        decreases |html|
      {
        var stop := Iterate();
        if stop {
          break;
        }
      }
      Finish();
    }
  }

  /**
   * Tokenizes a whole template. However malformed the input, the events
   * come out properly nested: every element opened by a non-unary `start`
   * is closed by an `end` of the same name, innermost first.
   */
  method ParseHTML(input: string, opts: Options) returns (events: seq<Event>, warnings: seq<Warning>)
    ensures Balanced(events)
    ensures events == Tokenize(input, opts).events && warnings == Tokenize(input, opts).warnings
  {
    var parser := new Parser(input, opts);
    parser.Parse();
    events := parser.events;
    warnings := parser.warnings;
  }
}
