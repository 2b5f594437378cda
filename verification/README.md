# Vue 2 template compiler front end and keep-alive cache, in Dafny

This project models the front end of Vue 2's template compiler. It also
models two small runtime pieces: the `keep-alive` cache and the vnode
helpers it uses. Each part is proved against its own specification.

- **Markup tokenizer** (`parseHTML`, `html_parser.dfy`). This is a class
  `Parser` holding the remaining input, the cursor `index`, `lastTag`, the
  open-element stack and the logs of events and warnings. Its invariant
  `Valid` has three parts:
  - the remaining input is always the suffix of the template starting at
    `index`;
  - `lastTag` is the top of the stack;
  - replaying the event log leaves exactly the stacked elements open.

  The end result is that, however malformed the template, `ParseHTML`
  emits properly nested start/end events. Every recovery rule is stated
  as a method contract:
  - stray `</br>` and `</p>`;
  - the implicit `p` close and sibling auto-close;
  - `<` read as text;
  - raw text inside `script`/`style`/`textarea`;
  - the no-progress stop;
  - the final force-close.

  Regular expressions are replaced by hand-written matchers
  (`html_patterns.dfy`). `decodeAttr` is proved to invert an encoder.
- **Filter-expression scanner** (`parseFilters`, `wrapFilter`,
  `filter_parser.dfy`). The character state machine is a function over
  prefixes: `ScanTo` and `After`. `IsSeparator` says which pipes separate
  filters. `ParseFilters` is a loop proved equal to `FilterExpression`.
  Lemmas prove:
  - where a pipe can and cannot separate;
  - that the pieces rejoin to the input;
  - that filters wrap from left to right.
- **Text interpolation parser** (`parseText`, `buildRegex`,
  `text_parser.dfy`).
  - A lazy matcher stands in for the `exec` loop.
  - `Pieces` is the tiling into literals and interpolations. It
    concatenates back to the input and has no empty or adjacent literals.
  - `ParseText` is a loop proved equal to `ParsedText`.
  - Escaped custom delimiters are proved to match literally.
- **Static optimizer** (`optimize`, `optimizer.js`, `optimizer.dfy`). The
  AST is an arena: a sequence of nodes whose children and condition blocks
  come after them and whose parent comes before them. The class `Ast`
  holds the three annotations the passes write in place, as maps from
  node index to flag. `MarkStatic` and `MarkStaticRoots` are proved to
  write exactly the marks that `StaticOf`, `Qualifies` and `ForBetween`
  define, on exactly the nodes `Reached` and `RootsReached` list, and
  nothing elsewhere.
- **Web tag tables** (`web_tags.dfy`): the three membership predicates
  `isUnaryTag`, `canBeLeftOpenTag` and `isNonPhrasingTag`, over ASCII tag
  names.
- **keep-alive** (`keep_alive.dfy`). The class `KeepAliveCache` holds:
  - `cache`, a map from key to an optional vnode;
  - `keys`, ordered from least to most recently used;
  - `include`, `exclude` and `max`;
  - a log of destroyed instances.

  Every method keeps `Valid`: `keys` has no duplicates and lists exactly
  the keys with non-null entries. `Render` is proved to keep `|keys| <=
  max`, to refresh a hit, and to cache (and possibly evict) on a miss.
  An eviction whose `$destroy` would throw is reported through an `ok`
  result, with the state left as it was at the throw.
  `pruneCache` and `destroyed` are proved to prune exactly the selected
  entries.
- **vnode helpers** (`vnode_helpers.dfy`): `isAsyncPlaceholder` and
  `getFirstComponentChild`, a linear search proved to return the first
  qualifying entry.

`strings.dfy` holds JavaScript's `trim`, `indexOf`, `split`/`join`,
`substring` and number-to-string. `wrappers.dfy` holds `Option`.

Where Vue's documented behaviour and this code differ, the model follows
the code:
- A start tag that opens (`<div`) but never reaches `>` has already been
  consumed, together with the attributes read so far, when
  `parseStartTag` gives up. It is not re-read as text (`StartTagStep`,
  `ParseStartTag`).
- A `<` that begins no markup, with no later `<` that does, does not make
  the text run to the end of input. The run stops at the last `<` in the
  input (`TextStep`, `StrayLtEndsRun`). The rest comes out through the
  no-progress guard as one text event without a span, with a
  "Mal-formatted tag" warning when no element is open (`Iterate`).
- An unclosed `script`, `style` or `textarea` ends before its content.
  With no close tag, the raw-text branch consumes nothing and closes the
  element at once, without a warning. The no-progress guard then reports
  the content as text without a span, outside the element, with a
  "Mal-formatted tag" warning when no element is left open. So `<script>x`
  gives `start(script)`, `end(script)`, then the text `x` and that warning
  (`PlainTextStep`, `PlainRoundFields`, `CheckProgress`).
- With `max` set to `"0"`, a cache miss evicts the vnode it has just
  cached. Its `componentInstance` is not set yet, so `$destroy` throws,
  unless the current vnode has the same tag and nothing is destroyed
  (`CacheMiss` returns `ok` false in that case).
- `Object.keys(node)` in `isStatic` does not include the flags the
  optimizer itself writes. So `IsStatic` is stated for a tree fresh from
  the parser (`HoistedSubtreeStatic` requires unmarked input).

## Model

| member | source | states |
|---|---|---|
| Strings.TrimIsInfix | src/compiler/parser/filter-parser.js:39 | `trim` keeps an infix of its input and removes only whitespace at the two ends, leaving none there |
| Strings.IndexOf | src/compiler/parser/html-parser.js:70 | `indexOf` returns -1 when there is no occurrence at or after the start, otherwise the first occurrence |
| Strings.JoinSplit | src/core/components/keep-alive.js:18 | joining the pieces of `split(',')` with `,` gives the input back |
| Strings.SplitJoin | src/core/components/keep-alive.js:18 | splitting a join of comma-free names gives back exactly those names |
| Strings.NatToStringInjective | src/core/components/keep-alive.js:120 | distinct `cid` numbers render as distinct decimal strings |
| WebTags.IsUnaryTag | src/platforms/web/compiler/util.js:5-8 | only names of one to ten characters starting with a lower-case letter are void |
| WebTags.CanBeLeftOpenTag | src/platforms/web/compiler/util.js:13-15 | only names of one to ten characters starting with a lower-case letter may be left open |
| WebTags.IsNonPhrasingTag | src/platforms/web/compiler/util.js:20-26 | only names of one to ten characters starting with a lower-case letter are non-phrasing |
| WebTags.UnaryExamples | src/platforms/web/compiler/util.js:5-8 | `br`, `img`, `input` and `wbr` are void; `div`, `p` and `span` are not, nor `BR` and `Img` (the table is case-sensitive) |
| WebTags.LeftOpenExamples | src/platforms/web/compiler/util.js:13-15 | `li`, `p`, `td`, `tr`, `dd`, `dt` and `options` may be left open; `option` may not |
| WebTags.NonPhrasingExamples | src/platforms/web/compiler/util.js:20-26 | `div`, `li`, `tr` and `h1`–`h6` are non-phrasing |
| WebTags.PhrasingExamples | src/platforms/web/compiler/util.js:20-26 | `p` and `span` are not non-phrasing |
| WebTags.ContainerExamples | src/platforms/web/compiler/util.js:20-26 | `ul` and `table` are not in the non-phrasing table |
| WebTags.TableOverlaps | src/platforms/web/compiler/util.js:5-26 | `source` is in all three tables; `hr`, `meta`, `param` and `track` are both void and non-phrasing |
| VNodeHelpers.IsAsyncPlaceholder | src/core/vdom/helpers/is-async-placeholder.js:3-5 | truthy only for a comment node with an async factory, and then it is the factory itself; truthy whenever both hold |
| VNodeHelpers.FirstIn | src/core/vdom/helpers/get-first-component-child.js:8-14 | `None` iff no entry is defined and a component or async placeholder; otherwise the lowest such entry |
| VNodeHelpers.GetFirstComponentChild | src/core/vdom/helpers/get-first-component-child.js:6-16 | not an array gives `None`; otherwise the loop returns the lowest-index defined entry with component options or an async placeholder, skipping null entries, and `None` when there is none |
| KeepAlive.Matches | src/core/components/keep-alive.js:14-24 | an array pattern matches by membership; an undefined or other pattern matches nothing |
| KeepAlive.CommaListMatchesItsNames | src/core/components/keep-alive.js:17-18 | a comma-separated pattern matches exactly the names it lists |
| KeepAlive.CommaListNeverMatchesComma | src/core/components/keep-alive.js:17-18 | no name containing a comma matches a comma-separated pattern |
| KeepAlive.GetComponentName | src/core/components/keep-alive.js:10-12 | the constructor's name when truthy, otherwise the tag; undefined without options |
| KeepAlive.ExcludedRules | src/core/components/keep-alive.js:106-113 | with neither prop set nothing is bypassed; with `include` set an unnamed component is bypassed; an excluded named component is bypassed |
| KeepAlive.IncludeListIff | src/core/components/keep-alive.js:106-113 | an include list keeps exactly the non-empty names it lists |
| KeepAlive.CacheKey | src/core/components/keep-alive.js:117-121 | the vnode's own key when it has one; otherwise a string starting with a digit, all digits when the tag is falsy |
| KeepAlive.Excluded | src/core/components/keep-alive.js:106-111 | with no `include` an unnamed component is never bypassed; a named component `exclude` matches is; nothing is bypassed unless a pattern is set |
| KeepAlive.ExplicitKeyWins | src/core/components/keep-alive.js:117-121 | a vnode's own key is the cache key |
| KeepAlive.ImplicitKeyInjective | src/core/components/keep-alive.js:117-121 | keyless vnodes share a cache key only when `cid` and truthy tag agree |
| KeepAlive.Remove | src/core/components/keep-alive.js:57 | `remove` deletes one occurrence: length drops by one when present, other members are kept, and duplicate-freedom is preserved |
| KeepAlive.MoveToEnd | src/core/components/keep-alive.js:128-129 | moving a present key to the end keeps the length, the members and duplicate-freedom, and puts the key last |
| KeepAlive.RemoveWithout | src/core/components/keep-alive.js:26-38 | pruning one more key from a filtered list is filtering one more key out |
| KeepAlive.KeepAliveCache.constructor | src/core/components/keep-alive.js:73-76 | `created`: empty cache and keys, invariant established |
| KeepAlive.KeepAliveCache.PruneCacheEntry | src/core/components/keep-alive.js:40-58 | `$destroy` on a missing instance throws, leaving everything unchanged; otherwise the entry becomes null, the key leaves `keys`, and the instance is logged as destroyed exactly when there is no current vnode or the tags differ |
| KeepAlive.KeepAliveCache.PruneCache | src/core/components/keep-alive.js:26-38 | completes iff no selected entry's `$destroy` throws, and then nulls exactly the non-null, named entries `filter` rejects, filters those keys out in order, logs one destruction per such entry that is destroyed; on a throw, the entries pruned before it are pruned the same way |
| KeepAlive.KeepAliveCache.PruneEach | src/core/components/keep-alive.js:29-37 | the `for … in` loop prunes exactly the keys selected up front, whatever the visiting order, unless a `$destroy` throws; a subset of them is pruned then |
| KeepAlive.KeepAliveCache.Destroyed | src/core/components/keep-alive.js:78-82 | completes iff no cached entry lacks its instance, and then every entry becomes null, `keys` becomes empty, every cached instance is logged as destroyed |
| KeepAlive.KeepAliveCache.IncludeChanged | src/core/components/keep-alive.js:85-87 | the new `include` prunes entries whose name it does not match |
| KeepAlive.KeepAliveCache.ExcludeChanged | src/core/components/keep-alive.js:88-90 | the new `exclude` prunes entries whose name it matches |
| KeepAlive.KeepAliveCache.CacheHit | src/core/components/keep-alive.js:124-129 | a hit moves the key to the end with the length unchanged and the cache untouched |
| KeepAlive.KeepAliveCache.CacheMiss | src/core/components/keep-alive.js:130-139 | a miss caches the vnode and appends the key; past `max` the oldest key is pruned, which throws exactly when that entry would be destroyed and has no instance (the fresh vnode, when `max` is 0); otherwise a key count within `max` stays within it |
| KeepAlive.KeepAliveCache.Mounted | src/core/components/keep-alive.js:125-132 | the instance created for a cached vnode becomes that entry's `componentInstance`; nothing else changes |
| KeepAlive.KeepAliveCache.Render | src/core/components/keep-alive.js:93-145 | a bypassed or missing component is returned with cache and keys unchanged (falling back to `slot[0]`); otherwise, unless the eviction throws, the vnode comes back marked `keepAlive`, hit or miss as above, its key last in `keys`, a key count within `max` kept within it |
| HtmlPatterns.StartTagOpen | src/compiler/parser/html-parser.js:19-21 | a match starts with `<` and its name is the text right after it |
| HtmlPatterns.EndTag | src/compiler/parser/html-parser.js:23 | a match starts with `</`, names a non-empty tag right after, and ends at a `>` |
| HtmlPatterns.StartTagClose | src/compiler/parser/html-parser.js:22 | a match is whitespace then `>` or `/>`, and `unarySlash` says which |
| HtmlPatterns.Doctype | src/compiler/parser/html-parser.js:24 | a doctype match ends at a `>` and is at least as long as `<!DOCTYPE x>` |
| HtmlPatterns.MarkupStartsWithLt | src/compiler/parser/html-parser.js:142-147 | whatever begins an end tag, start tag, comment or conditional comment begins with `<` |
| HtmlPatterns.Attribute | src/compiler/parser/html-parser.js:17 | an attribute match consumes input and has a non-empty name |
| HtmlPatterns.BracketClose | src/compiler/parser/html-parser.js:18 | the dynamic argument ends at the first `]` with no `=` before it |
| HtmlPatterns.NextAttribute | src/compiler/parser/html-parser.js:231 | no attribute is read exactly when neither the dynamic-argument nor the plain pattern matches |
| HtmlPatterns.IndexOfIgnoringCase | src/compiler/parser/html-parser.js:175 | the first case-insensitive occurrence of the raw-text close tag, or -1 |
| HtmlPatterns.RawTextClose | src/compiler/parser/html-parser.js:175 | the raw text ends at the first `</tag` (any case), and the close tag runs to the next `>` |
| HtmlPatterns.DecodeEncode | src/compiler/parser/html-parser.js:33-52 | `decodeAttr` inverts the encoder that writes the five entities (and `&#10;`/`&#9;` when the flag is set) |
| HtmlPatterns.DecodeAttr | src/compiler/parser/html-parser.js:49-52 | a value with no `&` decodes to itself |
| HtmlPatterns.ShouldIgnoreFirstNewline | src/compiler/parser/html-parser.js:47 | true iff the tag is `pre` or `textarea` (any case) and the text starts with a newline |
| HtmlParser.ReplayCloses | src/compiler/parser/html-parser.js:324-346 | closing the stack from the top down to `pos` leaves exactly the first `pos` elements open |
| HtmlParser.FindOpen | src/compiler/parser/html-parser.js:309-315 | the nearest stack entry with the lower-cased name, or -1 when none |
| HtmlParser.FindOpenUnique | src/compiler/parser/html-parser.js:309-315 | that position is the only one matching with nothing matching above it |
| HtmlParser.ImplicitCloses | src/compiler/parser/html-parser.js:252-263 | a start tag closes at most two open elements implicitly |
| HtmlParser.ImplicitClosesInTwo | src/compiler/parser/html-parser.js:252-263 | the `p` close followed by the left-open close are, together, the `ImplicitCloses` closes of the stack, in order |
| HtmlParser.ParagraphClosedByBlock | src/compiler/parser/html-parser.js:256-258 | with `expectHTML`, an open `p` is closed by a non-phrasing tag and not by a phrasing one |
| HtmlParser.SiblingAutoClose | src/compiler/parser/html-parser.js:260-262 | an open `li` is closed by a new `li` exactly when `expectHTML` is set |
| HtmlParser.DecodedAttrs | src/compiler/parser/html-parser.js:267-281 | each attribute keeps its name and its value decoded with the flag for `href` on `a` or the general one |
| HtmlParser.ScanAttrsStep | src/compiler/parser/html-parser.js:231-237 | while no `>` is in sight, the attribute read is recorded first, consumed, and the scan of the rest decides everything else |
| HtmlParser.ScanAttrsAccumulate | src/compiler/parser/html-parser.js:231-237 | the attributes already pushed followed by what the scan still reads do not change as an attribute moves from the input to `match.attrs` (the attribute loop's invariant) |
| HtmlParser.ScanAttrsStop | src/compiler/parser/html-parser.js:231-237 | the attribute loop stops at `>`/`/>`, or when no attribute matches |
| HtmlParser.TextEndUnique | src/compiler/parser/html-parser.js:137-158 | the end of a text run is uniquely determined |
| HtmlParser.TextEndExists | src/compiler/parser/html-parser.js:137-158 | the hop from `<` to `<` always stops: every text run has an end |
| HtmlParser.TextEnd | src/compiler/parser/html-parser.js:137-158 | the one end position a text run can have |
| HtmlParser.TextHop | src/compiler/parser/html-parser.js:142-155 | each hop to the next `<` skips only characters that are not `<`; with no `<` left the run ends at the last `<` reached, not at the end of input |
| HtmlParser.FindTextEnd | src/compiler/parser/html-parser.js:137-158 | text runs to the first `<` that begins markup, or, when none does, to the last `<` of the input: the one position `TextEnd` allows |
| HtmlParser.StrayLtEndsRun | src/compiler/parser/html-parser.js:137-158 | in `a < b` the text run ends at the stray `<`, not at the end, and what is left begins with a run of length 0 |
| HtmlParser.MarkupRound | src/compiler/parser/html-parser.js:76-135 | one markup round consumes input exactly when some markup matches; without a match stack and logs are unchanged; the logs only grow |
| HtmlParser.MarkupRoundFields | src/compiler/parser/html-parser.js:76-122 | per markup kind: the comment span and its event only when comments are kept, the conditional comment and doctype skipped silently, the end tag closed as `parseEndTag` does over the consumed span |
| HtmlParser.MarkupRoundComment | src/compiler/parser/html-parser.js:78-91 | skipping a closed comment, with its event only when comments are kept, is the round's result |
| HtmlParser.MarkupRoundSkip | src/compiler/parser/html-parser.js:97-112 | skipping a conditional comment or a doctype without any event is the round's result |
| HtmlParser.MarkupRoundEndTag | src/compiler/parser/html-parser.js:116-122 | consuming an end tag then closing as `parseEndTag` does is the round's result |
| HtmlParser.StartTagRound | src/compiler/parser/html-parser.js:124-134 | a matched start tag consumes input and only appends events; an unmatched one changes neither stack nor logs; warnings never change |
| HtmlParser.StartTagRoundMatched | src/compiler/parser/html-parser.js:127-133 | with a match the round pushes and reports as `handleStartTag` does and ends past the tag, and past a newline right after `pre`/`textarea` |
| HtmlParser.StartTagRoundOf | src/compiler/parser/html-parser.js:127-133 | handling a matched tag then dropping that newline gives the round's result |
| HtmlParser.StartTagRoundUnmatched | src/compiler/parser/html-parser.js:127-134 | without a match nothing is reported and only what `parseStartTag` read is consumed |
| HtmlParser.TextRound | src/compiler/parser/html-parser.js:137-171 | the text branch keeps the stack and warnings and only appends to the events |
| HtmlParser.TextRoundFields | src/compiler/parser/html-parser.js:137-171 | the text runs to `TextEnd` (to the end of input when there is no `<`), is consumed, and is reported with its span only when non-empty |
| HtmlParser.TextRoundOf | src/compiler/parser/html-parser.js:163-171 | consuming and reporting a text of the length the scan picks is the round's result |
| HtmlParser.RawText | src/compiler/parser/html-parser.js:173-192 | the raw-text branch consumes at most the rest of the input, the close tag being part of what it consumes, and reports nothing when it consumes nothing |
| HtmlParser.RawTextCases | src/compiler/parser/html-parser.js:173-192 | inside raw text, everything before the first close tag is one text without a leading newline in `textarea`, and the close tag is consumed too; with no close tag nothing is consumed or reported |
| HtmlParser.PlainRound | src/compiler/parser/html-parser.js:172-194 | the raw-text branch pops exactly the innermost element, keeps the warnings and only appends events |
| HtmlParser.PlainRoundFields | src/compiler/parser/html-parser.js:172-194 | with a close tag, the text then the element's `end` spanning the close tag; with none, the `end` alone and nothing consumed |
| HtmlParser.PlainRoundOf | src/compiler/parser/html-parser.js:191-193 | the raw text followed by the innermost close is the round's result |
| HtmlParser.Guard | src/compiler/parser/html-parser.js:196-202 | the loop stops iff the round consumed nothing; stopping only appends to the logs |
| HtmlParser.GuardFields | src/compiler/parser/html-parser.js:196-202 | on a stop the whole remaining input becomes one text without a span, plus a warning iff no element is open; otherwise nothing changes |
| HtmlParser.GuardOf | src/compiler/parser/html-parser.js:196-202 | the state the guard code leaves is `Guard`'s |
| HtmlParser.Round | src/compiler/parser/html-parser.js:66-203 | one round either consumes input, or stops with the cursor where it was; the logs only grow |
| HtmlParser.RoundPlain | src/compiler/parser/html-parser.js:172-202 | inside `script`/`style`/`textarea` a round is the raw-text branch then the guard |
| HtmlParser.RoundMarkup | src/compiler/parser/html-parser.js:76-135 | a matched markup ends the round (`continue`) without the guard |
| HtmlParser.RoundMarkupText | src/compiler/parser/html-parser.js:76-171 | at a `<` that begins no markup, the text branch runs on what the markup branch left, then the guard |
| HtmlParser.RoundText | src/compiler/parser/html-parser.js:137-202 | away from a `<`, a round is the text branch then the guard |
| HtmlParser.Rounds | src/compiler/parser/html-parser.js:66-203 | the loop ends at or before the end of input and its logs extend those it started with |
| HtmlParser.Finished | src/compiler/parser/html-parser.js:205-206 | the final `parseEndTag()` empties the stack, with one `end` and one warning per element left open |
| HtmlParser.Parser.constructor | src/compiler/parser/html-parser.js:54-65 | starts at index 0 with the whole template, an empty stack and empty logs |
| HtmlParser.Parser.Advance | src/compiler/parser/html-parser.js:208-211 | `index` grows by `n` and exactly the first `n` characters are dropped |
| HtmlParser.Parser.FindOpenElement | src/compiler/parser/html-parser.js:309-315 | the downward search loop returns `FindOpen` |
| HtmlParser.Parser.EmitCloses | src/compiler/parser/html-parser.js:324-341 | one `end` per entry from the top down to `pos`, with a warning for every entry above the match (all of them when unnamed) |
| HtmlParser.Parser.CloseDownTo | src/compiler/parser/html-parser.js:320-346 | those events and warnings, and the stack truncated to `pos` |
| HtmlParser.Parser.ParseEndTag | src/compiler/parser/html-parser.js:302-362 | a found tag closes down to it; unfound `</br>` gives one unary `start`; unfound `</p>` gives `start` then `end`; any other unfound tag changes nothing |
| HtmlParser.Parser.ParseAttrs | src/compiler/parser/html-parser.js:226-237 | the attribute loop consumes and records exactly what `ScanAttrs` reads |
| HtmlParser.Parser.ParseStartTag | src/compiler/parser/html-parser.js:213-246 | a tag name opens a match; it is returned only when `>` or `/>` follows the attributes, with its name, attributes, slash and span |
| HtmlParser.Parser.CloseParagraph | src/compiler/parser/html-parser.js:256-258 | closes an open `p` before a non-phrasing tag |
| HtmlParser.Parser.CloseLeftOpen | src/compiler/parser/html-parser.js:260-262 | closes an open element of the same name that can be left open |
| HtmlParser.Parser.CloseImplicitly | src/compiler/parser/html-parser.js:252-263 | both implicit closes, only with `expectHTML` |
| HtmlParser.Parser.DecodeAttrs | src/compiler/parser/html-parser.js:267-287 | the decoding loop returns `DecodedAttrs` |
| HtmlParser.Parser.HandleStartTag | src/compiler/parser/html-parser.js:248-300 | after the implicit closes, a tag is unary iff void or written `/>`; only non-unary tags are pushed and become `lastTag`; exactly one `start` event fires |
| HtmlParser.StartTagMatch | src/compiler/parser/html-parser.js:213-246 | a start-tag match has a non-empty name and a span that begins at the cursor, consumes input and stays inside it |
| HtmlParser.StartTagMatchOf | src/compiler/parser/html-parser.js:213-246 | what `parseStartTag` returns and consumes, given step by step, is `StartTagMatch`; without a match it consumes the name and the attributes read |
| HtmlParser.Parser.MarkupStep | src/compiler/parser/html-parser.js:76-135 | by the markup at the cursor: a closed comment is skipped and reported with its text only when comments are kept; a conditional comment and a doctype are skipped silently; an end tag is consumed and closes as `parseEndTag` does, spanning the consumed text; a start tag is handled as `handleStartTag` does, then a newline right after `pre`/`textarea` is skipped; a `<` opening no markup changes no event; the new state is `MarkupRound`'s |
| HtmlParser.Parser.SkipComment | src/compiler/parser/html-parser.js:82-90 | the comment and its `-->` are consumed, and reported with their span only when comments are kept |
| HtmlParser.Parser.SkipEndTag | src/compiler/parser/html-parser.js:116-121 | the end tag is consumed, then closed as `parseEndTag` does over the consumed span |
| HtmlParser.Parser.StartTagStep | src/compiler/parser/html-parser.js:124-134 | a start tag that reaches `>` is handled (stack and events as `handleStartTag` gives them) and the cursor moves past it and past a newline right after `pre`/`textarea`; one that never reaches `>` fires no event and consumes what `parseStartTag` read; the new state is `StartTagRound`'s |
| HtmlParser.Parser.AcceptStartTag | src/compiler/parser/html-parser.js:128-133 | the matched tag is handled as `handleStartTag` does, then one newline right after `pre`/`textarea` is consumed |
| HtmlParser.Parser.TextStep | src/compiler/parser/html-parser.js:137-171 | the text run up to the first `<` beginning markup (or, when none does, up to the last `<`; with no `<` at all, the rest of the input) is consumed and reported with its span when non-empty; the new state is `TextRound`'s |
| HtmlParser.Parser.EmitText | src/compiler/parser/html-parser.js:163-171 | a text is consumed and reported with its span, and an empty one not at all |
| HtmlParser.Parser.EmitRawText | src/compiler/parser/html-parser.js:173-192 | inside raw text, everything up to the close tag is one text, without a leading newline in `textarea`, and the close tag is consumed; this is `RawText` |
| HtmlParser.Parser.CloseInnermost | src/compiler/parser/html-parser.js:193 | the raw-text element, the innermost one, is closed without a warning |
| HtmlParser.Parser.PlainTextStep | src/compiler/parser/html-parser.js:172-194 | the innermost element leaves the stack; the state is `PlainRound`'s: the raw text then the `end` when a close tag follows, and with none the `end` alone with nothing consumed (the content then comes out of the guard, after the `end`) |
| HtmlParser.Parser.Iterate | src/compiler/parser/html-parser.js:66-203 | each round consumes input, or emits the rest as text (warning when no element is open) and stops; the logs only grow; the new state and the stop are `Round`'s |
| HtmlParser.Parser.CheckProgress | src/compiler/parser/html-parser.js:196-202 | a round that consumed nothing reports the remaining input as text without a span, warns iff no element is open, and stops; this is `Guard` |
| HtmlParser.Parser.Finish | src/compiler/parser/html-parser.js:206 | the final `parseEndTag()` closes every open element with a warning each and empties the stack |
| HtmlParser.Parser.Parse | src/compiler/parser/html-parser.js:66-206 | the loop ends with an empty stack and a balanced event log; the logs only grow; the events are those of `Rounds` followed by one `end` per element left open, and the warnings those of `Rounds` followed by one per such element |
| HtmlParser.ParseHTML | src/compiler/parser/html-parser.js:54-206 | every event sequence produced is properly nested, and the events and warnings are exactly `Tokenize`'s: the rounds from the start of the template, then the final close |
| FilterParser.LastNonSpaceSkipsSpaces | src/compiler/parser/filter-parser.js:67-73 | only spaces lie between the look-back's stop and the `/` |
| FilterParser.SlashOpensRegexIff | src/compiler/parser/filter-parser.js:66-77 | outside literals a `/` opens a regex iff nothing but spaces precedes it or the preceding character is not a division character |
| FilterParser.RegexStartsAt | src/compiler/parser/filter-parser.js:66-77 | the look-back loop decides `OpensRegex` |
| FilterParser.ScanChar | src/compiler/parser/filter-parser.js:21-64 | one step of the literal flags and bracket counters advances `ScanTo` by one character |
| FilterParser.SeparatorsBelowCut | src/compiler/parser/filter-parser.js:29-42 | the separator positions are increasing and inside the input |
| FilterParser.SeparatorsBelowAreSeparators | src/compiler/parser/filter-parser.js:29-42 | every listed position is a separator |
| FilterParser.SeparatorOutsideLiteralsAndBrackets | src/compiler/parser/filter-parser.js:29-33 | a separator is a single pipe in code with every bracket counter at zero |
| FilterParser.LogicalOrIsNotAFilter | src/compiler/parser/filter-parser.js:29-33 | neither half of a double pipe separates, so an expression whose only pipes are doubled is only trimmed |
| FilterParser.QuotedPipesDoNotSplit | src/compiler/parser/filter-parser.js:21-28 | a pipe inside a quoted, template or regex literal does not split it |
| FilterParser.EscapedDelimiterDoesNotClose | src/compiler/parser/filter-parser.js:21-28 | a closing delimiter after a backslash leaves its literal open |
| FilterParser.ParenthesizedPipesDoNotSplit | src/compiler/parser/filter-parser.js:53-55 | a pipe inside parentheses does not split |
| FilterParser.NoSeparatorIsTrim | src/compiler/parser/filter-parser.js:82-83 | with no separator the result is the whole input trimmed |
| FilterParser.SeparatorsCutAtPipes | src/compiler/parser/filter-parser.js:36-42 | the pieces between separators, rejoined with a pipe, give the input back |
| FilterParser.SeparatorCut | src/compiler/parser/filter-parser.js:36-42 | a separator ends the base (first time) or closes one trimmed filter segment |
| FilterParser.CutAt | src/compiler/parser/filter-parser.js:36-42 | the separator branch keeps the scan invariant, with `pushFilter` for later pipes |
| FilterParser.ScanStep | src/compiler/parser/filter-parser.js:18-80 | one loop turn keeps the scan invariant |
| FilterParser.ScanPipes | src/compiler/parser/filter-parser.js:18-80 | the loop finds exactly the separators, the base and the closed segments |
| FilterParser.SplitFiltersEnd | src/compiler/parser/filter-parser.js:82-86 | at the end the open segment runs to the end of input |
| FilterParser.SplitFilters | src/compiler/parser/filter-parser.js:18-91 | the base is the trimmed first piece and the filters are the trimmed later pieces |
| FilterParser.WrapFilters | src/compiler/parser/filter-parser.js:93-97 | the wrapping loop computes `WrapAll` |
| FilterParser.ParseFilters | src/compiler/parser/filter-parser.js:5-100 | the result is the base wrapped by every filter segment, left to right |
| FilterParser.FilterExpressionIsWrapAll | src/compiler/parser/filter-parser.js:93-97 | the result is the trimmed first piece wrapped by the filter segments |
| FilterParser.WrapAllCons | src/compiler/parser/filter-parser.js:93-97 | the first filter is innermost and later filters wrap it |
| FilterParser.FilterName | src/compiler/parser/filter-parser.js:103-111 | the name is the filter's prefix up to its first `(`, or all of it when there is none |
| FilterParser.FirstParen | src/compiler/parser/filter-parser.js:103 | `indexOf('(')` is the length of that name, or -1 when the filter has no `(` |
| FilterParser.WrapFilter | src/compiler/parser/filter-parser.js:102-114 | the result opens with `_f("name")(exp` for the filter's name; a filter without `(` gives exactly `_f("filter")(exp)` |
| FilterParser.FilterExpression | src/compiler/parser/filter-parser.js:5-100 | with no separator the result is the trimmed input; otherwise it is a `_f("…")` call |
| FilterParser.ParenAfterName | src/compiler/parser/filter-parser.js:103 | `indexOf('(')` finds the parenthesis right after a name without one |
| FilterParser.WrapBareName | src/compiler/parser/filter-parser.js:105-107 | `name` gives `_f("name")(exp)` |
| FilterParser.WrapCallWithArgs | src/compiler/parser/filter-parser.js:108-113 | `name(args)` gives `_f("name")(exp,args)` |
| FilterParser.WrapCallNoArgs | src/compiler/parser/filter-parser.js:108-113 | `name()` gives `_f("name")(exp)` |
| FilterParser.ChainSeparators | src/compiler/parser/filter-parser.js:29-42 | the chain of `a`, `b` and `c(1)` has its separators at its two single pipes |
| FilterParser.FilterChainExample | src/compiler/parser/filter-parser.js:88-113 | the chain of `a`, `b` and `c(1)` yields `_f("c")(_f("b")(a),1)` |
| TextParser.EscapeRegex | src/compiler/parser/text-parser.js:7-11 | escaping at most doubles the length and leaves a delimiter with no special character unchanged |
| TextParser.BuildRegex | src/compiler/parser/text-parser.js:9-13 | the pattern is the escaped open delimiter, the lazy group and the escaped close delimiter, exactly the delimiters around the group when they have no special character |
| TextParser.EscapeIsLiteral | src/compiler/parser/text-parser.js:7-11 | an escaped delimiter is a pattern of literal atoms matching exactly the delimiter |
| TextParser.EscapeInjective | src/compiler/parser/text-parser.js:7-11 | different delimiters escape differently |
| TextParser.BuildRegexMatchesDelimitersLiterally | src/compiler/parser/text-parser.js:9-13 | the built pattern begins and ends with patterns matching exactly the two delimiters |
| TextParser.LazyCloseFirst | src/compiler/parser/text-parser.js:12 | the lazy group stops at the first close delimiter on a unit boundary |
| TextParser.MatchAt | src/compiler/parser/text-parser.js:6-12 | a match is the open delimiter, a non-empty inner text and the close delimiter, in the text |
| TextParser.NextMatch | src/compiler/parser/text-parser.js:39 | `exec` returns a match starting at or after `lastIndex` |
| TextParser.NextMatchLeftmost | src/compiler/parser/text-parser.js:39 | no match starts before the one returned |
| TextParser.InnerEndsAtFirstClose | src/compiler/parser/text-parser.js:6 | the inner text ends at the first following close delimiter, except one inside a `\r\n` |
| TextParser.NoCloseInside | src/compiler/parser/text-parser.js:9-13 | with custom delimiters, no close delimiter occurs inside the inner text |
| TextParser.PiecesReassemble | src/compiler/parser/text-parser.js:39-59 | literal pieces and matched spans concatenate back to the input |
| TextParser.PiecesShape | src/compiler/parser/text-parser.js:43-59 | interpolations have non-empty inner text between the delimiters; no literal is empty and no two are adjacent |
| TextParser.ResultIffMatch | src/compiler/parser/text-parser.js:26-30 | the result is undefined iff no position starts a match |
| TextParser.TokensFollowPieces | src/compiler/parser/text-parser.js:39-63 | tokens correspond to pieces one by one: literals raw, bindings `parseFilters(inner.trim())`; the expression is the rendered tokens joined with `+` |
| TextParser.RawTokensAt | src/compiler/parser/text-parser.js:46-53 | each raw token is the token of its piece |
| TextParser.Rendered | src/compiler/parser/text-parser.js:48-52 | the rendered token list has one entry per token: `JSON.stringify` for text, `_s(exp)` for a binding |
| TextParser.PushLiteral | src/compiler/parser/text-parser.js:43-49 | the gap before a match is pushed to both lists only when non-empty |
| TextParser.PushBinding | src/compiler/parser/text-parser.js:51-53 | the binding is pushed to both lists |
| TextParser.PushMatch | src/compiler/parser/text-parser.js:41-54 | one match pushes its gap and its binding |
| TextParser.ConsumeMatch | src/compiler/parser/text-parser.js:39-54 | the pieces still to come start with this match's gap and binding, and `lastIndex` moves past the match |
| TextParser.PushStep | src/compiler/parser/text-parser.js:39-55 | one loop turn keeps the correspondence and advances `lastIndex` |
| TextParser.PushMatches | src/compiler/parser/text-parser.js:39-55 | the loop ends with no match left |
| TextParser.ParseText | src/compiler/parser/text-parser.js:21-64 | the method returns `ParsedText`, whose expression is the rendered tokens joined with `+` |
| Optimizer.GenStaticKeys | src/compiler/optimizer.js:42-47 | the static keys are the eleven base keys plus the comma-separated extras, if any |
| Optimizer.MakeMapAppend | src/compiler/optimizer.js:43-46 | the base list plus `,keys` splits into the base names and the extra keys |
| Optimizer.ConfigOf | src/compiler/optimizer.js:28-30 | `optimize` fixes the static keys from `staticKeys` (empty when absent) and the reserved-tag test (nothing reserved when absent) |
| Optimizer.IsStatic | src/compiler/optimizer.js:124-143 | an expression is never static and text always is; a static element outside `v-pre` has no bindings, `v-if` or `v-for`, a reserved tag other than `slot` and `component`, and only static keys |
| Optimizer.IsStaticRules | src/compiler/optimizer.js:124-143 | expressions are never static, text always, `v-pre` elements always; any other element is static iff it has no bindings, `v-if` or `v-for`, a reserved tag other than `slot` and `component`, no `template v-for` reached through templates above it, and only base or extra static keys |
| Optimizer.IsDirectChildOfTemplateFor | src/compiler/optimizer.js:145-156 | the parent walk returns `TemplateForAbove` |
| Optimizer.TemplateForAboveIff | src/compiler/optimizer.js:145-156 | true iff some ancestor has `for` and all ancestors up to it are `template`s |
| Optimizer.AllStaticIff | src/compiler/optimizer.js:66-85 | a node's children and blocks are all static iff each of them is |
| Optimizer.StaticSubtree | src/compiler/optimizer.js:49-88 | below a static node, every node the first pass visits is static |
| Optimizer.Reached | src/compiler/optimizer.js:49-88 | the first pass visits a node and nodes below it only, and does not descend into components |
| Optimizer.RootsReached | src/compiler/optimizer.js:90-122 | the second pass writes only elements at or below the node, including the node iff it is an element |
| Optimizer.RootStopsDescent | src/compiler/optimizer.js:100-105 | a node that becomes a static root is the only one its visit writes |
| Optimizer.ForThrough | src/compiler/optimizer.js:110-113 | passing up through a node adds its `for` to the inherited `isInFor` |
| Optimizer.Ast.MarkStatic | src/compiler/optimizer.js:49-88 | every visited node gets the first pass's mark (static on its own, and children and blocks i ≥ 1 static unless a component), and nothing else changes |
| Optimizer.Ast.MarkStaticEach | src/compiler/optimizer.js:66-72 | the loop over children ANDs their marks into the parent's |
| Optimizer.Ast.MarkChild | src/compiler/optimizer.js:67-71 | one child is marked and a non-static child clears the parent's mark |
| Optimizer.Ast.MarkStaticRoots | src/compiler/optimizer.js:90-122 | every written element's `staticRoot` says whether it is static with children other than one lone text child; static or `once` elements get `staticInFor` as inherited `isInFor` or any `for` in between; nothing else changes |
| Optimizer.Ast.MarkStaticRootsEach | src/compiler/optimizer.js:111-119 | children inherit `isInFor` or the node's own `for`; blocks i ≥ 1 inherit `isInFor` unchanged |
| Optimizer.Optimize | src/compiler/optimizer.js:24-35 | an absent root changes nothing; otherwise both passes run from the root with `isInFor` false |
| Optimizer.HoistedSubtreeStatic | src/compiler/optimizer.js:100-105 | on a fresh tree, each static root and its whole visited subtree are static |

## Left out

- HtmlParser.Parser: indices, lengths and spans count Unicode scalar values (Dafny characters), where JavaScript's `index`, `length`, `indexOf` and `advance(n)` count UTF-16 code units. The two agree on text inside the Basic Multilingual Plane. After any character outside it, every later offset in the model is one smaller per such character (with U+1F600 as the text of `<p>…</p>`, the text span is 3..4 here and 3..5 in the source). A lone surrogate, which a JavaScript string may hold, cannot be represented. The same holds for `Strings.IndexOf` and the `lastIndex` of TextParser.
- Regular expressions are replaced by hand-written matchers for the patterns used. Tag names are restricted to ASCII, because the Unicode ranges that `unicodeRegExp` adds to names are not part of this model.
- KeepAlive.Matches: RegExp `include`/`exclude` patterns are not modelled (a foreign regex engine); such a value is `Other`, which matches nothing.
- The Vue component lifecycle (`$watch`, `$slots`, `_vnode`) is left out: each hook is a method its caller invokes, with the current vnode as a parameter. `$destroy` is a record appended to `destroyLog`. Vnodes are values, so the source's aliasing is modelled explicitly: the cached object being the one later marked `keepAlive` is modelled by caching the already-marked vnode, and the instance the vdom later stores on it is written by `Mounted`. The source sets `keepAlive` only after the eviction returns, so when that eviction throws, the cached object is never marked; the model's cache holds the marked vnode on that path too, a difference nothing can observe after the throw.
- `parseInt(this.max)` is left out: `max` is an optional natural, the value of `parseInt` as the eviction test `keys.length > parseInt(this.max)` sees it.
  - `None` stands for every falsy `max`. It also stands for a truthy value that parses to NaN, such as `"abc"`: `keys.length > NaN` is never true, so that value never evicts either.
  - `Some(0)` stands for a truthy string such as `"0"`. It also stands for any negative value: the test then holds on every miss, exactly as with 0.
  - A fraction is truncated by `parseInt`: `"2.5"` is `Some(2)`.
- KeepAlive.KeepAliveCache.Render: "the key is last in `keys`" holds only when `keys` is not empty. With `max` equal to 0 and a current vnode of the same tag, the fresh key is evicted at once without a `$destroy`; with any other current vnode the eviction throws, and no result is promised beyond `ok` being false and the state at the throw.
- KeepAlive.KeepAliveCache.PruneCache: a JavaScript exception is modelled only as an `ok` result. What the caller does after the throw (Vue's error handler) is not part of this model.
- TextParser.Stringify: `JSON.stringify` is modelled as a plain escape of quotes, backslashes and control characters. No property is claimed about it beyond being the text token's rendering.
- `outputSourceRange` attribute offsets are left out. The `process.env.NODE_ENV` warnings are an appended warning log, always on.
- `for (const key in cache)` visits integer-like keys first, in ascending order, then the other keys in insertion order. The model visits them in an arbitrary order and proves the outcome does not depend on it.
- KeepAlive.KeepAliveCache.Valid: cache keys are strings only. A numeric `vnode.key` is not modelled. With one, `for … in` later yields the key as a string, `remove(keys, key)` misses the number in `keys`, and `keys` can keep keys whose entry is null or hold the same key twice, which the duplicate-freedom part of `Valid` does not reflect (KeepAlive.CacheKey and PruneCache alike).
- Comment and CDATA stripping in the raw-text branch of `parseHTML` is left out. It is unreachable there, because that branch only runs for `script`, `style` and `textarea`, which the guard excludes.
- Optimizer.IsStatic: `Object.keys(node)` is the node's own key set. It does not include the `static`, `staticRoot` and `staticInFor` flags that the passes write, so the model describes one run on a fresh tree, not a re-run.
- Optimizer.WellFormed: the AST is an arena where parents precede children. This tree shape is assumed of the parser's output rather than derived.
- Optimizer.ConfigOf: `makeMap` and `cached` are plain sets and functions. The memoisation by `cached`/`reCache` is not modelled.
- `isBuiltInTag` and `remove` come from a shared utility module that is not part of this model. They are taken as `slot`/`component` and "delete the first occurrence".
- `src/compiler/index.js`, `src/platforms/web/entry-runtime-with-compiler.js`, `src/platforms/web/util/compat.js` and `examples/todomvc/app.js` are not part of this model. They are orchestration, DOM glue, browser detection and a demo app.
