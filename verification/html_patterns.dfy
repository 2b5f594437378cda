/**
 * Hand-written matchers for the patterns the markup tokenizer recognises at
 * the head of the remaining input: start-tag open, start-tag close, end tag,
 * attribute (plain and dynamic-argument), doctype, comment and conditional
 * comment openers, and the close tag of a raw-text element. Each returns
 * what the corresponding anchored pattern captures and how many characters
 * it consumes, following the leftmost, greedy (or lazy, where the pattern
 * says so) matching of those patterns. Tag names are ASCII.
 *
 * Also: attribute-value entity decoding, and the two small tag tests the
 * tokenizer consults (raw-text elements, first-newline elements).
 */
module HtmlPatterns {
  import opened Wrappers
  import opened Strings

  predicate IsAsciiLetter(c: char) {
    'a' <= c <= 'z' || 'A' <= c <= 'Z'
  }

  /** The first character of a name: `[a-zA-Z_]`. */
  predicate IsNameStart(c: char) {
    IsAsciiLetter(c) || c == '_'
  }

  /** Later characters of a name: `[\-\.0-9_a-zA-Z]`. */
  predicate IsNameChar(c: char) {
    IsNameStart(c) || IsDigit(c) || c == '-' || c == '.'
  }

  /** `\w` */
  predicate IsWordChar(c: char) {
    IsAsciiLetter(c) || IsDigit(c) || c == '_'
  }

  predicate IsWordOrDash(c: char) {
    IsWordChar(c) || c == '-'
  }

  /** `[^\s"'<>\/=]`: a character of an attribute name. */
  predicate IsAttrNameChar(c: char) {
    !IsWhitespace(c) && c != '"' && c != '\'' && c != '<' && c != '>' && c != '/' && c != '='
  }

  /** ``[^\s"'=<>`]``: a character of an unquoted attribute value. */
  predicate IsUnquotedChar(c: char) {
    !IsWhitespace(c) && c != '"' && c != '\'' && c != '=' && c != '<' && c != '>' && c != '`'
  }

  /** The length of the longest run of characters satisfying `p` from `i`: a greedy `p*`. */
  function Run(s: string, i: nat, p: char -> bool): (n: nat)
    requires i <= |s|
    ensures i + n <= |s|
    ensures forall k :: i <= k < i + n ==> p(s[k])
    ensures i + n == |s| || !p(s[i + n])
    decreases |s| - i
  {
    if i < |s| && p(s[i]) then 1 + Run(s, i + 1, p) else 0
  }

  /** The length of the name (`ncname`) at `i`, or 0 when none starts there. */
  function NcName(s: string, i: nat): (n: nat)
    requires i <= |s|
    ensures i + n <= |s|
    ensures n > 0 ==> IsNameStart(s[i]) && forall k :: i < k < i + n ==> IsNameChar(s[k])
    ensures n > 0 ==> i + n == |s| || !IsNameChar(s[i + n])
  {
    if i < |s| && IsNameStart(s[i]) then 1 + Run(s, i + 1, IsNameChar) else 0
  }

  /** The length of the qualified name (`prefix:name` or `name`) at `i`, or 0. */
  function QName(s: string, i: nat): (n: nat)
    requires i <= |s|
    ensures i + n <= |s|
    ensures n == 0 <==> NcName(s, i) == 0
  {
    var n := NcName(s, i);
    if n > 0 && i + n < |s| && s[i + n] == ':' && NcName(s, i + n + 1) > 0 then n + 1 + NcName(s, i + n + 1)
    else n
  }

  /** What a tag-name pattern captured, and the number of characters it consumed. */
  datatype TagMatch = TagMatch(name: string, length: nat)

  /** `<` followed by a qualified name. */
  function StartTagOpen(s: string): (r: Option<TagMatch>)
    ensures r.Some? ==> 2 <= r.value.length <= |s| && s[0] == '<' && r.value.name == s[1..r.value.length]
  {
    if s != [] && s[0] == '<' && QName(s, 1) > 0 then Some(TagMatch(s[1..1 + QName(s, 1)], 1 + QName(s, 1)))
    else None
  }

  /** `</`, a qualified name, anything but `>`, then `>`. */
  function EndTag(s: string): (r: Option<TagMatch>)
    ensures r.Some? ==> 4 <= r.value.length <= |s| && s[..2] == "</" && s[r.value.length - 1] == '>'
    ensures r.Some? ==> 0 < |r.value.name| && 2 + |r.value.name| < r.value.length && r.value.name == s[2..2 + |r.value.name|]
  {
    if |s| >= 2 && s[0] == '<' && s[1] == '/' && QName(s, 2) > 0 then
      var q := QName(s, 2);
      var j := IndexOf(s, ">", 2 + q);
      if j < 0 then None else Some(TagMatch(s[2..2 + q], j + 1))
    else None
  }

  /** `\s*(\/?)>`: whether the start tag closes with `/>`, and the length consumed. */
  datatype TagClose = TagClose(unarySlash: bool, length: nat)

  function StartTagClose(s: string): (r: Option<TagClose>)
    ensures r.Some? ==> 1 <= r.value.length <= |s| && s[r.value.length - 1] == '>'
    ensures r.Some? && r.value.unarySlash ==> 2 <= r.value.length
    ensures r.Some? ==> AllWhitespace(s[..r.value.length - (if r.value.unarySlash then 2 else 1)])
    ensures r.Some? && r.value.unarySlash ==> s[r.value.length - 2] == '/'
  {
    var w := Run(s, 0, IsWhitespace);
    if w < |s| && s[w] == '>' then Some(TagClose(false, w + 1))
    else if w + 1 < |s| && s[w] == '/' && s[w + 1] == '>' then Some(TagClose(true, w + 2))
    else None
  }

  /** `<!--` */
  predicate BeginsComment(s: string) {
    StartsWith(s, "<!--")
  }

  /** `<![` */
  predicate BeginsConditionalComment(s: string) {
    StartsWith(s, "<![")
  }

  /** `<!DOCTYPE `, in any letter case, then at least one character other than `>`, then `>`. */
  function Doctype(s: string): (r: Option<nat>)
    ensures r.Some? ==> 12 <= r.value <= |s| && s[r.value - 1] == '>'
  {
    if |s| >= 10 && Lower(s[..10]) == "<!doctype " then
      var j := IndexOf(s, ">", 10);
      if j > 10 then Some(j + 1) else None
    else None
  }

  /** A `<` at the head of `s` that the text scanner stops at: an end tag, a start-tag opener, or a comment opener. */
  predicate BeginsMarkup(s: string) {
    EndTag(s).Some? || StartTagOpen(s).Some? || BeginsComment(s) || BeginsConditionalComment(s)
  }

  /** Every markup opener starts with `<`. */
  lemma MarkupStartsWithLt(s: string)
    requires BeginsMarkup(s)
    ensures s != [] && s[0] == '<'
  {
  }

  /** A matched attribute: its name, its value (`''` when absent), and the length consumed. */
  datatype AttrMatch = AttrMatch(name: string, value: string, length: nat)

  /**
   * The optional `\s*=\s*value` part after an attribute name at `p`: the
   * value and the index just past it. A double- or single-quoted value
   * swallows every repeated closing quote.
   */
  function ValueFrom(s: string, p: nat): (r: Option<(string, nat)>)
    requires p <= |s|
    ensures r.Some? ==> p < r.value.1 <= |s|
  {
    var e := p + Run(s, p, IsWhitespace);
    if e < |s| && s[e] == '=' then
      var q := e + 1 + Run(s, e + 1, IsWhitespace);
      if q < |s| && (s[q] == '"' || s[q] == '\'') then
        var quote := s[q];
        var j := IndexOf(s, [quote], q + 1);
        if j < 0 then None else Some((s[q + 1..j], j + 1 + Run(s, j + 1, c => c == quote)))
      else
        var u := Run(s, q, IsUnquotedChar);
        if u > 0 then Some((s[q..q + u], q + u)) else None
    else None
  }

  /** A plain attribute: whitespace, a name, and an optional value. */
  function Attribute(s: string): (r: Option<AttrMatch>)
    ensures r.Some? ==> 1 <= r.value.length <= |s| && |r.value.name| >= 1
  {
    var w := Run(s, 0, IsWhitespace);
    var n := Run(s, w, IsAttrNameChar);
    if n == 0 then None
    else match ValueFrom(s, w + n)
      case Some((v, e)) => Some(AttrMatch(s[w..w + n], v, e))
      case None => Some(AttrMatch(s[w..w + n], "", w + n))
  }

  /** The end of a dynamic-argument prefix `v-name:`, `@`, `:` or `#` at `w`. */
  function DynamicPrefix(s: string, w: nat): (r: Option<nat>)
    requires w <= |s|
    ensures r.Some? ==> w < r.value <= |s|
  {
    if w + 2 <= |s| && s[w] == 'v' && s[w + 1] == '-' then
      var n := Run(s, w + 2, IsWordOrDash);
      if n > 0 && w + 2 + n < |s| && s[w + 2 + n] == ':' then Some(w + 3 + n) else None
    else if w < |s| && (s[w] == '@' || s[w] == ':' || s[w] == '#') then Some(w + 1)
    else None
  }

  /**
   * The lazy `[^=]+?\]` after an opening `[` at `k - 2`: the first `]` at
   * index `k` or later such that no `=` occurs from `k - 1` up to it.
   */
  function BracketClose(s: string, k: nat): (r: Option<nat>)
    requires 1 <= k
    ensures r.Some? ==> k <= r.value < |s| && s[r.value] == ']'
    ensures r.Some? ==> forall i :: k - 1 <= i < r.value ==> s[i] != '='
    decreases |s| - k
  {
    if k >= |s| then None
    else if s[k - 1] == '=' then None
    else if s[k] == ']' then Some(k)
    else BracketClose(s, k + 1)
  }

  /** A dynamic-argument attribute such as `:[key]="value"` or `v-on:[event]`. */
  function DynamicArgAttribute(s: string): (r: Option<AttrMatch>)
    ensures r.Some? ==> 1 <= r.value.length <= |s|
  {
    var w := Run(s, 0, IsWhitespace);
    match DynamicPrefix(s, w)
    case None => None
    case Some(pe) =>
      if pe >= |s| || s[pe] != '[' then None
      else match BracketClose(s, pe + 2)
        case None => None
        case Some(j) =>
          var m := Run(s, j + 1, IsAttrNameChar);
          var name := s[w..j + 1 + m];
          match ValueFrom(s, j + 1 + m)
          case Some((v, e)) => Some(AttrMatch(name, v, e))
          case None => Some(AttrMatch(name, "", j + 1 + m))
  }

  /** The tokenizer tries the dynamic-argument form first, then the plain form. */
  function NextAttribute(s: string): (r: Option<AttrMatch>)
    ensures r.Some? ==> 1 <= r.value.length <= |s|
    ensures r.None? <==> DynamicArgAttribute(s).None? && Attribute(s).None?
  {
    var d := DynamicArgAttribute(s);
    if d.Some? then d else Attribute(s)
  }

  /** Does the case-insensitive `w` (given lower-case) occur in `s` at `k`? */
  predicate OccursAtIgnoringCase(s: string, w: string, k: nat) {
    k + |w| <= |s| && Lower(s[k..k + |w|]) == w
  }

  /** The first case-insensitive occurrence of lower-case `w` in `s` at or after `from`, or -1. */
  function IndexOfIgnoringCase(s: string, w: string, from: nat): (r: int)
    ensures r == -1 || (from <= r && OccursAtIgnoringCase(s, w, r))
    ensures forall k :: from <= k && (r == -1 || k < r) ==> !OccursAtIgnoringCase(s, w, k)
    decreases |s| - from
  {
    if from + |w| > |s| then -1
    else if OccursAtIgnoringCase(s, w, from) then from
    else IndexOfIgnoringCase(s, w, from + 1)
  }

  /** Where a raw-text element's content ends (`text`) and where its close tag ends (`end`). */
  datatype RawClose = RawClose(text: nat, end: nat)

  /**
   * The lazy search for `</tag[^>]*>`, ignoring case, anywhere in `s`: the
   * first occurrence of `</tag`, provided some `>` follows it.
   */
  function RawTextClose(s: string, tag: string): (r: Option<RawClose>)
    ensures r.Some? ==> r.value.text + 2 + |tag| < r.value.end <= |s| && s[r.value.end - 1] == '>'
    ensures r.Some? ==> OccursAtIgnoringCase(s, "</" + tag, r.value.text)
    ensures r.Some? ==> forall k :: 0 <= k < r.value.text ==> !OccursAtIgnoringCase(s, "</" + tag, k)
  {
    var p := IndexOfIgnoringCase(s, "</" + tag, 0);
    if p < 0 then None
    else
      var e := IndexOf(s, ">", p + 2 + |tag|);
      if e < 0 then None else Some(RawClose(p, e + 1))
  }

  /** `script`, `style` and `textarea`, in any letter case: their content is raw text. */
  predicate IsPlainTextElement(tag: string) {
    var t := Lower(tag);
    t == "script" || t == "style" || t == "textarea"
  }

  /** `pre` and `textarea`, in any letter case: a newline right after their start tag is dropped. */
  predicate IsIgnoreNewlineTag(tag: string) {
    var t := Lower(tag);
    t == "pre" || t == "textarea"
  }

  /** `shouldIgnoreFirstNewline(tag, html)`: the text opens with a newline right inside `pre` or `textarea`. */
  function ShouldIgnoreFirstNewline(tag: string, s: string): (r: bool)
    ensures r ==> s != [] && s[0] == '\n'
    ensures r <==> (Lower(tag) == "pre" || Lower(tag) == "textarea") && s != [] && s[0] == '\n'
  {
    tag != "" && IsIgnoreNewlineTag(tag) && s != [] && s[0] == '\n'
  }

  /** The entity (and the character it stands for) at the head of `s`; the last two only with `newlines`. */
  function EntityAt(s: string, newlines: bool): (r: Option<(char, nat)>)
    ensures r.Some? ==> 4 <= r.value.1 <= |s| && s[0] == '&' && s[r.value.1 - 1] == ';'
  {
    if StartsWith(s, "&lt;") then Some(('<', 4))
    else if StartsWith(s, "&gt;") then Some(('>', 4))
    else if StartsWith(s, "&quot;") then Some(('"', 6))
    else if StartsWith(s, "&amp;") then Some(('&', 5))
    else if StartsWith(s, "&#39;") then Some(('\'', 5))
    else if newlines && StartsWith(s, "&#10;") then Some(('\n', 5))
    else if newlines && StartsWith(s, "&#9;") then Some(('\t', 4))
    else None
  }

  /** `decodeAttr`: replaces each entity, scanning left to right without rescanning replaced text. */
  function DecodeAttr(value: string, newlines: bool): (r: string)
    ensures |r| <= |value|
    ensures '&' !in value ==> r == value
  {
    assert '&' !in value && value != [] ==> value[0] != '&' && '&' !in value[1..];
    if value == [] then []
    else match EntityAt(value, newlines)
      case Some((c, n)) => [c] + DecodeAttr(value[n..], newlines)
      case None => [value[0]] + DecodeAttr(value[1..], newlines)
  }

  /** The escaping `decodeAttr` undoes: the five markup characters, and newline and tab when `newlines` is set. */
  function EncodeChar(c: char, newlines: bool): string {
    if c == '&' then "&amp;"
    else if c == '<' then "&lt;"
    else if c == '>' then "&gt;"
    else if c == '"' then "&quot;"
    else if c == '\'' then "&#39;"
    else if newlines && c == '\n' then "&#10;"
    else if newlines && c == '\t' then "&#9;"
    else [c]
  }

  function EncodeAttr(s: string, newlines: bool): string {
    if s == [] then [] else EncodeChar(s[0], newlines) + EncodeAttr(s[1..], newlines)
  }

  /** The head of `e + rest` is the head of `e`. */
  lemma HeadOfConcat(e: string, rest: string, n: nat)
    requires n <= |e|
    ensures (e + rest)[..n] == e[..n]
  {
  }

  /** Decoding sees an encoded character as exactly one unit. */
  lemma DecodeEncodedChar(c: char, rest: string, newlines: bool)
    ensures DecodeAttr(EncodeChar(c, newlines) + rest, newlines) == [c] + DecodeAttr(rest, newlines)
  {
    var e := EncodeChar(c, newlines);
    var s := e + rest;
    assert s[|e|..] == rest;
    if |e| == 1 {
      assert s[0] == c && c != '&';
      assert EntityAt(s, newlines).None?;
    } else {
      EntityOfEncoded(c, rest, newlines);
    }
  }

  /** An escaped character is read back as one entity of its own length. */
  lemma EntityOfEncoded(c: char, rest: string, newlines: bool)
    requires |EncodeChar(c, newlines)| > 1
    ensures EntityAt(EncodeChar(c, newlines) + rest, newlines) == Some((c, |EncodeChar(c, newlines)|))
  {
    var e := EncodeChar(c, newlines);
    var s := e + rest;
    HeadOfConcat(e, rest, |e|);
    assert StartsWith(s, e);
    assert s[1] == e[1] && s[2] == e[2];
    if e[1] != 'l' { Differs(s, "&lt;", 1); }
    if e[1] != 'g' { Differs(s, "&gt;", 1); }
    if e[1] != 'q' { Differs(s, "&quot;", 1); }
    if e[1] != 'a' { Differs(s, "&amp;", 1); }
    if e[2] != '3' { Differs(s, "&#39;", 2); }
    if e[2] != '1' { Differs(s, "&#10;", 2); }
  }

  /** A string that differs from `w` at `i` does not start with `w`. */
  lemma Differs(s: string, w: string, i: nat)
    requires i < |w| && i < |s| && s[i] != w[i]
    ensures !StartsWith(s, w)
  {
  }

  /** Decoding undoes encoding: the value survives the round trip unchanged. */
  lemma {:induction false} DecodeEncode(s: string, newlines: bool)
    ensures DecodeAttr(EncodeAttr(s, newlines), newlines) == s
  {
    if s != [] {
      DecodeEncodedChar(s[0], EncodeAttr(s[1..], newlines), newlines);
      DecodeEncode(s[1..], newlines);
    }
  }
}
