/**
 * The text interpolation parser: splits a text run into literal pieces and
 * `{{ … }}` interpolations (or custom delimiters) and builds the render
 * expression that concatenates them.
 */
module TextParser {
  import opened Wrappers
  import opened Strings
  import opened FilterParser

  /* ---------- delimiter patterns ---------- */

  /** The characters `buildRegex` escapes: `- . * + ? ^ $ { } ( ) | [ ] / \`. */
  predicate IsRegexSpecial(c: char) {
    c in "-.*+?^${}()|[]/\\"
  }

  /** A delimiter with no character `buildRegex` would escape. */
  predicate Plain(s: string) {
    forall i :: 0 <= i < |s| ==> !IsRegexSpecial(s[i])
  }

  /**
   * `s.replace(regexEscapeRE, "\\$&")`: a backslash before every special
   * character. At most one character is added per character, and a plain
   * delimiter is left as it is.
   */
  function EscapeRegex(s: string): (r: string)
    ensures |s| <= |r| <= 2 * |s|
    ensures Plain(s) ==> r == s
    decreases |s|
  {
    assert Plain(s) && s != [] ==> Plain(s[1..]) && !IsRegexSpecial(s[0]);
    if s == [] then []
    else (if IsRegexSpecial(s[0]) then ['\\', s[0]] else [s[0]]) + EscapeRegex(s[1..])
  }

  /**
   * The string matched by a pattern made only of literal atoms: an escaped
   * special character stands for itself, as does any character that is not
   * special. `None` when the pattern holds anything else (a class such as
   * `\d`, a quantifier, a group).
   */
  function PatternLiteral(p: string): Option<string>
    decreases |p|
  {
    if p == [] then Some([])
    else if p[0] == '\\' then
      if |p| >= 2 && IsRegexSpecial(p[1]) then
        match PatternLiteral(p[2..])
        case None => None
        case Some(t) => Some([p[1]] + t)
      else None
    else if IsRegexSpecial(p[0]) then None
    else
      match PatternLiteral(p[1..])
      case None => None
      case Some(t) => Some([p[0]] + t)
  }

  /** An escaped delimiter is a pattern that matches exactly the delimiter. */
  lemma {:induction false} EscapeIsLiteral(s: string)
    ensures PatternLiteral(EscapeRegex(s)) == Some(s)
    decreases |s|
  {
    if s != [] {
      EscapeIsLiteral(s[1..]);
      var head := if IsRegexSpecial(s[0]) then ['\\', s[0]] else [s[0]];
      var e := head + EscapeRegex(s[1..]);
      if IsRegexSpecial(s[0]) {
        assert e[0] == '\\' && e[1] == s[0] && e[2..] == EscapeRegex(s[1..]);
      } else {
        assert e[0] == s[0] && e[1..] == EscapeRegex(s[1..]);
      }
      assert [s[0]] + s[1..] == s;
    }
  }

  /** Different delimiters give different patterns. */
  lemma EscapeInjective(s: string, t: string)
    requires EscapeRegex(s) == EscapeRegex(t)
    ensures s == t
  {
    EscapeIsLiteral(s);
    EscapeIsLiteral(t);
  }

  /** The group between the delimiters in a custom pattern: `((?:.|\n)+?)`. */
  const InnerGroup: string := "((?:.|\\n)+?)"

  /** `buildRegex(delimiters)`: the source of the custom interpolation pattern. */
  function BuildRegex(open: string, close: string): (r: string)
    ensures |r| == |EscapeRegex(open)| + |InnerGroup| + |EscapeRegex(close)|
    ensures |open| + |close| + |InnerGroup| <= |r| <= 2 * (|open| + |close|) + |InnerGroup|
    ensures Plain(open) && Plain(close) ==> r == open + InnerGroup + close
  {
    EscapeRegex(open) + InnerGroup + EscapeRegex(close)
  }

  /** The custom pattern opens and closes with patterns matching exactly the two delimiters. */
  lemma BuildRegexMatchesDelimitersLiterally(open: string, close: string)
    ensures var r := BuildRegex(open, close);
      && PatternLiteral(r[..|EscapeRegex(open)|]) == Some(open)
      && PatternLiteral(r[|r| - |EscapeRegex(close)|..]) == Some(close)
  {
    var r := BuildRegex(open, close);
    assert r[..|EscapeRegex(open)|] == EscapeRegex(open);
    assert r[|r| - |EscapeRegex(close)|..] == EscapeRegex(close);
    EscapeIsLiteral(open);
    EscapeIsLiteral(close);
  }

  /**
   * What an interpolation pattern matches: the two delimiters, and whether
   * the inner group also takes `\r\n` (the default pattern does, a custom
   * one only takes `\n`).
   */
  datatype TagPattern = TagPattern(open: string, close: string, crlf: bool)

  /** `defaultTagRE`: `{{((?:.|\r?\n)+?)}}`. */
  const DefaultPattern := TagPattern("{{", "}}", true)

  /** `delimiters ? buildRegex(delimiters) : defaultTagRE`. */
  function PatternOf(delimiters: Option<(string, string)>): TagPattern {
    match delimiters
    case None => DefaultPattern
    case Some((open, close)) => TagPattern(open, close, false)
  }

  /* ---------- the matcher ---------- */

  /** The characters `.` does not match. */
  predicate IsLineTerminator(c: char) {
    c == '\n' || c == '\r' || c == '\U{2028}' || c == '\U{2029}'
  }

  /** The length of the inner group's unit (`.`, `\n`, or with `crlf` also `\r\n`) at `k`; 0 when none matches. */
  function UnitAt(text: string, k: nat, crlf: bool): (u: nat)
    ensures u <= 2 && (u > 0 ==> k + u <= |text|)
    ensures u == 2 ==> crlf && text[k] == '\r' && text[k + 1] == '\n'
  {
    if k >= |text| then 0
    else if text[k] == '\n' then 1
    else if crlf && text[k] == '\r' && k + 1 < |text| && text[k + 1] == '\n' then 2
    else if IsLineTerminator(text[k]) then 0
    else 1
  }

  /** The lazy end of the inner group: the first unit boundary from `q` on where `close` occurs. */
  function LazyClose(text: string, q: nat, close: string, crlf: bool): (r: Option<nat>)
    ensures r.Some? ==> q <= r.value && OccursAt(text, close, r.value)
    decreases |text| - q
  {
    if OccursAt(text, close, q) then Some(q)
    else
      var u := UnitAt(text, q, crlf);
      if u == 0 then None else LazyClose(text, q + u, close, crlf)
  }

  /** The group stops at the first unit boundary where `close` occurs: an earlier occurrence is inside a `\r\n`. */
  lemma {:induction false} LazyCloseFirst(text: string, q: nat, close: string, crlf: bool, k: nat)
    requires LazyClose(text, q, close, crlf).Some?
    requires q <= k < LazyClose(text, q, close, crlf).value && OccursAt(text, close, k)
    ensures crlf && 0 < k && text[k - 1] == '\r' && text[k] == '\n'
    decreases |text| - q
  {
    var u := UnitAt(text, q, crlf);
    if k >= q + u {
      LazyCloseFirst(text, q + u, close, crlf, k);
    }
  }

  /** A match: the open delimiter at `start`, the inner text, and the close delimiter ending at `end`. */
  datatype Interpolation = Interpolation(start: nat, innerStart: nat, innerEnd: nat, end: nat)

  /** The match of the pattern that begins at `p`, if any. */
  function MatchAt(text: string, p: nat, pat: TagPattern): (r: Option<Interpolation>)
    ensures r.Some? ==>
      && r.value.start == p && r.value.innerStart == p + |pat.open|
      && r.value.innerStart < r.value.innerEnd
      && r.value.end == r.value.innerEnd + |pat.close| <= |text|
      && OccursAt(text, pat.open, p) && OccursAt(text, pat.close, r.value.innerEnd)
  {
    if !OccursAt(text, pat.open, p) then None
    else
      var b := p + |pat.open|;
      var u := UnitAt(text, b, pat.crlf);
      if u == 0 then None
      else match LazyClose(text, b + u, pat.close, pat.crlf)
        case None => None
        case Some(q) => Some(Interpolation(p, b, q, q + |pat.close|))
  }

  /** `tagRE.exec(text)` from `lastIndex = from`: the leftmost match starting at or after `from`. */
  function NextMatch(text: string, from: nat, pat: TagPattern): (r: Option<Interpolation>)
    ensures r.Some? ==> from <= r.value.start && MatchAt(text, r.value.start, pat) == r
    decreases |text| - from
  {
    if from >= |text| then None
    else match MatchAt(text, from, pat)
      case Some(m) => Some(m)
      case None => NextMatch(text, from + 1, pat)
  }

  /** The match found is the leftmost one: no match begins between `from` and it (or anywhere, when none is found). */
  lemma {:induction false} NextMatchLeftmost(text: string, from: nat, pat: TagPattern)
    ensures var r := NextMatch(text, from, pat);
      forall p :: from <= p < (if r.Some? then r.value.start else |text|) ==> MatchAt(text, p, pat).None?
    decreases |text| - from
  {
    if from < |text| && MatchAt(text, from, pat).None? {
      NextMatchLeftmost(text, from + 1, pat);
    }
  }

  /**
   * The inner text ends at the first close delimiter after it: an earlier
   * occurrence can only sit between the `\r` and `\n` of a line break.
   */
  lemma InnerEndsAtFirstClose(text: string, p: nat, pat: TagPattern)
    requires MatchAt(text, p, pat).Some?
    ensures var m := MatchAt(text, p, pat).value;
      forall k :: m.innerStart < k < m.innerEnd && OccursAt(text, pat.close, k) ==>
        pat.crlf && text[k - 1] == '\r' && text[k] == '\n'
  {
    var m := MatchAt(text, p, pat).value;
    var b := p + |pat.open|;
    var u := UnitAt(text, b, pat.crlf);
    MatchAtInner(text, p, pat);
    forall k | m.innerStart < k < m.innerEnd && OccursAt(text, pat.close, k)
      ensures pat.crlf && text[k - 1] == '\r' && text[k] == '\n'
    {
      if k < b + u {
        InsideFirstUnit(text, b, pat.crlf, k);
      } else {
        LazyCloseFirst(text, b + u, pat.close, pat.crlf, k);
      }
    }
  }

  /** The match's inner group: one unit at the start, then the lazy search for `close`. */
  lemma MatchAtInner(text: string, p: nat, pat: TagPattern)
    requires MatchAt(text, p, pat).Some?
    ensures var b := p + |pat.open|;
      var u := UnitAt(text, b, pat.crlf);
      && b == MatchAt(text, p, pat).value.innerStart
      && u > 0
      && LazyClose(text, b + u, pat.close, pat.crlf) == Some(MatchAt(text, p, pat).value.innerEnd)
  {
  }

  /** Only a two-character unit, `\r\n`, has a position strictly inside it. */
  lemma InsideFirstUnit(text: string, b: nat, crlf: bool, k: nat)
    requires b < k < b + UnitAt(text, b, crlf)
    ensures crlf && text[k - 1] == '\r' && text[k] == '\n'
  {
  }

  /** An occurrence of a non-empty `w` starts with `w`'s first character. */
  lemma OccursHead(text: string, w: string, k: nat)
    ensures w != [] && OccursAt(text, w, k) ==> text[k] == w[0]
  {
    if w != [] && OccursAt(text, w, k) {
      assert text[k..k + |w|][0] == text[k];
    }
  }

  /** With the default `}}`, or any custom pair, the inner text holds no close delimiter at all. */
  lemma NoCloseInside(text: string, p: nat, pat: TagPattern)
    requires MatchAt(text, p, pat).Some?
    requires !pat.crlf || (pat.close != "" && pat.close[0] != '\n')
    ensures var m := MatchAt(text, p, pat).value;
      forall k :: m.innerStart < k < m.innerEnd ==> !OccursAt(text, pat.close, k)
  {
    var m := MatchAt(text, p, pat).value;
    InnerEndsAtFirstClose(text, p, pat);
    forall k | m.innerStart < k < m.innerEnd
      ensures !OccursAt(text, pat.close, k)
    {
      OccursHead(text, pat.close, k);
    }
  }

  /* ---------- tiling the text ---------- */

  /** A piece of the text: a literal run, or an interpolation with its inner text. */
  datatype Piece = Literal(raw: string) | Interpolated(span: string, inner: string)

  /** The literal between `from` and `to`, when not empty. */
  function Gap(text: string, from: nat, to: nat): (ps: seq<Piece>)
    requires from <= to <= |text|
  {
    if from < to then [Literal(text[from..to])] else []
  }

  /** The piece for a match. */
  function PieceOf(text: string, m: Interpolation): Piece
    requires m.start <= m.innerStart <= m.innerEnd <= m.end <= |text|
  {
    Interpolated(text[m.start..m.end], text[m.innerStart..m.innerEnd])
  }

  /** The text from `from` on, tiled into literals and the successive leftmost matches. */
  function Pieces(text: string, from: nat, pat: TagPattern): seq<Piece>
    requires from <= |text|
    decreases |text| - from
  {
    match NextMatch(text, from, pat)
    case None => Gap(text, from, |text|)
    case Some(m) => Gap(text, from, m.start) + [PieceOf(text, m)] + Pieces(text, m.end, pat)
  }

  /** The source text a piece came from. */
  function SourceOf(p: Piece): string {
    match p
    case Literal(raw) => raw
    case Interpolated(span, _) => span
  }

  function Concat(ps: seq<Piece>): string
    decreases |ps|
  {
    if ps == [] then "" else SourceOf(ps[0]) + Concat(ps[1..])
  }

  lemma {:induction false} ConcatAppend(a: seq<Piece>, b: seq<Piece>)
    ensures Concat(a + b) == Concat(a) + Concat(b)
    decreases |a|
  {
    if a == [] {
      assert a + b == b;
    } else {
      assert (a + b)[1..] == a[1..] + b;
      ConcatAppend(a[1..], b);
    }
  }

  /** The pieces put back together are the text: nothing is lost, nothing added. */
  lemma ConcatSingle(p: Piece)
    ensures Concat([p]) == SourceOf(p)
  {
    assert [p][1..] == [];
  }

  lemma GapSource(text: string, from: nat, to: nat)
    requires from <= to <= |text|
    ensures Concat(Gap(text, from, to)) == text[from..to]
  {
    if from < to {
      ConcatSingle(Literal(text[from..to]));
    }
  }

  lemma SliceJoin(s: string, a: nat, b: nat, c: nat)
    requires a <= b <= c <= |s|
    ensures s[a..b] + s[b..c] + s[c..] == s[a..]
  {
  }

  lemma {:induction false} PiecesReassemble(text: string, from: nat, pat: TagPattern)
    requires from <= |text|
    ensures Concat(Pieces(text, from, pat)) == text[from..]
    decreases |text| - from
  {
    match NextMatch(text, from, pat)
    case None =>
      GapSource(text, from, |text|);
      assert text[from..|text|] == text[from..];
    case Some(m) =>
      var lit := Gap(text, from, m.start);
      var mid := [PieceOf(text, m)];
      PiecesReassemble(text, m.end, pat);
      ConcatAppend(lit + mid, Pieces(text, m.end, pat));
      ConcatAppend(lit, mid);
      GapSource(text, from, m.start);
      ConcatSingle(PieceOf(text, m));
      assert from <= m.start <= m.end <= |text|;
      SliceJoin(text, from, m.start, m.end);
  }

  /** Every interpolation is the open delimiter, a non-empty inner text and the close delimiter. */
  predicate WellFormed(ps: seq<Piece>, pat: TagPattern) {
    forall i :: 0 <= i < |ps| && ps[i].Interpolated? ==>
      ps[i].inner != "" && ps[i].span == pat.open + ps[i].inner + pat.close
  }

  /** No literal is empty, and no two literals are adjacent. */
  predicate LiteralsMaximal(ps: seq<Piece>) {
    && (forall i :: 0 <= i < |ps| && ps[i].Literal? ==> ps[i].raw != "")
    && (forall i :: 0 <= i < |ps| - 1 && ps[i].Literal? ==> ps[i + 1].Interpolated?)
  }

  /** A match's piece is the open delimiter, the non-empty inner text and the close delimiter. */
  lemma PieceOfShape(text: string, m: Interpolation, pat: TagPattern)
    requires MatchAt(text, m.start, pat) == Some(m)
    ensures PieceOf(text, m).inner != "" && PieceOf(text, m).span == pat.open + PieceOf(text, m).inner + pat.close
  {
    var span := text[m.start..m.end];
    assert span == text[m.start..m.innerStart] + text[m.innerStart..m.innerEnd] + text[m.innerEnd..m.end];
  }

  /** Putting an optional non-empty literal and a well-formed interpolation in front keeps both shapes. */
  lemma ShapePrepend(lit: seq<Piece>, x: Piece, rest: seq<Piece>, pat: TagPattern)
    requires |lit| <= 1 && (forall i :: 0 <= i < |lit| ==> lit[i].Literal? && lit[i].raw != "")
    requires x.Interpolated? && x.inner != "" && x.span == pat.open + x.inner + pat.close
    requires WellFormed(rest, pat) && LiteralsMaximal(rest)
    ensures WellFormed(lit + [x] + rest, pat) && LiteralsMaximal(lit + [x] + rest)
  {
    var ps := lit + [x] + rest;
    forall i | 0 <= i < |ps|
      ensures ps[i] == (if i < |lit| then lit[i] else if i == |lit| then x else rest[i - |lit| - 1])
    {
    }
  }

  lemma {:induction false} PiecesShape(text: string, from: nat, pat: TagPattern)
    requires from <= |text|
    ensures WellFormed(Pieces(text, from, pat), pat)
    ensures LiteralsMaximal(Pieces(text, from, pat))
    decreases |text| - from
  {
    match NextMatch(text, from, pat)
    case None =>
    case Some(m) =>
      PiecesShape(text, m.end, pat);
      PieceOfShape(text, m, pat);
      ShapePrepend(Gap(text, from, m.start), PieceOf(text, m), Pieces(text, m.end, pat), pat);
  }

  /* ---------- tokens ---------- */

  /** A `rawTokens` entry: a literal string, or `{ "@binding": exp }`. */
  datatype Token = Text(value: string) | Binding(exp: string)

  datatype TextParseResult = TextParseResult(expression: string, tokens: seq<Token>)

  /** The hexadecimal digit for `d`, lower case as `JSON.stringify` writes it. */
  function HexDigit(d: nat): char
    requires d < 16
  {
    if d < 10 then '0' + d as char else 'a' + (d - 10) as char
  }

  /** How `JSON.stringify` writes one character inside a string. */
  function JsonChar(c: char): string {
    if c == '"' then "\\\""
    else if c == '\\' then "\\\\"
    else if c == '\n' then "\\n"
    else if c == '\r' then "\\r"
    else if c == '\t' then "\\t"
    else if c == '\U{8}' then "\\b"
    else if c == '\U{C}' then "\\f"
    else if c < ' ' then "\\u00" + [HexDigit(c as nat / 16), HexDigit(c as nat % 16)]
    else [c]
  }

  function JsonChars(s: string): string
    decreases |s|
  {
    if s == [] then "" else JsonChar(s[0]) + JsonChars(s[1..])
  }

  /** `JSON.stringify` of a string: a double-quoted string literal. */
  function Stringify(s: string): string {
    "\"" + JsonChars(s) + "\""
  }

  /** The `rawTokens` entry for a piece; a binding's expression is the filter expression of the trimmed inner text. */
  function RawToken(p: Piece): Token {
    match p
    case Literal(raw) => Text(raw)
    case Interpolated(_, inner) => Binding(FilterExpression(Trim(inner)))
  }

  /** The `tokens` entry that goes with a `rawTokens` entry. */
  function Render(t: Token): string {
    match t
    case Text(value) => Stringify(value)
    case Binding(exp) => "_s(" + exp + ")"
  }

  /** The `rawTokens` entries of a list of pieces, one per piece. */
  function RawTokens(ps: seq<Piece>): (ts: seq<Token>)
    ensures |ts| == |ps|
  {
    if ps == [] then [] else [RawToken(ps[0])] + RawTokens(ps[1..])
  }

  /** Entry `i` is the token of piece `i`. */
  lemma {:induction false} RawTokensAt(ps: seq<Piece>)
    ensures forall i :: 0 <= i < |ps| ==> RawTokens(ps)[i] == RawToken(ps[i])
  {
    if ps != [] {
      RawTokensAt(ps[1..]);
    }
  }

  function Rendered(ts: seq<Token>): (rs: seq<string>)
    ensures |rs| == |ts| && forall i :: 0 <= i < |ts| ==> rs[i] == Render(ts[i])
  {
    seq(|ts|, i requires 0 <= i < |ts| => Render(ts[i]))
  }

  /** What `parseText` returns: nothing without a match, else the joined expression and the raw tokens. */
  function ParsedText(text: string, pat: TagPattern): Option<TextParseResult> {
    if NextMatch(text, 0, pat).None? then None
    else
      var raw := RawTokens(Pieces(text, 0, pat));
      Some(TextParseResult(Join(Rendered(raw), "+"), raw))
  }

  /** There is a result exactly when the pattern matches somewhere in the text. */
  lemma ResultIffMatch(text: string, pat: TagPattern)
    ensures ParsedText(text, pat).None? <==> forall p :: 0 <= p < |text| ==> MatchAt(text, p, pat).None?
  {
    var m := NextMatch(text, 0, pat);
    NextMatchLeftmost(text, 0, pat);
    if m.Some? {
      assert MatchAt(text, m.value.start, pat).Some?;
    }
  }

  /**
   * The tokens line up with the pieces: a literal is kept raw and quoted
   * in the expression, an interpolation becomes `_s(…)` of the filter
   * expression of its trimmed inner text, and the literals and the
   * matched spans put back together give the text.
   */
  lemma TokensFollowPieces(text: string, pat: TagPattern)
    requires ParsedText(text, pat).Some?
    ensures var r := ParsedText(text, pat).value;
      var ps := Pieces(text, 0, pat);
      && |r.tokens| == |ps|
      && Concat(ps) == text
      && WellFormed(ps, pat) && LiteralsMaximal(ps)
      && (forall i :: 0 <= i < |ps| && ps[i].Literal? ==> r.tokens[i] == Text(ps[i].raw))
      && (forall i :: 0 <= i < |ps| && ps[i].Interpolated? ==>
            r.tokens[i] == Binding(FilterExpression(Trim(ps[i].inner))))
      && r.expression == Join(Rendered(r.tokens), "+")
  {
    PiecesReassemble(text, 0, pat);
    PiecesShape(text, 0, pat);
    RawTokensAt(Pieces(text, 0, pat));
  }

  lemma {:induction false} RawTokensAppend(a: seq<Piece>, b: seq<Piece>)
    ensures RawTokens(a + b) == RawTokens(a) + RawTokens(b)
  {
    if a != [] {
      assert (a + b)[0] == a[0] && (a + b)[1..] == a[1..] + b;
      RawTokensAppend(a[1..], b);
      calc {
        RawTokens(a + b);
        [RawToken(a[0])] + RawTokens(a[1..] + b);
        [RawToken(a[0])] + (RawTokens(a[1..]) + RawTokens(b));
        ([RawToken(a[0])] + RawTokens(a[1..])) + RawTokens(b);
      }
    } else {
      assert a + b == b;
    }
  }

  lemma RenderedAppend(a: seq<Token>, b: seq<Token>)
    ensures Rendered(a + b) == Rendered(a) + Rendered(b)
  {
  }

  /** One round of the `exec` loop: the literal before the match, when not empty, then the binding. */
  method PushMatch(text: string, lastIndex: nat, m: Interpolation, pat: TagPattern, tokens: seq<string>, rawTokens: seq<Token>)
    returns (tokens': seq<string>, rawTokens': seq<Token>)
    requires lastIndex <= m.start && MatchAt(text, m.start, pat) == Some(m)
    requires tokens == Rendered(rawTokens)
    ensures rawTokens' == rawTokens + RawTokens(Gap(text, lastIndex, m.start) + [PieceOf(text, m)])
    ensures tokens' == Rendered(rawTokens')
  {
    tokens', rawTokens' := PushLiteral(text, lastIndex, m.start, tokens, rawTokens);
    tokens', rawTokens' := PushBinding(text, m, pat, tokens', rawTokens');
    RawTokensAppend(Gap(text, lastIndex, m.start), [PieceOf(text, m)]);
    assert RawTokens([PieceOf(text, m)]) == [RawToken(PieceOf(text, m))];
  }

  /** The literal `text.slice(lastIndex, index)`, when not empty. */
  method PushLiteral(text: string, lastIndex: nat, index: nat, tokens: seq<string>, rawTokens: seq<Token>)
    returns (tokens': seq<string>, rawTokens': seq<Token>)
    requires lastIndex <= index <= |text|
    requires tokens == Rendered(rawTokens)
    ensures rawTokens' == rawTokens + RawTokens(Gap(text, lastIndex, index))
    ensures tokens' == Rendered(rawTokens')
  {
    tokens', rawTokens' := tokens, rawTokens;
    if lastIndex < index {
      var tokenValue := text[lastIndex..index];
      rawTokens' := rawTokens' + [Text(tokenValue)];
      tokens' := tokens' + [Stringify(tokenValue)];
    }
  }

  /** The binding of a match: the filter expression of its trimmed inner text, rendered as `_s(exp)`. */
  method PushBinding(text: string, m: Interpolation, pat: TagPattern, tokens: seq<string>, rawTokens: seq<Token>)
    returns (tokens': seq<string>, rawTokens': seq<Token>)
    requires MatchAt(text, m.start, pat) == Some(m)
    requires tokens == Rendered(rawTokens)
    ensures rawTokens' == rawTokens + [RawToken(PieceOf(text, m))]
    ensures tokens' == Rendered(rawTokens')
  {
    var exp := ParseFilters(Trim(text[m.innerStart..m.innerEnd]));
    tokens' := tokens + ["_s(" + exp + ")"];
    rawTokens' := rawTokens + [Binding(exp)];
  }

  /** The next match takes the gap before it and itself off the pieces still to come. */
  lemma ConsumeMatch(text: string, pat: TagPattern, lastIndex: nat, done: seq<Piece>, m: Interpolation)
    requires lastIndex <= |text| && NextMatch(text, lastIndex, pat) == Some(m)
    requires Pieces(text, 0, pat) == done + Pieces(text, lastIndex, pat)
    ensures lastIndex <= m.start && MatchAt(text, m.start, pat) == Some(m)
    ensures lastIndex < m.end <= |text|
    ensures Pieces(text, 0, pat) == (done + (Gap(text, lastIndex, m.start) + [PieceOf(text, m)])) + Pieces(text, m.end, pat)
  {
    var step := Gap(text, lastIndex, m.start) + [PieceOf(text, m)];
    assert Pieces(text, lastIndex, pat) == step + Pieces(text, m.end, pat);
    assert done + step + Pieces(text, m.end, pat) == done + (step + Pieces(text, m.end, pat));
  }

  /**
   * What the `exec` loop of `parseText` knows: `done` are the pieces of
   * the text before `lastIndex`, and the tokens so far are theirs.
   */
  predicate Pushed(text: string, pat: TagPattern, lastIndex: nat, done: seq<Piece>,
                   tokens: seq<string>, rawTokens: seq<Token>)
  {
    && lastIndex <= |text|
    && Pieces(text, 0, pat) == done + Pieces(text, lastIndex, pat)
    && rawTokens == RawTokens(done) && tokens == Rendered(rawTokens)
  }

  /** One round of the `exec` loop, with the pieces it consumes. */
  method PushStep(text: string, pat: TagPattern, lastIndex: nat, ghost done: seq<Piece>,
                  tokens: seq<string>, rawTokens: seq<Token>, m: Interpolation)
    returns (lastIndex': nat, ghost done': seq<Piece>, tokens': seq<string>, rawTokens': seq<Token>)
    requires Pushed(text, pat, lastIndex, done, tokens, rawTokens)
    requires NextMatch(text, lastIndex, pat) == Some(m)
    ensures Pushed(text, pat, lastIndex', done', tokens', rawTokens')
    ensures lastIndex < lastIndex' == m.end
  {
    ConsumeMatch(text, pat, lastIndex, done, m);
    ghost var step := Gap(text, lastIndex, m.start) + [PieceOf(text, m)];
    RawTokensAppend(done, step);
    tokens', rawTokens' := PushMatch(text, lastIndex, m, pat, tokens, rawTokens);
    done' := done + step;
    lastIndex' := m.end;
  }

  /**
   * The `exec` loop of `parseText`: walks the matches left to right,
   * pushing the literal before each match (when not empty) and the
   * binding. `done` are the pieces consumed so far.
   */
  method PushMatches(text: string, pat: TagPattern)
    returns (tokens: seq<string>, rawTokens: seq<Token>, lastIndex: nat, ghost done: seq<Piece>)
    ensures Pushed(text, pat, lastIndex, done, tokens, rawTokens)
    ensures NextMatch(text, lastIndex, pat).None?
  {
    tokens, rawTokens, lastIndex, done := [], [], 0, [];
    var m := NextMatch(text, lastIndex, pat);
    while m.Some?
      invariant Pushed(text, pat, lastIndex, done, tokens, rawTokens)
      invariant m == NextMatch(text, lastIndex, pat)
      decreases |text| - lastIndex
    {
      lastIndex, done, tokens, rawTokens := PushStep(text, pat, lastIndex, done, tokens, rawTokens, m.value);
      m := NextMatch(text, lastIndex, pat);
    }
  }

  /**
   * `parseText(text, delimiters)`: nothing when the pattern does not match
   * at all; otherwise the tokens of every match, then the literal after
   * the last match.
   */
  method ParseText(text: string, delimiters: Option<(string, string)>) returns (r: Option<TextParseResult>)
    ensures r == ParsedText(text, PatternOf(delimiters))
    ensures r.Some? ==> r.value.expression == Join(Rendered(r.value.tokens), "+")
  {
    var pat := PatternOf(delimiters);
    if NextMatch(text, 0, pat).None? {
      return None;
    }
    var tokens, rawTokens, lastIndex, done := PushMatches(text, pat);
    tokens, rawTokens := PushLiteral(text, lastIndex, |text|, tokens, rawTokens);
    RawTokensAppend(done, Pieces(text, lastIndex, pat));
    return Some(TextParseResult(Join(tokens, "+"), rawTokens));
  }
}
