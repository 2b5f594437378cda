/**
 * The filter-expression scanner: splits `base | f | g(x)` at the pipes
 * that are filter separators and rewrites the chain as nested calls
 * `_f("g")(_f("f")(base),x)`.
 *
 * A pipe separates filters only outside string, template-string and
 * regular-expression literals, outside every bracket pair, and when it is
 * not half of a `||`. The scanner's literal flags are kept as one
 * enumerated `Mode` (at most one of the source's four flags is ever set).
 */
module FilterParser {
  import opened Wrappers
  import opened Strings

  /** Which kind of literal the scanner is inside, if any. */
  datatype Mode = Code | InSingle | InDouble | InTemplateString | InRegex

  /** The literal mode and the `curly`, `square` and `paren` counters (which may go negative). */
  datatype ScanState = ScanState(mode: Mode, curly: int, square: int, paren: int)

  const Initial := ScanState(Code, 0, 0, 0)

  /** `validDivisionCharRE`, `[\w).+\-_$\]]`: a character after which `/` divides. */
  predicate IsDivisionChar(c: char) {
    || ('a' <= c <= 'z') || ('A' <= c <= 'Z') || ('0' <= c <= '9') || c == '_'
    || c == ')' || c == '.' || c == '+' || c == '-' || c == '$' || c == ']'
  }

  /** The position of the nearest character before `i` that is not a plain space, or -1. */
  function LastNonSpace(exp: string, i: nat): (j: int)
    requires i <= |exp|
    ensures -1 <= j < i
    ensures j >= 0 ==> exp[j] != ' '
  {
    if i == 0 then -1
    else if exp[i - 1] != ' ' then i - 1
    else LastNonSpace(exp, i - 1)
  }

  /** Everything between that character and `i` is a space. */
  lemma {:induction false} LastNonSpaceSkipsSpaces(exp: string, i: nat)
    requires i <= |exp|
    ensures forall k :: LastNonSpace(exp, i) < k < i ==> exp[k] == ' '
  {
    if i > 0 && exp[i - 1] == ' ' {
      LastNonSpaceSkipsSpaces(exp, i - 1);
    }
  }

  /** A `/` at `i` outside literals opens a regular expression unless it follows a division character. */
  predicate OpensRegex(exp: string, i: nat)
    requires i <= |exp|
  {
    var j := LastNonSpace(exp, i);
    j < 0 || !IsDivisionChar(exp[j])
  }

  /** A `|` at `i` with no `|` on either side, while no bracket is open. */
  predicate IsPipeSeparator(exp: string, i: nat, st: ScanState)
    requires i < |exp|
  {
    && exp[i] == '|'
    && (i + 1 == |exp| || exp[i + 1] != '|')
    && (i == 0 || exp[i - 1] != '|')
    && st.curly == 0 && st.square == 0 && st.paren == 0
  }

  /** Is the character at `i` preceded by a backslash? */
  predicate Escaped(exp: string, i: nat)
    requires i < |exp|
  {
    i > 0 && exp[i - 1] == '\\'
  }

  /**
   * The scanner's state after the character at `i`. A separator leaves the
   * state as it is; in code, a quote opens a literal, a bracket moves its
   * counter and a `/` may open a regular expression; in a literal, only its
   * unescaped closing delimiter returns to code.
   */
  function After(exp: string, i: nat): ScanState
    requires i < |exp|
    decreases i, 2
  {
    var st := ScanTo(exp, i);
    var c := exp[i];
    match st.mode
    case InSingle => if c == '\'' && !Escaped(exp, i) then st.(mode := Code) else st
    case InDouble => if c == '"' && !Escaped(exp, i) then st.(mode := Code) else st
    case InTemplateString => if c == '`' && !Escaped(exp, i) then st.(mode := Code) else st
    case InRegex => if c == '/' && !Escaped(exp, i) then st.(mode := Code) else st
    case Code =>
      if IsSeparator(exp, i) then st
      else
        var st' :=
          if c == '"' then st.(mode := InDouble)
          else if c == '\'' then st.(mode := InSingle)
          else if c == '`' then st.(mode := InTemplateString)
          else if c == '(' then st.(paren := st.paren + 1)
          else if c == ')' then st.(paren := st.paren - 1)
          else if c == '[' then st.(square := st.square + 1)
          else if c == ']' then st.(square := st.square - 1)
          else if c == '{' then st.(curly := st.curly + 1)
          else if c == '}' then st.(curly := st.curly - 1)
          else st;
        if c == '/' && OpensRegex(exp, i) then st'.(mode := InRegex) else st'
  }

  /** The scanner's state after the first `n` characters. */
  function ScanTo(exp: string, n: nat): ScanState
    requires n <= |exp|
    decreases n, 0
  {
    if n == 0 then Initial else After(exp, n - 1)
  }

  /** The `|` at `i` is a filter separator: a single pipe, in code, with no bracket open. */
  predicate IsSeparator(exp: string, i: nat)
    requires i < |exp|
    decreases i, 1
  {
    ScanTo(exp, i).mode == Code && IsPipeSeparator(exp, i, ScanTo(exp, i))
  }

  predicate Increasing(seps: seq<nat>) {
    forall a, b :: 0 <= a < b < |seps| ==> seps[a] < seps[b]
  }

  /** The separator positions below `n`, in increasing order. */
  function SeparatorsBelow(exp: string, n: nat): (seps: seq<nat>)
    requires n <= |exp|
    ensures forall k :: 0 <= k < |seps| ==> seps[k] < n
  {
    if n == 0 then [] else SeparatorsBelow(exp, n - 1) + (if IsSeparator(exp, n - 1) then [n - 1] else [])
  }

  /** The positions are listed in increasing order, so they cut the input into pieces. */
  lemma {:induction false} SeparatorsBelowCut(exp: string, n: nat)
    requires n <= |exp|
    ensures Cuts(exp, SeparatorsBelow(exp, n))
  {
    if n > 0 {
      SeparatorsBelowCut(exp, n - 1);
    }
  }

  /** Every position listed is a separator. */
  lemma {:induction false} SeparatorsBelowAreSeparators(exp: string, n: nat)
    requires n <= |exp|
    ensures forall k :: 0 <= k < |SeparatorsBelow(exp, n)| ==> IsSeparator(exp, SeparatorsBelow(exp, n)[k])
  {
    if n > 0 {
      SeparatorsBelowAreSeparators(exp, n - 1);
    }
  }

  function Separators(exp: string): seq<nat> {
    SeparatorsBelow(exp, |exp|)
  }

  /** Increasing cut positions inside `s`. */
  predicate Cuts(s: string, seps: seq<nat>) {
    Increasing(seps) && forall k :: 0 <= k < |seps| ==> seps[k] < |s|
  }

  /** Where piece `k` starts: just after the previous cut. */
  function PieceStart(seps: seq<nat>, k: nat): nat
    requires k <= |seps|
  {
    if k == 0 then 0 else seps[k - 1] + 1
  }

  /** Where piece `k` ends: at the next cut, or at the end of `s`. */
  function PieceEnd(s: string, seps: seq<nat>, k: nat): nat
    requires k <= |seps|
  {
    if k == |seps| then |s| else seps[k]
  }

  /** Piece `k`: the text between cut `k - 1` and cut `k`, the cut characters themselves left out. */
  function Piece(s: string, seps: seq<nat>, k: nat): string
    requires Cuts(s, seps) && k <= |seps|
  {
    assert k < |seps| ==> seps[k] < |s|;
    assert 0 < k < |seps| ==> seps[k - 1] < seps[k];
    s[PieceStart(seps, k)..PieceEnd(s, seps, k)]
  }

  /** A filter's name: its text before the first `(`, or all of it. */
  function FilterName(filter: string): (name: string)
    ensures '(' !in name
    ensures |name| <= |filter| && filter[..|name|] == name
    ensures |name| < |filter| ==> filter[|name|] == '('
  {
    if filter == [] || filter[0] == '(' then [] else [filter[0]] + FilterName(filter[1..])
  }

  /** `filter.indexOf('(')` finds the end of the name, or nothing when the name is the whole filter. */
  lemma FirstParen(filter: string)
    ensures var n := FilterName(filter);
      IndexOf(filter, "(", 0) == if |n| < |filter| then |n| else -1
  {
    var n := FilterName(filter);
    forall k | 0 <= k < |n| ensures !OccursAt(filter, "(", k) {
      assert filter[k] == n[k];
    }
    if |n| < |filter| {
      assert OccursAt(filter, "(", |n|);
    }
  }

  /**
   * `wrapFilter`: apply one filter, `name` or `name(args`, to an
   * expression. The result calls `_f` on the filter's name and passes the
   * expression as the first argument; a filter with no `(` takes the
   * expression alone.
   */
  function WrapFilter(exp: string, filter: string): (r: string)
    ensures StartsWith(r, "_f(\"" + FilterName(filter) + "\")(" + exp)
    ensures '(' !in filter ==> r == "_f(\"" + filter + "\")(" + exp + ")"
  {
    FirstParen(filter);
    var i := IndexOf(filter, "(", 0);
    var head := "_f(\"" + FilterName(filter) + "\")(" + exp;
    if i < 0 then
      assert FilterName(filter) == filter;
      PrefixStartsWith(head, ")");
      "_f(\"" + filter + "\")(" + exp + ")"
    else
      var name := filter[..i];
      var args := filter[i + 1..];
      PrefixStartsWith(head, if args != ")" then "," + args else args);
      "_f(\"" + name + "\")(" + exp + (if args != ")" then "," + args else args)
  }

  /** The filters applied in order: the last one is the outermost call. */
  function WrapAll(base: string, filters: seq<string>): string
  {
    if filters == [] then base
    else WrapFilter(WrapAll(base, filters[..|filters| - 1]), filters[|filters| - 1])
  }

  /** What `parseFilters` returns: the trimmed base wrapped by every trimmed filter segment. */
  function FilterExpression(exp: string): (r: string)
    ensures Separators(exp) == [] ==> r == Trim(exp)
    ensures Separators(exp) != [] ==> StartsWith(r, "_f(\"")
  {
    var seps := Separators(exp);
    SeparatorsBelowCut(exp, |exp|);
    assert seps == [] ==> Piece(exp, seps, 0) == exp;
    var r := Wrapped(exp, seps, |seps|);
    if seps != [] then
      var f := Trim(Piece(exp, seps, |seps|));
      PrefixStartsWith("_f(\"", FilterName(f) + "\")(" + Wrapped(exp, seps, |seps| - 1));
      StartsWithTrans(r, "_f(\"" + FilterName(f) + "\")(" + Wrapped(exp, seps, |seps| - 1), "_f(\"");
      r
    else r
  }

  /** The trimmed first piece wrapped by the trimmed pieces `1` to `m`, innermost first. */
  function Wrapped(exp: string, seps: seq<nat>, m: nat): string
    requires Cuts(exp, seps) && m <= |seps|
  {
    if m == 0 then Trim(Piece(exp, seps, 0))
    else WrapFilter(Wrapped(exp, seps, m - 1), Trim(Piece(exp, seps, m)))
  }

  /** The result is the trimmed first piece wrapped by the list of filter segments. */
  lemma FilterExpressionIsWrapAll(exp: string)
    ensures Cuts(exp, Separators(exp))
    ensures var seps := Separators(exp);
      FilterExpression(exp) == WrapAll(Trim(Piece(exp, seps, 0)), FilterSegments(exp, seps))
  {
    var seps := Separators(exp);
    SeparatorsBelowCut(exp, |exp|);
    WrappedIsWrapAll(exp, seps, |seps|);
  }

  /** Wrapping piece by piece is wrapping the base by the list of filter segments. */
  lemma {:induction false} WrappedIsWrapAll(exp: string, seps: seq<nat>, m: nat)
    requires Cuts(exp, seps) && m <= |seps|
    ensures Wrapped(exp, seps, m) == WrapAll(Trim(Piece(exp, seps, 0)), Segments(exp, seps, m))
  {
    if m > 0 {
      WrappedIsWrapAll(exp, seps, m - 1);
      var fs := Segments(exp, seps, m);
      assert fs[..|fs| - 1] == Segments(exp, seps, m - 1);
    }
  }

  /** The trimmed filter segments: every piece after the first. */
  function FilterSegments(exp: string, seps: seq<nat>): (fs: seq<string>)
    requires Cuts(exp, seps)
  {
    Segments(exp, seps, |seps|)
  }

  /** Pieces `1` to `m`, trimmed. */
  function Segments(exp: string, seps: seq<nat>, m: nat): (fs: seq<string>)
    requires Cuts(exp, seps) && m <= |seps|
    ensures |fs| == m
  {
    if m == 0 then [] else Segments(exp, seps, m - 1) + [Trim(Piece(exp, seps, m))]
  }

  // ---------------------------------------------------------------------------
  // The scanner as the source writes it.
  // ---------------------------------------------------------------------------

  /** One more cut at the end keeps the earlier pieces and closes the last open one at the cut. */
  lemma PiecesSnoc(s: string, seps: seq<nat>, n: nat)
    requires Cuts(s, seps) && n < |s| && (seps == [] || seps[|seps| - 1] < n)
    ensures Cuts(s, seps + [n])
    ensures forall k :: 0 <= k < |seps| ==> Piece(s, seps + [n], k) == Piece(s, seps, k)
    ensures PieceStart(seps, |seps|) <= n && Piece(s, seps + [n], |seps|) == s[PieceStart(seps, |seps|)..n]
  {
    var seps' := seps + [n];
    assert forall k :: 0 <= k < |seps| ==> seps'[k] == seps[k];
    assert Increasing(seps') by {
      forall a, b | 0 <= a < b < |seps'| ensures seps'[a] < seps'[b] {
        if b == |seps| && a < |seps| - 1 {
          assert seps[a] < seps[|seps| - 1];
        }
      }
    }
    forall k | 0 <= k < |seps|
      ensures PieceStart(seps', k) == PieceStart(seps, k) && PieceEnd(s, seps', k) == PieceEnd(s, seps, k)
    {
    }
    assert PieceStart(seps', |seps|) == PieceStart(seps, |seps|);
  }

  /** The segments found before a new cut stay, and the piece the cut closes is appended. */
  lemma {:induction false} SegmentsSnoc(exp: string, seps: seq<nat>, n: nat, m: nat)
    requires Cuts(exp, seps) && n < |exp| && (seps == [] || seps[|seps| - 1] < n) && m <= |seps|
    ensures Cuts(exp, seps + [n])
    ensures m < |seps| ==> Segments(exp, seps + [n], m) == Segments(exp, seps, m)
    ensures m == |seps| > 0 ==> (
      && PieceStart(seps, |seps|) <= n
      && Segments(exp, seps + [n], m) == Segments(exp, seps, m - 1) + [Trim(exp[PieceStart(seps, |seps|)..n])])
    decreases m
  {
    PiecesSnoc(exp, seps, n);
    if m > 0 {
      SegmentsSnoc(exp, seps, n, m - 1);
    }
  }


  /**
   * The look-back of `parseFilters` at a `/`: find the nearest preceding
   * character that is not a space; a regular expression starts unless that
   * character can end an operand.
   */
  method RegexStartsAt(exp: string, i: nat) returns (regex: bool)
    requires i < |exp|
    ensures regex == OpensRegex(exp, i)
  {
    var j := i - 1;
    var p: Option<char> := None;
    while j >= 0
      invariant -1 <= j < i
      invariant p == if j == i - 1 then None else Some(exp[j + 1])
      invariant p.Some? ==> p.value == ' '
      invariant LastNonSpace(exp, i) == LastNonSpace(exp, j + 1)
    {
      p := Some(exp[j]);
      if exp[j] != ' ' {
        break;
      }
      j := j - 1;
    }
    regex := p.None? || !IsDivisionChar(p.value);
  }

  /** The closing loop of `parseFilters`: each filter wraps the expression built so far. */
  method WrapFilters(base: string, filters: seq<string>) returns (expression: string)
    ensures expression == WrapAll(base, filters)
  {
    expression := base;
    var k := 0;
    while k < |filters|
      invariant 0 <= k <= |filters|
      invariant expression == WrapAll(base, filters[..k])
    {
      expression := WrapFilter(expression, filters[k]);
      assert filters[..k + 1][..k] == filters[..k];
      k := k + 1;
    }
    assert filters[..k] == filters;
  }

  /**
   * One turn of the `parseFilters` loop's state machine at a character that
   * is not a filter separator: it either closes the literal it ends or
   * updates the literal flags and bracket counters. `prev` is the preceding
   * character, if any.
   */
  method ScanChar(exp: string, i: nat, prev: Option<char>, st: ScanState) returns (st': ScanState)
    requires i < |exp| && !IsSeparator(exp, i)
    requires prev == if i == 0 then None else Some(exp[i - 1])
    requires st == ScanTo(exp, i)
    ensures st' == ScanTo(exp, i + 1)
  {
    var c := exp[i];
    var mode, curly, square, paren := st.mode, st.curly, st.square, st.paren;
    if mode == InSingle {
      if c == '\'' && prev != Some('\\') { mode := Code; }
    } else if mode == InDouble {
      if c == '"' && prev != Some('\\') { mode := Code; }
    } else if mode == InTemplateString {
      if c == '`' && prev != Some('\\') { mode := Code; }
    } else if mode == InRegex {
      if c == '/' && prev != Some('\\') { mode := Code; }
    } else {
      if c == '"' { mode := InDouble; }
      else if c == '\'' { mode := InSingle; }
      else if c == '`' { mode := InTemplateString; }
      else if c == '(' { paren := paren + 1; }
      else if c == ')' { paren := paren - 1; }
      else if c == '[' { square := square + 1; }
      else if c == ']' { square := square - 1; }
      else if c == '{' { curly := curly + 1; }
      else if c == '}' { curly := curly - 1; }
      if c == '/' {
        var regex := RegexStartsAt(exp, i);
        if regex {
          mode := InRegex;
        }
      }
    }
    st' := ScanState(mode, curly, square, paren);
  }

  /** A separator at `i` closes the open piece: it becomes the next filter segment. */
  lemma SeparatorCut(exp: string, i: nat, seps: seq<nat>, filters: seq<string>)
    requires i < |exp| && IsSeparator(exp, i) && seps == SeparatorsBelow(exp, i) && Cuts(exp, seps)
    requires seps == [] ==> filters == []
    requires seps != [] ==> filters == Segments(exp, seps, |seps| - 1)
    ensures ScanTo(exp, i + 1) == ScanTo(exp, i)
    ensures SeparatorsBelow(exp, i + 1) == seps + [i]
    ensures PieceStart(seps, |seps|) <= i && PieceStart(seps + [i], |seps| + 1) == i + 1
    ensures Cuts(exp, seps + [i])
    ensures seps == [] ==> Segments(exp, seps + [i], |seps|) == []
    ensures seps != [] ==> Segments(exp, seps + [i], |seps|) == filters + [Trim(exp[PieceStart(seps, |seps|)..i])]
  {
    SegmentsSnoc(exp, seps, i, |seps|);
  }

  /**
   * What the scanning loop of `parseFilters` knows after the first `i`
   * characters: the scanner state, the previous character, the separators
   * seen, the base expression (once the first separator is seen), where the
   * open filter segment starts and the filter segments closed so far.
   */
  predicate Scanned(exp: string, i: nat, st: ScanState, c: Option<char>, seps: seq<nat>,
                    expression: Option<string>, baseEnd: nat, lastFilterIndex: nat, filters: seq<string>)
  {
    && i <= |exp|
    && st == ScanTo(exp, i)
    && c == (if i == 0 then None else Some(exp[i - 1]))
    && seps == SeparatorsBelow(exp, i)
    && Collected(exp, i, seps, expression, baseEnd, lastFilterIndex, filters)
  }

  /**
   * The base expression and filter segments collected at the separators
   * `seps` found in the first `i` characters.
   */
  predicate Collected(exp: string, i: nat, seps: seq<nat>,
                      expression: Option<string>, baseEnd: nat, lastFilterIndex: nat, filters: seq<string>)
  {
    && Cuts(exp, seps)
    && (expression.None? <==> seps == [])
    && (seps != [] ==> seps[0] == baseEnd)
    && baseEnd <= |exp| && (expression.Some? ==> expression.value == Trim(exp[..baseEnd]))
    && lastFilterIndex == PieceStart(seps, |seps|) <= i
    && (seps == [] ==> filters == [])
    && (seps != [] ==> filters == Segments(exp, seps, |seps| - 1))
  }

  /** A character that is not a separator only moves the scanner on. */
  lemma NonSeparatorStep(exp: string, i: nat, st: ScanState, c: Option<char>, seps: seq<nat>,
                         expression: Option<string>, baseEnd: nat, lastFilterIndex: nat, filters: seq<string>)
    requires Scanned(exp, i, st, c, seps, expression, baseEnd, lastFilterIndex, filters)
    requires i < |exp| && !IsSeparator(exp, i)
    ensures Scanned(exp, i + 1, ScanTo(exp, i + 1), Some(exp[i]), seps, expression, baseEnd, lastFilterIndex, filters)
  {
    SeparatorsSkip(exp, i);
    CollectedGrows(exp, i, seps, expression, baseEnd, lastFilterIndex, filters);
  }

  /** Below a character that is not a separator, the separators do not change. */
  lemma SeparatorsSkip(exp: string, i: nat)
    requires i < |exp| && !IsSeparator(exp, i)
    ensures SeparatorsBelow(exp, i + 1) == SeparatorsBelow(exp, i)
  {
  }

  /** What was collected up to `i` stays collected one character on. */
  lemma CollectedGrows(exp: string, i: nat, seps: seq<nat>,
                       expression: Option<string>, baseEnd: nat, lastFilterIndex: nat, filters: seq<string>)
    requires Collected(exp, i, seps, expression, baseEnd, lastFilterIndex, filters)
    ensures Collected(exp, i + 1, seps, expression, baseEnd, lastFilterIndex, filters)
  {
  }

  /**
   * A separator at `i`: the first one ends the base expression, every later
   * one closes the open filter segment (`pushFilter`).
   */
  method CutAt(exp: string, i: nat, st: ScanState, c: Option<char>, ghost seps: seq<nat>,
               expression: Option<string>, ghost baseEnd: nat, lastFilterIndex: nat, filters: seq<string>)
    returns (expression': Option<string>, ghost baseEnd': nat, lastFilterIndex': nat, filters': seq<string>)
    requires Scanned(exp, i, st, c, seps, expression, baseEnd, lastFilterIndex, filters)
    requires i < |exp| && IsSeparator(exp, i)
    ensures Scanned(exp, i + 1, st, Some(exp[i]), seps + [i], expression', baseEnd', lastFilterIndex', filters')
  {
    SeparatorCut(exp, i, seps, filters);
    if expression.None? {
      // first filter: the base expression ends here
      lastFilterIndex' := i + 1;
      expression' := Some(Trim(exp[..i]));
      baseEnd' := i;
      filters' := filters;
    } else {
      filters' := filters + [Trim(exp[lastFilterIndex..i])];
      lastFilterIndex' := i + 1;
      expression' := expression;
      baseEnd' := baseEnd;
    }
  }

  /**
   * One turn of the scanning loop of `parseFilters`: a separator cuts, any
   * other character moves the scanner on. `c` is the previous character.
   */
  method ScanStep(exp: string, i: nat, st: ScanState, c: Option<char>, ghost seps: seq<nat>,
                  expression: Option<string>, ghost baseEnd: nat, lastFilterIndex: nat, filters: seq<string>)
    returns (st': ScanState, ghost seps': seq<nat>,
             expression': Option<string>, ghost baseEnd': nat, lastFilterIndex': nat, filters': seq<string>)
    requires Scanned(exp, i, st, c, seps, expression, baseEnd, lastFilterIndex, filters)
    requires i < |exp|
    ensures Scanned(exp, i + 1, st', Some(exp[i]), seps', expression', baseEnd', lastFilterIndex', filters')
  {
    if st.mode == Code && IsPipeSeparator(exp, i, st) {
      expression', baseEnd', lastFilterIndex', filters' := CutAt(exp, i, st, c, seps, expression, baseEnd, lastFilterIndex, filters);
      st', seps' := st, seps + [i];
    } else {
      NonSeparatorStep(exp, i, st, c, seps, expression, baseEnd, lastFilterIndex, filters);
      st' := ScanChar(exp, i, c, st);
      seps', expression', baseEnd', lastFilterIndex', filters' := seps, expression, baseEnd, lastFilterIndex, filters;
    }
  }

  /**
   * The scanning loop of `parseFilters`: one pass over `exp` that takes the
   * base expression at the first separator and a trimmed filter segment at
   * each later one.
   */
  method ScanPipes(exp: string)
    returns (ghost seps: seq<nat>, expression: Option<string>, ghost baseEnd: nat, lastFilterIndex: nat, filters: seq<string>)
    ensures seps == Separators(exp)
    ensures Collected(exp, |exp|, seps, expression, baseEnd, lastFilterIndex, filters)
  {
    var st := Initial;
    lastFilterIndex := 0;
    var c: Option<char> := None;
    expression := None;
    filters := [];
    seps := [];
    baseEnd := 0;
    var i: nat := 0;
    while i < |exp|
      invariant Scanned(exp, i, st, c, seps, expression, baseEnd, lastFilterIndex, filters)
    {
      st, seps, expression, baseEnd, lastFilterIndex, filters :=
        ScanStep(exp, i, st, c, seps, expression, baseEnd, lastFilterIndex, filters);
      c := Some(exp[i]);
      i := i + 1;
    }
  }

  /**
   * `parseFilters` up to the wrapping: the scan, then the segment still
   * open at the end of the input.
   */
  method SplitFilters(exp: string) returns (base: string, filters: seq<string>)
    ensures Cuts(exp, Separators(exp))
    ensures var seps := Separators(exp);
      base == Trim(Piece(exp, seps, 0)) && filters == FilterSegments(exp, seps)
  {
    ghost var seps, baseEnd;
    var expression, lastFilterIndex;
    seps, expression, baseEnd, lastFilterIndex, filters := ScanPipes(exp);
    SplitFiltersEnd(exp, seps, baseEnd);
    if expression.None? {
      base := Trim(exp);
    } else {
      // pushFilter
      filters := filters + [Trim(exp[lastFilterIndex..])];
      base := expression.value;
    }
  }

  /** At the end of the input the open segment runs to the end. */
  lemma SplitFiltersEnd(exp: string, seps: seq<nat>, baseEnd: nat)
    requires seps == Separators(exp) && (seps != [] ==> seps[0] == baseEnd)
    ensures Cuts(exp, seps)
    ensures seps == [] ==> Piece(exp, seps, 0) == exp && FilterSegments(exp, seps) == []
    ensures seps != [] ==> Piece(exp, seps, 0) == exp[..baseEnd]
    ensures seps != [] ==> Piece(exp, seps, |seps|) == exp[PieceStart(seps, |seps|)..]
    ensures seps != [] ==> FilterSegments(exp, seps) == Segments(exp, seps, |seps| - 1) + [Trim(Piece(exp, seps, |seps|))]
  {
    SeparatorsBelowCut(exp, |exp|);
  }

  /**
   * `parseFilters`: the base expression wrapped by the filter segments from
   * left to right.
   */
  method ParseFilters(exp: string) returns (expression: string)
    ensures expression == FilterExpression(exp)
  {
    var filters;
    expression, filters := SplitFilters(exp);
    FilterExpressionIsWrapAll(exp);
    if filters != [] {
      expression := WrapFilters(expression, filters);
    }
  }

  // ---------------------------------------------------------------------------
  // What the scanner promises.
  // ---------------------------------------------------------------------------

  lemma {:induction false} NoSeparatorsBelow(exp: string, n: nat)
    requires n <= |exp|
    requires forall i :: 0 <= i < n ==> !IsSeparator(exp, i)
    ensures SeparatorsBelow(exp, n) == []
  {
    if n > 0 {
      assert !IsSeparator(exp, n - 1);
      NoSeparatorsBelow(exp, n - 1);
      SeparatorsSkip(exp, n - 1);
    }
  }

  /** With no separator the result is the whole input, trimmed. */
  lemma NoSeparatorIsTrim(exp: string)
    requires forall i :: 0 <= i < |exp| ==> !IsSeparator(exp, i)
    ensures FilterExpression(exp) == Trim(exp)
  {
    NoSeparatorsBelow(exp, |exp|);
    assert Piece(exp, [], 0) == exp;
  }

  /** The first `m + 1` pieces. */
  function PiecesUpTo(exp: string, seps: seq<nat>, m: nat): (ps: seq<string>)
    requires Cuts(exp, seps) && m <= |seps|
    ensures |ps| == m + 1
  {
    seq(m + 1, k requires 0 <= k <= m => Piece(exp, seps, k))
  }

  lemma {:induction false} PiecesRejoinUpTo(exp: string, seps: seq<nat>, m: nat)
    requires Cuts(exp, seps) && m <= |seps|
    requires forall k :: 0 <= k < |seps| ==> exp[seps[k]] == '|'
    ensures Join(PiecesUpTo(exp, seps, m), "|") == exp[..PieceEnd(exp, seps, m)]
  {
    if m > 0 {
      PiecesRejoinUpTo(exp, seps, m - 1);
      var ps := PiecesUpTo(exp, seps, m);
      assert ps == PiecesUpTo(exp, seps, m - 1) + [Piece(exp, seps, m)];
      JoinSnoc(PiecesUpTo(exp, seps, m - 1), Piece(exp, seps, m), "|");
      var cut := seps[m - 1];
      assert PieceEnd(exp, seps, m - 1) == cut;
      assert exp[..cut] + "|" + exp[cut + 1..PieceEnd(exp, seps, m)] == exp[..PieceEnd(exp, seps, m)];
    } else {
      assert PiecesUpTo(exp, seps, 0) == [Piece(exp, seps, 0)];
    }
  }

  /** Separators are single pipes that cut the input: the pieces joined with `|` give the input back. */
  lemma SeparatorsCutAtPipes(exp: string)
    ensures Cuts(exp, Separators(exp))
    ensures var seps := Separators(exp);
      Join(PiecesUpTo(exp, seps, |seps|), "|") == exp
  {
    var seps := Separators(exp);
    SeparatorsBelowCut(exp, |exp|);
    SeparatorsBelowAreSeparators(exp, |exp|);
    assert forall k :: 0 <= k < |seps| ==> exp[seps[k]] == '|' by {
      forall k | 0 <= k < |seps| ensures exp[seps[k]] == '|' {
        assert IsSeparator(exp, seps[k]);
      }
    }
    PiecesRejoinUpTo(exp, seps, |seps|);
    assert exp[..|exp|] == exp;
  }

  /** Half of a `||` is never a separator, so an expression whose only pipes are `||` is just trimmed. */
  lemma LogicalOrIsNotAFilter(exp: string)
    requires forall i :: 0 <= i < |exp| && exp[i] == '|' ==>
      (i > 0 && exp[i - 1] == '|') || (i + 1 < |exp| && exp[i + 1] == '|')
    ensures forall i :: 0 <= i < |exp| ==> !IsSeparator(exp, i)
    ensures FilterExpression(exp) == Trim(exp)
  {
    forall i | 0 <= i < |exp|
      ensures !IsSeparator(exp, i)
    {
      assert exp[i] == '|' ==> (i > 0 && exp[i - 1] == '|') || (i + 1 < |exp| && exp[i + 1] == '|');
      if IsSeparator(exp, i) {
        SeparatorOutsideLiteralsAndBrackets(exp, i);
        assert false;
      }
    }
    NoSeparatorIsTrim(exp);
  }

  /** A separator is only ever found outside literals and with every bracket counter at zero. */
  lemma SeparatorOutsideLiteralsAndBrackets(exp: string, i: nat)
    requires i < |exp| && IsSeparator(exp, i)
    ensures ScanTo(exp, i).mode == Code
    ensures ScanTo(exp, i).curly == 0 && ScanTo(exp, i).square == 0 && ScanTo(exp, i).paren == 0
    ensures exp[i] == '|' && (i == 0 || exp[i - 1] != '|') && (i + 1 == |exp| || exp[i + 1] != '|')
  {
  }

  /** The delimiter closing a literal of each kind, and the mode inside it. */
  predicate IsDelimiter(q: char) {
    q == '\'' || q == '"' || q == '`' || q == '/'
  }

  function LiteralMode(q: char): Mode
    requires IsDelimiter(q)
  {
    if q == '\'' then InSingle else if q == '"' then InDouble else if q == '`' then InTemplateString else InRegex
  }

  /** Every delimiter inside `body` is escaped by a backslash right before it. */
  predicate EscapedDelimiters(body: string, q: char) {
    forall k :: 0 <= k < |body| && body[k] == q ==> k > 0 && body[k - 1] == '\\'
  }

  /** Inside a literal opened at position 0, no character of an escaped-delimiter body closes it. */
  lemma {:induction false} LiteralStaysOpen(q: char, body: string, n: nat)
    requires IsDelimiter(q) && EscapedDelimiters(body, q)
    requires 1 <= n <= |body| + 1
    ensures ScanTo([q] + body + [q], n).mode == LiteralMode(q)
  {
    var exp := [q] + body + [q];
    if n == 1 {
      assert ScanTo(exp, 0) == Initial;
      assert LastNonSpace(exp, 0) == -1;
    } else {
      LiteralStaysOpen(q, body, n - 1);
      assert exp[n - 1] == body[n - 2];
      assert exp[n - 2] == if n == 2 then q else body[n - 3];
    }
  }

  /**
   * A pipe inside a quoted string, a template string or a regular
   * expression literal does not split: with its delimiters escaped inside,
   * such a literal is returned unchanged.
   */
  lemma QuotedPipesDoNotSplit(q: char, body: string)
    requires IsDelimiter(q) && EscapedDelimiters(body, q)
    ensures var exp := [q] + body + [q];
      && (forall i :: 0 <= i < |exp| ==> !IsSeparator(exp, i))
      && FilterExpression(exp) == exp
  {
    var exp := [q] + body + [q];
    forall i | 0 <= i < |exp| ensures !IsSeparator(exp, i) {
      if i > 0 {
        LiteralStaysOpen(q, body, i);
      }
    }
    NoSeparatorIsTrim(exp);
    TrimUnpadded(exp);
  }

  /** A closing delimiter right after a backslash leaves its literal open. */
  lemma EscapedDelimiterDoesNotClose(exp: string, i: nat)
    requires i < |exp| && ScanTo(exp, i).mode != Code
    requires i > 0 && exp[i - 1] == '\\'
    ensures ScanTo(exp, i + 1).mode == ScanTo(exp, i).mode
  {
  }

  /** No character that can change the scanner's state: a pipe is the only thing that matters. */
  predicate Inert(c: char) {
    !(c in "'\"`/()[]{}")
  }

  /** Inside one pair of parentheses, with no other bracket or literal, the paren counter stays at one. */
  lemma {:induction false} ParenStaysOpen(body: string, n: nat)
    requires forall k :: 0 <= k < |body| ==> Inert(body[k])
    requires 1 <= n <= |body| + 1
    ensures ScanTo("(" + body + ")", n) == ScanState(Code, 0, 0, 1)
  {
    var exp := "(" + body + ")";
    if n > 1 {
      ParenStaysOpen(body, n - 1);
      assert exp[n - 1] == body[n - 2];
    }
  }

  /** A pipe inside parentheses does not split: `(a | b)` is returned unchanged. */
  lemma ParenthesizedPipesDoNotSplit(body: string)
    requires forall k :: 0 <= k < |body| ==> Inert(body[k])
    ensures var exp := "(" + body + ")";
      && (forall i :: 0 <= i < |exp| ==> !IsSeparator(exp, i))
      && FilterExpression(exp) == exp
  {
    var exp := "(" + body + ")";
    forall i | 0 <= i < |exp| ensures !IsSeparator(exp, i) {
      if i > 0 {
        ParenStaysOpen(body, i);
      }
    }
    NoSeparatorIsTrim(exp);
    TrimUnpadded(exp);
  }

  /** Outside literals, a `/` opens a regular expression exactly when no division character precedes it. */
  lemma SlashOpensRegexIff(exp: string, i: nat)
    requires i < |exp| && exp[i] == '/' && ScanTo(exp, i).mode == Code
    ensures ScanTo(exp, i + 1).mode == InRegex <==>
      (LastNonSpace(exp, i) < 0 || !IsDivisionChar(exp[LastNonSpace(exp, i)]))
  {
    assert !IsSeparator(exp, i);
  }

  /** Applying filters left to right: the first filter wraps the base, the later ones wrap that. */
  lemma {:induction false} WrapAllCons(base: string, f: string, fs: seq<string>)
    ensures WrapAll(base, [f] + fs) == WrapAll(WrapFilter(base, f), fs)
    decreases |fs|
  {
    if fs != [] {
      var all := [f] + fs;
      var init := fs[..|fs| - 1];
      var last := fs[|fs| - 1];
      assert all[..|all| - 1] == [f] + init;
      assert all[|all| - 1] == last;
      var inner := WrapAll(base, [f] + init);
      assert WrapAll(base, all) == WrapFilter(inner, last);
      assert inner == WrapAll(WrapFilter(base, f), init) by {
        WrapAllCons(base, f, init);
      }
    }
  }

  /** `indexOf('(')` finds the parenthesis right after a name that has none. */
  lemma ParenAfterName(name: string, rest: string)
    requires '(' !in name
    ensures IndexOf(name + "(" + rest, "(", 0) == |name|
  {
    var s := name + "(" + rest;
    assert OccursAt(s, "(", |name|) by {
      assert s[|name|..|name| + 1] == "(";
    }
    forall k | 0 <= k < |name| ensures !OccursAt(s, "(", k) {
      assert s[k] == name[k];
    }
  }

  /** A bare filter name becomes a call on the expression. */
  lemma WrapBareName(exp: string, name: string)
    requires '(' !in name
    ensures WrapFilter(exp, name) == "_f(\"" + name + "\")(" + exp + ")"
  {
    forall k | 0 <= k < |name| ensures !OccursAt(name, "(", k) {
      assert name[k..k + 1] == [name[k]];
    }
  }

  /** `name(args)` passes the expression as the first argument before `args`. */
  lemma WrapCallWithArgs(exp: string, name: string, args: string)
    requires '(' !in name && args != ""
    ensures WrapFilter(exp, name + "(" + args + ")") == "_f(\"" + name + "\")(" + exp + "," + args + ")"
  {
    var filter := name + "(" + args + ")";
    ParenAfterName(name, args + ")");
    assert filter == name + "(" + (args + ")");
    assert filter[..|name|] == name;
    assert filter[|name| + 1..] == args + ")";
    assert args + ")" != ")";
  }

  /** `name()` passes the expression alone. */
  lemma WrapCallNoArgs(exp: string, name: string)
    requires '(' !in name
    ensures WrapFilter(exp, name + "()") == "_f(\"" + name + "\")(" + exp + ")"
  {
    var filter := name + "()";
    ParenAfterName(name, ")");
    assert filter == name + "(" + ")";
    assert filter[..|name|] == name;
    assert filter[|name| + 1..] == ")";
  }

  /** Nothing before either pipe of `a | b | c(1)` opens a literal or a bracket. */
  lemma ChainScan(exp: string)
    requires exp == "a | b | c(1)"
    ensures ScanTo(exp, 2) == Initial && ScanTo(exp, 6) == Initial
  {
    assert ScanTo(exp, 1) == Initial;
    assert ScanTo(exp, 2) == Initial;
    assert ScanTo(exp, 3) == Initial;
    assert ScanTo(exp, 4) == Initial;
    assert ScanTo(exp, 5) == Initial;
  }

  /** A character other than a pipe adds no separator. */
  lemma SkipNonPipe(exp: string, i: nat)
    requires i < |exp| && exp[i] != '|'
    ensures SeparatorsBelow(exp, i + 1) == SeparatorsBelow(exp, i)
  {
    SeparatorsSkip(exp, i);
  }

  /** A separator is appended to those below it. */
  lemma AddSeparator(exp: string, i: nat)
    requires i < |exp| && IsSeparator(exp, i)
    ensures SeparatorsBelow(exp, i + 1) == SeparatorsBelow(exp, i) + [i]
  {
  }

  /** The first pipe of `a | b | c(1)` is the only separator before the second. */
  lemma ChainFirstSeparator(exp: string)
    requires exp == "a | b | c(1)"
    ensures SeparatorsBelow(exp, 6) == [2]
  {
    ChainScan(exp);
    SkipNonPipe(exp, 0);
    SkipNonPipe(exp, 1);
    AddSeparator(exp, 2);
    SkipNonPipe(exp, 3);
    SkipNonPipe(exp, 4);
    SkipNonPipe(exp, 5);
  }

  /** The separators of `a | b | c(1)` are its two single pipes. */
  lemma ChainSeparators(exp: string)
    requires exp == "a | b | c(1)"
    ensures Separators(exp) == [2, 6]
  {
    ChainScan(exp);
    ChainFirstSeparator(exp);
    AddSeparator(exp, 6);
    SkipNonPipe(exp, 7);
    SkipNonPipe(exp, 8);
    SkipNonPipe(exp, 9);
    SkipNonPipe(exp, 10);
    SkipNonPipe(exp, 11);
  }

  /** The three pieces of `a | b | c(1)`, trimmed. */
  lemma ChainTrims()
    ensures Trim("a ") == "a" && Trim(" b ") == "b" && Trim(" c(1)") == "c(1)"
  {
    assert "a "[..1] == "a";
    assert TrimEnd("a ") == "a";
    assert " b "[1..] == "b " && "b "[..1] == "b";
    assert TrimStart(" c(1)") == "c(1)" by {
      assert " c(1)"[1..] == "c(1)";
    }
    TrimUnpadded("c(1)");
  }

  /** The trimmed base and filter segments of `a | b | c(1)`. */
  lemma ChainPieces(exp: string)
    requires exp == "a | b | c(1)"
    ensures Cuts(exp, [2, 6])
    ensures Trim(Piece(exp, [2, 6], 0)) == "a"
    ensures FilterSegments(exp, [2, 6]) == ["b", "c(1)"]
  {
    var seps := [2, 6];
    ChainTrims();
    assert Piece(exp, seps, 0) == "a ";
    assert Piece(exp, seps, 1) == " b ";
    assert Piece(exp, seps, 2) == " c(1)";
    assert Segments(exp, seps, 1) == ["b"];
  }

  /** A bare filter name becomes a call on the expression. */
  lemma WrapExampleBare()
    ensures WrapFilter("a", "b") == "_f(\"b\")(a)"
  {
    WrapBareName("a", "b");
  }

  /** A filter with arguments gets the expression as its first argument. */
  lemma WrapExampleArgs()
    ensures WrapFilter("_f(\"b\")(a)", "c(1)") == "_f(\"c\")(_f(\"b\")(a),1)"
  {
    WrapCallWithArgs("_f(\"b\")(a)", "c", "1");
    assert "c(1)" == "c" + "(" + "1" + ")";
  }

  /** Wrapping `a` in `b` and then in `c(1)`. */
  lemma ChainWrap()
    ensures WrapAll("a", ["b", "c(1)"]) == "_f(\"c\")(_f(\"b\")(a),1)"
  {
    WrapExampleBare();
    WrapExampleArgs();
    assert ["b", "c(1)"][..1] == ["b"];
  }

  /** Filters apply left to right, each wrapping the previous result. */
  lemma FilterChainExample(exp: string)
    requires exp == "a | b | c(1)"
    ensures FilterExpression(exp) == "_f(\"c\")(_f(\"b\")(a),1)"
  {
    ChainSeparators(exp);
    ChainPieces(exp);
    ChainWrap();
    WrappedIsWrapAll(exp, [2, 6], 2);
  }
}
