/**
 * Literal text inside SQL LIKE patterns: the worker's escaping of a search text against the
 * meaning of LIKE with ESCAPE '\', and the filters the asset listing builds from it.
 */
module LikeEscape {

  // ---------------------------------------------------------------------------------------
  // Escaping
  // ---------------------------------------------------------------------------------------

  /** JavaScript's replace of every occurrence of one character. */
  function ReplaceAll(s: string, c: char, sub: string): string {
    if s == "" then "" else (if s[0] == c then sub else [s[0]]) + ReplaceAll(s[1..], c, sub)
  }

  /** The three chained replacements. */
  function EscapeLikePattern(value: string): string {
    ReplaceAll(ReplaceAll(ReplaceAll(value, '\\', "\\\\"), '%', "\\%"), '_', "\\_")
  }

  predicate IsSpecial(c: char) {
    c == '\\' || c == '%' || c == '_'
  }

  /** Escaping each special character once, in a single pass. */
  function EscapeOnce(value: string): string {
    if value == "" then ""
    else (if IsSpecial(value[0]) then ['\\', value[0]] else [value[0]]) + EscapeOnce(value[1..])
  }

  lemma {:induction false} ReplaceAllAppend(a: string, b: string, c: char, sub: string)
    ensures ReplaceAll(a + b, c, sub) == ReplaceAll(a, c, sub) + ReplaceAll(b, c, sub)
  {
    if a == "" {
      assert a + b == b;
    } else {
      assert (a + b)[1..] == a[1..] + b;
      ReplaceAllAppend(a[1..], b, c, sub);
    }
  }

  lemma ReplaceAllShort(s: string, c: char, sub: string)
    requires 1 <= |s| <= 2
    ensures ReplaceAll(s, c, sub) ==
            (if s[0] == c then sub else [s[0]]) + (if |s| == 1 then "" else if s[1] == c then sub else [s[1]])
  {
    assert ReplaceAll(s[1..], c, sub) == if |s| == 1 then "" else if s[1] == c then sub else [s[1]];
  }

  /** The sequence of passes is one simultaneous escape, because the backslash goes first. */
  lemma {:induction false} PassesAreSimultaneous(value: string)
    ensures EscapeLikePattern(value) == EscapeOnce(value)
  {
    if value != "" {
      var c := value[0];
      var head := ReplaceAll([c], '\\', "\\\\");
      var tail := ReplaceAll(value[1..], '\\', "\\\\");
      PassesAreSimultaneous(value[1..]);
      ReplaceAllShort([c], '\\', "\\\\");
      assert ReplaceAll(value, '\\', "\\\\") == head + tail;
      ReplaceAllAppend(head, tail, '%', "\\%");
      ReplaceAllShort(head, '%', "\\%");
      ReplaceAllAppend(ReplaceAll(head, '%', "\\%"), ReplaceAll(tail, '%', "\\%"), '_', "\\_");
      ReplaceAllShort(ReplaceAll(head, '%', "\\%"), '_', "\\_");
    }
  }

  predicate HasWildcard(value: string) {
    '%' in value || '_' in value
  }

  /** The same replacements with the backslash last. */
  function BackslashLast(value: string): string {
    ReplaceAll(ReplaceAll(ReplaceAll(value, '%', "\\%"), '_', "\\_"), '\\', "\\\\")
  }

  lemma LastOfOne(c: char)
    ensures BackslashLast([c]) == if c == '\\' then "\\\\" else if c == '%' || c == '_' then ['\\', '\\', c] else [c]
  {
    ReplaceAllShort([c], '%', "\\%");
    var first := ReplaceAll([c], '%', "\\%");
    ReplaceAllShort(first, '_', "\\_");
    var second := ReplaceAll(first, '_', "\\_");
    ReplaceAllShort(second, '\\', "\\\\");
  }

  lemma LastAppends(a: string, b: string)
    ensures BackslashLast(a + b) == BackslashLast(a) + BackslashLast(b)
  {
    hide ReplaceAll;
    ReplaceAllAppend(a, b, '%', "\\%");
    var a', b' := ReplaceAll(a, '%', "\\%"), ReplaceAll(b, '%', "\\%");
    ReplaceAllAppend(a', b', '_', "\\_");
    ReplaceAllAppend(ReplaceAll(a', '_', "\\_"), ReplaceAll(b', '_', "\\_"), '\\', "\\\\");
  }

  lemma {:induction false} LastEscapesTwice(value: string)
    ensures |BackslashLast(value)| >= |EscapeOnce(value)|
    ensures if HasWildcard(value) then |BackslashLast(value)| > |EscapeOnce(value)|
            else BackslashLast(value) == EscapeOnce(value)
  {
    if value != "" {
      hide BackslashLast;
      var c, rest := value[0], value[1..];
      assert value == [c] + rest;
      LastEscapesTwice(rest);
      LastOfOne(c);
      LastAppends([c], rest);
    }
  }

  /** The order matters: with the backslash last, the escape is damaged for exactly the texts with a wildcard. */
  lemma BackslashLastIffNoWildcard(value: string)
    ensures BackslashLast(value) == EscapeLikePattern(value) <==> !HasWildcard(value)
  {
    PassesAreSimultaneous(value);
    LastEscapesTwice(value);
  }

  // ---------------------------------------------------------------------------------------
  // LIKE
  // ---------------------------------------------------------------------------------------

  /**
   * LIKE with ESCAPE '\'. Characters are compared after `fold`: the identity for the SQL
   * standard's predicate, lower-casing for a database that ignores case.
   */
  ghost predicate Like(fold: char -> char, pattern: string, text: string)
    decreases |pattern|, |text|
  {
    if pattern == "" then
      text == ""
    else if pattern[0] == '%' then
      Like(fold, pattern[1..], text) || (text != "" && Like(fold, pattern, text[1..]))
    else if pattern[0] == '_' then
      text != "" && Like(fold, pattern[1..], text[1..])
    else if pattern[0] == '\\' then
      |pattern| > 1 && text != "" && fold(pattern[1]) == fold(text[0]) && Like(fold, pattern[2..], text[1..])
    else
      text != "" && fold(pattern[0]) == fold(text[0]) && Like(fold, pattern[1..], text[1..])
  }

  ghost predicate SameFolded(fold: char -> char, a: string, b: string) {
    |a| == |b| && forall i :: 0 <= i < |a| ==> fold(a[i]) == fold(b[i])
  }

  ghost predicate OccursAt(fold: char -> char, t: string, q: string, i: int) {
    0 <= i <= |t| - |q| && SameFolded(fold, q, t[i..i + |q|])
  }

  /** q occurs in t, up to folding. */
  ghost predicate Contains(fold: char -> char, t: string, q: string) {
    exists i :: OccursAt(fold, t, q, i)
  }

  function Identity(c: char): char { c }

  /** A percent sign matches exactly by skipping some prefix of the text. */
  lemma {:induction false} PercentSkips(fold: char -> char, rest: string, text: string)
    ensures Like(fold, "%" + rest, text) <==> exists i :: 0 <= i <= |text| && Like(fold, rest, text[i..])
  {
    assert ("%" + rest)[1..] == rest;
    assert text[0..] == text;
    if text != "" {
      PercentSkips(fold, rest, text[1..]);
      forall i | 0 <= i <= |text| - 1 ensures text[1..][i..] == text[i + 1..] {
      }
      if Like(fold, "%" + rest, text[1..]) {
        var i :| 0 <= i <= |text| - 1 && Like(fold, rest, text[1..][i..]);
        assert Like(fold, rest, text[i + 1..]);
      }
      if exists i :: 0 < i <= |text| && Like(fold, rest, text[i..]) {
        var i :| 0 < i <= |text| && Like(fold, rest, text[i..]);
        assert Like(fold, rest, text[1..][i - 1..]);
      }
    }
  }

  lemma SameFoldedCons(fold: char -> char, q: string, text: string)
    requires q != "" && |q| <= |text|
    ensures text[1..][|q| - 1..] == text[|q|..]
    ensures SameFolded(fold, q, text[..|q|])
            <==> fold(q[0]) == fold(text[0]) && SameFolded(fold, q[1..], text[1..][..|q| - 1])
  {
    assert text[1..][..|q| - 1] == text[1..|q|];
    assert q == [q[0]] + q[1..] && text[..|q|] == [text[0]] + text[1..|q|];
  }

  /** An escaped text followed by more pattern matches that text literally. */
  lemma {:induction false} EscapedMatchesLiterally(fold: char -> char, q: string, rest: string, text: string)
    ensures Like(fold, EscapeOnce(q) + rest, text)
            <==> |q| <= |text| && SameFolded(fold, q, text[..|q|]) && Like(fold, rest, text[|q|..])
  {
    if q == "" {
      assert EscapeOnce(q) + rest == rest;
      assert text[0..] == text;
    } else {
      hide SameFolded;
      var tail := EscapeOnce(q[1..]) + rest;
      var p := EscapeOnce(q) + rest;
      if IsSpecial(q[0]) {
        assert p == ['\\', q[0]] + tail;
        assert p[2..] == tail;
      } else {
        assert p == [q[0]] + tail;
        assert p[1..] == tail;
      }
      if text != "" {
        EscapedMatchesLiterally(fold, q[1..], rest, text[1..]);
        if |q| <= |text| {
          SameFoldedCons(fold, q, text);
        }
      }
    }
  }

  lemma {:induction false} PercentMatchesAll(fold: char -> char, text: string)
    ensures Like(fold, "%", text)
  {
    if text != "" {
      PercentMatchesAll(fold, text[1..]);
    } else {
      assert Like(fold, "%"[1..], "");
    }
  }

  function ContainsPattern(query: string): string {
    "%" + EscapeLikePattern(query) + "%"
  }

  /** The search pattern matches exactly the texts the query occurs in. */
  lemma ContainsPatternIsSubstring(fold: char -> char, q: string, t: string)
    ensures Like(fold, ContainsPattern(q), t) <==> Contains(fold, t, q)
  {
    PassesAreSimultaneous(q);
    var rest := EscapeOnce(q) + "%";
    assert ContainsPattern(q) == "%" + rest;
    PercentSkips(fold, rest, t);
    forall i | 0 <= i <= |t| ensures Like(fold, rest, t[i..]) <==> OccursAt(fold, t, q, i) {
      EscapedMatchesLiterally(fold, q, "%", t[i..]);
      if |q| <= |t| - i {
        assert t[i..][..|q|] == t[i..i + |q|];
        PercentMatchesAll(fold, t[i..][|q|..]);
      }
    }
  }

  /** Without folding this is plain substring search. */
  lemma ContainsIsSubstring(q: string, t: string)
    ensures Like(Identity, ContainsPattern(q), t) <==> exists before, after :: t == before + q + after
  {
    ContainsPatternIsSubstring(Identity, q, t);
    if Contains(Identity, t, q) {
      var i :| OccursAt(Identity, t, q, i);
      assert t[i..i + |q|] == q;
      assert t == t[..i] + q + t[i + |q|..];
    }
    if exists before, after :: t == before + q + after {
      var before, after :| t == before + q + after;
      assert t[|before|..|before| + |q|] == q;
      assert OccursAt(Identity, t, q, |before|);
    }
  }

  predicate HasSpecial(q: string) {
    exists i :: 0 <= i < |q| && IsSpecial(q[i])
  }

  lemma {:induction false} PlainEscapesToItself(q: string)
    requires !HasSpecial(q)
    ensures EscapeOnce(q) == q
  {
    if q != "" {
      assert forall i :: 0 <= i < |q[1..]| ==> q[1..][i] == q[i + 1];
      PlainEscapesToItself(q[1..]);
    }
  }

  /** A text that the query matches when its special characters are left to act. */
  function Sample(q: string): string {
    if q == "" then ""
    else if q[0] == '%' then Sample(q[1..])
    else if q[0] == '_' then "a" + Sample(q[1..])
    else if q[0] == '\\' && |q| == 1 then "%"
    else if q[0] == '\\' then [q[1]] + Sample(q[2..])
    else [q[0]] + Sample(q[1..])
  }

  lemma {:induction false} SampleMatches(fold: char -> char, q: string)
    ensures Like(fold, q + "%", Sample(q))
  {
    var p := q + "%";
    if q == "" {
      PercentMatchesAll(fold, "");
      assert p == "%";
    } else if q == "\\" {
      assert p[2..] == "";
    } else if q[0] == '\\' {
      SampleMatches(fold, q[2..]);
      assert p[2..] == q[2..] + "%";
    } else {
      SampleMatches(fold, q[1..]);
      assert p[1..] == q[1..] + "%";
    }
  }

  lemma {:induction false} SampleDiffers(q: string)
    ensures |Sample(q)| <= |q| && (HasSpecial(q) ==> Sample(q) != q)
  {
    if q != "" && q != "\\" {
      var n := if q[0] == '\\' then 2 else 1;
      SampleDiffers(q[n..]);
      if n == 1 && HasSpecial(q) && !IsSpecial(q[0]) {
        var i :| 0 <= i < |q| && IsSpecial(q[i]);
        assert q[1..][i - 1] == q[i];
        assert q == [q[0]] + q[1..];
      }
    }
  }

  /** A query left unescaped finds the same texts exactly when it has no special character. */
  lemma UnescapedIffPlain(q: string)
    ensures (forall t :: Like(Identity, "%" + q + "%", t) <==> Contains(Identity, t, q)) <==> !HasSpecial(q)
  {
    PassesAreSimultaneous(q);
    if HasSpecial(q) {
      var t := Sample(q);
      SampleMatches(Identity, q);
      SampleDiffers(q);
      assert "%" + q + "%" == "%" + (q + "%");
      PercentSkips(Identity, q + "%", t);
      assert t[0..] == t;
      assert t[..|t|] == t;
      assert |t| == |q| ==> !SameFolded(Identity, q, t);
      assert !Contains(Identity, t, q);
    } else {
      PlainEscapesToItself(q);
      assert "%" + q + "%" == ContainsPattern(q);
      forall t ensures Like(Identity, "%" + q + "%", t) <==> Contains(Identity, t, q) {
        ContainsPatternIsSubstring(Identity, q, t);
      }
    }
  }

  // ---------------------------------------------------------------------------------------
  // The listing's filters
  // ---------------------------------------------------------------------------------------

  datatype Column = NameLower | DescriptionLower | TagsLower | BaseNodeTypeLower | VariantKind | BaseNodeType

  /** A filter clause of the WHERE; each column named takes one positional binding. */
  datatype Clause = AnyLike(columns: seq<Column>) | Equals(column: Column)

  type Row = Column -> string

  function Arity(c: Clause): nat {
    match c
    case AnyLike(columns) => |columns|
    case Equals(_) => 1
  }

  ghost predicate ClauseHolds(fold: char -> char, c: Clause, bindings: seq<string>, row: Row)
    requires |bindings| == Arity(c)
  {
    match c
    case AnyLike(columns) => exists i :: 0 <= i < |columns| && Like(fold, bindings[i], row(columns[i]))
    case Equals(column) => row(column) == bindings[0]
  }

  /** The clauses joined with AND, their question marks bound from left to right. */
  ghost predicate Holds(fold: char -> char, filters: seq<Clause>, bindings: seq<string>, row: Row) {
    if filters == [] then bindings == []
    else
      var n := Arity(filters[0]);
      n <= |bindings| && ClauseHolds(fold, filters[0], bindings[..n], row)
      && Holds(fold, filters[1..], bindings[n..], row)
  }

  /** Text columns that a query searches. */
  function SearchedColumns(isVariant: bool): seq<Column> {
    if isVariant then [NameLower, DescriptionLower, TagsLower, BaseNodeTypeLower]
    else [NameLower, DescriptionLower, TagsLower]
  }

  /** What a listing asks of a row: an empty text asks nothing. */
  ghost predicate RowWanted(fold: char -> char, row: Row, query: string, isVariant: bool, kind: string, base: string) {
    && (query != "" ==>
          || Contains(fold, row(NameLower), query) || Contains(fold, row(DescriptionLower), query)
          || Contains(fold, row(TagsLower), query) || (isVariant && Contains(fold, row(BaseNodeTypeLower), query)))
    && (isVariant && kind != "" ==> row(VariantKind) == kind)
    && (isVariant && base != "" ==> row(BaseNodeType) == base)
  }

  /**
   * The query part of the listing's filters; the query is the one already trimmed and lower-cased.
   * Each clause's question marks meet the bindings pushed for it.
   */
  method ApplyAssetQueryFilters(query: string, isVariant: bool, variantKind: string, baseNodeType: string)
    returns (filters: seq<Clause>, bindings: seq<string>)
    ensures forall fold, row: Row :: Holds(fold, filters, bindings, row)
                                     <==> RowWanted(fold, row, query, isVariant, variantKind, baseNodeType)
  {
    filters, bindings := [], [];
    if query != "" {
      var pattern := ContainsPattern(query);
      if isVariant {
        filters := filters + [AnyLike([NameLower, DescriptionLower, TagsLower, BaseNodeTypeLower])];
        bindings := bindings + [pattern, pattern, pattern, pattern];
      } else {
        filters := filters + [AnyLike([NameLower, DescriptionLower, TagsLower])];
        bindings := bindings + [pattern, pattern, pattern];
      }
    }
    ghost var searchFilters, searchBindings := filters, bindings;
    if isVariant {
      if variantKind != "" {
        filters := filters + [Equals(VariantKind)];
        bindings := bindings + [variantKind];
      }
      if baseNodeType != "" {
        filters := filters + [Equals(BaseNodeType)];
        bindings := bindings + [baseNodeType];
      }
    }
    ghost var equal := EqualTerms(isVariant, variantKind, baseNodeType);
    assert filters == searchFilters + EqualFilters(equal);
    assert bindings == searchBindings + EqualBindings(equal);
    assert query != "" ==> searchFilters == [AnyLike(SearchedColumns(isVariant))];
    assert query != "" ==> searchBindings == Patterns(query, isVariant);
    forall fold, row: Row
      ensures Holds(fold, filters, bindings, row) <==> RowWanted(fold, row, query, isVariant, variantKind, baseNodeType)
    {
      FiltersMean(fold, row, query, isVariant, variantKind, baseNodeType, filters, bindings);
    }
  }

  ghost function EqualTerms(isVariant: bool, kind: string, base: string): seq<(Column, string)> {
    if !isVariant then []
    else (if kind != "" then [(VariantKind, kind)] else []) + (if base != "" then [(BaseNodeType, base)] else [])
  }

  ghost function Patterns(query: string, isVariant: bool): seq<string> {
    seq(|SearchedColumns(isVariant)|, _ => ContainsPattern(query))
  }

  lemma FiltersMean(fold: char -> char, row: Row, query: string, isVariant: bool, kind: string, base: string,
                    filters: seq<Clause>, bindings: seq<string>)
    requires var equal := EqualTerms(isVariant, kind, base);
             && filters == (if query != "" then [AnyLike(SearchedColumns(isVariant))] else []) + EqualFilters(equal)
             && bindings == (if query != "" then Patterns(query, isVariant) else []) + EqualBindings(equal)
    ensures Holds(fold, filters, bindings, row) <==> RowWanted(fold, row, query, isVariant, kind, base)
  {
    hide Contains, Holds, EqualTerms, EqualFilters, EqualBindings;
    var equal := EqualTerms(isVariant, kind, base);
    EqualTermsMean(fold, row, isVariant, kind, base);
    if query != "" {
      SearchClause(fold, query, isVariant, EqualFilters(equal), EqualBindings(equal), row);
      ColumnsSearched(fold, query, isVariant, row);
    } else {
      assert filters == EqualFilters(equal) && bindings == EqualBindings(equal);
    }
  }

  lemma ColumnsSearched(fold: char -> char, query: string, isVariant: bool, row: Row)
    ensures (exists c :: c in SearchedColumns(isVariant) && Contains(fold, row(c), query))
            <==> || Contains(fold, row(NameLower), query) || Contains(fold, row(DescriptionLower), query)
                 || Contains(fold, row(TagsLower), query)
                 || (isVariant && Contains(fold, row(BaseNodeTypeLower), query))
  {
    hide Contains;
    var columns := SearchedColumns(isVariant);
    assert columns[0] == NameLower && columns[1] == DescriptionLower && columns[2] == TagsLower;
    assert isVariant ==> columns[3] == BaseNodeTypeLower;
  }

  lemma EqualTermsMean(fold: char -> char, row: Row, isVariant: bool, kind: string, base: string)
    ensures var equal := EqualTerms(isVariant, kind, base);
            Holds(fold, EqualFilters(equal), EqualBindings(equal), row)
            <==> && (isVariant && kind != "" ==> row(VariantKind) == kind)
                 && (isVariant && base != "" ==> row(BaseNodeType) == base)
  {
    hide Holds, EqualFilters, EqualBindings;
    var equal := EqualTerms(isVariant, kind, base);
    EqualClauses(fold, equal, row);
    assert isVariant && kind != "" ==> equal[0] == (VariantKind, kind);
    assert isVariant && base != "" ==> equal[|equal| - 1] == (BaseNodeType, base);
  }

  ghost function EqualFilters(equal: seq<(Column, string)>): seq<Clause> {
    seq(|equal|, i requires 0 <= i < |equal| => Equals(equal[i].0))
  }

  ghost function EqualBindings(equal: seq<(Column, string)>): seq<string> {
    seq(|equal|, i requires 0 <= i < |equal| => equal[i].1)
  }

  lemma {:induction false} EqualClauses(fold: char -> char, equal: seq<(Column, string)>, row: Row)
    ensures Holds(fold, EqualFilters(equal), EqualBindings(equal), row)
            <==> forall i :: 0 <= i < |equal| ==> row(equal[i].0) == equal[i].1
  {
    if equal != [] {
      EqualClauses(fold, equal[1..], row);
      assert EqualFilters(equal)[1..] == EqualFilters(equal[1..]);
      assert EqualBindings(equal)[1..] == EqualBindings(equal[1..]);
      assert equal == [equal[0]] + equal[1..];
      assert && row(equal[0].0) == equal[0].1
             && (forall i :: 0 <= i < |equal[1..]| ==> row(equal[1..][i].0) == equal[1..][i].1)
             ==> forall i :: 0 <= i < |equal| ==> row(equal[i].0) == equal[i].1 by {
        forall i | 0 < i < |equal| ensures equal[i] == equal[1..][i - 1] {
        }
      }
    }
  }

  /** A search clause in front of other clauses: the query occurs in one of the searched columns. */
  lemma SearchClause(fold: char -> char, query: string, isVariant: bool,
                     filters: seq<Clause>, bindings: seq<string>, row: Row)
    ensures Holds(fold, [AnyLike(SearchedColumns(isVariant))] + filters, Patterns(query, isVariant) + bindings, row)
            <==> (exists c :: c in SearchedColumns(isVariant) && Contains(fold, row(c), query))
                 && Holds(fold, filters, bindings, row)
  {
    var columns := SearchedColumns(isVariant);
    var all := [AnyLike(columns)] + filters;
    var patterns := Patterns(query, isVariant);
    assert all[1..] == filters;
    assert (patterns + bindings)[..|columns|] == patterns && (patterns + bindings)[|columns|..] == bindings;
    forall c: Column ensures Like(fold, ContainsPattern(query), row(c)) <==> Contains(fold, row(c), query) {
      ContainsPatternIsSubstring(fold, query, row(c));
    }
    assert ClauseHolds(fold, AnyLike(columns), patterns, row)
           <==> exists i :: 0 <= i < |columns| && Contains(fold, row(columns[i]), query);
  }
}
