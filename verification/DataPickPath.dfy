/**
 * The data-pick path language: parsing, a printer that the parser undoes, and picking a value
 * along a parsed path.
 */
module DataPickPath {
  import opened Wrappers
  import opened JsonValue
  import Decimal

  datatype Segment = Key(key: string) | Index(index: nat)

  datatype PathError =
    | EndsWithDot
    | UnterminatedBracket
    | UnterminatedQuote
    | UnterminatedEscape
    | UnsupportedEscape
    | QuoteWithoutBracket
    | UnterminatedIndex
    | EmptyIndex
    | IndexNotDigits
    | EmptyKey

  type Parsed<T> = Result<T, PathError>

  /** size_t holds 64 bits. */
  const SIZE_LIMIT: nat := 0x1_0000_0000_0000_0000

  // ---------------------------------------------------------------------------------------
  // What a path means
  // ---------------------------------------------------------------------------------------

  predicate IsSpace(c: char) {
    c == ' ' || '\t' <= c <= '\r'
  }

  function TrimLeft(s: string): (r: string)
    ensures |r| <= |s| && r == s[|s| - |r|..]
    ensures r == "" || !IsSpace(r[0])
  {
    if s != "" && IsSpace(s[0]) then TrimLeft(s[1..]) else s
  }

  function TrimRight(s: string): (r: string)
    ensures r <= s
    ensures r == "" || !IsSpace(r[|r| - 1])
  {
    if s != "" && IsSpace(s[|s| - 1]) then TrimRight(s[..|s| - 1]) else s
  }

  function Trim(s: string): string {
    TrimRight(TrimLeft(s))
  }

  predicate Trimmed(s: string) {
    s == "" || (!IsSpace(s[0]) && !IsSpace(s[|s| - 1]))
  }

  predicate IsUnquotedKeyChar(c: char) {
    c != '.' && c != '[' && c != ']'
  }

  function UnquotedLength(s: string): (n: nat)
    ensures n <= |s| && forall i :: 0 <= i < n ==> IsUnquotedKeyChar(s[i])
    ensures n < |s| ==> !IsUnquotedKeyChar(s[n])
  {
    if s == "" || !IsUnquotedKeyChar(s[0]) then 0 else 1 + UnquotedLength(s[1..])
  }

  function LengthToBracket(s: string): (n: nat)
    ensures n <= |s| && forall i :: 0 <= i < n ==> s[i] != ']'
    ensures n < |s| ==> s[n] == ']'
  {
    if s == "" || s[0] == ']' then 0 else 1 + LengthToBracket(s[1..])
  }

  /** The first place where a bare key cannot go on. */
  lemma UnquotedLengthIs(s: string, n: nat)
    requires n <= |s| && forall i :: 0 <= i < n ==> IsUnquotedKeyChar(s[i])
    requires n == |s| || !IsUnquotedKeyChar(s[n])
    ensures UnquotedLength(s) == n
  {
    assert UnquotedLength(s) < |s| ==> !IsUnquotedKeyChar(s[UnquotedLength(s)]);
  }

  lemma LengthToBracketIs(s: string, n: nat)
    requires n <= |s| && forall i :: 0 <= i < n ==> s[i] != ']'
    requires n == |s| || s[n] == ']'
    ensures LengthToBracket(s) == n
  {
    assert LengthToBracket(s) < |s| ==> s[LengthToBracket(s)] == ']';
  }

  /** The value of an index, which the parser keeps to 64 bits. */
  ghost function IndexValue(text: string): Parsed<nat> {
    if text == "" then Err(EmptyIndex)
    else if !Decimal.AllDigits(text) then Err(IndexNotDigits)
    else Ok(Decimal.Value(text) % SIZE_LIMIT)
  }

  function Unescaped(c: char): Option<char> {
    if c == '\\' || c == '"' || c == '\'' then Some(c)
    else if c == 'n' then Some('\n')
    else if c == 't' then Some('\t')
    else None
  }

  /** The key up to the closing quote, and the text after that quote. */
  function QuotedKey(s: string, quote: char): (r: Parsed<(string, string)>)
    ensures r.Ok? ==> |r.value.1| < |s|
  {
    if s == "" then Err(UnterminatedQuote)
    else if s[0] == quote then Ok(("", s[1..]))
    else if s[0] != '\\' then WithChar(s[0], QuotedKey(s[1..], quote))
    else if |s| == 1 then Err(UnterminatedEscape)
    else match Unescaped(s[1])
      case None => Err(UnsupportedEscape)
      case Some(c) => WithChar(c, QuotedKey(s[2..], quote))
  }

  function WithChar(c: char, r: Parsed<(string, string)>): Parsed<(string, string)> {
    match r
    case Ok((key, rest)) => Ok(([c] + key, rest))
    case Err(e) => Err(e)
  }

  ghost function WithSegments(front: seq<Segment>, r: Parsed<seq<Segment>>): Parsed<seq<Segment>> {
    match r
    case Ok(rest) => Ok(front + rest)
    case Err(e) => Err(e)
  }

  /** The segment a text begins with, and the text behind it. */
  ghost function FirstSegment(s: string): (r: Parsed<(Segment, string)>)
    requires s != "" && s[0] != '.'
    ensures r.Ok? ==> |r.value.1| < |s|
  {
    if s[0] != '[' then BareSegment(s)
    else if |s| == 1 then Err(UnterminatedBracket)
    else if s[1] == '"' || s[1] == '\'' then QuotedSegment(QuotedKey(s[2..], s[1]))
    else IndexSegment(s[1..])
  }

  ghost function BareSegment(s: string): (r: Parsed<(Segment, string)>)
    ensures r.Ok? ==> |r.value.1| < |s|
  {
    var n := UnquotedLength(s);
    var key := Trim(s[..n]);
    if key == "" then Err(EmptyKey) else Ok((Key(key), s[n..]))
  }

  ghost function QuotedSegment(quoted: Parsed<(string, string)>): (r: Parsed<(Segment, string)>)
    ensures r.Ok? ==> quoted.Ok? && |r.value.1| < |quoted.value.1|
  {
    match quoted
    case Err(e) => Err(e)
    case Ok((key, rest)) => if rest == "" || rest[0] != ']' then Err(QuoteWithoutBracket) else Ok((Key(key), rest[1..]))
  }

  ghost function IndexSegment(s: string): (r: Parsed<(Segment, string)>)
    ensures r.Ok? ==> |r.value.1| < |s|
  {
    var n := LengthToBracket(s);
    if n == |s| then Err(UnterminatedIndex)
    else match IndexValue(s[..n])
      case Err(e) => Err(e)
      case Ok(index) => Ok((Index(index), s[n + 1..]))
  }

  /** The segments of a path whose root mark is already removed. */
  ghost function Segments(s: string): Parsed<seq<Segment>>
    decreases |s|
  {
    if s == "" then Ok([])
    else if s[0] == '.' then (if |s| == 1 then Err(EndsWithDot) else Segments(s[1..]))
    else match FirstSegment(s)
      case Err(e) => Err(e)
      case Ok((segment, rest)) => WithSegments([segment], Segments(rest))
  }

  /** A leading root mark, with the dot that may follow it. */
  function RootLength(path: string): (n: nat)
    ensures n <= |path|
  {
    if path == "" || path[0] != '$' then 0 else if |path| > 1 && path[1] == '.' then 2 else 1
  }

  ghost function Meaning(raw: string): Parsed<seq<Segment>> {
    var path := Trim(raw);
    Segments(path[RootLength(path)..])
  }

  // ---------------------------------------------------------------------------------------
  // The parser
  // ---------------------------------------------------------------------------------------

  method TrimString(value: string) returns (r: string)
    ensures r == Trim(value)
  {
    var first := 0;
    while first < |value| && IsSpace(value[first])
      invariant 0 <= first <= |value|
      invariant forall i :: 0 <= i < first ==> IsSpace(value[i])
    {
      first := first + 1;
    }
    var last := |value|;
    while last > first && IsSpace(value[last - 1])
      invariant first <= last <= |value|
      invariant forall i :: last <= i < |value| ==> IsSpace(value[i])
    {
      last := last - 1;
    }
    r := value[first..last];
    TrimIs(value, first, last);
  }

  lemma TrimIs(s: string, first: nat, last: nat)
    requires first <= last <= |s|
    requires forall i :: 0 <= i < first || last <= i < |s| ==> IsSpace(s[i])
    requires first == |s| || !IsSpace(s[first])
    requires first == last || !IsSpace(s[last - 1])
    ensures Trim(s) == s[first..last]
  {
    TrimLeftIs(s, first);
    TailTrims(s, s[first..], first, last);
  }

  lemma TailTrims(s: string, body: string, first: nat, last: nat)
    requires first <= last <= |s| && body == s[first..]
    requires forall i :: last <= i < |s| ==> IsSpace(s[i])
    requires first == last || !IsSpace(s[last - 1])
    ensures TrimRight(body) == s[first..last]
  {
    forall i | last - first <= i < |body| ensures IsSpace(body[i]) {
      assert body[i] == s[first + i];
    }
    TrimRightIs(body, last - first);
    assert body[..last - first] == s[first..last];
  }

  lemma {:induction false} TrimLeftIs(s: string, first: nat)
    requires first <= |s| && forall i :: 0 <= i < first ==> IsSpace(s[i])
    requires first == |s| || !IsSpace(s[first])
    ensures TrimLeft(s) == s[first..]
  {
    if first > 0 {
      TrimLeftIs(s[1..], first - 1);
      assert s[1..][first - 1..] == s[first..];
    }
  }

  lemma {:induction false} TrimRightIs(s: string, last: nat)
    requires last <= |s| && forall i :: last <= i < |s| ==> IsSpace(s[i])
    requires last == 0 || !IsSpace(s[last - 1])
    ensures TrimRight(s) == s[..last]
  {
    if last < |s| {
      TrimRightIs(s[..|s| - 1], last);
      assert s[..|s| - 1][..last] == s[..last];
    } else {
      assert s[..last] == s;
    }
  }

  lemma EmptyTrims(s: string)
    requires Trim(s) != ""
    ensures s != ""
  {
  }

  method ParseUnsignedIndex(text: string, begin: nat, end: nat) returns (r: Parsed<nat>)
    requires end <= |text|
    ensures begin <= end ==> r == IndexValue(text[begin..end])
    ensures begin > end ==> r == Err(EmptyIndex)
  {
    if begin >= end {
      return Err(EmptyIndex);
    }
    var value := 0;
    var pos := begin;
    while pos < end
      invariant begin <= pos <= end
      invariant Decimal.AllDigits(text[begin..pos]) && value == Decimal.Value(text[begin..pos]) % SIZE_LIMIT
    {
      var ch := text[pos];
      if !Decimal.IsDigit(ch) {
        assert text[begin..end][pos - begin] == ch;
        return Err(IndexNotDigits);
      }
      var longer := text[begin..pos + 1];
      assert longer[..|longer| - 1] == text[begin..pos];
      assert forall i :: 0 <= i < |longer| - 1 ==> longer[i] == text[begin..pos][i];
      WrapStep(Decimal.Value(text[begin..pos]), Decimal.DigitValue(ch), SIZE_LIMIT);
      value := (value * 10 + Decimal.DigitValue(ch)) % SIZE_LIMIT;
      pos := pos + 1;
    }
    r := Ok(value);
  }

  /** Wrapping at every digit is wrapping once at the end. */
  lemma WrapStep(v: nat, digit: nat, m: nat)
    requires m > 0
    ensures (v % m * 10 + digit) % m == (v * 10 + digit) % m
  {
    var high, low := v / m, v % m;
    var wrapped := low * 10 + digit;
    var q, r := wrapped / m, wrapped % m;
    assert v == high * m + low && wrapped == q * m + r;
    Distribute(10 * high, q, m);
    TenTimes(high, m);
    QuotientUnique(v * 10 + digit, m, 10 * high + q, r);
  }

  lemma Distribute(a: nat, b: nat, m: nat)
    ensures (a + b) * m == a * m + b * m
  {
  }

  lemma TenTimes(a: nat, m: nat)
    ensures 10 * a * m == 10 * (a * m)
  {
  }

  lemma QuotientUnique(x: nat, m: nat, q: nat, r: nat)
    requires m > 0 && x == q * m + r && r < m
    ensures x % m == r
  {
    var d: int := x / m - q;
    assert d * m == r - x % m;
    assert d >= 1 ==> d * m >= m;
    assert d <= -1 ==> d * m <= -1 * m;
  }

  /** `pos` stands on the opening quote and is left behind the closing one. */
  method ParseQuotedKey(text: string, pos: nat) returns (r: Parsed<string>, next: nat)
    requires pos < |text|
    ensures var meant := QuotedKey(text[pos + 1..], text[pos]);
            && (meant.Err? ==> r == Err(meant.error))
            && (meant.Ok? ==> r == Ok(meant.value.0) && next <= |text| && text[next..] == meant.value.1)
    ensures r.Ok? ==> pos < next <= |text|
  {
    var quote := text[pos];
    next := pos + 1;
    var out := "";
    WithNothing(QuotedKey(text[next..], quote), Ok([]));
    while next < |text|
      invariant pos < next <= |text|
      invariant QuotedKey(text[pos + 1..], quote) == WithChars(out, QuotedKey(text[next..], quote))
    {
      var ch := text[next];
      assert text[next..][1..] == text[next + 1..];
      next := next + 1;
      if ch == quote {
        assert out + "" == out;
        return Ok(out), next;
      }
      if ch != '\\' {
        WithCharsStep(out, ch, QuotedKey(text[next..], quote));
        out := out + [ch];
        continue;
      }
      if next >= |text| {
        return Err(UnterminatedEscape), next;
      }
      var escaped := text[next];
      assert text[next - 1..][2..] == text[next + 1..];
      next := next + 1;
      var meant := Unescaped(escaped);
      if meant.None? {
        return Err(UnsupportedEscape), next;
      }
      WithCharsStep(out, meant.value, QuotedKey(text[next..], quote));
      out := out + [meant.value];
    }
    r := Err(UnterminatedQuote);
  }

  ghost function WithChars(front: string, r: Parsed<(string, string)>): Parsed<(string, string)> {
    match r
    case Ok((key, rest)) => Ok((front + key, rest))
    case Err(e) => Err(e)
  }

  lemma WithCharsStep(front: string, c: char, r: Parsed<(string, string)>)
    ensures WithChars(front, WithChar(c, r)) == WithChars(front + [c], r)
  {
    if r.Ok? {
      assert front + ([c] + r.value.0) == front + [c] + r.value.0;
    }
  }

  lemma WithNothing(keys: Parsed<(string, string)>, segments: Parsed<seq<Segment>>)
    ensures WithChars("", keys) == keys && WithSegments([], segments) == segments
  {
    if keys.Ok? {
      assert "" + keys.value.0 == keys.value.0;
    }
    if segments.Ok? {
      assert [] + segments.value == segments.value;
    }
  }

  lemma WithSegmentsStep(front: seq<Segment>, s: Segment, r: Parsed<seq<Segment>>)
    ensures WithSegments(front, WithSegments([s], r)) == WithSegments(front + [s], r)
  {
    if r.Ok? {
      assert front + ([s] + r.value) == front + [s] + r.value;
    }
  }

  /** How the segments behind a position go on. */
  lemma SegmentsFrom(path: string, pos: nat)
    requires pos < |path|
    ensures var here := Segments(path[pos..]);
            if path[pos] == '.' then here == if pos + 1 == |path| then Err(EndsWithDot) else Segments(path[pos + 1..])
            else here == match FirstSegment(path[pos..])
                         case Err(e) => Err(e)
                         case Ok((segment, rest)) => WithSegments([segment], Segments(rest))
  {
    hide FirstSegment, WithSegments;
    assert path[pos..][1..] == path[pos + 1..] && path[pos..][0] == path[pos];
  }

  method ParseDataPickPath(rawPath: string) returns (r: Parsed<seq<Segment>>)
    ensures r == Meaning(rawPath)
  {
    hide Trim, Segments, FirstSegment;
    var path := TrimString(rawPath);
    var segments: seq<Segment> := [];
    if path == "" || path == "$" {
      NoSegments();
      assert path[RootLength(path)..] == "";
      return Ok(segments);
    }
    var pos := 0;
    if path[pos] == '$' {
      pos := pos + 1;
      if pos < |path| && path[pos] == '.' {
        pos := pos + 1;
      }
    }
    WithNothing(Ok(("", "")), Segments(path[pos..]));
    while pos < |path|
      invariant 0 <= pos <= |path|
      invariant Meaning(rawPath) == WithSegments(segments, Segments(path[pos..]))
    {
      hide Meaning;
      SegmentsFrom(path, pos);
      if path[pos] == '.' {
        pos := pos + 1;
        if pos >= |path| {
          return Err(EndsWithDot);
        }
        continue;
      }
      var segment, next := ParseSegment(path, pos);
      if segment.Err? {
        return Err(segment.error);
      }
      WithSegmentsStep(segments, segment.value, Segments(path[next..]));
      segments := segments + [segment.value];
      pos := next;
    }
    NoSegments();
    assert path[pos..] == "" && segments + [] == segments;
    r := Ok(segments);
  }

  lemma NoSegments()
    ensures Segments("") == Ok([])
  {
  }

  /** One pass of the parser's loop over a bracket or a bare key. */
  method ParseSegment(path: string, start: nat) returns (r: Parsed<Segment>, pos: nat)
    requires start < |path| && path[start] != '.'
    ensures r.Err? ==> FirstSegment(path[start..]) == Err(r.error)
    ensures r.Ok? ==> start < pos <= |path| && FirstSegment(path[start..]) == Ok((r.value, path[pos..]))
  {
    if path[start] == '[' {
      if start + 1 >= |path| {
        return Err(UnterminatedBracket), start;
      }
      if path[start + 1] == '"' || path[start + 1] == '\'' {
        r, pos := ParseQuotedSegment(path, start);
      } else {
        r, pos := ParseIndexSegment(path, start);
      }
    } else {
      r, pos := ParseBareSegment(path, start);
    }
  }

  method ParseQuotedSegment(path: string, start: nat) returns (r: Parsed<Segment>, pos: nat)
    requires start + 1 < |path| && path[start] == '[' && (path[start + 1] == '"' || path[start + 1] == '\'')
    ensures r.Err? ==> FirstSegment(path[start..]) == Err(r.error)
    ensures r.Ok? ==> start < pos <= |path| && FirstSegment(path[start..]) == Ok((r.value, path[pos..]))
  {
    assert path[start..][2..] == path[start + 2..];
    var key, next := ParseQuotedKey(path, start + 1);
    if key.Err? {
      return Err(key.error), next;
    }
    if next >= |path| || path[next] != ']' {
      return Err(QuoteWithoutBracket), next;
    }
    assert path[next..][1..] == path[next + 1..];
    return Ok(Key(key.value)), next + 1;
  }

  method ParseIndexSegment(path: string, start: nat) returns (r: Parsed<Segment>, pos: nat)
    requires start + 1 < |path| && path[start] == '[' && path[start + 1] != '"' && path[start + 1] != '\''
    ensures r.Err? ==> FirstSegment(path[start..]) == Err(r.error)
    ensures r.Ok? ==> start < pos <= |path| && FirstSegment(path[start..]) == Ok((r.value, path[pos..]))
  {
    ghost var rest := path[start..];
    var indexBegin := start + 1;
    pos := indexBegin;
    while pos < |path| && path[pos] != ']'
      invariant indexBegin <= pos <= |path|
      invariant forall i :: indexBegin <= i < pos ==> path[i] != ']'
    {
      pos := pos + 1;
    }
    assert forall k :: 0 <= k < |path| - indexBegin ==> rest[1..][k] == path[indexBegin + k];
    LengthToBracketIs(rest[1..], pos - indexBegin);
    assert rest[1..][..pos - indexBegin] == path[indexBegin..pos];
    if pos >= |path| {
      return Err(UnterminatedIndex), pos;
    }
    var index := ParseUnsignedIndex(path, indexBegin, pos);
    if index.Err? {
      return Err(index.error), pos;
    }
    assert rest[1..][pos - indexBegin + 1..] == path[pos + 1..];
    return Ok(Index(index.value)), pos + 1;
  }

  method ParseBareSegment(path: string, start: nat) returns (r: Parsed<Segment>, pos: nat)
    requires start < |path| && path[start] != '.' && path[start] != '['
    ensures r.Err? ==> FirstSegment(path[start..]) == Err(r.error)
    ensures r.Ok? ==> start < pos <= |path| && FirstSegment(path[start..]) == Ok((r.value, path[pos..]))
  {
    hide Trim, UnquotedLength;
    ghost var rest := path[start..];
    pos := start;
    while pos < |path| && IsUnquotedKeyChar(path[pos])
      invariant start <= pos <= |path|
      invariant forall i :: start <= i < pos ==> IsUnquotedKeyChar(path[i])
    {
      pos := pos + 1;
    }
    BareLength(path, start, pos);
    var key := TrimString(path[start..pos]);
    if key == "" {
      return Err(EmptyKey), pos;
    }
    TrimmedFrom(path, start, pos);
    r := Ok(Key(key));
  }

  lemma BareLength(path: string, start: nat, pos: nat)
    requires start <= pos <= |path| && forall i :: start <= i < pos ==> IsUnquotedKeyChar(path[i])
    requires pos == |path| || !IsUnquotedKeyChar(path[pos])
    ensures UnquotedLength(path[start..]) == pos - start
    ensures path[start..][..pos - start] == path[start..pos] && path[start..][pos - start..] == path[pos..]
  {
    var rest := path[start..];
    assert forall i :: 0 <= i < pos - start ==> rest[i] == path[start + i];
    UnquotedLengthIs(rest, pos - start);
  }

  lemma TrimmedFrom(path: string, start: nat, pos: nat)
    requires start <= pos <= |path| && Trim(path[start..pos]) != ""
    ensures start < pos
  {
    EmptyTrims(path[start..pos]);
  }

  // ---------------------------------------------------------------------------------------
  // A printer
  // ---------------------------------------------------------------------------------------

  /** Keys that may stand without quotes; at the very front a dollar sign would be the root mark. */
  predicate IsBare(key: string, first: bool) {
    key != "" && Trimmed(key) && UnquotedLength(key) == |key| && !(first && key[0] == '$')
  }

  function EscapedChar(c: char): string {
    if c == '\\' || c == '"' || c == '\'' then ['\\', c]
    else if c == '\n' then "\\n" else if c == '\t' then "\\t" else [c]
  }

  function EscapedKey(key: string): string {
    if key == "" then "" else EscapedChar(key[0]) + EscapedKey(key[1..])
  }

  function PrintSegment(segment: Segment, first: bool): string {
    match segment
    case Index(n) => "[" + Decimal.Text(n) + "]"
    case Key(key) => if IsBare(key, first) then (if first then key else "." + key) else "[\"" + EscapedKey(key) + "\"]"
  }

  function PrintFrom(segments: seq<Segment>, first: bool): string {
    if segments == [] then "" else PrintSegment(segments[0], first) + PrintFrom(segments[1..], false)
  }

  function Print(segments: seq<Segment>): string {
    PrintFrom(segments, true)
  }

  ghost predicate IndexesFit(segments: seq<Segment>) {
    forall s :: s in segments && s.Index? ==> s.index < SIZE_LIMIT
  }

  /** What follows a printed segment never continues a bare key. */
  ghost predicate StartsSegment(rest: string) {
    rest == "" || rest[0] == '.' || rest[0] == '['
  }

  lemma PrintStartsSegment(segments: seq<Segment>)
    ensures StartsSegment(PrintFrom(segments, false))
  {
    if segments != [] {
      var p := PrintSegment(segments[0], false);
      assert p != "" && (p[0] == '.' || p[0] == '[');
    }
  }

  predicate IsQuote(c: char) {
    c == '"' || c == '\''
  }

  /** Every key, escaped and quoted either way, is read back. */
  lemma {:induction false} QuotedKeyOfEscaped(key: string, quote: char, rest: string)
    requires IsQuote(quote)
    ensures QuotedKey(EscapedKey(key) + [quote] + rest, quote) == Ok((key, rest))
  {
    var s := EscapedKey(key) + [quote] + rest;
    if key == "" {
      assert s == [quote] + rest;
    } else {
      var tail := EscapedKey(key[1..]) + [quote] + rest;
      QuotedKeyOfEscaped(key[1..], quote, rest);
      assert s == EscapedChar(key[0]) + tail;
      EscapedCharReads(key[0], quote, tail);
      assert key == [key[0]] + key[1..];
    }
  }

  lemma EscapedCharReads(c: char, quote: char, tail: string)
    requires IsQuote(quote)
    ensures QuotedKey(EscapedChar(c) + tail, quote) == WithChar(c, QuotedKey(tail, quote))
  {
    var s := EscapedChar(c) + tail;
    if |EscapedChar(c)| == 2 {
      assert s[2..] == tail;
    } else {
      assert s[1..] == tail;
    }
  }

  /** No other escapes are read. */
  lemma OtherEscapesFail(c: char, quote: char, rest: string)
    requires IsQuote(quote)
    ensures Unescaped(c).None? <==> c !in "\\\"'nt"
    ensures c !in "\\\"'nt" ==> QuotedKey(['\\', c] + rest, quote) == Err(UnsupportedEscape)
  {
    var s := ['\\', c] + rest;
    assert s[2..] == rest;
    assert forall k :: 0 <= k < 5 ==> "\\\"'nt"[k] in "\\\"'nt";
    assert "\\\"'nt"[0] == '\\' && "\\\"'nt"[1] == '"' && "\\\"'nt"[2] == '\'' && "\\\"'nt"[3] == 'n';
    assert "\\\"'nt"[4] == 't';
  }

  lemma TrimmedUntouched(s: string)
    requires Trimmed(s)
    ensures Trim(s) == s
  {
  }

  lemma BareParses(key: string, rest: string)
    requires key != "" && Trimmed(key) && UnquotedLength(key) == |key| && StartsSegment(rest)
    ensures BareSegment(key + rest) == Ok((Key(key), rest))
    ensures IsUnquotedKeyChar((key + rest)[0])
  {
    var s := key + rest;
    assert forall i :: 0 <= i < |key| ==> IsUnquotedKeyChar(key[i]);
    UnquotedLengthIs(s, |key|);
    TrimmedUntouched(key);
    assert s[..|key|] == key && s[|key|..] == rest;
  }

  lemma QuotedParses(key: string, quote: char, rest: string)
    requires IsQuote(quote)
    ensures FirstSegment(['[', quote] + EscapedKey(key) + [quote, ']'] + rest) == Ok((Key(key), rest))
  {
    var s := ['[', quote] + EscapedKey(key) + [quote, ']'] + rest;
    assert s[2..] == EscapedKey(key) + [quote] + ("]" + rest);
    QuotedKeyOfEscaped(key, quote, "]" + rest);
    assert ("]" + rest)[1..] == rest;
  }

  lemma DigitsParse(digits: string, rest: string)
    requires digits != "" && Decimal.AllDigits(digits)
    ensures FirstSegment("[" + digits + "]" + rest) == Ok((Index(Decimal.Value(digits) % SIZE_LIMIT), rest))
  {
    var s := "[" + digits + "]" + rest;
    var tail := digits + ("]" + rest);
    assert s[1..] == tail;
    LengthToBracketIs(tail, |digits|);
    assert Decimal.IsDigit(digits[0]) && s[1] == digits[0];
    assert tail[..|digits|] == digits && tail[|digits| + 1..] == rest;
  }

  lemma {:induction false} PrintedSegmentsParse(segments: seq<Segment>, first: bool)
    requires IndexesFit(segments)
    ensures Segments(PrintFrom(segments, first)) == Ok(segments)
  {
    if segments != [] {
      PrintedSegmentsParse(segments[1..], false);
      PrintStartsSegment(segments[1..]);
      assert segments[0] in segments && segments == [segments[0]] + segments[1..];
      PrintedSegmentParses(segments[0], first, PrintFrom(segments[1..], false));
    }
  }

  lemma PrintedSegmentParses(segment: Segment, first: bool, rest: string)
    requires segment.Index? ==> segment.index < SIZE_LIMIT
    requires StartsSegment(rest)
    ensures Segments(PrintSegment(segment, first) + rest) == WithSegments([segment], Segments(rest))
  {
    hide Segments, StartsSegment;
    match segment
    case Index(n) => IndexPrints(n, rest);
    case Key(key) => KeyPrints(key, first, rest);
  }

  lemma KeyPrints(key: string, first: bool, rest: string)
    requires StartsSegment(rest)
    ensures Segments(PrintSegment(Key(key), first) + rest) == WithSegments([Key(key)], Segments(rest))
  {
    if !IsBare(key, first) {
      QuotedParses(key, '"', rest);
      FirstThenRest("[\"" + EscapedKey(key) + "\"]" + rest, Key(key), rest);
    } else if first {
      BarePrints(key, rest);
    } else {
      BarePrints(key, rest);
      DotSkipped(key, rest);
    }
  }

  lemma IndexPrints(n: nat, rest: string)
    ensures Segments("[" + Decimal.Text(n) + "]" + rest) == WithSegments([Index(n % SIZE_LIMIT)], Segments(rest))
  {
    Decimal.ValueOfText(n);
    BracketedDigits(Decimal.Text(n), rest);
  }

  lemma BracketedDigits(digits: string, rest: string)
    requires digits != "" && Decimal.AllDigits(digits)
    ensures Segments("[" + digits + "]" + rest)
            == WithSegments([Index(Decimal.Value(digits) % SIZE_LIMIT)], Segments(rest))
  {
    DigitsParse(digits, rest);
    FirstThenRest("[" + digits + "]" + rest, Index(Decimal.Value(digits) % SIZE_LIMIT), rest);
  }

  lemma BarePrints(key: string, rest: string)
    requires key != "" && Trimmed(key) && UnquotedLength(key) == |key| && StartsSegment(rest)
    ensures Segments(key + rest) == WithSegments([Key(key)], Segments(rest))
  {
    BareParses(key, rest);
    FirstThenRest(key + rest, Key(key), rest);
  }

  lemma FirstThenRest(s: string, segment: Segment, rest: string)
    requires s != "" && s[0] != '.' && FirstSegment(s) == Ok((segment, rest))
    ensures Segments(s) == WithSegments([segment], Segments(rest))
  {
  }

  lemma DotSkipped(key: string, rest: string)
    requires key != ""
    ensures Segments("." + key + rest) == Segments(key + rest)
  {
    assert ("." + key + rest)[1..] == key + rest;
  }

  lemma {:induction false} PrintEndsWell(segments: seq<Segment>, first: bool)
    requires segments != []
    ensures var p := PrintFrom(segments, first); p != "" && !IsSpace(p[|p| - 1])
  {
    var p := PrintSegment(segments[0], first);
    assert p != "" && !IsSpace(p[|p| - 1]);
    if segments[1..] != [] {
      PrintEndsWell(segments[1..], false);
    }
  }

  /** Parsing a printed path gives the segments back. */
  lemma PrintParses(segments: seq<Segment>)
    requires IndexesFit(segments)
    ensures Meaning(Print(segments)) == Ok(segments)
  {
    var p := Print(segments);
    PrintedSegmentsParse(segments, true);
    if segments != [] {
      PrintEndsWell(segments, true);
      var head := PrintSegment(segments[0], true);
      assert head != "" && p[0] == head[0] && head[0] != '$' && !IsSpace(head[0]);
    }
    MeaningOfTrimmed(p);
  }

  /** Behind a root mark, with or without its dot, a printed path means the same. */
  lemma RootedParses(segments: seq<Segment>)
    requires IndexesFit(segments)
    ensures Meaning("$." + Print(segments)) == Ok(segments)
    ensures Meaning("$" + PrintFrom(segments, false)) == Ok(segments)
  {
    hide Segments, Meaning, IsSpace, PrintFrom;
    PrintedSegmentsParse(segments, true);
    PrintedSegmentsParse(segments, false);
    if segments == [] {
      PrintedNothing();
      JustRoot();
      JustRootDot();
    } else {
      PrintEndsWell(segments, true);
      PrintEndsWell(segments, false);
      BehindRootDot(Print(segments));
      PrintStartsSegment(segments);
      NoLoneDot(segments);
      var p := PrintFrom(segments, false);
      if p[0] == '.' {
        DotParses(p);
      } else {
        BehindRoot(p);
      }
    }
  }

  lemma PrintedNothing()
    ensures PrintFrom([], false) == "" && Print([]) == "" && Segments("") == Ok([])
  {
  }

  lemma JustRoot()
    ensures Meaning("$" + "") == Segments("")
  {
    TrimmedUntouched("$");
    assert "$" + "" == "$" && "$"[1..] == "";
  }

  lemma JustRootDot()
    ensures Meaning("$." + "") == Segments("")
  {
    TrimmedUntouched("$.");
    assert "$." + "" == "$." && "$."[2..] == "";
  }

  lemma NoLoneDot(segments: seq<Segment>)
    requires segments != []
    ensures |PrintFrom(segments, false)| > 1
  {
    assert |PrintSegment(segments[0], false)| > 1;
  }

  lemma DotParses(p: string)
    requires |p| > 1 && p[0] == '.' && !IsSpace(p[|p| - 1])
    ensures Meaning("$" + p) == Segments(p)
  {
    hide Meaning, IsSpace, Segments;
    var behind := p[1..];
    assert p == "." + behind && p[|p| - 1] == behind[|behind| - 1];
    BehindRootDot(behind);
    assert "$." + behind == "$" + p;
    DotSkipped(behind, "");
    assert "." + behind + "" == p && behind + "" == behind;
  }

  lemma RootedTrimmed(root: string, p: string)
    requires root != "" && root[0] == '$' && p != "" && !IsSpace(p[|p| - 1])
    ensures Trimmed(root + p) && (root + p)[0] == '$' && (root + p)[|root|..] == p
  {
    var s := root + p;
    assert s[0] == root[0] && s[|s| - 1] == p[|p| - 1];
  }

  lemma MeaningOfRooted(s: string)
    requires Trimmed(s)
    ensures Meaning(s) == Segments(s[RootLength(s)..])
  {
    TrimmedUntouched(s);
    hide RootLength, Segments;
  }

  lemma BehindRootDot(p: string)
    requires p != "" && !IsSpace(p[|p| - 1])
    ensures Meaning("$." + p) == Segments(p)
  {
    hide Meaning, Segments, IsSpace;
    var s := "$." + p;
    RootedTrimmed("$.", p);
    MeaningOfRooted(s);
    assert s[1] == '.';
  }

  lemma BehindRoot(p: string)
    requires p != "" && p[0] != '.' && !IsSpace(p[|p| - 1])
    ensures Meaning("$" + p) == Segments(p)
  {
    hide Meaning, Segments, IsSpace;
    var s := "$" + p;
    RootedTrimmed("$", p);
    MeaningOfRooted(s);
    assert s[1] == p[0];
  }

  lemma MeaningOfTrimmed(s: string)
    requires Trimmed(s) && (s == "" || s[0] != '$')
    ensures Meaning(s) == Segments(s)
  {
    TrimmedUntouched(s);
    assert s[0..] == s;
  }

  const WHITESPACE := " \t\n\U{000B}\U{000C}\r"

  lemma SpacesAre(c: char)
    ensures IsSpace(c) <==> c in WHITESPACE
  {
    assert WHITESPACE[0] == ' ' && WHITESPACE[1] == '\t' && WHITESPACE[2] == '\n' && WHITESPACE[3] == '\U{000B}';
    assert WHITESPACE[4] == '\U{000C}' && WHITESPACE[5] == '\r';
    assert forall k :: 0 <= k < 6 ==> WHITESPACE[k] in WHITESPACE;
  }

  lemma {:induction false} TrimsRight(s: string, after: string)
    requires (forall i :: 0 <= i < |after| ==> IsSpace(after[i])) && (s == "" || !IsSpace(s[|s| - 1]))
    ensures TrimRight(s + after) == s
  {
    if after != "" {
      assert (s + after)[..|s + after| - 1] == s + after[..|after| - 1];
      TrimsRight(s, after[..|after| - 1]);
    } else {
      assert s + after == s;
    }
  }

  lemma {:induction false} TrimsLeft(before: string, s: string)
    requires (forall i :: 0 <= i < |before| ==> IsSpace(before[i])) && (s == "" || !IsSpace(s[0]))
    ensures TrimLeft(before + s) == s
  {
    if before != "" {
      assert (before + s)[1..] == before[1..] + s;
      TrimsLeft(before[1..], s);
    } else {
      assert before + s == s;
    }
  }

  /** A key of any characters but dots and brackets, with whitespace around it, is that key without the whitespace. */
  lemma PlainKeyParses(before: string, key: string, after: string)
    requires (forall i :: 0 <= i < |before| ==> before[i] in WHITESPACE)
    requires (forall i :: 0 <= i < |after| ==> after[i] in WHITESPACE)
    requires key != "" && key[0] != '$' && key[0] !in WHITESPACE && key[|key| - 1] !in WHITESPACE
    requires forall i :: 0 <= i < |key| ==> key[i] !in {'.', '[', ']'}
    ensures Meaning(before + key + after) == Ok([Key(key)])
  {
    hide IsSpace;
    forall c: char ensures IsSpace(c) <==> c in WHITESPACE {
      SpacesAre(c);
    }
    assert before + key + after == before + (key + after);
    TrimsLeft(before, key + after);
    TrimsRight(key, after);
    UnquotedLengthIs(key, |key|);
    BarePrints(key, "");
    assert key + "" == key && key[0..] == key;
    NoMoreSegments(Key(key));
  }

  /** Behind a printed path every broken continuation gives its own error. */
  lemma {:induction false} ErrorBehind(segments: seq<Segment>, first: bool, tail: string)
    requires IndexesFit(segments) && StartsSegment(tail) && Segments(tail).Err?
    ensures Segments(PrintFrom(segments, first) + tail) == Segments(tail)
  {
    hide Segments, StartsSegment;
    if segments == [] {
      assert PrintFrom(segments, first) + tail == tail;
    } else {
      var rest := PrintFrom(segments[1..], false);
      ErrorBehind(segments[1..], false, tail);
      PrintStartsBefore(segments[1..], tail);
      assert segments[0] in segments;
      assert PrintFrom(segments, first) + tail == PrintSegment(segments[0], first) + (rest + tail);
      PrintedSegmentParses(segments[0], first, rest + tail);
    }
  }

  lemma PrintStartsBefore(segments: seq<Segment>, tail: string)
    requires StartsSegment(tail)
    ensures StartsSegment(PrintFrom(segments, false) + tail)
  {
    PrintStartsSegment(segments);
    if PrintFrom(segments, false) == "" {
      assert PrintFrom(segments, false) + tail == tail;
    }
  }

  lemma BrokenTails()
    ensures Segments(".") == Err(EndsWithDot) && Segments("[") == Err(UnterminatedBracket)
    ensures Segments("]") == Err(EmptyKey)
  {
    UnquotedLengthIs("]", 0);
  }

  lemma BrokenIndexes()
    ensures Segments("[1") == Err(UnterminatedIndex) && Segments("[]") == Err(EmptyIndex)
    ensures Segments("[x]") == Err(IndexNotDigits)
  {
    LengthToBracketIs("1", 1);
    LengthToBracketIs("]", 0);
    LengthToBracketIs("x]", 1);
    assert "[1"[1..] == "1" && "[]"[1..] == "]" && "[x]"[1..] == "x]" && "x]"[..1] == "x";
    assert !Decimal.IsDigit("x"[0]);
  }

  lemma BrokenQuotes()
    ensures Segments("[\"") == Err(UnterminatedQuote) && Segments("[\"\"") == Err(QuoteWithoutBracket)
    ensures Segments("[\"\\") == Err(UnterminatedEscape) && Segments("[\"\\x") == Err(UnsupportedEscape)
  {
    assert "[\""[2..] == "" && "[\"\""[2..] == "\"" && "\""[1..] == "";
    assert "[\"\\"[2..] == "\\" && "[\"\\x"[2..] == "\\x";
  }

  lemma {:induction false} SegmentsFit(s: string)
    requires Segments(s).Ok?
    ensures IndexesFit(Segments(s).value)
    decreases |s|
  {
    if s == "" {
    } else if s[0] == '.' {
      SegmentsFit(s[1..]);
    } else {
      SegmentsFit(FirstSegment(s).value.1);
    }
  }

  /** Every accepted path means the same as the printed form of what it means. */
  lemma PrintNormalizes(raw: string)
    requires Meaning(raw).Ok?
    ensures Meaning(Print(Meaning(raw).value)) == Meaning(raw)
  {
    MeaningFits(raw);
    PrintParses(Meaning(raw).value);
  }

  lemma MeaningFits(raw: string)
    requires Meaning(raw).Ok?
    ensures IndexesFit(Meaning(raw).value)
  {
    var path := Trim(raw);
    SegmentsFit(path[RootLength(path)..]);
  }

  /** So a segment list survives printing and parsing exactly when its indexes fit into 64 bits. */
  lemma PrintParsesIff(segments: seq<Segment>)
    ensures Meaning(Print(segments)) == Ok(segments) <==> IndexesFit(segments)
  {
    hide Meaning, Print;
    if IndexesFit(segments) {
      PrintParses(segments);
    }
    if Meaning(Print(segments)) == Ok(segments) {
      MeaningFits(Print(segments));
    }
  }

  /** An index of 2^64 or more is not rejected: it selects the index modulo 2^64. */
  lemma HugeIndexWraps(n: nat)
    ensures Meaning("[" + Decimal.Text(n) + "]") == Ok([Index(n % SIZE_LIMIT)])
  {
    Decimal.ValueOfText(n);
    BracketedMeaning(Decimal.Text(n));
  }

  lemma BracketedMeaning(digits: string)
    requires digits != "" && Decimal.AllDigits(digits)
    ensures Meaning("[" + digits + "]") == Ok([Index(Decimal.Value(digits) % SIZE_LIMIT)])
  {
    var s := "[" + digits + "]";
    assert s[0] == '[' && s[|s| - 1] == ']';
    MeaningOfTrimmed(s);
    BracketedDigits(digits, "");
    assert s + "" == s;
    NoMoreSegments(Index(Decimal.Value(digits) % SIZE_LIMIT));
  }

  lemma NoMoreSegments(last: Segment)
    ensures WithSegments([last], Segments("")) == Ok([last])
  {
    assert [last] + [] == [last];
  }

  // ---------------------------------------------------------------------------------------
  // Picking
  // ---------------------------------------------------------------------------------------

  ghost function Child(value: Json, segment: Segment): Option<Json> {
    match segment
    case Key(key) => if value.Object? && key in value.members then Some(value.members[key]) else None
    case Index(n) => if value.Array? && n < |value.items| then Some(value.items[n]) else None
  }

  ghost function Picked(root: Json, path: seq<Segment>): Option<Json> {
    if path == [] then Some(root)
    else match Child(root, path[0])
      case None => None
      case Some(child) => Picked(child, path[1..])
  }

  /** An index picks the item behind so many others. */
  lemma PicksItem(before: seq<Json>, item: Json, after: seq<Json>, rest: seq<Segment>)
    ensures Picked(Array(before + [item] + after), [Index(|before|)] + rest) == Picked(item, rest)
  {
    assert ([Index(|before|)] + rest)[1..] == rest;
  }

  /** A key picks the member of that name. */
  lemma PicksMember(others: map<string, Json>, key: string, member: Json, rest: seq<Segment>)
    ensures Picked(Object(others[key := member]), [Key(key)] + rest) == Picked(member, rest)
  {
    assert ([Key(key)] + rest)[1..] == rest;
  }

  /** A value that a segment does not lead on from: of another kind, without the key, or too short. */
  predicate Stops(value: Json, segment: Segment) {
    match segment
    case Key(key) => !value.Object? || key !in value.members
    case Index(n) => !value.Array? || |value.items| <= n
  }

  ghost predicate StopsAt(root: Json, path: seq<Segment>, i: nat) {
    i < |path| && Picked(root, path[..i]).Some? && Stops(Picked(root, path[..i]).value, path[i])
  }

  /** Nothing is found exactly when somewhere the path leads to a value that its next segment does not lead on from. */
  lemma {:induction false} NothingPickedIff(root: Json, path: seq<Segment>)
    ensures Picked(root, path) == None <==> exists i: nat :: StopsAt(root, path, i)
  {
    if path != [] {
      assert path[..0] == [];
      if Stops(root, path[0]) {
        assert StopsAt(root, path, 0);
      } else {
        var child := Child(root, path[0]).value;
        NothingPickedIff(child, path[1..]);
        forall i: nat ensures StopsAt(child, path[1..], i) <==> StopsAt(root, path, i + 1) {
          if i < |path[1..]| {
            assert path[..i + 1][1..] == path[1..][..i];
          }
        }
        assert !StopsAt(root, path, 0);
        if i: nat :| StopsAt(root, path, i) {
          assert StopsAt(child, path[1..], i - 1);
        }
      }
    }
  }

  method PickJsonPath(root: Json, path: seq<Segment>) returns (r: Option<Json>)
    ensures r == Picked(root, path)
  {
    var current := root;
    var i := 0;
    while i < |path|
      invariant 0 <= i <= |path|
      invariant Picked(current, path[i..]) == Picked(root, path)
    {
      assert path[i..][1..] == path[i + 1..];
      match path[i] {
        case Key(key) =>
          if !current.Object? || key !in current.members {
            return None;
          }
          current := current.members[key];
        case Index(n) =>
          if !current.Array? || n >= |current.items| {
            return None;
          }
          current := current.items[n];
      }
      i := i + 1;
    }
    r := Some(current);
  }

  /** Picking along two paths in a row is picking along their concatenation. */
  lemma {:induction false} PickedAppend(root: Json, a: seq<Segment>, b: seq<Segment>)
    ensures Picked(root, a + b) == match Picked(root, a) case None => None case Some(v) => Picked(v, b)
  {
    if a == [] {
      assert a + b == b;
    } else {
      assert (a + b)[1..] == a[1..] + b;
      match Child(root, a[0])
      case None =>
      case Some(child) => PickedAppend(child, a[1..], b);
    }
  }
}
