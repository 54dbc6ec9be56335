/**
 * The filter query language's parser: a query text such as
 * `age >= 30 AND city = 'New York'` becomes a list of conditions, or a
 * failure reported as data.
 */
module QueryParser {
  import opened Wrappers
  import opened Strings
  import opened JsonValues
  import opened Types

  /** The operators, in the order they are tried: on a tie the earlier one wins. */
  const OperatorCount := 14

  function OperatorAt(o: nat): Operator
    requires o < OperatorCount
  {
    match o
    case 0 => GreaterOrEqual
    case 1 => LessOrEqual
    case 2 => NotEqual
    case 3 => Equal
    case 4 => Greater
    case 5 => Less
    case 6 => Contains
    case 7 => StartsWith
    case 8 => EndsWith
    case 9 => Includes
    case 10 => Exists
    case 11 => NotExists
    case 12 => In
    case _ => NotIn
  }

  /** The text of the error a failure stands for. */
  function Message(e: ParseError): string {
    match e
    case NoOperator(c) => "No valid operator found in condition: " + c
    case MissingProperty(c) => "Property name is required in condition: " + c
    case MissingValue(op) => "Value is required for operator: " + OperatorText(op)
    case ArrayValueRequired(op) =>
      "Array value required for '" + OperatorText(op) + "' operator. Use format: [value1, value2, ...]"
  }

  /**
   * The texts tell the failures apart: two failures with the same text are
   * the same failure, so the error `parse` reports as text carries exactly
   * what the failure does.
   */
  lemma MessageDeterminesError(e1: ParseError, e2: ParseError)
    requires Message(e1) == Message(e2)
    ensures e1 == e2
  {
    MessageInitial(e1);
    MessageInitial(e2);
    match e1
    case NoOperator(c) =>
      StripAround("No valid operator found in condition: ", c, e2.condition, "");
    case MissingProperty(c) =>
      StripAround("Property name is required in condition: ", c, e2.condition, "");
    case MissingValue(op) =>
      StripAround("Value is required for operator: ", OperatorText(op), OperatorText(e2.operator), "");
      OperatorTextInjective(op, e2.operator);
    case ArrayValueRequired(op) =>
      StripAround("Array value required for '", OperatorText(op), OperatorText(e2.operator),
        "' operator. Use format: [value1, value2, ...]");
      OperatorTextInjective(op, e2.operator);
  }

  /** Each kind of failure has a text of its own first letter. */
  lemma MessageInitial(e: ParseError)
    ensures |Message(e)| > 0
    ensures Message(e)[0] == match e
      case NoOperator(_) => 'N'
      case MissingProperty(_) => 'P'
      case MissingValue(_) => 'V'
      case ArrayValueRequired(_) => 'A'
  {
  }

  /** Equal texts with the same start and the same end have the same middle. */
  lemma StripAround(prefix: string, x: string, y: string, suffix: string)
    requires prefix + x + suffix == prefix + y + suffix
    ensures x == y
  {
    var u, v := prefix + x + suffix, prefix + y + suffix;
    assert |x| == |y|;
    assert x == u[|prefix|..|prefix| + |x|];
    assert y == v[|prefix|..|prefix| + |y|];
  }

  /** No two operators are written alike. */
  lemma OperatorTextInjective(a: Operator, b: Operator)
    requires OperatorText(a) == OperatorText(b)
    ensures a == b
  {
  }

  // ---------------------------------------------------------------------------
  // Splitting on AND / OR: `text.split(/\s+(AND|OR)\s+/i)`
  // ---------------------------------------------------------------------------

  /** The end of the run of white space that starts at `q`. */
  function SpaceRunEnd(s: string, q: nat): (r: nat)
    requires q <= |s|
    ensures q <= r <= |s|
    ensures forall i :: q <= i < r ==> IsSpace(s[i])
    ensures r == |s| || !IsSpace(s[r])
    decreases |s| - q
  {
    if q < |s| && IsSpace(s[q]) then SpaceRunEnd(s, q + 1) else q
  }

  /** The length of a case-insensitive `AND` (tried first) or `OR` at `r`, or 0. */
  function KeywordLength(s: string, r: nat): nat
    requires r <= |s|
  {
    if r + 3 <= |s| && Upper(s[r..r + 3]) == "AND" then 3
    else if r + 2 <= |s| && Upper(s[r..r + 2]) == "OR" then 2
    else 0
  }

  /** Where a separator match found at some position puts its keyword, and where it ends. */
  datatype Separator = Separator(keywordStart: nat, keywordEnd: nat, end: nat)

  /**
   * The separator pattern matched at `q`: white space, a keyword, white space.
   * Both runs of white space are greedy, so a match at `q` takes the whole
   * run that starts there and the whole run after the keyword.
   */
  function SeparatorAt(s: string, q: nat): (m: Option<Separator>)
    requires q <= |s|
    ensures m.Some? ==> q < m.value.keywordStart < m.value.keywordEnd < m.value.end <= |s|
    ensures m.Some? ==> Upper(s[m.value.keywordStart..m.value.keywordEnd]) in {"AND", "OR"}
  {
    if q < |s| && IsSpace(s[q]) then
      var r := SpaceRunEnd(s, q);
      var k := KeywordLength(s, r);
      if k > 0 && r + k < |s| && IsSpace(s[r + k]) then Some(Separator(r, r + k, SpaceRunEnd(s, r + k)))
      else None
    else None
  }

  /**
   * A match is white space, the keyword, and white space: the first run
   * reaches the keyword, and the second is the whole run after it.
   */
  lemma SeparatorAtSound(s: string, q: nat)
    requires q <= |s| && SeparatorAt(s, q).Some?
    ensures var m := SeparatorAt(s, q).value;
      && IsBlank(s[q..m.keywordStart]) && IsBlank(s[m.keywordEnd..m.end])
      && (m.end == |s| || !IsSpace(s[m.end]))
  {
  }

  /** The connective piece after condition piece `k`. */
  function Connective(parts: seq<string>, k: nat): string
    requires 2 * k + 1 < |parts|
  {
    parts[2 * k + 1]
  }

  /** Every connective piece is AND or OR, in some case. */
  ghost predicate ConnectivesAreKeywords(parts: seq<string>) {
    forall k: nat :: 2 * k + 1 < |parts| ==> Upper(Connective(parts, k)) in {"AND", "OR"}
  }

  /**
   * The split of `s[p..]` when the search for the next separator has reached
   * `q`: the piece before each separator, then the keyword the separator
   * captured, and finally the rest.
   */
  function SplitFrom(s: string, p: nat, q: nat): (parts: seq<string>)
    requires p <= q <= |s|
    ensures |parts| % 2 == 1
    decreases |s| - q
  {
    if q == |s| then [s[p..]]
    else
      match SeparatorAt(s, q)
      case None => SplitFrom(s, p, q + 1)
      case Some(m) => [s[p..q], s[m.keywordStart..m.keywordEnd]] + SplitFrom(s, m.end, m.end)
  }

  /** The pieces of a query text: conditions at even positions, the AND / OR between them at odd ones. */
  function SplitLogical(s: string): (parts: seq<string>)
    ensures |parts| % 2 == 1
  {
    SplitFrom(s, 0, 0)
  }

  /** Every connective piece of a split is the keyword a separator captured. */
  lemma {:induction false} SplitFromConnectives(s: string, p: nat, q: nat)
    requires p <= q <= |s|
    ensures ConnectivesAreKeywords(SplitFrom(s, p, q))
    decreases |s| - q
  {
    if q < |s| {
      match SeparatorAt(s, q)
      case None =>
        SplitFromConnectives(s, p, q + 1);
      case Some(m) =>
        var rest := SplitFrom(s, m.end, m.end);
        SplitFromConnectives(s, m.end, m.end);
        var parts := SplitFrom(s, p, q);
        assert parts == [s[p..q], s[m.keywordStart..m.keywordEnd]] + rest;
        forall k: nat | 2 * k + 1 < |parts| ensures Upper(Connective(parts, k)) in {"AND", "OR"} {
          if k > 0 {
            assert Connective(parts, k) == Connective(rest, k - 1);
          }
        }
    }
  }

  /** The connectives of a query text are AND or OR, in any case. */
  lemma SplitLogicalConnectives(s: string)
    ensures ConnectivesAreKeywords(SplitLogical(s))
  {
    SplitFromConnectives(s, 0, 0);
  }

  /** With no separator anywhere from `q` on, the rest of the text is one piece. */
  lemma {:induction false} SplitFromNoSeparator(s: string, p: nat, q: nat)
    requires p <= q <= |s|
    requires forall i :: q <= i <= |s| ==> SeparatorAt(s, i).None?
    ensures SplitFrom(s, p, q) == [s[p..]]
    decreases |s| - q
  {
    if q < |s| {
      SplitFromNoSeparator(s, p, q + 1);
    }
  }

  /** A text in which the separator pattern matches nowhere is a single condition. */
  lemma SplitLogicalNoSeparator(s: string)
    requires forall i :: 0 <= i <= |s| ==> SeparatorAt(s, i).None?
    ensures SplitLogical(s) == [s]
  {
    SplitFromNoSeparator(s, 0, 0);
  }

  /** The greedy run of white space from `q` ends at the first character that is not white space. */
  lemma {:induction false} SpaceRunEndAt(s: string, q: nat, r: nat)
    requires q <= r < |s| && !IsSpace(s[r])
    requires forall i :: q <= i < r ==> IsSpace(s[i])
    ensures SpaceRunEnd(s, q) == r
    decreases r - q
  {
    if q < r {
      SpaceRunEndAt(s, q + 1, r);
    }
  }

  /**
   * The pattern is found wherever it occurs: white space from `q` up to a
   * keyword followed by white space is a match at `q`, whose keyword is that
   * keyword and which takes every space after it.
   */
  lemma SeparatorAtComplete(s: string, q: nat, r: nat, n: nat)
    requires q < r && r + n < |s|
    requires forall i :: q <= i < r ==> IsSpace(s[i])
    requires Upper(s[r..r + n]) in {"AND", "OR"}
    requires IsSpace(s[r + n])
    ensures SeparatorAt(s, q) == Some(Separator(r, r + n, SpaceRunEnd(s, r + n)))
  {
    assert Upper(s[r..r + n])[0] == UpperChar(s[r]);
    SpaceRunEndAt(s, q, r);
    if n == 2 && r + 3 <= |s| {
      assert Upper(s[r..r + 3])[0] == UpperChar(s[r]);
    }
  }

  /** A match inside a part of the text, `w` found at `a`, is a match in the text itself. */
  lemma SeparatorAtWindow(s: string, w: string, a: nat, i: nat)
    requires a + |w| <= |s| && i <= |w|
    requires forall j :: 0 <= j < |w| ==> w[j] == s[a + j]
    requires SeparatorAt(w, i).Some?
    ensures SeparatorAt(s, a + i).Some?
  {
    var r := SpaceRunEnd(w, i);
    var k := KeywordLength(w, r);
    forall j | a + i <= j < a + r ensures IsSpace(s[j]) {
      assert s[j] == w[j - a];
    }
    assert s[a + r] == w[r] && s[a + r + k] == w[r + k];
    SpaceRunEndAt(s, a + i, a + r);
    KeywordInWindow(s, w, a, r);
  }

  /** A keyword inside a part of the text is the same keyword in the text. */
  lemma KeywordInWindow(s: string, w: string, a: nat, r: nat)
    requires a + |w| <= |s| && r <= |w|
    requires forall j :: 0 <= j < |w| ==> w[j] == s[a + j]
    requires KeywordLength(w, r) > 0
    ensures KeywordLength(s, a + r) == KeywordLength(w, r)
  {
    var n := KeywordLength(w, r);
    var inText, inPart := s[a + r..a + r + n], w[r..r + n];
    forall j | 0 <= j < n ensures inText[j] == inPart[j] {
      assert w[r + j] == s[a + r + j];
    }
    assert inText == inPart;
    if n == 2 {
      assert Upper(w[r..r + 2])[0] == UpperChar(s[a + r]);
      if a + r + 3 <= |s| {
        assert Upper(s[a + r..a + r + 3])[0] == UpperChar(s[a + r]);
      }
    }
  }

  /** The separator pattern matches nowhere in `w`. */
  predicate NoSeparator(w: string) {
    forall i :: 0 <= i <= |w| ==> SeparatorAt(w, i).None?
  }

  /** Condition piece `k` of a split. */
  function ConditionPiece(parts: seq<string>, k: nat): string
    requires 2 * k < |parts|
  {
    parts[2 * k]
  }

  /** No condition piece holds a separator. */
  ghost predicate ConditionsAreFree(parts: seq<string>) {
    forall k: nat :: 2 * k < |parts| ==> NoSeparator(ConditionPiece(parts, k))
  }

  /** A slice of the text in which no position starts a match holds no separator of its own. */
  lemma SliceIsFree(s: string, a: nat, b: nat)
    requires a <= b <= |s|
    requires forall i :: a <= i < b ==> SeparatorAt(s, i).None?
    requires b == |s| || SeparatorAt(s, b).Some?
    ensures NoSeparator(s[a..b])
  {
    var w := s[a..b];
    forall i | 0 <= i <= |w| ensures SeparatorAt(w, i).None? {
      if i < |w| && SeparatorAt(w, i).Some? {
        SeparatorAtWindow(s, w, a, i);
      }
    }
  }

  /**
   * The split misses no separator: the search finds the first match from
   * `q` on, so no condition piece holds one.
   */
  lemma {:induction false} SplitFromFree(s: string, p: nat, q: nat)
    requires p <= q <= |s|
    requires forall i :: p <= i < q ==> SeparatorAt(s, i).None?
    ensures ConditionsAreFree(SplitFrom(s, p, q))
    decreases |s| - q
  {
    if q == |s| {
      SliceIsFree(s, p, q);
      assert s[p..q] == s[p..];
      assert ConditionPiece([s[p..q]], 0) == s[p..q];
    } else if SeparatorAt(s, q).None? {
      SplitFromFree(s, p, q + 1);
    } else {
      var m := SeparatorAt(s, q).value;
      SliceIsFree(s, p, q);
      SplitFromFree(s, m.end, m.end);
      FreeCons(s[p..q], s[m.keywordStart..m.keywordEnd], SplitFrom(s, m.end, m.end));
    }
  }

  lemma FreeCons(first: string, keyword: string, rest: seq<string>)
    requires NoSeparator(first) && ConditionsAreFree(rest)
    ensures ConditionsAreFree([first, keyword] + rest)
  {
    var parts := [first, keyword] + rest;
    forall k: nat | 2 * k < |parts| ensures NoSeparator(ConditionPiece(parts, k)) {
      if k > 0 {
        assert ConditionPiece(parts, k) == ConditionPiece(rest, k - 1);
      }
    }
  }

  /** No condition piece of a query text holds an AND / OR separator. */
  lemma SplitLogicalFree(s: string)
    ensures ConditionsAreFree(SplitLogical(s))
  {
    SplitFromFree(s, 0, 0);
  }

  /** White space, at least one character of it. */
  predicate IsSpaceRun(w: string) {
    w != [] && IsBlank(w)
  }

  /**
   * The white space each separator match of `SplitFrom(s, p, q)` takes
   * before and after its keyword, in order: one pair per connective piece.
   */
  function SpacesFrom(s: string, p: nat, q: nat): (gaps: seq<(string, string)>)
    requires p <= q <= |s|
    ensures 2 * |gaps| + 1 == |SplitFrom(s, p, q)|
    ensures forall j :: 0 <= j < |gaps| ==> IsSpaceRun(gaps[j].0) && IsSpaceRun(gaps[j].1)
    decreases |s| - q
  {
    if q == |s| then []
    else
      match SeparatorAt(s, q)
      case None => SpacesFrom(s, p, q + 1)
      case Some(m) =>
        SeparatorAtSound(s, q);
        [(s[q..m.keywordStart], s[m.keywordEnd..m.end])] + SpacesFrom(s, m.end, m.end)
  }

  /** The pieces put back together, each keyword between the white space its match took. */
  function Rejoin(parts: seq<string>, gaps: seq<(string, string)>): string
    requires |parts| == 2 * |gaps| + 1
    decreases |gaps|
  {
    if gaps == [] then parts[0]
    else parts[0] + (gaps[0].0 + (parts[1] + (gaps[0].1 + Rejoin(parts[2..], gaps[1..]))))
  }

  lemma SliceJoin(s: string, a: nat, b: nat)
    requires a <= b <= |s|
    ensures s[a..b] + s[b..] == s[a..]
  {
  }

  /** The split loses nothing: the pieces and the white space around each keyword rebuild the text. */
  lemma {:induction false} SplitFromRoundTrip(s: string, p: nat, q: nat)
    requires p <= q <= |s|
    ensures Rejoin(SplitFrom(s, p, q), SpacesFrom(s, p, q)) == s[p..]
    decreases |s| - q
  {
    if q < |s| {
      match SeparatorAt(s, q)
      case None =>
        SplitFromRoundTrip(s, p, q + 1);
      case Some(m) =>
        var parts := SplitFrom(s, p, q);
        var gaps := SpacesFrom(s, p, q);
        SplitFromRoundTrip(s, m.end, m.end);
        assert parts[2..] == SplitFrom(s, m.end, m.end);
        assert gaps[1..] == SpacesFrom(s, m.end, m.end);
        SliceJoin(s, m.keywordEnd, m.end);
        SliceJoin(s, m.keywordStart, m.keywordEnd);
        SliceJoin(s, q, m.keywordStart);
        SliceJoin(s, p, q);
    }
  }

  /** Splitting a query text and putting the pieces back together gives back the text. */
  lemma SplitLogicalRoundTrip(s: string)
    ensures Rejoin(SplitLogical(s), SpacesFrom(s, 0, 0)) == s
  {
    SplitFromRoundTrip(s, 0, 0);
  }

  /** The connective an odd piece names. */
  function Keyword(w: string): LogicalOperator {
    if Upper(w) == "OR" then Or else And
  }

  // ---------------------------------------------------------------------------
  // One condition
  // ---------------------------------------------------------------------------

  /** Where operator number `o` first occurs in the lower-cased condition, or -1. */
  function Position(lower: string, o: nat): int
    requires o < OperatorCount
  {
    IndexOf(lower, OperatorText(OperatorAt(o)))
  }

  /**
   * Operator number `o` is the one the scan keeps: it occurs, no operator
   * occurs further left, and no operator earlier in the list occurs at the
   * same place.
   */
  predicate IsLeftmost(lower: string, o: nat) {
    && o < OperatorCount
    && Position(lower, o) != -1
    && (forall p :: 0 <= p < OperatorCount && Position(lower, p) != -1 ==> Position(lower, o) <= Position(lower, p))
    && (forall p :: 0 <= p < o ==> Position(lower, p) != Position(lower, o))
  }

  /**
   * The operator the scan over the first `k` operators keeps: a later one
   * replaces the kept one only when it occurs strictly further left.
   */
  function Leftmost(lower: string, k: nat): (r: Option<nat>)
    requires k <= OperatorCount
    ensures r.Some? ==> r.value < k
  {
    if k == 0 then None
    else
      var best := Leftmost(lower, k - 1);
      var index := Position(lower, k - 1);
      if index != -1 && (best.None? || index < Position(lower, best.value)) then Some(k - 1) else best
  }

  /**
   * The scan over the first `k` operators keeps nothing exactly when none of
   * them occurs; otherwise it keeps one that occurs, lies furthest left, and
   * comes first in the list among those at the same place.
   */
  lemma {:induction false} LeftmostSpec(lower: string, k: nat)
    requires k <= OperatorCount
    ensures var r := Leftmost(lower, k);
      && (r.None? <==> forall p :: 0 <= p < k ==> Position(lower, p) == -1)
      && (r.Some? ==> Position(lower, r.value) != -1)
      && (r.Some? ==> forall p :: 0 <= p < k && Position(lower, p) != -1 ==> Position(lower, r.value) <= Position(lower, p))
      && (r.Some? ==> forall p :: 0 <= p < r.value ==> Position(lower, p) != Position(lower, r.value))
  {
    if k > 0 {
      LeftmostSpec(lower, k - 1);
    }
  }

  /** The operator the scan keeps occurs in the condition. */
  lemma {:induction false} LeftmostOccurs(lower: string, k: nat)
    requires k <= OperatorCount
    ensures Leftmost(lower, k).Some? ==> Position(lower, Leftmost(lower, k).value) != -1
  {
    if k > 0 {
      LeftmostOccurs(lower, k - 1);
    }
  }

  /** The scan finds an operator exactly when one occurs, and it finds the leftmost. */
  lemma LeftmostIsLeftmost(lower: string)
    ensures Leftmost(lower, OperatorCount).Some? ==> IsLeftmost(lower, Leftmost(lower, OperatorCount).value)
    ensures forall o: nat :: IsLeftmost(lower, o) ==> Leftmost(lower, OperatorCount) == Some(o)
  {
    var r := Leftmost(lower, OperatorCount);
    LeftmostSpec(lower, OperatorCount);
    forall o: nat | IsLeftmost(lower, o) ensures r == Some(o) {
      assert r.Some?;
      assert Position(lower, r.value) == Position(lower, o);
    }
  }

  /** Every operator is written in lower case already. */
  lemma OperatorTextIsLowerCase(op: Operator)
    ensures Lower(OperatorText(op)) == OperatorText(op)
  {
    var t := OperatorText(op);
    forall i | 0 <= i < |t| ensures Lower(t)[i] == t[i] {
      assert 'a' <= t[i] <= 'z' || t[i] in " !<=>";
    }
  }

  /**
   * The scan over the operator list: each operator is searched for in the
   * lower-cased condition and kept when it occurs further left than the one
   * kept so far.
   */
  method FindOperator(conditionStr: string) returns (operator: Option<Operator>, operatorIndex: int)
    ensures var lower := Lower(conditionStr);
      var best := Leftmost(lower, OperatorCount);
      if best.None? then operator.None? && operatorIndex == -1
      else operator == Some(OperatorAt(best.value)) && operatorIndex == Position(lower, best.value)
  {
    operator := None;
    operatorIndex := -1;
    var lower := Lower(conditionStr);
    for k := 0 to OperatorCount
      invariant var best := Leftmost(lower, k);
        if best.None? then operator.None? && operatorIndex == -1
        else operator == Some(OperatorAt(best.value)) && operatorIndex == Position(lower, best.value)
    {
      // `op.toLowerCase()` is the operator's own text (OperatorTextIsLowerCase).
      var index := IndexOf(lower, OperatorText(OperatorAt(k)));
      assert index == Position(lower, k);
      LeftmostSpec(lower, k);
      if index != -1 && (operatorIndex == -1 || index < operatorIndex) {
        operator := Some(OperatorAt(k));
        operatorIndex := index;
      }
    }
  }

  /** `s.slice(1, -1)` */
  function Unquote(s: string): (r: string)
    ensures |s| >= 2 ==> s == [s[0]] + r + [s[|s| - 1]]
    ensures |s| < 2 ==> r == []
  {
    if |s| < 2 then [] else s[1..|s| - 1]
  }

  /**
   * A simple value: empty is null, quoted text is its inner text, a numeric
   * literal is a number, `true` / `false` / `null` in any case are literals,
   * anything else is the text itself.
   */
  function ParseSimpleValue(valueStr: string): Json {
    if valueStr == [] then Null
    else if Encloses(valueStr, '"', '"') || Encloses(valueStr, '\'', '\'') then Str(Unquote(valueStr))
    else if ParseInteger(valueStr).Some? then Num(ParseInteger(valueStr).value)
    else if LowerIs(valueStr, "true") then Bool(true)
    else if LowerIs(valueStr, "false") then Bool(false)
    else if LowerIs(valueStr, "null") then Null
    else Str(valueStr)
  }

  /** The elements of a bracketed list: one per comma-separated piece, each trimmed. */
  function ParseList(content: string): seq<Json> {
    var pieces := SplitOn(content, ',');
    seq(|pieces|, i requires 0 <= i < |pieces| => ParseSimpleValue(Trim(pieces[i])))
  }

  /** The value of a condition, checked against its operator. */
  function ParseValue(valueStr: string, operator: Operator): Result<Json, ParseError> {
    if valueStr == [] && operator !in {Exists, NotExists} then Err(MissingValue(operator))
    else if operator in {In, NotIn} then
      if !Encloses(valueStr, '[', ']') then Err(ArrayValueRequired(operator))
      else
        Ok(Arr(ParseList(valueStr[1..|valueStr| - 1])))
    else Ok(ParseSimpleValue(valueStr))
  }

  /** A simple value is never an array or an object. */
  lemma ParseSimpleValueIsScalar(valueStr: string)
    ensures var v := ParseSimpleValue(valueStr); v.Null? || v.Bool? || v.Num? || v.Str?
  {
  }

  /** A list has one element per comma-separated piece, the simple value of that piece trimmed. */
  lemma ParseListElements(content: string)
    ensures var r := ParseList(content);
      && |r| == |SplitOn(content, ',')| >= 1
      && forall i :: 0 <= i < |r| ==> r[i] == ParseSimpleValue(Trim(SplitOn(content, ',')[i]))
  {
  }

  /**
   * Only `exists` and `not exists` do without a value; `in` and `not in`
   * accept exactly a bracketed value and yield an array; the others yield a
   * simple value.
   */
  lemma ParseValueShape(valueStr: string, operator: Operator)
    ensures var r := ParseValue(valueStr, operator);
      && (valueStr == [] && operator !in {Exists, NotExists} ==> r == Err(MissingValue(operator)))
      && (operator in {In, NotIn} && valueStr != [] ==> (r.Ok? <==> Encloses(valueStr, '[', ']')))
      && (r.Ok? && operator in {In, NotIn} ==> r.value.Arr?)
      && (r.Ok? && operator !in {In, NotIn} ==> !r.value.Arr? && !r.value.Obj?)
  {
    ParseSimpleValueIsScalar(valueStr);
  }

  /**
   * The condition read around operator `op` found at `at`: the trimmed text
   * before it must be a property, the trimmed text after it a value fit for
   * the operator.
   */
  function ConditionAt(conditionStr: string, op: Operator, at: nat): Result<QueryCondition, ParseError>
    requires at + |OperatorText(op)| <= |conditionStr|
  {
    var property := Trim(conditionStr[..at]);
    var valueStr := Trim(conditionStr[at + |OperatorText(op)|..]);
    if property == [] then Err(MissingProperty(conditionStr))
    else
      var value :- ParseValue(valueStr, op);
      Ok(QueryCondition(property, op, value, None))
  }

  /** What parsing one (trimmed) condition text yields. */
  function ConditionOf(conditionStr: string): Result<QueryCondition, ParseError> {
    var lower := Lower(conditionStr);
    match Leftmost(lower, OperatorCount)
    case None => Err(NoOperator(conditionStr))
    case Some(o) =>
      LeftmostSpec(lower, OperatorCount);
      ConditionAt(conditionStr, OperatorAt(o), Position(lower, o))
  }

  /**
   * A condition text fails for want of an operator exactly when none of the
   * operators occurs in it, in any case; other failures are about the
   * property or the value.
   */
  lemma ConditionOfNoOperator(conditionStr: string)
    ensures ConditionOf(conditionStr) == Err(NoOperator(conditionStr)) <==>
      forall o :: 0 <= o < OperatorCount ==> !HasSubstring(Lower(conditionStr), OperatorText(OperatorAt(o)))
  {
    var lower := Lower(conditionStr);
    LeftmostSpec(lower, OperatorCount);
    assert forall o :: 0 <= o < OperatorCount ==> Position(lower, o) == IndexOf(lower, OperatorText(OperatorAt(o)));
  }

  /**
   * A condition that parses is made of the leftmost operator, the non-empty
   * trimmed text before it as property and the value parsed from the trimmed
   * text after it, with no connective yet.
   */
  lemma ConditionOfParts(conditionStr: string)
    requires ConditionOf(conditionStr).Ok?
    ensures var c := ConditionOf(conditionStr).value;
      var lower := Lower(conditionStr);
      var best := Leftmost(lower, OperatorCount);
      && best.Some? && IsLeftmost(lower, best.value)
      && c.property != [] && c.logicalOperator.None?
      && c.operator == OperatorAt(best.value)
      && c.property == Trim(conditionStr[..Position(lower, best.value)])
      && ParseValue(Trim(conditionStr[Position(lower, best.value) + |OperatorText(c.operator)|..]), c.operator) == Ok(c.value)
  {
    LeftmostIsLeftmost(Lower(conditionStr));
  }

  /**
   * Once the leftmost operator is found, the condition fails for want of a
   * property exactly when the trimmed text before the operator is empty, and
   * otherwise fails with the value's error when the value does not parse.
   */
  lemma ConditionOfErrors(conditionStr: string, o: nat)
    requires IsLeftmost(Lower(conditionStr), o)
    ensures var at, op := Position(Lower(conditionStr), o), OperatorAt(o);
      && 0 <= at && at + |OperatorText(op)| <= |conditionStr|
      && (ConditionOf(conditionStr) == Err(MissingProperty(conditionStr)) <==> Trim(conditionStr[..at]) == [])
      && (var v := ParseValue(Trim(conditionStr[at + |OperatorText(op)|..]), op);
          Trim(conditionStr[..at]) != [] && v.Err? ==> ConditionOf(conditionStr) == Err(v.error))
  {
    var lower := Lower(conditionStr);
    LeftmostIsLeftmost(lower);
    ConditionAtErrors(conditionStr, OperatorAt(o), Position(lower, o));
  }

  lemma ConditionAtErrors(conditionStr: string, op: Operator, at: nat)
    requires at + |OperatorText(op)| <= |conditionStr|
    ensures ConditionAt(conditionStr, op, at) == Err(MissingProperty(conditionStr)) <==> Trim(conditionStr[..at]) == []
    ensures var v := ParseValue(Trim(conditionStr[at + |OperatorText(op)|..]), op);
      Trim(conditionStr[..at]) != [] && v.Err? ==> ConditionAt(conditionStr, op, at) == Err(v.error)
  {
    var valueStr := Trim(conditionStr[at + |OperatorText(op)|..]);
    ParseValueErrors(valueStr, op);
  }

  lemma ParseValueErrors(valueStr: string, op: Operator)
    ensures ParseValue(valueStr, op).Err? ==>
      ParseValue(valueStr, op).error in {MissingValue(op), ArrayValueRequired(op)}
  {
  }

  /** `parseCondition`: the operator scan, then the property and the value around it. */
  method ParseCondition(conditionStr: string) returns (r: Result<QueryCondition, ParseError>)
    ensures r == ConditionOf(conditionStr)
  {
    var found, operatorIndex := FindOperator(conditionStr);
    LeftmostOccurs(Lower(conditionStr), OperatorCount);
    if operatorIndex == -1 {
      return Err(NoOperator(conditionStr));
    }
    r := ConditionAt(conditionStr, found.value, operatorIndex);
  }

  // ---------------------------------------------------------------------------
  // The whole query
  // ---------------------------------------------------------------------------

  /** The outcome of parsing a condition piece, trimmed. */
  function PieceCondition(piece: string): Result<QueryCondition, ParseError> {
    ConditionOf(Trim(piece))
  }

  /** The outcome of parsing condition piece `k` (piece `2 * k`). */
  function ChunkCondition(parts: seq<string>, k: nat): Result<QueryCondition, ParseError>
    requires 2 * k < |parts|
  {
    PieceCondition(parts[2 * k])
  }

  /** Condition `k` carrying the keyword of the connective piece after it, if there is one. */
  function Linked(c: QueryCondition, parts: seq<string>, k: nat): QueryCondition {
    if 2 * k + 1 < |parts| then c.(logicalOperator := Some(Keyword(parts[2 * k + 1]))) else c
  }

  /** How one condition piece is read; the query parser uses `PieceCondition`. */
  type PieceParser = string -> Result<QueryCondition, ParseError>

  /**
   * The conditions of the pieces from condition `k` on, each read by `parse`,
   * in order: the first failure wins, otherwise every condition is kept,
   * linked to the connective after it.
   */
  function ConditionsFrom(parse: PieceParser, parts: seq<string>, k: nat): Result<seq<QueryCondition>, ParseError>
    decreases |parts| - k
  {
    if 2 * k >= |parts| then Ok([])
    else
      var c :- parse(parts[2 * k]);
      var rest :- ConditionsFrom(parse, parts, k + 1);
      Ok([Linked(c, parts, k)] + rest)
  }

  /** The conditions of a split query text. */
  function Conditions(parts: seq<string>): Result<seq<QueryCondition>, ParseError> {
    ConditionsFrom(PieceCondition, parts, 0)
  }

  /** `cs` put in front of a successful outcome; a failure stays as it is. */
  function Prefixed(cs: seq<QueryCondition>, r: Result<seq<QueryCondition>, ParseError>)
    : Result<seq<QueryCondition>, ParseError>
  {
    if r.Ok? then Ok(cs + r.value) else r
  }

  /**
   * One step of reading the pieces: in front of `cs`, the conditions from
   * condition `k` on are the failure of piece `k`, or the conditions from
   * `k + 1` on with condition `k` appended to `cs`.
   */
  lemma ConditionsStep(parse: PieceParser, parts: seq<string>, k: nat, cs: seq<QueryCondition>)
    requires 2 * k < |parts|
    ensures var c := parse(parts[2 * k]);
      Prefixed(cs, ConditionsFrom(parse, parts, k)) ==
        if c.Err? then Err(c.error)
        else Prefixed(cs + [Linked(c.value, parts, k)], ConditionsFrom(parse, parts, k + 1))
  {
    var rest := ConditionsFrom(parse, parts, k + 1);
    if parse(parts[2 * k]).Ok? && rest.Ok? {
      assert cs + ([Linked(parse(parts[2 * k]).value, parts, k)] + rest.value)
        == (cs + [Linked(parse(parts[2 * k]).value, parts, k)]) + rest.value;
    }
  }

  /** `parseConditions`: splits the query text, then reads its pieces. */
  method ParseConditions(queryString: string) returns (r: Result<seq<QueryCondition>, ParseError>)
    ensures r == Conditions(SplitLogical(queryString))
  {
    var parts := SplitLogical(queryString);
    r := ParseParts(parts);
  }

  /** The loop of `parseConditions`: one condition per piece, stopping at the first failure. */
  method ParseParts(parts: seq<string>) returns (r: Result<seq<QueryCondition>, ParseError>)
    requires |parts| % 2 == 1
    ensures r == Conditions(parts)
  {
    var conditions: seq<QueryCondition> := [];
    var i := 0;
    ghost var k := 0;
    assert Prefixed([], Conditions(parts)) == Conditions(parts) by {
      if Conditions(parts).Ok? {
        assert [] + Conditions(parts).value == Conditions(parts).value;
      }
    }
    while i < |parts|
      invariant i == 2 * k && i <= |parts| + 1
      invariant Conditions(parts) == Prefixed(conditions, ConditionsFrom(PieceCondition, parts, k))
      decreases |parts| + 1 - i
    {
      var conditionStr := Trim(parts[i]);
      var logicalOp := if i + 1 < |parts| then Some(Keyword(parts[i + 1])) else None;
      var parsed := ParseCondition(conditionStr);
      ConditionsStep(PieceCondition, parts, k, conditions);
      if parsed.Err? {
        return Err(parsed.error);
      }
      var condition := parsed.value;
      if logicalOp.Some? {
        condition := condition.(logicalOperator := logicalOp);
      }
      assert condition == Linked(parsed.value, parts, k);
      conditions := conditions + [condition];
      i := i + 2;
      k := k + 1;
    }
    assert conditions + [] == conditions;
    r := Ok(conditions);
  }

  /** What parsing a query text yields: blank text is the empty, valid query. */
  function QueryOf(queryString: string): (q: ParsedQuery)
    ensures q.isValid <==> q.error.None?
    ensures !q.isValid ==> q.conditions == []
  {
    if Trim(queryString) == [] then ParsedQuery([], true, None)
    else
      var parts := SplitLogical(queryString);
      match Conditions(parts)
      case Ok(cs) => ParsedQuery(cs, true, None)
      case Err(e) => ParsedQuery([], false, Some(e))
  }

  /** Blank text is the empty, valid query. */
  lemma BlankQuery(queryString: string)
    requires IsBlank(queryString)
    ensures QueryOf(queryString) == ParsedQuery([], true, None)
  {
    TrimBlank(queryString);
  }

  /** Blank text is the only text that parses into a valid query without conditions. */
  lemma ValidQueryHasConditions(queryString: string)
    requires !IsBlank(queryString) && QueryOf(queryString).isValid
    ensures QueryOf(queryString).conditions != []
  {
    TrimBlank(queryString);
    ConditionsLength(PieceCondition, SplitLogical(queryString), 0);
  }

  /** `parse`: a failure anywhere becomes an invalid query carrying the error. */
  method Parse(queryString: string) returns (q: ParsedQuery)
    ensures q == QueryOf(queryString)
  {
    if Trim(queryString) == [] {
      return ParsedQuery([], true, None);
    }
    var r := ParseConditions(queryString);
    match r
    case Ok(conditions) =>
      q := ParsedQuery(conditions, true, None);
    case Err(e) =>
      q := ParsedQuery([], false, Some(e));
  }

  /** The successful conditions from condition `k` on are one per remaining condition piece. */
  lemma {:induction false} ConditionsLength(parse: PieceParser, parts: seq<string>, k: nat)
    requires |parts| % 2 == 1 && 2 * k <= |parts| + 1
    requires ConditionsFrom(parse, parts, k).Ok?
    ensures |ConditionsFrom(parse, parts, k).value| == (|parts| + 1) / 2 - k
    decreases |parts| - k
  {
    if 2 * k < |parts| {
      ConditionsLength(parse, parts, k + 1);
    }
  }

  /**
   * Successful condition `j` from condition `k` on is what `parse` read from
   * piece `k + j`, linked to the connective after it.
   */
  lemma {:induction false} ConditionsElement(parse: PieceParser, parts: seq<string>, k: nat, j: nat)
    requires ConditionsFrom(parse, parts, k).Ok? && j < |ConditionsFrom(parse, parts, k).value|
    ensures 2 * (k + j) < |parts| && parse(parts[2 * (k + j)]).Ok?
    ensures ConditionsFrom(parse, parts, k).value[j] == Linked(parse(parts[2 * (k + j)]).value, parts, k + j)
    decreases j
  {
    var cs := ConditionsFrom(parse, parts, k).value;
    var rest := ConditionsFrom(parse, parts, k + 1).value;
    assert cs == [Linked(parse(parts[2 * k]).value, parts, k)] + rest;
    if j > 0 {
      ConditionsElement(parse, parts, k + 1, j - 1);
      assert cs[j] == rest[j - 1];
    }
  }

  /**
   * The conditions from `k` on fail exactly when `parse` fails on some
   * condition piece from `k` on, and then with the error of the first one.
   */
  lemma {:induction false} ConditionsError(parse: PieceParser, parts: seq<string>, k: nat)
    ensures ConditionsFrom(parse, parts, k).Err? <==>
      exists j :: k <= j && 2 * j < |parts| && parse(parts[2 * j]).Err?
    ensures ConditionsFrom(parse, parts, k).Err? ==>
      exists j :: k <= j && 2 * j < |parts| && parse(parts[2 * j]) == Err(ConditionsFrom(parse, parts, k).error)
        && forall m :: k <= m < j ==> parse(parts[2 * m]).Ok?
    decreases |parts| - k
  {
    if 2 * k < |parts| {
      ConditionsError(parse, parts, k + 1);
      if parse(parts[2 * k]).Ok? && ConditionsFrom(parse, parts, k).Err? {
        var j :| k + 1 <= j && 2 * j < |parts| && parse(parts[2 * j]) == Err(ConditionsFrom(parse, parts, k + 1).error)
          && forall m :: k + 1 <= m < j ==> parse(parts[2 * m]).Ok?;
        assert forall m :: k <= m < j ==> parse(parts[2 * m]).Ok?;
      }
    }
  }

  // ---------------------------------------------------------------------------
  // Values written back as text
  // ---------------------------------------------------------------------------

  /** How a primitive value is written in a query: strings in double quotes. */
  function Literal(v: Json): (s: string)
    requires v.Null? || v.Bool? || v.Num? || v.Str?
    ensures s != [] && !IsSpace(s[0]) && !IsSpace(s[|s| - 1])
  {
    match v
    case Null => "null"
    case Bool(b) => if b then "true" else "false"
    case Num(n) => IntToString(n)
    case Str(s) => "\"" + s + "\""
  }

  /** Reading a written primitive value gives the value back. */
  lemma ParseSimpleValueOfLiteral(v: Json)
    requires v.Null? || v.Bool? || v.Num? || v.Str?
    ensures ParseSimpleValue(Literal(v)) == v
  {
    match v
    case Null =>
      ParseSimpleValueOfWord("null");
      assert LowerIs("null", "null");
    case Bool(b) =>
      ParseSimpleValueOfWord(if b then "true" else "false");
      assert LowerIs("true", "true") && LowerIs("false", "false");
    case Num(n) =>
      ParseSimpleValueOfNumber(n);
    case Str(s) =>
      ParseSimpleValueOfQuoted(s);
  }

  /** A word that starts with a letter is neither quoted nor a number. */
  lemma ParseSimpleValueOfWord(w: string)
    requires w != [] && 'a' <= w[0] <= 'z'
    ensures !Encloses(w, '"', '"') && !Encloses(w, '\'', '\'') && ParseInteger(w).None?
  {
    assert !IsDigit(w[0]);
  }

  /** A written integer reads back as that number. */
  lemma ParseSimpleValueOfNumber(n: int)
    ensures ParseSimpleValue(IntToString(n)) == Num(n)
  {
    ParseIntegerOfIntToString(n);
    var s := IntToString(n);
    assert s[0] == '-' || IsDigit(s[0]);
  }

  /** A text in double quotes reads back as the text. */
  lemma ParseSimpleValueOfQuoted(s: string)
    ensures ParseSimpleValue("\"" + s + "\"") == Str(s)
  {
    var q := "\"" + s + "\"";
    assert Encloses(q, '"', '"');
    assert Unquote(q) == s;
  }

  /**
   * A bracketed list of written values, separated by commas, reads back as
   * those values, provided no string among them holds a comma.
   */
  lemma ParseListOfLiterals(vs: seq<Json>)
    requires |vs| >= 1
    requires forall i :: 0 <= i < |vs| ==> (vs[i].Null? || vs[i].Bool? || vs[i].Num? || vs[i].Str?)
    requires forall i :: 0 <= i < |vs| ==> ',' !in Literal(vs[i])
    ensures ParseValue("[" + Join(seq(|vs|, i requires 0 <= i < |vs| => Literal(vs[i])), ',') + "]", In)
      == Ok(Arr(vs))
  {
    var lits := seq(|vs|, i requires 0 <= i < |vs| => Literal(vs[i]));
    var content := Join(lits, ',');
    var text := "[" + content + "]";
    SplitJoin(lits, ',');
    assert text[1..|text| - 1] == content;
    forall i | 0 <= i < |vs| ensures ParseSimpleValue(Trim(lits[i])) == vs[i] {
      TrimUnpadded(lits[i]);
      ParseSimpleValueOfLiteral(vs[i]);
    }
    assert ParseList(content) == vs;
  }

  /** `[]` is a list of one null: the empty piece between the brackets reads as null. */
  lemma EmptyBracketsAreOneNull()
    ensures ParseValue("[]", In) == Ok(Arr([Null]))
  {
    assert Encloses("[]", '[', ']');
    assert "[]"[1..1] == "";
    assert SplitOn("", ',') == [""];
    assert Trim("") == "";
    assert ParseSimpleValue("") == Null;
    var list := ParseList("");
    assert |list| == 1 && list[0] == Null;
    assert list == [Null];
  }
}
