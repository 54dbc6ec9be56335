/**
 * The JavaScript string primitives the two engines rely on: trimming, case
 * mapping, `indexOf`, `split` on one character, and the decimal forms of
 * integers that `Number()` reads and `String()` writes.
 */
module Strings {
  import opened Wrappers

  /** JavaScript white space and line terminators: what `trim()` strips and `\s` matches. */
  predicate IsSpace(c: char) {
    || c == ' ' || c == '\t' || c == '\n' || c == '\r' || c == '\U{B}' || c == '\U{C}'
    || c == '\U{A0}' || c == '\U{1680}' || ('\U{2000}' <= c <= '\U{200A}')
    || c == '\U{2028}' || c == '\U{2029}' || c == '\U{202F}' || c == '\U{205F}'
    || c == '\U{3000}' || c == '\U{FEFF}'
  }

  predicate IsBlank(s: string) {
    forall i :: 0 <= i < |s| ==> IsSpace(s[i])
  }

  /** `String.prototype.trim`: drops white space at both ends. */
  function Trim(s: string): string
    decreases |s|
  {
    if s != [] && IsSpace(s[0]) then Trim(s[1..])
    else if s != [] && IsSpace(s[|s| - 1]) then Trim(s[..|s| - 1])
    else s
  }

  /**
   * What trimming leaves is no longer than the text, and it is empty or
   * starts and ends with a character that is not white space.
   */
  lemma {:induction false} TrimEnds(s: string)
    ensures |Trim(s)| <= |s|
    ensures Trim(s) == [] || (!IsSpace(Trim(s)[0]) && !IsSpace(Trim(s)[|Trim(s)| - 1]))
    decreases |s|
  {
    if s != [] && IsSpace(s[0]) {
      TrimEnds(s[1..]);
    } else if s != [] && IsSpace(s[|s| - 1]) {
      TrimEnds(s[..|s| - 1]);
    }
  }

  /** Trimming leaves nothing exactly when the text is all white space. */
  lemma {:induction false} TrimBlank(s: string)
    ensures Trim(s) == [] <==> IsBlank(s)
    decreases |s|
  {
    if s != [] && IsSpace(s[0]) {
      TrimBlank(s[1..]);
      assert IsBlank(s) <==> IsBlank(s[1..]) by {
        forall i | 1 <= i < |s| ensures s[i] == s[1..][i - 1] { }
      }
    } else if s != [] && IsSpace(s[|s| - 1]) {
      TrimBlank(s[..|s| - 1]);
      assert IsBlank(s) <==> IsBlank(s[..|s| - 1]) by {
        forall i | 0 <= i < |s| - 1 ensures s[i] == s[..|s| - 1][i] { }
      }
    }
  }

  /** A text with no white space at either end is its own trim. */
  lemma TrimUnpadded(s: string)
    requires s == [] || (!IsSpace(s[0]) && !IsSpace(s[|s| - 1]))
    ensures Trim(s) == s
  {
  }

  function LowerChar(c: char): char {
    if 'A' <= c <= 'Z' then (c as int + 32) as char else c
  }

  function UpperChar(c: char): char {
    if 'a' <= c <= 'z' then (c as int - 32) as char else c
  }

  /** `toLowerCase`, for the ASCII letters: same length, letter by letter. */
  function Lower(s: string): (r: string)
    ensures |r| == |s|
  {
    seq(|s|, i requires 0 <= i < |s| => LowerChar(s[i]))
  }

  /** `toUpperCase`, for the ASCII letters: same length, letter by letter. */
  function Upper(s: string): (r: string)
    ensures |r| == |s|
  {
    seq(|s|, i requires 0 <= i < |s| => UpperChar(s[i]))
  }

  /** `Lower(s) == w`, compared letter by letter. */
  predicate LowerIs(s: string, w: string)
    decreases |s|
  {
    |s| == |w| && (s == [] || (LowerChar(s[0]) == w[0] && LowerIs(s[1..], w[1..])))
  }

  /** The letter-by-letter test is the comparison of the lower-cased text. */
  lemma {:induction false} LowerIsSpec(s: string, w: string)
    ensures LowerIs(s, w) <==> Lower(s) == w
    decreases |s|
  {
    if s != [] && |s| == |w| {
      LowerIsSpec(s[1..], w[1..]);
      assert Lower(s) == [LowerChar(s[0])] + Lower(s[1..]);
      if Lower(s) == w {
        assert w[1..] == Lower(s)[1..];
      }
    }
  }

  /** `t` occurs in `s` at position `i`, compared character by character. */
  predicate OccursAt(s: string, t: string, i: int)
    decreases |t|
  {
    0 <= i && i + |t| <= |s| && (t == [] || (s[i] == t[0] && OccursAt(s, t[1..], i + 1)))
  }

  /** Occurring at `i` is being the slice of `s` that starts at `i`. */
  lemma {:induction false} OccursAtIsSlice(s: string, t: string, i: int)
    ensures OccursAt(s, t, i) <==> 0 <= i && i + |t| <= |s| && s[i..i + |t|] == t
    decreases |t|
  {
    if 0 <= i && i + |t| <= |s| && t != [] {
      OccursAtIsSlice(s, t[1..], i + 1);
      assert s[i..i + |t|] == [s[i]] + s[i + 1..i + 1 + |t[1..]|];
      assert t == [t[0]] + t[1..];
    }
  }

  /** `s.indexOf(t, from)`: -1, or a place at or after `from` with room for `t`. */
  function IndexOfFrom(s: string, t: string, from: nat): (r: int)
    ensures r == -1 || (from <= r && r + |t| <= |s|)
    decreases |s| - from
  {
    if from + |t| > |s| then -1
    else if OccursAt(s, t, from) then from
    else IndexOfFrom(s, t, from + 1)
  }

  /**
   * `indexOf` from `from` on finds a position at or after `from` where `t`
   * occurs, with no occurrence between `from` and it; -1 means there is none
   * from `from` on.
   */
  lemma {:induction false} IndexOfFromIsFirst(s: string, t: string, from: nat)
    ensures var r := IndexOfFrom(s, t, from);
      && (r == -1 || (from <= r && OccursAt(s, t, r)))
      && forall i :: from <= i && (r == -1 || i < r) ==> !OccursAt(s, t, i)
    decreases |s| - from
  {
    if from + |t| <= |s| && !OccursAt(s, t, from) {
      IndexOfFromIsFirst(s, t, from + 1);
    }
  }

  /** `s.indexOf(t)`: -1, or a place with room for `t`. */
  function IndexOf(s: string, t: string): (r: int)
    ensures r == -1 || (0 <= r && r + |t| <= |s|)
  {
    IndexOfFrom(s, t, 0)
  }

  /**
   * `indexOf` finds the first position where `t` occurs, and -1 means there
   * is none at all.
   */
  lemma IndexOfIsFirst(s: string, t: string)
    ensures var r := IndexOf(s, t);
      && (r == -1 || OccursAt(s, t, r))
      && forall i :: 0 <= i && (r == -1 || i < r) ==> !OccursAt(s, t, i)
  {
    IndexOfFromIsFirst(s, t, 0);
  }

  /** `s.includes(t)` */
  predicate HasSubstring(s: string, t: string) {
    IndexOf(s, t) != -1
  }

  /** `s.includes(t)` holds exactly when `t` occurs somewhere in `s` (a slice, by OccursAtIsSlice). */
  lemma HasSubstringSpec(s: string, t: string)
    ensures HasSubstring(s, t) <==> exists i :: OccursAt(s, t, i)
  {
    IndexOfIsFirst(s, t);
  }

  /** `s.startsWith(p)` */
  predicate HasPrefix(s: string, p: string) {
    |p| <= |s| && s[..|p|] == p
  }

  /** `s.endsWith(p)` */
  predicate HasSuffix(s: string, p: string) {
    |p| <= |s| && s[|s| - |p|..] == p
  }

  /** `s.startsWith(first) && s.endsWith(last)` for one-character prefix and suffix. */
  predicate Encloses(s: string, first: char, last: char) {
    |s| >= 1 && s[0] == first && s[|s| - 1] == last
  }

  /** Encloses is the conjunction of the prefix test and the suffix test. */
  lemma EnclosesIsPrefixAndSuffix(s: string, first: char, last: char)
    ensures Encloses(s, first, last) <==> HasPrefix(s, [first]) && HasSuffix(s, [last])
  {
    if HasPrefix(s, [first]) && HasSuffix(s, [last]) {
      assert s[..1][0] == s[0];
      assert s[|s| - 1..][0] == s[|s| - 1];
    }
    if Encloses(s, first, last) {
      assert s[..1] == [first];
      assert s[|s| - 1..] == [last];
    }
  }

  /** `s.split(sep)` for a one-character separator: never empty, and no piece holds `sep`. */
  function SplitOn(s: string, sep: char): (parts: seq<string>)
    ensures |parts| >= 1
    decreases |s|
  {
    if s == [] then [""]
    else
      var rest := SplitOn(s[1..], sep);
      if s[0] == sep then [""] + rest else PrefixFirst(s[0], rest)
  }

  /** `parts.join(sep)` */
  function Join(parts: seq<string>, sep: char): string
    requires |parts| >= 1
  {
    if |parts| == 1 then parts[0] else parts[0] + [sep] + Join(parts[1..], sep)
  }

  /** Joining the pieces of a split gives back the text. */
  lemma {:induction false} JoinSplit(s: string, sep: char)
    ensures Join(SplitOn(s, sep), sep) == s
    decreases |s|
  {
    if s != [] {
      var rest := SplitOn(s[1..], sep);
      JoinSplit(s[1..], sep);
      if s[0] == sep {
        assert SplitOn(s, sep)[1..] == rest;
        assert s == [sep] + s[1..];
      } else if |rest| == 1 {
        assert s == [s[0]] + rest[0];
      } else {
        var parts := SplitOn(s, sep);
        assert parts[1..] == rest[1..];
        assert Join(rest, sep) == rest[0] + [sep] + Join(rest[1..], sep);
        assert s == [s[0]] + s[1..];
      }
    }
  }

  /** How `split` treats the first character of a text. */
  lemma SplitCons(c: char, t: string, sep: char)
    ensures SplitOn([c] + t, sep)
         == if c == sep then [""] + SplitOn(t, sep) else PrefixFirst(c, SplitOn(t, sep))
  {
    assert ([c] + t)[1..] == t;
  }

  /** The pieces with `c` put in front of the first one. */
  function PrefixFirst(c: char, parts: seq<string>): seq<string>
    requires |parts| >= 1
  {
    [[c] + parts[0]] + parts[1..]
  }

  /** Putting an element in front commutes with appending more elements. */
  lemma PrependAppend<T>(x: T, left: seq<T>, right: seq<T>)
    ensures [x] + (left + right) == [x] + left + right
  {
  }

  /** Putting a character in front of the first piece commutes with appending more pieces. */
  lemma PrefixFirstAppend(c: char, left: seq<string>, right: seq<string>)
    requires |left| >= 1
    ensures PrefixFirst(c, left + right) == PrefixFirst(c, left) + right
  {
    assert (left + right)[1..] == left[1..] + right;
  }

  /** A separator splits the text into the pieces of each side. */
  lemma {:induction false} SplitAround(a: string, b: string, sep: char)
    ensures SplitOn(a + [sep] + b, sep) == SplitOn(a, sep) + SplitOn(b, sep)
    decreases |a|
  {
    if a == [] {
      assert a + [sep] + b == [sep] + b;
      SplitCons(sep, b, sep);
    } else {
      SplitAround(a[1..], b, sep);
      SplitAroundStep(a, b, sep);
    }
  }

  /** The inductive step of SplitAround: one more character in front. */
  lemma SplitAroundStep(a: string, b: string, sep: char)
    requires a != []
    requires SplitOn(a[1..] + [sep] + b, sep) == SplitOn(a[1..], sep) + SplitOn(b, sep)
    ensures SplitOn(a + [sep] + b, sep) == SplitOn(a, sep) + SplitOn(b, sep)
  {
    var t := a[1..] + [sep] + b;
    assert a + [sep] + b == [a[0]] + t;
    assert a == [a[0]] + a[1..];
    SplitConsAppend(a[0], a[1..], t, SplitOn(b, sep), sep);
  }

  /** Putting one character in front of two texts whose splits differ by a tail of pieces. */
  lemma SplitConsAppend(c: char, u: string, t: string, right: seq<string>, sep: char)
    requires SplitOn(t, sep) == SplitOn(u, sep) + right
    ensures SplitOn([c] + t, sep) == SplitOn([c] + u, sep) + right
  {
    SplitCons(c, t, sep);
    SplitCons(c, u, sep);
    var left := SplitOn(u, sep);
    if c == sep {
      PrependAppend("", left, right);
    } else {
      PrefixFirstAppend(c, left, right);
    }
  }

  /** A text without the separator is a single piece. */
  lemma {:induction false} SplitWithoutSeparator(a: string, sep: char)
    requires sep !in a
    ensures SplitOn(a, sep) == [a]
    decreases |a|
  {
    if a != [] {
      assert sep !in a[1..];
      SplitWithoutSeparator(a[1..], sep);
      assert a == [a[0]] + a[1..];
    }
  }

  /** Splitting a join gives back the pieces, when no piece holds the separator. */
  lemma {:induction false} SplitJoin(parts: seq<string>, sep: char)
    requires |parts| >= 1
    requires forall i :: 0 <= i < |parts| ==> sep !in parts[i]
    ensures SplitOn(Join(parts, sep), sep) == parts
    decreases |parts|
  {
    SplitWithoutSeparator(parts[0], sep);
    if |parts| > 1 {
      SplitJoin(parts[1..], sep);
      SplitAround(parts[0], Join(parts[1..], sep), sep);
    }
  }

  predicate IsDigit(c: char) {
    '0' <= c <= '9'
  }

  predicate AllDigits(s: string) {
    forall i :: 0 <= i < |s| ==> IsDigit(s[i])
  }

  function DigitChar(d: nat): (c: char)
    requires d < 10
    ensures IsDigit(c) && c as int - '0' as int == d
  {
    ('0' as int + d) as char
  }

  /** The decimal digits of `n`, without leading zeros. */
  function NatToString(n: nat): (s: string)
    ensures |s| >= 1 && AllDigits(s)
    ensures (s[0] == '0') == (n == 0)
    decreases n
  {
    if n < 10 then [DigitChar(n)] else NatToString(n / 10) + [DigitChar(n % 10)]
  }

  /** The value of a string of decimal digits. */
  function DigitsValue(s: string): nat
    requires AllDigits(s)
    decreases |s|
  {
    if s == [] then 0 else 10 * DigitsValue(s[..|s| - 1]) + (s[|s| - 1] as int - '0' as int)
  }

  /** Reading back the digits of `n` gives `n`. */
  lemma {:induction false} DigitsValueOfNatToString(n: nat)
    ensures DigitsValue(NatToString(n)) == n
    decreases n
  {
    if n >= 10 {
      var s := NatToString(n);
      assert s[..|s| - 1] == NatToString(n / 10);
      DigitsValueOfNatToString(n / 10);
    }
  }

  /** `String(i)` for an integer. */
  function IntToString(i: int): string {
    if i < 0 then "-" + NatToString(-i) else NatToString(i)
  }

  /** An optional sign followed by at least one decimal digit. */
  predicate IsIntegerLiteral(s: string) {
    if |s| >= 1 && (s[0] == '+' || s[0] == '-') then |s| >= 2 && AllDigits(s[1..])
    else |s| >= 1 && AllDigits(s)
  }

  /** The integer a numeric literal denotes, for the literals that are integers. */
  function ParseInteger(s: string): (r: Option<int>)
    ensures r.Some? <==> IsIntegerLiteral(s)
  {
    if !IsIntegerLiteral(s) then None
    else if s[0] == '-' then Some(-(DigitsValue(s[1..]) as int))
    else if s[0] == '+' then Some(DigitsValue(s[1..]))
    else Some(DigitsValue(s))
  }

  /** Writing an integer and reading it back gives the integer. */
  lemma ParseIntegerOfIntToString(i: int)
    ensures ParseInteger(IntToString(i)) == Some(i)
  {
    if i < 0 {
      ParseNegative(NatToString(-i), -i);
    } else {
      ParseUnsigned(NatToString(i), i);
    }
  }

  lemma ParseNegative(digits: string, n: nat)
    requires digits == NatToString(n)
    ensures ParseInteger("-" + digits) == Some(-(n as int))
  {
    var s := "-" + digits;
    assert s[0] == '-' && s[1..] == digits;
    DigitsValueOfNatToString(n);
  }

  lemma ParseUnsigned(digits: string, n: nat)
    requires digits == NatToString(n)
    ensures ParseInteger(digits) == Some(n)
  {
    assert IsDigit(digits[0]);
    DigitsValueOfNatToString(n);
  }

  /** The array index a property name denotes: "0", or digits without a leading zero. */
  function CanonicalIndex(k: string): (r: Option<nat>)
    ensures r.Some? ==> AllDigits(k) && k != []
  {
    if |k| >= 1 && AllDigits(k) && (k[0] != '0' || k == "0") then Some(DigitsValue(k)) else None
  }

  /** The decimal form of `n` names array index `n`. */
  lemma CanonicalIndexOfNatToString(n: nat)
    ensures CanonicalIndex(NatToString(n)) == Some(n)
  {
    DigitsValueOfNatToString(n);
    if n == 0 {
      assert NatToString(0) == "0";
    }
  }
}
