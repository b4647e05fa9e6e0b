/** The JavaScript string built-ins the utilities rely on: `trim`, `indexOf`
    with a one-character needle, `split` on one character, and the decimal
    rendering of an array index (the keys `for…in` yields over an array). */
module JsString {

  /** ECMAScript WhiteSpace and LineTerminator code points: what `trim` removes. */
  predicate IsJsWhitespace(c: char) {
    || c == ' ' || c == '\t' || c == '\n' || c == '\r'
    || c == '\U{000B}' || c == '\U{000C}' || c == '\U{00A0}' || c == '\U{1680}'
    || ('\U{2000}' <= c <= '\U{200A}')
    || c == '\U{2028}' || c == '\U{2029}' || c == '\U{202F}' || c == '\U{205F}'
    || c == '\U{3000}' || c == '\U{FEFF}'
  }

  predicate AllWhitespace(s: string) {
    forall i :: 0 <= i < |s| ==> IsJsWhitespace(s[i])
  }

  /** The position of the first non-whitespace character at or after `i`
      (`|s|` when there is none). */
  function TrimStartIndex(s: string, i: nat): (k: nat)
    requires i <= |s|
    ensures i <= k <= |s|
    ensures forall m :: i <= m < k ==> IsJsWhitespace(s[m])
    ensures k < |s| ==> !IsJsWhitespace(s[k])
    decreases |s| - i
  {
    if i < |s| && IsJsWhitespace(s[i]) then TrimStartIndex(s, i + 1) else i
  }

  /** The end of the last non-whitespace character in `s[lo..j]`
      (`lo` when there is none). */
  function TrimEndIndex(s: string, lo: nat, j: nat): (k: nat)
    requires lo <= j <= |s|
    ensures lo <= k <= j
    ensures forall m :: k <= m < j ==> IsJsWhitespace(s[m])
    ensures k > lo ==> !IsJsWhitespace(s[k - 1])
    decreases j
  {
    if j > lo && IsJsWhitespace(s[j - 1]) then TrimEndIndex(s, lo, j - 1) else j
  }

  /** `String.prototype.trim`: the infix of `s` left after removing whitespace
      from both ends. It is empty exactly when `s` is all whitespace. */
  function Trim(s: string): (r: string)
    ensures exists i, j :: 0 <= i <= j <= |s| && r == s[i..j]
                           && AllWhitespace(s[..i]) && AllWhitespace(s[j..])
    ensures r != [] ==> !IsJsWhitespace(r[0]) && !IsJsWhitespace(r[|r| - 1])
    ensures r == [] <==> AllWhitespace(s)
  {
    var i := TrimStartIndex(s, 0);
    var j := TrimEndIndex(s, i, |s|);
    assert AllWhitespace(s[..i]) && AllWhitespace(s[j..]);
    s[i..j]
  }

  /** Trimming a string that neither starts nor ends with whitespace changes nothing. */
  lemma TrimUnchanged(s: string)
    requires s != [] && !IsJsWhitespace(s[0]) && !IsJsWhitespace(s[|s| - 1])
    ensures Trim(s) == s
  {
    assert TrimStartIndex(s, 0) == 0;
    assert TrimEndIndex(s, 0, |s|) == |s|;
  }

  /** `s.indexOf(c)`: -1 when `c` does not occur, else its first position. */
  function IndexOf(s: string, c: char): (r: int)
    ensures r == -1 <==> forall i :: 0 <= i < |s| ==> s[i] != c
    ensures r != -1 ==> 0 <= r < |s| && s[r] == c && forall i :: 0 <= i < r ==> s[i] != c
  {
    if |s| == 0 then -1
    else if s[0] == c then 0
    else
      var k := IndexOf(s[1..], c);
      if k == -1 then -1 else k + 1
  }

  /** `s.split(sep)` for a one-character separator: the maximal separator-free
      pieces, always at least one (the empty string splits into `[""]`). */
  function Split(s: string, sep: char): (r: seq<string>)
    ensures |r| >= 1
    ensures forall k :: 0 <= k < |r| ==> sep !in r[k]
    decreases |s|
  {
    var i := IndexOf(s, sep);
    if i == -1 then [s] else [s[..i]] + Split(s[i + 1..], sep)
  }

  /** `parts.join(sep)`, the inverse of `Split`. */
  function Join(parts: seq<string>, sep: char): string
    requires |parts| >= 1
  {
    if |parts| == 1 then parts[0] else parts[0] + [sep] + Join(parts[1..], sep)
  }

  /** Joining the pieces of a split gives back the original string. */
  lemma {:induction false} JoinSplit(s: string, sep: char)
    ensures Join(Split(s, sep), sep) == s
    decreases |s|
  {
    var i := IndexOf(s, sep);
    if i != -1 {
      var tail := Split(s[i + 1..], sep);
      var parts := [s[..i]] + tail;
      assert Split(s, sep) == parts;
      assert parts[1..] == tail;
      JoinSplit(s[i + 1..], sep);
      assert Join(parts, sep) == s[..i] + [sep] + Join(tail, sep);
      assert s == s[..i] + [sep] + s[i + 1..];
    }
  }

  /** The first separator of `p + [sep] + rest` is the one after `p`, when
      `p` has none. */
  lemma IndexOfAfterPiece(p: string, rest: string, sep: char)
    requires sep !in p
    ensures IndexOf(p + [sep] + rest, sep) == |p|
  {
    var s := p + [sep] + rest;
    assert s[|p|] == sep;
    assert forall i :: 0 <= i < |p| ==> s[i] == p[i];
  }

  /** Splitting a separator-free piece, a separator and a rest gives the
      piece followed by the split of the rest. */
  lemma SplitCons(p: string, rest: string, sep: char)
    requires sep !in p
    ensures Split(p + [sep] + rest, sep) == [p] + Split(rest, sep)
  {
    var s := p + [sep] + rest;
    IndexOfAfterPiece(p, rest, sep);
    assert s[..|p|] == p;
    assert s[|p| + 1..] == rest;
  }

  /** Splitting a join of separator-free pieces gives back the pieces. */
  lemma {:induction false} SplitJoin(parts: seq<string>, sep: char)
    requires |parts| >= 1
    requires forall k :: 0 <= k < |parts| ==> sep !in parts[k]
    ensures Split(Join(parts, sep), sep) == parts
  {
    if |parts| == 1 {
      assert forall i :: 0 <= i < |parts[0]| ==> parts[0][i] != sep;
    } else {
      SplitCons(parts[0], Join(parts[1..], sep), sep);
      SplitJoin(parts[1..], sep);
      assert parts == [parts[0]] + parts[1..];
    }
  }

  function DigitChar(d: nat): (c: char)
    requires d < 10
    ensures '0' <= c <= '9'
  {
    "0123456789"[d]
  }

  /** The decimal text of a non-negative integer, as `for…in` renders array indices. */
  function NatToString(n: nat): (r: string)
    ensures |r| >= 1
    ensures forall k :: 0 <= k < |r| ==> '0' <= r[k] <= '9'
    ensures n >= 10 ==> r[0] != '0'
  {
    if n < 10 then [DigitChar(n)] else NatToString(n / 10) + [DigitChar(n % 10)]
  }

  /** The value of a string of decimal digits; the inverse of `NatToString`. */
  function DigitsValue(s: string): nat
    requires forall k :: 0 <= k < |s| ==> '0' <= s[k] <= '9'
  {
    if s == [] then 0 else 10 * DigitsValue(s[..|s| - 1]) + ((s[|s| - 1] as int) - ('0' as int))
  }

  /** Index keys are distinct: the decimal text reads back as the same number. */
  lemma {:induction false} NatToStringValue(n: nat)
    ensures DigitsValue(NatToString(n)) == n
  {
    if n >= 10 {
      NatToStringValue(n / 10);
      var r := NatToString(n);
      assert r[..|r| - 1] == NatToString(n / 10);
    }
  }
}
