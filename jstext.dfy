/** The one optional-value type the model needs. */
module Wrappers {
  datatype Option<+T> = None | Some(value: T)
}

/**
 * The JavaScript built-ins the backend and the CLI lean on, written out on
 * `string` values: `parseInt` (decimal), `String(n)` of an integer,
 * `split` on a one-character separator, `trim`, `toLowerCase` (ASCII letters)
 * and a case-insensitive `contains` as the store's `mode: 'insensitive'` filter.
 */
module JsText {
  import opened Wrappers

  /**
   * The whitespace that `trim` and `parseInt` skip: ECMAScript's WhiteSpace
   * (tab, vertical tab, form feed, the BOM and every space separator of
   * category Zs) and LineTerminator (LF, CR, U+2028, U+2029).
   */
  predicate IsSpace(c: char) {
    c == '\t' || c == '\U{0B}' || c == '\U{0C}' || c == '\U{FEFF}'
    || c == ' ' || c == '\U{A0}' || c == '\U{1680}' || ('\U{2000}' <= c <= '\U{200A}')
    || c == '\U{202F}' || c == '\U{205F}' || c == '\U{3000}'
    || c == '\n' || c == '\r' || c == '\U{2028}' || c == '\U{2029}'
  }

  predicate IsDigit(c: char) { '0' <= c <= '9' }

  predicate AllDigits(s: string) { forall i :: 0 <= i < |s| ==> IsDigit(s[i]) }

  function DigitValue(c: char): nat
    requires IsDigit(c)
  {
    (c as int - '0' as int) as nat
  }

  function DigitChar(d: nat): (c: char)
    requires d < 10
    ensures IsDigit(c) && DigitValue(c) == d
  {
    ('0' as int + d) as char
  }

  /** `s || null` for an optional string: the empty string counts as absent. */
  function OrNull(s: Option<string>): (r: Option<string>)
    ensures r.Some? <==> s.Some? && s.value != ""
    ensures r.Some? ==> r == s
  {
    if s.Some? && s.value != "" then s else None
  }

  /** Drops leading whitespace. */
  function TrimStart(s: string): (r: string)
    ensures |r| <= |s| && r == s[|s| - |r|..]
    ensures forall i :: 0 <= i < |s| - |r| ==> IsSpace(s[i])
    ensures r == [] || !IsSpace(r[0])
  {
    if |s| > 0 && IsSpace(s[0]) then TrimStart(s[1..]) else s
  }

  /** Drops trailing whitespace. */
  function TrimEnd(s: string): (r: string)
    ensures |r| <= |s| && r == s[..|r|]
    ensures forall i :: |r| <= i < |s| ==> IsSpace(s[i])
    ensures r == [] || !IsSpace(r[|r| - 1])
  {
    if |s| > 0 && IsSpace(s[|s| - 1]) then TrimEnd(s[..|s| - 1]) else s
  }

  /**
   * `s.trim()`: a slice of `s` that neither starts nor ends with whitespace,
   * with only whitespace cut off on either side.
   */
  function Trim(s: string): (r: string)
    ensures |r| <= |s|
    ensures r == [] || (!IsSpace(r[0]) && !IsSpace(r[|r| - 1]))
    ensures exists i :: CutFrom(s, r, i)
  {
    TrimCuts(s);
    TrimEnd(TrimStart(s))
  }

  lemma TrimCuts(s: string)
    ensures CutFrom(s, TrimEnd(TrimStart(s)), |s| - |TrimStart(s)|)
  {
    CutOfParts(s, TrimStart(s), TrimEnd(TrimStart(s)));
  }

  /** A suffix of `s` after whitespace, cut to a prefix before whitespace, is a cut of `s`. */
  lemma CutOfParts(s: string, t: string, r: string)
    requires |t| <= |s| && t == s[|s| - |t|..]
    requires forall k :: 0 <= k < |s| - |t| ==> IsSpace(s[k])
    requires |r| <= |t| && r == t[..|r|]
    requires forall k :: |r| <= k < |t| ==> IsSpace(t[k])
    ensures CutFrom(s, r, |s| - |t|)
  {
    var i := |s| - |t|;
    assert r == s[i..i + |r|];
    forall k | i + |r| <= k < |s|
      ensures IsSpace(s[k])
    {
      assert s[k] == t[k - i];
    }
  }

  /** `r` is the slice of `s` at offset `i`, and everything around it is whitespace. */
  predicate CutFrom(s: string, r: string, i: int) {
    && 0 <= i <= |s| - |r| && r == s[i..i + |r|]
    && (forall k :: 0 <= k < i ==> IsSpace(s[k]))
    && (forall k :: i + |r| <= k < |s| ==> IsSpace(s[k]))
  }

  /** A string with no surrounding whitespace is its own trim. */
  lemma TrimOfTrimmed(s: string)
    requires s == [] || (!IsSpace(s[0]) && !IsSpace(s[|s| - 1]))
    ensures Trim(s) == s
  {
  }

  /** The longest prefix of decimal digits. */
  function DigitPrefix(s: string): (d: string)
    ensures AllDigits(d) && |d| <= |s| && d == s[..|d|]
    ensures |d| < |s| ==> !IsDigit(s[|d|])
  {
    if |s| > 0 && IsDigit(s[0]) then [s[0]] + DigitPrefix(s[1..]) else []
  }

  /** The number a run of decimal digits denotes. */
  function DigitsValue(d: string): nat
    requires AllDigits(d)
  {
    if d == [] then 0 else 10 * DigitsValue(d[..|d| - 1]) + DigitValue(d[|d| - 1])
  }

  /**
   * `parseInt(s)`: skip leading whitespace, an optional sign, then read the
   * longest run of decimal digits; with no digit the result is NaN (`None`).
   */
  function ParseInt(s: string): Option<int> {
    var t := TrimStart(s);
    var neg := |t| > 0 && t[0] == '-';
    var body := if |t| > 0 && (t[0] == '-' || t[0] == '+') then t[1..] else t;
    var d := DigitPrefix(body);
    if d == [] then None
    else if neg then Some(-(DigitsValue(d) as int))
    else Some(DigitsValue(d))
  }

  /** A digit after the whitespace reads as a non-negative number; a negative one needs a leading `-`. */
  lemma ParseIntSign(s: string)
    ensures var t := TrimStart(s); |t| > 0 && IsDigit(t[0]) ==> ParseInt(s).Some? && ParseInt(s).value >= 0
    ensures var t := TrimStart(s); ParseInt(s).Some? && ParseInt(s).value < 0 ==> |t| > 0 && t[0] == '-'
  {
  }

  /** Text without a single digit is NaN. */
  lemma ParseIntNeedsDigit(s: string)
    requires forall k :: 0 <= k < |s| ==> !IsDigit(s[k])
    ensures ParseInt(s).None?
  {
    var t := TrimStart(s);
    var body := if |t| > 0 && (t[0] == '-' || t[0] == '+') then t[1..] else t;
    assert body == s[|s| - |body|..] by {
      assert t == s[|s| - |t|..];
    }
    assert |body| > 0 ==> !IsDigit(body[0]) by {
      if |body| > 0 {
        assert body[0] == s[|s| - |body|];
      }
    }
  }

  /** `String(n)` for a natural number. */
  function NatToString(n: nat): (s: string)
    ensures |s| >= 1 && AllDigits(s)
  {
    if n < 10 then [DigitChar(n)] else NatToString(n / 10) + [DigitChar(n % 10)]
  }

  /** `String(i)` for an integer, as a template literal renders it. */
  function IntToString(i: int): (s: string)
    ensures |s| >= 1 && !IsSpace(s[0])
    ensures s[0] == '-' <==> i < 0
  {
    if i < 0 then "-" + NatToString(-i) else NatToString(i)
  }

  /** After an optional minus sign, `String(i)` is all digits. */
  lemma IntToStringChars(i: int)
    ensures forall k :: 0 < k < |IntToString(i)| ==> IsDigit(IntToString(i)[k])
    ensures IsDigit(IntToString(i)[|IntToString(i)| - 1])
  {
  }

  lemma {:induction false} DigitsValueOfNatToString(n: nat)
    ensures DigitsValue(NatToString(n)) == n
  {
    if n >= 10 {
      var s := NatToString(n);
      assert s[..|s| - 1] == NatToString(n / 10);
      DigitsValueOfNatToString(n / 10);
    }
  }

  lemma {:induction false} DigitPrefixOfDigits(d: string, rest: string)
    requires AllDigits(d)
    requires rest == [] || !IsDigit(rest[0])
    ensures DigitPrefix(d + rest) == d
  {
    if d != [] {
      assert (d + rest)[1..] == d[1..] + rest;
      DigitPrefixOfDigits(d[1..], rest);
    }
  }

  /**
   * `parseInt` reads back what `String` wrote, also when non-digits follow
   * (so `parseInt("12abc")` is 12 and a user id in a token survives the trip).
   */
  lemma ParseIntOfIntToString(i: int, rest: string)
    requires rest == [] || !IsDigit(rest[0])
    ensures ParseInt(IntToString(i) + rest) == Some(i)
  {
    var s := IntToString(i) + rest;
    var digits := NatToString(if i < 0 then -i else i);
    assert TrimStart(s) == s;
    if i < 0 {
      assert s == "-" + (digits + rest);
      assert s[1..] == digits + rest;
    } else {
      assert s == digits + rest;
      assert IsDigit(s[0]);
    }
    DigitPrefixOfDigits(digits, rest);
    DigitsValueOfNatToString(if i < 0 then -i else i);
  }

  /** The case with nothing after the number. */
  lemma ParseIntOfNumberText(i: int)
    ensures ParseInt(IntToString(i)) == Some(i)
  {
    ParseIntOfIntToString(i, []);
    assert IntToString(i) + [] == IntToString(i);
  }

  /** `s.split(c)` for a one-character separator: always at least one piece. */
  function Split(s: string, c: char): (r: seq<string>)
    ensures |r| >= 1
  {
    if s == [] then [[]]
    else
      var rest := Split(s[1..], c);
      if s[0] == c then [[]] + rest else [[s[0]] + rest[0]] + rest[1..]
  }

  /** `parts.join(c)`. */
  function Join(parts: seq<string>, c: char): string
    requires |parts| >= 1
  {
    if |parts| == 1 then parts[0] else parts[0] + [c] + Join(parts[1..], c)
  }

  /** No piece of a split contains the separator... */
  lemma {:induction false} SplitPiecesFree(s: string, c: char)
    ensures forall k :: 0 <= k < |Split(s, c)| ==> c !in Split(s, c)[k]
  {
    if s != [] {
      SplitPiecesFree(s[1..], c);
    }
  }

  /** ...and joining the pieces back gives the string. */
  lemma {:induction false} JoinSplit(s: string, c: char)
    ensures Join(Split(s, c), c) == s
  {
    if s != [] {
      var rest := Split(s[1..], c);
      JoinSplit(s[1..], c);
      if s[0] != c {
        if |rest| == 1 {
          assert s == [s[0]] + rest[0];
        } else {
          assert rest == [rest[0]] + rest[1..];
          assert Join(rest, c) == rest[0] + [c] + Join(rest[1..], c);
          assert s == [s[0]] + s[1..];
        }
      }
    }
  }

  lemma {:induction false} SplitOfFree(p: string, c: char, t: string, joined: bool)
    requires c !in p
    ensures Split(if joined then p + [c] + t else p, c) == if joined then [p] + Split(t, c) else [p]
  {
    if p == [] {
      if joined {
        assert [] + [c] + t == [c] + t;
        assert ([c] + t)[1..] == t;
      }
    } else {
      var s := if joined then p + [c] + t else p;
      assert s[1..] == if joined then p[1..] + [c] + t else p[1..];
      SplitOfFree(p[1..], c, t, joined);
      assert [p[0]] + p[1..] == p;
    }
  }

  /** Splitting a join of separator-free pieces gives the pieces back. */
  lemma {:induction false} SplitJoin(parts: seq<string>, c: char)
    requires |parts| >= 1
    requires forall k :: 0 <= k < |parts| ==> c !in parts[k]
    ensures Split(Join(parts, c), c) == parts
  {
    if |parts| == 1 {
      SplitOfFree(parts[0], c, [], false);
    } else {
      SplitJoin(parts[1..], c);
      SplitOfFree(parts[0], c, Join(parts[1..], c), true);
      assert parts == [parts[0]] + parts[1..];
    }
  }

  function LowerChar(c: char): char {
    if 'A' <= c <= 'Z' then (c as int - 'A' as int + 'a' as int) as char else c
  }

  /** `s.toLowerCase()` on ASCII letters. */
  function Lower(s: string): (r: string)
    ensures |r| == |s|
    ensures forall i :: 0 <= i < |s| ==> r[i] == LowerChar(s[i])
  {
    seq(|s|, i requires 0 <= i < |s| => LowerChar(s[i]))
  }

  lemma LowerIdempotent(s: string)
    ensures Lower(Lower(s)) == Lower(s)
  {
  }

  lemma LowerSlice(s: string, i: int, j: int)
    requires 0 <= i <= j <= |s|
    ensures Lower(s)[i..j] == Lower(s[i..j])
  {
  }

  /** `needle` occurs in `hay` at some offset. */
  predicate IsSubstring(needle: string, hay: string) {
    exists k :: 0 <= k <= |hay| - |needle| && OccursAt(needle, hay, k)
  }

  predicate OccursAt(needle: string, hay: string, k: int)
    requires 0 <= k <= |hay| - |needle|
  {
    hay[k..k + |needle|] == needle
  }

  /** The store's `contains` with `mode: 'insensitive'`. */
  predicate ContainsInsensitive(hay: string, needle: string): (r: bool)
    ensures needle == [] ==> r
    ensures r ==> |needle| <= |hay|
  {
    assert needle == [] ==> OccursAt(Lower(needle), Lower(hay), 0);
    IsSubstring(Lower(needle), Lower(hay))
  }

  /** An exact occurrence is also a case-insensitive one. */
  lemma ExactImpliesInsensitive(hay: string, needle: string)
    requires IsSubstring(needle, hay)
    ensures ContainsInsensitive(hay, needle)
  {
    var k :| 0 <= k <= |hay| - |needle| && OccursAt(needle, hay, k);
    LowerSlice(hay, k, k + |needle|);
    assert OccursAt(Lower(needle), Lower(hay), k);
  }

  /** Lower-casing either side first changes nothing. */
  lemma InsensitiveIgnoresCase(hay: string, needle: string)
    ensures ContainsInsensitive(hay, needle) == ContainsInsensitive(Lower(hay), Lower(needle))
  {
    LowerIdempotent(hay);
    LowerIdempotent(needle);
  }
}
