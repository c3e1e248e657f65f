/**
 * The java.lang.String and java.lang.Integer operations the map filter relies on:
 * toLowerCase, contains, trim, split(";"), trim().split("\\s+"), Integer.parseInt and
 * String.valueOf(int). Characters are Unicode code points; case mapping and digit
 * recognition are restricted to ASCII.
 */
module JavaText {
  import opened Wrappers

  /** Integer.MIN_VALUE and Integer.MAX_VALUE. */
  const MinInt: int := -0x8000_0000
  const MaxInt: int := 0x7fff_ffff

  predicate IsInt32(n: int) {
    MinInt <= n <= MaxInt
  }

  // ---------------------------------------------------------------- case

  function LowerChar(c: char): char {
    if 'A' <= c <= 'Z' then (c as int + 32) as char else c
  }

  /** String.toLowerCase on ASCII letters; every other character is kept. */
  function ToLower(s: string): (r: string)
    ensures |r| == |s|
  {
    seq(|s|, i requires 0 <= i < |s| => LowerChar(s[i]))
  }

  /** Lowercasing twice is lowercasing once (calculatePriority lowercases an already lowercased name). */
  lemma ToLowerIdempotent(s: string)
    ensures ToLower(ToLower(s)) == ToLower(s)
  {
    assert forall i | 0 <= i < |s| :: LowerChar(LowerChar(s[i])) == LowerChar(s[i]);
  }

  // ---------------------------------------------------------------- contains

  /** sub occurs in s starting at offset i. */
  predicate OccursAt(s: string, sub: string, i: int) {
    0 <= i && i + |sub| <= |s| && s[i..i + |sub|] == sub
  }

  /** String.contains, scanning the start offsets from left to right. */
  function Contains(s: string, sub: string): bool
    decreases |s|
  {
    sub <= s || (s != [] && Contains(s[1..], sub))
  }

  lemma {:induction false} ContainsOfOccurs(s: string, sub: string, i: int)
    requires OccursAt(s, sub, i)
    ensures Contains(s, sub)
    decreases i
  {
    if i == 0 {
      assert s[..|sub|] == sub;
    } else {
      assert s[1..][i - 1..i - 1 + |sub|] == s[i..i + |sub|];
      ContainsOfOccurs(s[1..], sub, i - 1);
    }
  }

  lemma {:induction false} OccursOfContains(s: string, sub: string) returns (i: int)
    requires Contains(s, sub)
    ensures OccursAt(s, sub, i)
    decreases |s|
  {
    if sub <= s {
      assert s[0..|sub|] == sub;
      i := 0;
    } else {
      var j := OccursOfContains(s[1..], sub);
      assert s[j + 1..j + 1 + |sub|] == s[1..][j..j + |sub|];
      i := j + 1;
    }
  }

  /** Contains agrees with the offset-based definition of a substring. */
  lemma ContainsIffOccurs(s: string, sub: string)
    ensures Contains(s, sub) <==> exists i :: OccursAt(s, sub, i)
  {
    if Contains(s, sub) {
      var i := OccursOfContains(s, sub);
    }
    forall i | OccursAt(s, sub, i) ensures Contains(s, sub) {
      ContainsOfOccurs(s, sub, i);
    }
  }

  /** A text that lacks one of the characters of sub does not contain sub. */
  lemma {:induction false} MissingCharNotContained(s: string, sub: string, k: int)
    requires 0 <= k < |sub| && sub[k] !in s
    ensures !Contains(s, sub)
    decreases |s|
  {
    if s != [] {
      MissingCharNotContained(s[1..], sub, k);
    }
  }

  /** A text made only of allowed characters does not contain a sub with a character outside them. */
  lemma NotContainedOutside(s: string, allowed: set<char>, sub: string, k: int)
    requires forall i | 0 <= i < |s| :: s[i] in allowed
    requires 0 <= k < |sub| && sub[k] !in allowed
    ensures !Contains(s, sub)
  {
    MissingCharNotContained(s, sub, k);
  }

  // ---------------------------------------------------------------- trim

  /** String.trim removes the characters up to and including U+0020 at both ends. */
  predicate IsTrimmed(c: char) {
    c <= ' '
  }

  /** The number of characters String.trim removes at the start of s. */
  function Leading(s: string): (n: nat)
    ensures n <= |s|
    decreases |s|
  {
    if s != [] && IsTrimmed(s[0]) then Leading(s[1..]) + 1 else 0
  }

  /** The number of characters String.trim removes at the end of s. */
  function Trailing(s: string): (n: nat)
    ensures n <= |s|
    decreases |s|
  {
    if s != [] && IsTrimmed(s[|s| - 1]) then Trailing(s[..|s| - 1]) + 1 else 0
  }

  /** String.trim: s without its leading and trailing characters up to U+0020. */
  function Trim(s: string): string {
    var t := s[Leading(s)..];
    t[..|t| - Trailing(t)]
  }

  lemma {:induction false} LeadingFacts(s: string)
    ensures forall k | 0 <= k < Leading(s) :: IsTrimmed(s[k])
    ensures Leading(s) < |s| ==> !IsTrimmed(s[Leading(s)])
    decreases |s|
  {
    if s != [] && IsTrimmed(s[0]) {
      LeadingFacts(s[1..]);
    }
  }

  lemma {:induction false} TrailingFacts(s: string)
    ensures forall k | |s| - Trailing(s) <= k < |s| :: IsTrimmed(s[k])
    ensures Trailing(s) < |s| ==> !IsTrimmed(s[|s| - Trailing(s) - 1])
    decreases |s|
  {
    if s != [] && IsTrimmed(s[|s| - 1]) {
      TrailingFacts(s[..|s| - 1]);
    }
  }

  /**
   * Trim keeps the piece of s starting at Leading(s); everything removed before and after
   * it is a character up to U+0020, the piece neither starts nor ends with one, and
   * nothing is left exactly when every character of s is one.
   */
  lemma TrimFacts(s: string)
    ensures Leading(s) + |Trim(s)| <= |s|
    ensures forall k | 0 <= k < Leading(s) :: IsTrimmed(s[k])
    ensures forall k | Leading(s) + |Trim(s)| <= k < |s| :: IsTrimmed(s[k])
    ensures Trim(s) == [] || (!IsTrimmed(Trim(s)[0]) && !IsTrimmed(Trim(s)[|Trim(s)| - 1]))
    ensures Trim(s) == [] <==> forall k | 0 <= k < |s| :: IsTrimmed(s[k])
    ensures OccursAt(s, Trim(s), Leading(s))
  {
    var a := Leading(s);
    var t := s[a..];
    var r := Trim(s);
    LeadingFacts(s);
    TrailingFacts(t);
    assert r == s[a..a + |r|];
    forall k | a + |r| <= k < |s| ensures IsTrimmed(s[k]) {
      assert s[k] == t[k - a];
    }
  }

  // ---------------------------------------------------------------- integers

  predicate IsDigit(c: char) {
    '0' <= c <= '9'
  }

  predicate AllDigits(s: string) {
    forall i | 0 <= i < |s| :: IsDigit(s[i])
  }

  /** The value of a string of decimal digits, most significant first. */
  function DigitsValue(ds: string): nat
    requires AllDigits(ds)
    decreases |ds|
  {
    if ds == [] then 0 else DigitsValue(ds[..|ds| - 1]) * 10 + (ds[|ds| - 1] as int - '0' as int)
  }

  /**
   * Integer.parseInt: an optional '-' or '+', then at least one decimal digit, and a
   * value within the 32-bit range; anything else is a NumberFormatException (None).
   */
  function ParseInt(s: string): (r: Option<int>)
    ensures r.Some? ==> IsInt32(r.value)
    ensures r.Some? ==> s != [] && IsDigit(s[|s| - 1])
  {
    if s == [] then None
    else
      var digits := if s[0] == '-' || s[0] == '+' then s[1..] else s;
      if digits == [] || !AllDigits(digits) then None
      else
        var v: int := if s[0] == '-' then 0 - DigitsValue(digits) else DigitsValue(digits);
        if IsInt32(v) then Some(v) else None
  }

  function DigitChar(d: nat): char
    requires d < 10
  {
    ('0' as int + d) as char
  }

  /** The decimal digits of n without leading zeros. */
  function NatDigits(n: nat): string
    decreases n
  {
    if n < 10 then [DigitChar(n)] else NatDigits(n / 10) + [DigitChar(n % 10)]
  }

  /** String.valueOf(int): a '-' for negative values, then the digits of the magnitude. */
  function IntToString(n: int): string {
    if n < 0 then "-" + NatDigits(-n) else NatDigits(n)
  }

  lemma {:induction false} NatDigitsValue(n: nat)
    ensures NatDigits(n) != [] && AllDigits(NatDigits(n))
    ensures DigitsValue(NatDigits(n)) == n
    decreases n
  {
    if n >= 10 {
      NatDigitsValue(n / 10);
      var ds := NatDigits(n);
      assert ds[..|ds| - 1] == NatDigits(n / 10);
    }
  }

  /** Integer.parseInt reads back every int that String.valueOf writes. */
  lemma ParseIntOfIntToString(n: int)
    requires IsInt32(n)
    ensures ParseInt(IntToString(n)) == Some(n)
  {
    var s := IntToString(n);
    if n < 0 {
      NatDigitsValue(-n);
      assert s[0] == '-' && s[1..] == NatDigits(-n);
    } else {
      NatDigitsValue(n);
      assert IsDigit(s[0]);
    }
  }

  /** String.valueOf is injective on ints, so a map keyed by it behaves like a map keyed by the int. */
  lemma IntToStringInjective(a: int, b: int)
    requires IsInt32(a) && IsInt32(b)
    requires IntToString(a) == IntToString(b)
    ensures a == b
  {
    ParseIntOfIntToString(a);
    ParseIntOfIntToString(b);
  }

  // ---------------------------------------------------------------- split

  /** The position of the first c in s. */
  function IndexOf(s: string, c: char): (i: nat)
    requires c in s
    ensures i < |s| && s[i] == c && c !in s[..i]
    decreases |s|
  {
    if s[0] == c then 0
    else
      var i := IndexOf(s[1..], c) + 1;
      assert s[..i] == [s[0]] + s[1..][..i - 1];
      i
  }

  /** The pieces of s between occurrences of c, empty pieces included. */
  function Pieces(s: string, c: char): (r: seq<string>)
    ensures |r| >= 1
    decreases |s|
  {
    if c !in s then [s]
    else
      var i := IndexOf(s, c);
      [s[..i]] + Pieces(s[i + 1..], c)
  }

  /** The pieces joined back with c in between. */
  function Join(ps: seq<string>, c: char): string
    decreases |ps|
  {
    if ps == [] then [] else if |ps| == 1 then ps[0] else ps[0] + [c] + Join(ps[1..], c)
  }

  lemma JoinCons(p: string, ps: seq<string>, c: char)
    requires ps != []
    ensures Join([p] + ps, c) == p + [c] + Join(ps, c)
  {
    assert ([p] + ps)[1..] == ps;
  }

  /** No piece holds the delimiter. */
  lemma {:induction false} PiecesLackDelimiter(s: string, c: char)
    ensures forall k | 0 <= k < |Pieces(s, c)| :: c !in Pieces(s, c)[k]
    decreases |s|
  {
    if c in s {
      var i := IndexOf(s, c);
      PiecesLackDelimiter(s[i + 1..], c);
      assert Pieces(s, c) == [s[..i]] + Pieces(s[i + 1..], c);
    }
  }

  /** Splitting at c and joining with c gives back the original text. */
  lemma {:induction false} PiecesJoin(s: string, c: char)
    ensures Join(Pieces(s, c), c) == s
    decreases |s|
  {
    if c in s {
      var i := IndexOf(s, c);
      var rest := Pieces(s[i + 1..], c);
      PiecesJoin(s[i + 1..], c);
      JoinCons(s[..i], rest, c);
      assert s == s[..i] + [c] + s[i + 1..];
    }
  }

  function DropTrailingEmpty(ps: seq<string>): (r: seq<string>)
    ensures r <= ps
    ensures r == [] || r[|r| - 1] != []
    decreases |ps|
  {
    if ps != [] && ps[|ps| - 1] == [] then DropTrailingEmpty(ps[..|ps| - 1]) else ps
  }

  /**
   * s.split(c) for a delimiter that is not a regular-expression metacharacter: the text
   * itself when c does not occur, otherwise the pieces without the trailing empty ones.
   */
  function Split(s: string, c: char): seq<string> {
    if c !in s then [s]
    else DropTrailingEmpty(Pieces(s, c))
  }

  /** No piece of a split holds the delimiter. */
  lemma SplitLacksDelimiter(s: string, c: char)
    ensures forall k | 0 <= k < |Split(s, c)| :: c !in Split(s, c)[k]
  {
    PiecesLackDelimiter(s, c);
  }

  // ---------------------------------------------------------------- whitespace fields

  /** The characters the regular expression \s matches: space, tab, LF, VT, FF and CR. */
  predicate IsSpace(c: char) {
    c == ' ' || 9 <= c as int <= 13
  }

  /** The length of the run of non-space characters at the start of s. */
  function WordLength(s: string): (n: nat)
    ensures n <= |s|
    ensures s != [] && !IsSpace(s[0]) ==> n >= 1
    decreases |s|
  {
    if s == [] || IsSpace(s[0]) then 0 else WordLength(s[1..]) + 1
  }

  /** The maximal runs of non-space characters of s, in order. */
  function Words(s: string): (r: seq<string>)
    ensures s != [] && !IsSpace(s[0]) ==> r != []
    decreases |s|
  {
    if s == [] then []
    else if IsSpace(s[0]) then Words(s[1..])
    else
      var n := WordLength(s);
      [s[..n]] + Words(s[n..])
  }

  /**
   * token.trim().split("\\s+"): after trim the text neither starts nor ends with a
   * \s character, so the result is its words, or the single empty string when
   * nothing is left.
   */
  function Fields(token: string): (r: seq<string>)
    ensures |r| >= 1
  {
    var t := Trim(token);
    TrimFacts(token);
    if t == [] then [[]] else Words(t)
  }
}
