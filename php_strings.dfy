/**
 * The handful of PHP string built-ins the import service relies on, over
 * single-byte strings: `empty`, `trim`, `strtolower`, `strpos` for one
 * character, `explode`/`implode`, `str_replace` and `intval`.
 */
module PhpStrings {
  import opened Wrappers

  /** `empty($s)` for a string: PHP treats "" and "0" as empty. */
  predicate PhpEmpty(s: string) {
    s == "" || s == "0"
  }

  /** The characters `trim` strips by default: space, tab, LF, CR, NUL and vertical tab. */
  predicate IsTrimSpace(c: char) {
    c == ' ' || c == '\t' || c == '\n' || c == '\r' || c == '\U{0}' || c == '\U{B}'
  }

  /** `ltrim`: drops leading trim characters, nothing else. */
  function TrimLeft(s: string): (r: string)
    ensures |r| <= |s| && r == s[|s| - |r|..]
    ensures r != [] ==> !IsTrimSpace(r[0])
  {
    if s != [] && IsTrimSpace(s[0]) then TrimLeft(s[1..]) else s
  }

  /** `ltrim` drops trim characters only. */
  lemma {:induction false} TrimLeftDropsSpaces(s: string)
    ensures forall k :: 0 <= k < |s| - |TrimLeft(s)| ==> IsTrimSpace(s[k])
    decreases |s|
  {
    if s != [] && IsTrimSpace(s[0]) {
      TrimLeftDropsSpaces(s[1..]);
    }
  }

  /** `rtrim`: drops trailing trim characters, nothing else. */
  function TrimRight(s: string): (r: string)
    ensures |r| <= |s| && r == s[..|r|]
    ensures r != [] ==> !IsTrimSpace(r[|r| - 1])
  {
    if s != [] && IsTrimSpace(s[|s| - 1]) then TrimRight(s[..|s| - 1]) else s
  }

  /** `rtrim` drops trim characters only. */
  lemma {:induction false} TrimRightDropsSpaces(s: string)
    ensures forall k :: |TrimRight(s)| <= k < |s| ==> IsTrimSpace(s[k])
    decreases |s|
  {
    if s != [] && IsTrimSpace(s[|s| - 1]) {
      TrimRightDropsSpaces(s[..|s| - 1]);
    }
  }

  /** `trim`: the longest infix of s that neither starts nor ends with a trim character. */
  function Trim(s: string): (r: string)
    ensures |r| <= |s|
    ensures r != [] ==> !IsTrimSpace(r[0]) && !IsTrimSpace(r[|r| - 1])
  {
    TrimRight(TrimLeft(s))
  }

  /** s neither starts nor ends with a character `trim` strips. */
  predicate Trimmed(s: string) {
    s != [] ==> !IsTrimSpace(s[0]) && !IsTrimSpace(s[|s| - 1])
  }

  lemma TrimLeftOfTrimmed(s: string)
    requires Trimmed(s)
    ensures TrimLeft(s) == s
  {
  }

  lemma TrimRightOfTrimmed(s: string)
    requires Trimmed(s)
    ensures TrimRight(s) == s
  {
  }

  /** A trimmed string is left alone by `trim`. */
  lemma TrimOfTrimmed(s: string)
    requires Trimmed(s)
    ensures Trim(s) == s
  {
    TrimLeftOfTrimmed(s);
    TrimRightOfTrimmed(s);
  }

  lemma TrimLeftAfterSpace(c: char, s: string)
    requires IsTrimSpace(c)
    ensures TrimLeft([c] + s) == TrimLeft(s)
  {
    assert ([c] + s)[0] == c && ([c] + s)[1..] == s;
  }

  /** `trim` ignores a leading trim character. */
  lemma TrimAfterSpace(c: char, s: string)
    requires IsTrimSpace(c)
    ensures Trim([c] + s) == Trim(s)
  {
    TrimLeftAfterSpace(c, s);
  }

  /** `strtolower` on ASCII letters. */
  function ToLower(s: string): (r: string)
    ensures |r| == |s|
    ensures forall k :: 0 <= k < |s| ==> r[k] == LowerChar(s[k])
  {
    if s == [] then [] else [LowerChar(s[0])] + ToLower(s[1..])
  }

  function LowerChar(c: char): char {
    if 'A' <= c <= 'Z' then (c as int + 32) as char else c
  }

  /** Lower-casing twice is lower-casing once. */
  lemma ToLowerIdempotent(s: string)
    ensures ToLower(ToLower(s)) == ToLower(s)
  {
  }

  /**
   * `strpos($s, $c)` for a one-character needle: the first position of c in s,
   * or None (PHP `false`) when c does not occur.
   */
  function StrPos(s: string, c: char): (r: Option<nat>)
    ensures r.Some? ==> r.value < |s| && s[r.value] == c
    ensures r.Some? ==> forall k :: 0 <= k < r.value ==> s[k] != c
    ensures r.None? <==> forall k :: 0 <= k < |s| ==> s[k] != c
  {
    if s == [] then None
    else if s[0] == c then Some(0)
    else match StrPos(s[1..], c)
      case None => None
      case Some(p) => Some(p + 1)
  }

  /** d occurs in s starting at position k. */
  predicate OccursAt(s: string, d: string, k: nat) {
    k + |d| <= |s| && s[k..k + |d|] == d
  }

  /**
   * `explode($d, $s)`: the pieces of s between the leftmost non-overlapping
   * occurrences of the non-empty delimiter d.
   */
  function Explode(s: string, d: string): (parts: seq<string>)
    requires d != []
    ensures |parts| >= 1
    decreases |s|
  {
    if |s| < |d| then [s]
    else if s[..|d|] == d then [""] + Explode(s[|d|..], d)
    else
      var rest := Explode(s[1..], d);
      [[s[0]] + rest[0]] + rest[1..]
  }

  /** `implode($d, $parts)`: the parts joined with d between neighbours. */
  function Implode(parts: seq<string>, d: string): string
    requires |parts| >= 1
  {
    if |parts| == 1 then parts[0] else parts[0] + d + Implode(parts[1..], d)
  }

  /** Joining the pieces of `explode` with the same delimiter gives back the input. */
  lemma {:induction false} ImplodeExplode(s: string, d: string)
    requires d != []
    ensures Implode(Explode(s, d), d) == s
    decreases |s|
  {
    if |s| < |d| {
    } else if s[..|d|] == d {
      ImplodeExplode(s[|d|..], d);
      var rest := Explode(s[|d|..], d);
      assert Explode(s, d) == [""] + rest;
      assert ([""] + rest)[1..] == rest;
      assert s == d + s[|d|..];
    } else {
      ImplodeExplode(s[1..], d);
      var rest := Explode(s[1..], d);
      var parts := [[s[0]] + rest[0]] + rest[1..];
      assert Explode(s, d) == parts;
      if |rest| == 1 {
        assert Implode(parts, d) == [s[0]] + rest[0];
      } else {
        assert parts[1..] == rest[1..];
        assert Implode(parts, d) == ([s[0]] + rest[0]) + d + Implode(rest[1..], d);
        assert Implode(rest, d) == rest[0] + d + Implode(rest[1..], d);
      }
      assert s == [s[0]] + s[1..];
    }
  }

  /** A string in which d never occurs is exploded into itself alone. */
  lemma {:induction false} ExplodeWithoutDelimiter(s: string, d: string)
    requires d != []
    requires forall k :: 0 <= k <= |s| ==> !OccursAt(s, d, k)
    ensures Explode(s, d) == [s]
    decreases |s|
  {
    if |s| >= |d| {
      assert !OccursAt(s, d, 0);
      assert s[..|d|] != d;
      forall k | 0 <= k <= |s[1..]|
        ensures !OccursAt(s[1..], d, k)
      {
        assert !OccursAt(s, d, k + 1);
        if k + |d| <= |s[1..]| {
          assert s[1..][k..k + |d|] == s[k + 1..k + 1 + |d|];
        }
      }
      ExplodeWithoutDelimiter(s[1..], d);
      assert s == [s[0]] + s[1..];
    }
  }

  /** No piece of `explode` on a one-character delimiter contains that character. */
  lemma {:induction false} ExplodePiecesFree(s: string, d: char)
    ensures forall i, k :: 0 <= i < |Explode(s, [d])| && 0 <= k < |Explode(s, [d])[i]| ==> Explode(s, [d])[i][k] != d
    decreases |s|
  {
    if |s| >= 1 {
      ExplodePiecesFree(s[1..], d);
      if s[..1] != [d] {
        assert s[0] != d;
        var rest := Explode(s[1..], [d]);
        assert Explode(s, [d]) == [[s[0]] + rest[0]] + rest[1..];
        assert forall i :: 1 <= i < |Explode(s, [d])| ==> Explode(s, [d])[i] == rest[i];
      }
    }
  }

  /** A string with exactly one occurrence of the one-character delimiter d explodes into the two sides. */
  lemma {:induction false} ExplodeOnce(x: string, d: char, y: string)
    requires forall k :: 0 <= k < |x| ==> x[k] != d
    requires forall k :: 0 <= k < |y| ==> y[k] != d
    ensures Explode(x + [d] + y, [d]) == [x, y]
    decreases |x|
  {
    var s := x + [d] + y;
    if x == [] {
      assert s == [d] + y && s[..1] == [d] && s[1..] == y;
      forall k | 0 <= k <= |y|
        ensures !OccursAt(y, [d], k)
      {
        if k + 1 <= |y| {
          assert y[k..k + 1] == [y[k]];
        }
      }
      ExplodeWithoutDelimiter(y, [d]);
    } else {
      assert s[..1] == [x[0]] && s[1..] == x[1..] + [d] + y;
      ExplodeOnce(x[1..], d, y);
      assert [x[0]] + x[1..] == x;
    }
  }

  /** `str_replace($pat, $rep, $s)`: every leftmost non-overlapping occurrence of pat replaced by rep. */
  function ReplaceAll(s: string, pat: string, rep: string): string
    requires pat != []
  {
    Implode(Explode(s, pat), rep)
  }

  /** Replacing a pattern that does not occur changes nothing. */
  lemma ReplaceAbsent(s: string, pat: string, rep: string)
    requires pat != []
    requires forall k :: 0 <= k <= |s| ==> !OccursAt(s, pat, k)
    ensures ReplaceAll(s, pat, rep) == s
  {
    ExplodeWithoutDelimiter(s, pat);
  }

  /** Replacing a pattern by itself changes nothing. */
  lemma ReplaceBySelf(s: string, pat: string)
    requires pat != []
    ensures ReplaceAll(s, pat, pat) == s
  {
    ImplodeExplode(s, pat);
  }

  predicate IsDigit(c: char) { '0' <= c <= '9' }

  predicate IsDigits(s: string) { forall k :: 0 <= k < |s| ==> IsDigit(s[k]) }

  /** The whitespace PHP skips before a number: space, tab, LF, CR, vertical tab, form feed. */
  predicate IsNumberSpace(c: char) {
    c == ' ' || c == '\t' || c == '\n' || c == '\r' || c == '\U{B}' || c == '\U{C}'
  }

  function SkipNumberSpace(s: string): (r: string)
    ensures |r| <= |s| && r == s[|s| - |r|..]
    ensures r != [] ==> !IsNumberSpace(r[0])
  {
    if s != [] && IsNumberSpace(s[0]) then SkipNumberSpace(s[1..]) else s
  }

  /** The longest prefix of s made of decimal digits. */
  function LeadingDigits(s: string): (r: string)
    ensures |r| <= |s| && r == s[..|r|] && IsDigits(r)
    ensures |r| < |s| ==> !IsDigit(s[|r|])
  {
    if s != [] && IsDigit(s[0]) then [s[0]] + LeadingDigits(s[1..]) else []
  }

  /** The value of a string of decimal digits. */
  function DigitsValue(s: string): (n: nat)
    requires IsDigits(s)
  {
    if s == [] then 0 else DigitsValue(s[..|s| - 1]) * 10 + (s[|s| - 1] as int - '0' as int)
  }

  /**
   * `intval($s)` in base 10: leading whitespace, an optional sign, then the
   * longest run of digits; 0 when there are none.
   */
  function IntVal(s: string): int {
    var t := SkipNumberSpace(s);
    if t != [] && t[0] == '-' then 0 - DigitsValue(LeadingDigits(t[1..])) as int
    else if t != [] && t[0] == '+' then DigitsValue(LeadingDigits(t[1..]))
    else DigitsValue(LeadingDigits(t))
  }

  /** The decimal spelling of a natural number, without leading zeros. */
  function NatToString(n: nat): (s: string)
    ensures s != [] && IsDigits(s)
  {
    if n < 10 then [('0' as int + n) as char]
    else NatToString(n / 10) + [('0' as int + n % 10) as char]
  }

  /** The decimal spelling of an integer, with a leading '-' when negative. */
  function IntToString(n: int): string {
    if n < 0 then "-" + NatToString(-n) else NatToString(n)
  }

  lemma {:induction false} DigitsValueOfNatToString(n: nat)
    ensures DigitsValue(NatToString(n)) == n
  {
    if n >= 10 {
      DigitsValueOfNatToString(n / 10);
      var s := NatToString(n);
      assert s[..|s| - 1] == NatToString(n / 10);
    }
  }

  lemma LeadingDigitsOfDigits(s: string)
    requires IsDigits(s)
    ensures LeadingDigits(s) == s
  {
  }

  /** On a non-empty run of digits `intval` is the value of the digits. */
  lemma IntValOfDigits(s: string)
    requires s != [] && IsDigits(s)
    ensures IntVal(s) == DigitsValue(s)
  {
    assert s[0] != '-' && s[0] != '+' && !IsNumberSpace(s[0]) by {
      assert IsDigit(s[0]);
    }
    assert SkipNumberSpace(s) == s;
    LeadingDigitsOfDigits(s);
  }

  /** On a minus sign followed by a non-empty run of digits `intval` is minus the value of the digits. */
  lemma IntValOfNegatedDigits(s: string)
    requires s != [] && IsDigits(s)
    ensures IntVal("-" + s) == 0 - DigitsValue(s)
  {
    var t := "-" + s;
    assert t[0] == '-' && !IsNumberSpace(t[0]);
    assert SkipNumberSpace(t) == t;
    assert t[1..] == s;
    LeadingDigitsOfDigits(s);
  }

  /** `intval` reads back the decimal spelling of every integer. */
  lemma IntValOfIntToString(n: int)
    ensures IntVal(IntToString(n)) == n
  {
    if n < 0 {
      var s := NatToString(-n);
      assert IntToString(n) == "-" + s;
      IntValOfNegatedDigits(s);
      DigitsValueOfNatToString(-n);
    } else {
      IntValOfDigits(NatToString(n));
      DigitsValueOfNatToString(n);
    }
  }
}
