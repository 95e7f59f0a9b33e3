/**
  The three JavaScript string operations the components rely on:
  `String.prototype.trim`, `String.prototype.toLowerCase` and
  `String.prototype.includes`, on strings as sequences of characters.
 */
module JsString {

  /**
    The code points `trim` strips: WhiteSpace (section 12.2 of ECMA-262:
    TAB, VT, FF, ZWNBSP and every Unicode "Zs" space) and LineTerminator
    (section 12.3: LF, CR, LINE SEPARATOR, PARAGRAPH SEPARATOR).
   */
  predicate IsJsWhiteSpace(c: char) {
    var n := c as int;
    n == 0x09 || n == 0x0A || n == 0x0B || n == 0x0C || n == 0x0D ||
    n == 0x20 || n == 0xA0 || n == 0x1680 ||
    (0x2000 <= n <= 0x200A) ||
    n == 0x2028 || n == 0x2029 || n == 0x202F || n == 0x205F ||
    n == 0x3000 || n == 0xFEFF
  }

  /** `s` with its leading white space removed. */
  function TrimStart(s: string): (r: string)
    ensures |r| <= |s| && r == s[|s| - |r|..]
    ensures forall i :: 0 <= i < |s| - |r| ==> IsJsWhiteSpace(s[i])
    ensures r != [] ==> !IsJsWhiteSpace(r[0])
  {
    if s != [] && IsJsWhiteSpace(s[0]) then TrimStart(s[1..]) else s
  }

  /** `s` with its trailing white space removed. */
  function TrimEnd(s: string): (r: string)
    ensures |r| <= |s| && r == s[..|r|]
    ensures forall i :: |r| <= i < |s| ==> IsJsWhiteSpace(s[i])
    ensures r != [] ==> !IsJsWhiteSpace(r[|r| - 1])
  {
    if s != [] && IsJsWhiteSpace(s[|s| - 1]) then TrimEnd(s[..|s| - 1]) else s
  }

  /** `s.trim()`: white space removed from both ends. */
  function Trim(s: string): (r: string)
    ensures |r| <= |s|
    ensures r != [] ==> !IsJsWhiteSpace(r[0]) && !IsJsWhiteSpace(r[|r| - 1])
  {
    TrimEnd(TrimStart(s))
  }

  /** `!s.trim()`: the trimmed string is empty, hence falsy. */
  predicate IsBlank(s: string) {
    Trim(s) == []
  }

  /** A string is blank exactly when every one of its characters is white space. */
  lemma BlankIffAllWhiteSpace(s: string)
    ensures IsBlank(s) <==> forall i :: 0 <= i < |s| ==> IsJsWhiteSpace(s[i])
  {
    var t := TrimStart(s);
    if !forall i :: 0 <= i < |s| ==> IsJsWhiteSpace(s[i]) {
      var k :| 0 <= k < |s| && !IsJsWhiteSpace(s[k]);
      assert |t| > 0 && !IsJsWhiteSpace(t[0]);
      assert TrimEnd(t) != [];
    }
  }

  /** `s[a..b]` is what is left between white space only: `s[..a]` and `s[b..]` hold nothing else. */
  predicate IsInfixBetweenWhiteSpace(s: string, a: int, b: int) {
    0 <= a <= b <= |s| &&
    (forall i :: 0 <= i < a ==> IsJsWhiteSpace(s[i])) &&
    (forall i :: b <= i < |s| ==> IsJsWhiteSpace(s[i]))
  }

  /** Trimming sits the trimmed string inside the original: `s == lead + Trim(s) + tail`, where lead and tail are white space. */
  lemma TrimIsInfix(s: string)
    ensures exists a, b :: IsInfixBetweenWhiteSpace(s, a, b) && Trim(s) == s[a..b]
  {
    var t := TrimStart(s);
    var a := |s| - |t|;
    TrimEndOfSuffix(s, a, t);
    var r := TrimEnd(t);
    var b := a + |r|;
    assert r == Trim(s);
    assert r == s[a..b];
    assert forall i :: 0 <= i < a ==> IsJsWhiteSpace(s[i]);
    assert IsInfixBetweenWhiteSpace(s, a, b);
  }

  /** Trimming the end of the suffix `t == s[a..]` leaves `s[a..a + n]` and white space from `a + n` on. */
  lemma TrimEndOfSuffix(s: string, a: nat, t: string)
    requires a <= |s| && t == s[a..]
    ensures a + |TrimEnd(t)| <= |s| && TrimEnd(t) == s[a..a + |TrimEnd(t)|]
    ensures forall i :: a + |TrimEnd(t)| <= i < |s| ==> IsJsWhiteSpace(s[i])
  {
    var r := TrimEnd(t);
    assert r == t[..|r|];
    forall i | a + |r| <= i < |s| ensures IsJsWhiteSpace(s[i]) {
      assert s[i] == t[i - a];
    }
  }

  /** A string with no white space at either end is its own trim. */
  lemma TrimOfTrimmed(s: string)
    requires s != [] ==> !IsJsWhiteSpace(s[0]) && !IsJsWhiteSpace(s[|s| - 1])
    ensures Trim(s) == s
  {
  }

  /**
    The capitals whose lower-case mapping is modelled: Basic Latin 'A'..'Z'
    and Latin-1 U+00C0..U+00DE except U+00D7 (the multiplication sign).
   */
  predicate IsModelledCapital(c: char) {
    var n := c as int;
    'A' <= c <= 'Z' || (0xC0 <= n <= 0xDE && n != 0xD7)
  }

  /**
    `toLowerCase` on one character: a modelled capital becomes its own
    small letter, the code point 0x20 above it, which is no capital; every
    other character is kept.
   */
  function LowerChar(c: char): (r: char)
    ensures IsModelledCapital(c) ==> r as int == c as int + 0x20 && !IsModelledCapital(r)
    ensures !IsModelledCapital(c) ==> r == c
  {
    if IsModelledCapital(c) then (c as int + 0x20) as char else c
  }

  /** `c` and `d` are the same letter up to case: equal, or a modelled capital and its small letter. */
  predicate SameUpToCase(c: char, d: char) {
    c == d ||
    (IsModelledCapital(c) && d as int == c as int + 0x20) ||
    (IsModelledCapital(d) && c as int == d as int + 0x20)
  }

  /** Two characters lower to the same one exactly when they are the same letter up to case. */
  lemma LowerCharEqIff(c: char, d: char)
    ensures LowerChar(c) == LowerChar(d) <==> SameUpToCase(c, d)
  {
  }

  /** `s.toLowerCase()`, character by character; only the modelled capitals change. */
  function LowerCase(s: string): (r: string)
    ensures |r| == |s|
    ensures forall i :: 0 <= i < |s| ==> (r[i] == s[i] <==> !IsModelledCapital(s[i]))
  {
    seq(|s|, i requires 0 <= i < |s| => LowerChar(s[i]))
  }

  /**
    Two strings have the same lowered form exactly when they have the same
    length and agree position by position up to case: "JUAN", "Juan" and
    "juan" all lower to "juan".
   */
  lemma LowerCaseEqIff(s: string, t: string)
    ensures LowerCase(s) == LowerCase(t) <==>
            |s| == |t| && forall i :: 0 <= i < |s| ==> SameUpToCase(s[i], t[i])
  {
    if |s| == |t| {
      forall i | 0 <= i < |s| ensures LowerCase(s)[i] == LowerCase(t)[i] <==> SameUpToCase(s[i], t[i]) {
        LowerCharEqIff(s[i], t[i]);
      }
      if forall i :: 0 <= i < |s| ==> SameUpToCase(s[i], t[i]) {
        assert forall i :: 0 <= i < |s| ==> LowerCase(s)[i] == LowerCase(t)[i];
      }
    }
  }

  /** Lowering a character twice is lowering it once. */
  lemma LowerCharIdempotent(c: char)
    ensures LowerChar(LowerChar(c)) == LowerChar(c)
  {
  }

  /** Lowering a string twice is lowering it once. */
  lemma LowerCaseIdempotent(s: string)
    ensures LowerCase(LowerCase(s)) == LowerCase(s)
  {
    forall i | 0 <= i < |s| ensures LowerCase(LowerCase(s))[i] == LowerCase(s)[i] {
      LowerCharIdempotent(s[i]);
    }
  }

  /** `prefix` is an initial segment of `s`. */
  predicate StartsWith(s: string, prefix: string) {
    |prefix| <= |s| && s[..|prefix|] == prefix
  }

  /** `hay.includes(needle)`: `needle` starts at some position of `hay`. */
  function Includes(hay: string, needle: string): (r: bool)
    ensures r ==> |needle| <= |hay|
    ensures needle == [] ==> r
    decreases |hay|
  {
    StartsWith(hay, needle) || (hay != [] && Includes(hay[1..], needle))
  }

  /** `needle` occurs in `hay` starting at position `i`. */
  predicate OccursAt(hay: string, needle: string, i: int) {
    0 <= i && i + |needle| <= |hay| && hay[i..i + |needle|] == needle
  }

  /** `includes` holds exactly when `needle` occurs as a contiguous piece of `hay`. */
  lemma {:induction false} IncludesIff(hay: string, needle: string)
    ensures Includes(hay, needle) <==> exists i :: OccursAt(hay, needle, i)
    decreases |hay|
  {
    if StartsWith(hay, needle) {
      assert OccursAt(hay, needle, 0);
    } else if hay == [] {
      assert forall i :: !OccursAt(hay, needle, i);
    } else {
      var tail := hay[1..];
      IncludesIff(tail, needle);
      if Includes(tail, needle) {
        var j :| OccursAt(tail, needle, j);
        assert hay[j + 1..j + 1 + |needle|] == tail[j..j + |needle|];
        assert OccursAt(hay, needle, j + 1);
      } else {
        forall i | OccursAt(hay, needle, i) ensures false {
          if i > 0 {
            forall k | 0 <= k < |needle| ensures tail[i - 1..i - 1 + |needle|][k] == needle[k] {
              assert hay[i..i + |needle|][k] == hay[i + k];
            }
            assert OccursAt(tail, needle, i - 1);
          }
        }
      }
    }
  }

  /** Every string includes the empty string. */
  lemma IncludesEmpty(hay: string)
    ensures Includes(hay, [])
  {
    assert StartsWith(hay, []);
  }
}
