/**
  The JavaScript string built-ins the application relies on (`toString`,
  `padStart`, `Number`, `indexOf`/`includes`, `split`, `join`, `toLowerCase`,
  `trim`, `replace`), over `seq<char>`.
 */
module Text {
  import opened Base
  import opened Seqs

  predicate IsDigit(c: char) { '0' <= c <= '9' }

  predicate AllDigits(s: string) { forall i :: 0 <= i < |s| ==> IsDigit(s[i]) }

  function DigitChar(d: nat): (c: char)
    requires d < 10
    ensures IsDigit(c) && c as int - '0' as int == d
  {
    ('0' as int + d) as char
  }

  function DigitValue(c: char): nat
    requires IsDigit(c)
  {
    c as int - '0' as int
  }

  /** `n.toString()` for a non-negative integer. */
  function NatToString(n: nat): (s: string)
    ensures |s| >= 1 && AllDigits(s)
    ensures n < 10 <==> |s| == 1
    decreases n
  {
    if n < 10 then [DigitChar(n)] else NatToString(n / 10) + [DigitChar(n % 10)]
  }

  /** The value of a string of decimal digits; leading zeros are allowed. */
  function DigitsValue(s: string): nat
    requires AllDigits(s)
  {
    if s == [] then 0 else DigitsValue(s[..|s| - 1]) * 10 + DigitValue(s[|s| - 1])
  }

  /**
    `Number(s)` on strings made of decimal digits only: the empty string is 0;
    every other string is taken to be NaN, written None.
   */
  function ParseDecimal(s: string): (r: Option<nat>)
    ensures r.Some? <==> AllDigits(s)
  {
    if AllDigits(s) then Some(DigitsValue(s)) else None
  }

  /** Reading back what `toString` wrote gives the number. */
  lemma {:induction false} NatToStringRoundTrip(n: nat)
    ensures ParseDecimal(NatToString(n)) == Some(n)
    decreases n
  {
    var s := NatToString(n);
    if n >= 10 {
      NatToStringRoundTrip(n / 10);
      assert s[..|s| - 1] == NatToString(n / 10);
      assert DigitValue(s[|s| - 1]) == n % 10;
      assert DigitsValue(s) == DigitsValue(NatToString(n / 10)) * 10 + n % 10;
    } else {
      assert s[..0] == [];
    }
  }

  /** `n.toString().padStart(2, '0')` */
  function Pad2(n: nat): string
  {
    var digits := NatToString(n);
    if |digits| < 2 then "0" + digits else digits
  }

  /** The padded number has two digits below 100, only digits, and reads back as `n`. */
  lemma Pad2Reads(n: nat)
    ensures n < 100 ==> |Pad2(n)| == 2
    ensures |Pad2(n)| >= 1 && AllDigits(Pad2(n))
    ensures ParseDecimal(Pad2(n)) == Some(n)
  {
    NatToStringRoundTrip(n);
    var digits := NatToString(n);
    if |digits| < 2 {
      var s := "0" + digits;
      assert s[..1] == "0" && s[..1][..0] == [];
      assert DigitsValue(s) == DigitsValue(digits);
    }
  }

  /** `sub` occurs in `s` starting at position `j`. */
  predicate MatchAt(s: string, sub: string, j: int)
  {
    0 <= j && j + |sub| <= |s| && s[j..j + |sub|] == sub
  }

  /** `s.indexOf(sub)`: the first position at which `sub` occurs in `s`, or -1. */
  function IndexOf(s: string, sub: string): (k: int)
    ensures k == -1 || 0 <= k <= |s| - |sub|
    ensures k >= 0 ==> MatchAt(s, sub, k)
    ensures k >= 0 ==> forall j :: 0 <= j < k ==> !MatchAt(s, sub, j)
    ensures k == -1 ==> forall j :: !MatchAt(s, sub, j)
    decreases |s|
  {
    if |s| < |sub| then -1
    else if s[..|sub|] == sub then 0
    else
      var k := IndexOf(s[1..], sub);
      MatchTail(s, sub);
      if k == -1 then -1 else k + 1
  }

  /** Past the first position, `sub` occurs in `s` where it occurs in `s[1..]`, one further on. */
  lemma MatchTail(s: string, sub: string)
    requires |s| >= 1
    ensures forall j :: j >= 1 ==> (MatchAt(s, sub, j) <==> MatchAt(s[1..], sub, j - 1))
  {
    forall j | j >= 1 ensures MatchAt(s, sub, j) <==> MatchAt(s[1..], sub, j - 1) {
      if j + |sub| <= |s| {
        assert s[1..][j - 1..j - 1 + |sub|] == s[j..j + |sub|];
      }
    }
  }

  /** `s.includes(sub)`. */
  predicate Contains(s: string, sub: string) { IndexOf(s, sub) >= 0 }

  /** A string occurs in `s` exactly when it is found at some position. */
  lemma ContainsAt(s: string, sub: string, j: nat)
    requires MatchAt(s, sub, j)
    ensures Contains(s, sub)
  {
  }

  /** `s.split(sep)` for a non-empty separator. */
  function Split(s: string, sep: string): (parts: seq<string>)
    requires |sep| > 0
    ensures |parts| >= 1
    decreases |s|
  {
    var k := IndexOf(s, sep);
    if k < 0 then [s] else [s[..k]] + Split(s[k + |sep|..], sep)
  }

  /** `parts.join(sep)`. */
  function Join(parts: seq<string>, sep: string): string
  {
    if |parts| == 0 then ""
    else if |parts| == 1 then parts[0]
    else parts[0] + sep + Join(parts[1..], sep)
  }

  lemma IndexOfCharAbsent(p: string, c: char)
    requires c !in p
    ensures IndexOf(p, [c]) == -1
  {
    forall j | 0 <= j < |p| ensures !MatchAt(p, [c], j) {
      assert p[j..j + 1][0] == p[j];
    }
  }

  lemma IndexOfCharFirst(p: string, c: char, rest: string)
    requires c !in p
    ensures IndexOf(p + [c] + rest, [c]) == |p|
  {
    var s := p + [c] + rest;
    assert MatchAt(s, [c], |p|) by { assert s[|p|..|p| + 1] == [c]; }
    forall j | 0 <= j < |p| ensures !MatchAt(s, [c], j) {
      assert s[j..j + 1][0] == s[j] == p[j];
    }
  }

  /** Splitting on a one-character separator undoes joining pieces that do not contain it. */
  lemma {:induction false} SplitJoin(parts: seq<string>, c: char)
    requires |parts| >= 1
    requires forall i :: 0 <= i < |parts| ==> c !in parts[i]
    ensures Split(Join(parts, [c]), [c]) == parts
    decreases |parts|
  {
    if |parts| == 1 {
      IndexOfCharAbsent(parts[0], c);
    } else {
      var s := Join(parts, [c]);
      var rest := Join(parts[1..], [c]);
      assert s == parts[0] + [c] + rest;
      IndexOfCharFirst(parts[0], c, rest);
      assert s[..|parts[0]|] == parts[0];
      assert s[|parts[0]| + 1..] == rest;
      SplitJoin(parts[1..], c);
    }
  }

  function LowerChar(c: char): char
  {
    if 'A' <= c <= 'Z' then (c as int + 32) as char else c
  }

  /** `s.toLowerCase()` on the Latin capital letters A-Z. */
  function Lower(s: string): string
  {
    seq(|s|, i requires 0 <= i < |s| => LowerChar(s[i]))
  }

  /**
    The characters `String.prototype.trim` removes (ECMAScript's WhiteSpace
    and LineTerminator): tab, vertical tab, form feed, the byte order mark,
    line feed, carriage return, the line and paragraph separators, and the
    space separators of Unicode category Zs.
   */
  predicate IsSpace(c: char)
  {
    c == '\t' || c == '\U{B}' || c == '\U{C}' || c == '\U{FEFF}'
    || c == '\n' || c == '\r' || c == '\U{2028}' || c == '\U{2029}'
    || IsSpaceSeparator(c)
  }

  /** Unicode category Zs: space, no-break space, ogham space mark, the en quad to hair space, and the narrow, medium mathematical and ideographic spaces. */
  predicate IsSpaceSeparator(c: char)
  {
    c == ' ' || c == '\U{A0}' || c == '\U{1680}' || '\U{2000}' <= c <= '\U{200A}'
    || c == '\U{202F}' || c == '\U{205F}' || c == '\U{3000}'
  }

  function TrimStart(s: string): (r: string)
    ensures |r| <= |s| && r == s[|s| - |r|..]
    ensures forall i :: 0 <= i < |s| - |r| ==> IsSpace(s[i])
    ensures |r| > 0 ==> !IsSpace(r[0])
    decreases |s|
  {
    if |s| > 0 && IsSpace(s[0]) then TrimStart(s[1..]) else s
  }

  function TrimEnd(s: string): (r: string)
    ensures |r| <= |s| && r == s[..|r|]
    ensures forall i :: |r| <= i < |s| ==> IsSpace(s[i])
    ensures |r| > 0 ==> !IsSpace(r[|r| - 1])
    decreases |s|
  {
    if |s| > 0 && IsSpace(s[|s| - 1]) then TrimEnd(s[..|s| - 1]) else s
  }

  /** The wide spaces of Unicode category Zs are trimmed like the ASCII space. */
  lemma WideSpacesTrimmed()
    ensures Trim("\U{3000}") == ""
    ensures Trim("\U{2003}x\U{1680}") == "x"
  {
    var w := "\U{3000}";
    assert |w| == 1 && IsSpace(w[0]);
    var s, t, x := "\U{2003}x\U{1680}", "x\U{1680}", "x";
    assert |s| == 3 && IsSpace(s[0]) && s[1..] == t;
    assert |t| == 2 && !IsSpace(t[0]) && IsSpace(t[1]) && t[..1] == x;
    assert |x| == 1 && !IsSpace(x[0]);
    assert TrimStart(t) == t;
    assert TrimStart(s) == t;
    assert TrimEnd(x) == x;
    assert TrimEnd(t) == x;
  }

  /**
    `s.trim()`: the slice of `s` left once the white space at both ends is cut
    off; blank exactly when every character is white space.
   */
  function Trim(s: string): (r: string)
    ensures exists i, j :: (0 <= i <= j <= |s| && r == s[i..j]
              && (forall k :: 0 <= k < i ==> IsSpace(s[k])) && (forall k :: j <= k < |s| ==> IsSpace(s[k])))
    ensures r == [] <==> forall i :: 0 <= i < |s| ==> IsSpace(s[i])
    ensures |r| > 0 ==> !IsSpace(r[0]) && !IsSpace(r[|r| - 1])
    ensures (forall i :: 0 <= i < |s| ==> !IsSpace(s[i])) ==> r == s
  {
    var t := TrimStart(s);
    var r := TrimEnd(t);
    CutBothEnds(s, t, r, IsSpace);
    r
  }

  /**
    What is left when the elements passing `p` are cut off the front (`t`)
    and then off the back (`r`): a slice whose ends fail `p` with only
    passing elements around it, empty exactly when every element passes.
   */
  lemma CutBothEnds<T>(s: seq<T>, t: seq<T>, r: seq<T>, p: T -> bool)
    requires |t| <= |s| && t == s[|s| - |t|..]
    requires (forall k :: 0 <= k < |s| - |t| ==> p(s[k])) && (|t| > 0 ==> !p(t[0]))
    requires |r| <= |t| && r == t[..|r|]
    requires (forall k :: |r| <= k < |t| ==> p(t[k])) && (|r| > 0 ==> !p(r[|r| - 1]))
    ensures exists i, j :: (0 <= i <= j <= |s| && r == s[i..j]
              && (forall k :: 0 <= k < i ==> p(s[k])) && (forall k :: j <= k < |s| ==> p(s[k])))
    ensures r == [] <==> forall k :: 0 <= k < |s| ==> p(s[k])
    ensures |r| > 0 ==> !p(r[0]) && !p(r[|r| - 1])
    ensures (forall k :: 0 <= k < |s| ==> !p(s[k])) ==> r == s
  {
    var i := |s| - |t|;
    assert forall k :: i <= k < |s| ==> s[k] == t[k - i];
    assert r == s[i..i + |r|];
    assert |r| > 0 ==> r[0] == t[0];
    assert i > 0 ==> p(s[0]);
    assert |r| < |t| ==> p(s[i + |r|]);
  }

  /** `s.replace(/c/g, '')`: every `c` removed, the other characters kept in order. */
  function RemoveChar(s: string, c: char): (r: string)
    ensures c !in r
    ensures forall x :: multiset(r)[x] == if x == c then 0 else multiset(s)[x]
    ensures c !in s ==> r == s
    decreases |s|
  {
    if s == [] then []
    else
      assert s == [s[0]] + s[1..];
      (if s[0] == c then [] else [s[0]]) + RemoveChar(s[1..], c)
  }

  /** The test `x => x !== c`. */
  function IsNot(c: char): char -> bool
  {
    (x: char) => x != c
  }

  /** Removing `c` is filtering by `x !== c`: the other characters stay, in their order. */
  lemma {:induction false} RemoveCharIsFilter(s: string, c: char)
    ensures RemoveChar(s, c) == Filter(s, IsNot(c))
    decreases |s|
  {
    if s != [] {
      var p, t := IsNot(c), s[1..];
      var h := if s[0] == c then [] else [s[0]];
      RemoveCharIsFilter(t, c);
      assert RemoveChar(s, c) == h + RemoveChar(t, c);
      assert s == [s[0]] + t;
      FilterCons(s[0], t, p);
      assert h == if p(s[0]) then [s[0]] else [];
    }
  }

  /** `s.split(' ')[0]`: the text before the first space. */
  function FirstWord(s: string): string
  {
    Split(s, " ")[0]
  }

  // ---------------------------------------------------------------- UTF-16 lengths

  /** The UTF-16 code units of a character: two beyond U+FFFF (a surrogate pair), one otherwise. */
  function Utf16Width(c: char): nat
  {
    if c as int > 0xFFFF then 2 else 1
  }

  /** `s.length`: the number of UTF-16 code units. */
  function Utf16Length(s: string): (n: nat)
    ensures |s| <= n <= 2 * |s|
    decreases |s|
  {
    if s == [] then 0 else Utf16Width(s[0]) + Utf16Length(s[1..])
  }

  /** Lengths add up over concatenation. */
  lemma {:induction false} Utf16LengthConcat(a: string, b: string)
    ensures Utf16Length(a + b) == Utf16Length(a) + Utf16Length(b)
    decreases |a|
  {
    if a == [] {
      assert a + b == b;
    } else {
      assert (a + b)[0] == a[0] && (a + b)[1..] == a[1..] + b;
      Utf16LengthConcat(a[1..], b);
    }
  }

  /** Every character is in the Basic Multilingual Plane, up to U+FFFF. */
  predicate Bmp(s: string)
  {
    forall i :: 0 <= i < |s| ==> s[i] as int <= 0xFFFF
  }

  /** Text of the Basic Multilingual Plane has one code unit per character. */
  lemma {:induction false} Utf16LengthBmp(s: string)
    ensures Bmp(s) ==> Utf16Length(s) == |s|
    decreases |s|
  {
    if s != [] {
      Utf16LengthBmp(s[1..]);
    }
  }

  /** Text made only of characters beyond U+FFFF has two code units per character. */
  lemma {:induction false} Utf16LengthAstral(s: string)
    requires forall i :: 0 <= i < |s| ==> s[i] as int > 0xFFFF
    ensures Utf16Length(s) == 2 * |s|
    decreases |s|
  {
    if s != [] {
      Utf16LengthAstral(s[1..]);
    }
  }

  /**
    `s.substring(0, n)` cut at a character boundary: the longest prefix of
    at most `n` code units.
   */
  function Utf16Prefix(s: string, n: nat): (p: string)
    ensures |p| <= |s| && p == s[..|p|]
    ensures Utf16Length(p) <= n
    ensures |p| < |s| ==> Utf16Length(p) + Utf16Width(s[|p|]) > n
    decreases |s|
  {
    if s == [] || Utf16Width(s[0]) > n then []
    else
      var rest := Utf16Prefix(s[1..], n - Utf16Width(s[0]));
      assert ([s[0]] + rest)[1..] == rest;
      [s[0]] + rest
  }

  /** On text of the Basic Multilingual Plane the prefix is the first `n` characters. */
  lemma Utf16PrefixBmp(s: string, n: nat)
    ensures Bmp(s) ==> Utf16Prefix(s, n) == s[..Min(n, |s|)]
  {
    var p := Utf16Prefix(s, n);
    Utf16LengthBmp(p);
  }
}
