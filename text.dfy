/** The few Python `str` operations the subtitle pipeline relies on, with the
    meaning Python gives them: `isspace`/`strip`, `replace(c, "")`, `lower`,
    `startswith`/`endswith`, the `in` substring test, `"sep".join`, and the
    decimal rendering of integers used by f-strings (`{n}`, `{n:02d}`). */
module Text {
  import opened Options

  // ---------------------------------------------------------------------
  // Whitespace and strip()
  // ---------------------------------------------------------------------

  /** Python's `str.isspace` for a single character (Unicode White_Space as
      CPython classifies it: the ASCII controls 9..13 and 28..31, space, and
      the Unicode separators). */
  predicate IsSpace(c: char) {
    || c == ' '
    || ('\t' <= c <= '\r')
    || ('\U{1C}' <= c <= '\U{1F}')
    || c == '\U{85}' || c == '\U{A0}' || c == '\U{1680}'
    || ('\U{2000}' <= c <= '\U{200A}')
    || c == '\U{2028}' || c == '\U{2029}' || c == '\U{202F}'
    || c == '\U{205F}' || c == '\U{3000}'
  }

  predicate AllSpace(s: string) {
    forall i :: 0 <= i < |s| ==> IsSpace(s[i])
  }

  /** `s.lstrip()` */
  function StripLeft(s: string): (r: string)
    ensures |r| <= |s| && r == s[|s| - |r|..]
  {
    if s != [] && IsSpace(s[0]) then StripLeft(s[1..]) else s
  }

  /** `s.rstrip()` */
  function StripRight(s: string): (r: string)
    ensures |r| <= |s| && r == s[..|r|]
  {
    if s != [] && IsSpace(s[|s| - 1]) then StripRight(s[..|s| - 1]) else s
  }

  /** `s.strip()`: leading and trailing whitespace removed. */
  function Strip(s: string): (r: string)
    ensures |r| <= |s|
  {
    StripRight(StripLeft(s))
  }

  /** `lstrip` removes whitespace only, up to the first other character. */
  lemma {:induction false} StripLeftRemovesSpace(s: string)
    ensures AllSpace(s[..|s| - |StripLeft(s)|])
    ensures StripLeft(s) == [] || !IsSpace(StripLeft(s)[0])
  {
    if s != [] && IsSpace(s[0]) {
      StripLeftRemovesSpace(s[1..]);
      var k := |s| - |StripLeft(s)|;
      assert s[..k] == [s[0]] + s[1..][..k - 1];
    }
  }

  /** `rstrip` removes whitespace only, back to the last other character. */
  lemma {:induction false} StripRightRemovesSpace(s: string)
    ensures AllSpace(s[|StripRight(s)|..])
    ensures StripRight(s) == [] || !IsSpace(StripRight(s)[|StripRight(s)| - 1])
  {
    if s != [] && IsSpace(s[|s| - 1]) {
      var init := s[..|s| - 1];
      StripRightRemovesSpace(init);
      var k := |StripRight(s)|;
      assert s[k..] == init[k..] + [s[|s| - 1]];
    }
  }

  /** What `strip` keeps neither starts nor ends with whitespace. */
  lemma StripEnds(s: string)
    ensures Strip(s) == [] || (!IsSpace(Strip(s)[0]) && !IsSpace(Strip(s)[|Strip(s)| - 1]))
  {
    var l := StripLeft(s);
    var r := StripRight(l);
    StripLeftRemovesSpace(s);
    StripRightRemovesSpace(l);
    if r != [] {
      assert r[0] == l[0];
    }
  }

  /** What `strip` keeps is the slice of the input after what `lstrip`
      removed. */
  lemma StripKeepsSlice(s: string)
    ensures
      var a := |s| - |StripLeft(s)|;
      a + |Strip(s)| <= |s| && Strip(s) == s[a..a + |Strip(s)|]
  {
    var l := StripLeft(s);
    var r := StripRight(l);
    var a := |s| - |l|;
    assert l == s[a..] && r == l[..|r|] && Strip(s) == r;
    SliceOfSuffix(s, a, |r|);
  }

  /** What lies before and after the kept slice is whitespace, so `strip`
      drops whitespace only. */
  lemma StripDropsSpace(s: string)
    ensures
      var a := |s| - |StripLeft(s)|;
      a + |Strip(s)| <= |s| && AllSpace(s[..a]) && AllSpace(s[a + |Strip(s)|..])
  {
    var l := StripLeft(s);
    var a := |s| - |l|;
    var k := |StripRight(l)|;
    StripLeftRemovesSpace(s);
    StripRightRemovesSpace(l);
    SpaceAfterSlice(s, a, k);
  }

  lemma SpaceAfterSlice(s: string, a: nat, k: nat)
    requires a + k <= |s| && AllSpace(s[a..][k..])
    ensures AllSpace(s[a + k..])
  {
    SliceOfSuffix(s, a, k);
  }


  lemma SliceOfSuffix(s: string, a: nat, b: nat)
    requires a + b <= |s|
    ensures s[a..][..b] == s[a..a + b] && s[a..][b..] == s[a + b..]
  {
  }

  /** Stripping leaves nothing exactly when every character is whitespace:
      this is Python's truth test `text.strip()`. */
  lemma StripEmptyIff(s: string)
    ensures Strip(s) == [] <==> AllSpace(s)
  {
    var l := StripLeft(s);
    var a := |s| - |l|;
    StripLeftRemovesSpace(s);
    if Strip(s) == [] {
      StripRightRemovesSpace(l);
      assert l[0..] == l;
      assert l == [];
      assert s[..a] == s;
    } else if l != [] {
      assert l[0] == s[a];
    }
  }

  /** `s.replace(c, "")` for a one-character pattern. */
  function Remove(s: string, c: char): (r: string)
  {
    if s == [] then []
    else (if s[0] == c then [] else [s[0]]) + Remove(s[1..], c)
  }

  /** No occurrence is left, nothing is added, and a text without the
      character is returned as it is. */
  lemma {:induction false} RemoveDrops(s: string, c: char)
    ensures c !in Remove(s, c)
    ensures |Remove(s, c)| <= |s|
    ensures c !in s ==> Remove(s, c) == s
  {
    if s != [] {
      RemoveDrops(s[1..], c);
    }
  }

  /** Removing a character works piecewise: the text before a cut and the
      text after it lose their occurrences independently, so every other
      character is kept, in order. */
  lemma {:induction false} RemoveAppend(a: string, b: string, c: char)
    ensures Remove(a + b, c) == Remove(a, c) + Remove(b, c)
    decreases |a|
  {
    if a != [] {
      assert (a + b)[1..] == a[1..] + b;
      RemoveAppend(a[1..], b, c);
    } else {
      assert a + b == b;
    }
  }

  /** One character is dropped exactly when it is the removed one. */
  lemma RemoveChar(x: char, c: char)
    ensures Remove([x], c) == if x == c then [] else [x]
  {
    assert [x][1..] == [];
  }

  // ---------------------------------------------------------------------
  // Case folding, prefixes, suffixes, substrings
  // ---------------------------------------------------------------------

  function LowerChar(c: char): (r: char)
    ensures 'A' <= c <= 'Z' ==> r as int == c as int + 32
    ensures !('A' <= c <= 'Z') ==> r == c
  {
    if 'A' <= c <= 'Z' then (c as int + 32) as char else c
  }

  /** `s.lower()` restricted to ASCII letters. */
  function Lower(s: string): (r: string)
    ensures |r| == |s|
    ensures forall i :: 0 <= i < |s| ==> r[i] == LowerChar(s[i])
  {
    seq(|s|, i requires 0 <= i < |s| => LowerChar(s[i]))
  }

  predicate StartsWith(s: string, prefix: string) {
    |prefix| <= |s| && s[..|prefix|] == prefix
  }

  predicate EndsWith(s: string, suffix: string) {
    |suffix| <= |s| && s[|s| - |suffix|..] == suffix
  }

  /** `s.endswith(suffixes)` for a tuple of suffixes: true when any matches. */
  function EndsWithAny(s: string, suffixes: seq<string>): (b: bool)
    ensures b <==> exists k :: 0 <= k < |suffixes| && EndsWith(s, suffixes[k])
  {
    if suffixes == [] then false
    else if EndsWith(s, suffixes[0]) then true
    else
      var b := EndsWithAny(s, suffixes[1..]);
      assert forall k :: 1 <= k < |suffixes| ==> suffixes[k] == suffixes[1..][k - 1];
      b
  }

  /** `pattern in s`, scanning for the leftmost occurrence. */
  function Contains(s: string, pattern: string): bool
  {
    if StartsWith(s, pattern) then true
    else if s == [] then false
    else Contains(s[1..], pattern)
  }

  /** A pattern whose first character does not occur in `s` is not in `s`. */
  lemma {:induction false} NotContainedWithoutFirst(s: string, pattern: string)
    requires pattern != [] && pattern[0] !in s
    ensures !Contains(s, pattern)
  {
    if s != [] {
      assert s[0] in s;
      assert forall c :: c in s[1..] ==> c in s;
      NotContainedWithoutFirst(s[1..], pattern);
    }
  }

  predicate OccursAt(s: string, pattern: string, i: int) {
    0 <= i && i + |pattern| <= |s| && s[i..i + |pattern|] == pattern
  }

  /** The scan agrees with the definition of a substring: some slice of `s`
      equals `pattern`. */
  lemma {:induction false} ContainsIff(s: string, pattern: string)
    ensures Contains(s, pattern) <==> exists i :: OccursAt(s, pattern, i)
  {
    if StartsWith(s, pattern) {
      assert OccursAt(s, pattern, 0);
    } else if s == [] {
      assert StartsWith(s, []);
    } else {
      ContainsIff(s[1..], pattern);
      if Contains(s[1..], pattern) {
        var i :| OccursAt(s[1..], pattern, i);
        assert s[1..][i..i + |pattern|] == s[i + 1..i + 1 + |pattern|];
        assert OccursAt(s, pattern, i + 1);
      } else {
        forall i ensures !OccursAt(s, pattern, i) {
          if i < 0 || i + |pattern| > |s| {
          } else if i == 0 {
            assert s[..|pattern|] == s[0..|pattern|];
          } else {
            assert s[1..][i - 1..i - 1 + |pattern|] == s[i..i + |pattern|];
            assert !OccursAt(s[1..], pattern, i - 1);
          }
        }
      }
    }
  }

  // ---------------------------------------------------------------------
  // Decimal digits
  // ---------------------------------------------------------------------

  predicate IsDigit(c: char) {
    '0' <= c <= '9'
  }

  predicate AllDigits(s: string) {
    forall i :: 0 <= i < |s| ==> IsDigit(s[i])
  }

  function DigitChar(d: nat): (c: char)
    requires d < 10
    ensures IsDigit(c) && c as int - '0' as int == d
  {
    ('0' as int + d) as char
  }

  /** The number a string of decimal digits denotes (used to read back what
      the formatting functions produce). */
  function DigitsValue(s: string): nat
    requires AllDigits(s)
  {
    if s == [] then 0
    else DigitsValue(s[..|s| - 1]) * 10 + (s[|s| - 1] as int - '0' as int)
  }

  function Pow10(w: nat): (p: nat)
    ensures p >= 1
  {
    if w == 0 then 1 else 10 * Pow10(w - 1)
  }

  /** `str(n)` / `f"{n}"` for a non-negative integer: the canonical decimal
      digits, which read back as `n` and have no superfluous leading zero. */
  function NatToString(n: nat): (r: string)
    ensures 1 <= |r| && AllDigits(r)
    ensures DigitsValue(r) == n
    ensures r[0] == '0' ==> n == 0
    decreases n
  {
    if n < 10 then [DigitChar(n)]
    else
      var r := NatToString(n / 10) + [DigitChar(n % 10)];
      assert r[..|r| - 1] == NatToString(n / 10);
      r
  }

  /** `n` has at most `w` decimal digits exactly when it is below 10^w. */
  lemma {:induction false} DigitCount(n: nat, w: nat)
    requires w >= 1
    ensures |NatToString(n)| <= w <==> n < Pow10(w)
    decreases n
  {
    if n < 10 {
      assert Pow10(w) >= 10 by { assert Pow10(1) == 10; Pow10Monotone(1, w); }
    } else {
      if w == 1 {
        assert Pow10(1) == 10;
      } else {
        DigitCount(n / 10, w - 1);
      }
    }
  }

  lemma {:induction false} Pow10Monotone(a: nat, b: nat)
    requires a <= b
    ensures Pow10(a) <= Pow10(b)
    decreases b
  {
    if a < b { Pow10Monotone(a, b - 1); }
  }

  function Zeros(k: nat): (r: string)
    ensures |r| == k && AllDigits(r)
    ensures forall i :: 0 <= i < k ==> r[i] == '0'
  {
    if k == 0 then [] else Zeros(k - 1) + ['0']
  }

  /** Leading zeros do not change the value of a digit string. */
  lemma {:induction false} LeadingZerosValue(k: nat, s: string)
    requires AllDigits(s)
    ensures AllDigits(Zeros(k) + s) && DigitsValue(Zeros(k) + s) == DigitsValue(s)
    decreases |s|
  {
    var z := Zeros(k) + s;
    if s == [] {
      assert z == Zeros(k);
      ZerosValue(k);
    } else {
      var init := s[..|s| - 1];
      assert z[..|z| - 1] == Zeros(k) + init;
      LeadingZerosValue(k, init);
    }
  }

  lemma {:induction false} ZerosValue(k: nat)
    ensures DigitsValue(Zeros(k)) == 0
  {
    if k > 0 {
      assert Zeros(k)[..k - 1] == Zeros(k - 1);
      ZerosValue(k - 1);
    }
  }

  /** `f"{n:0{w}d}"` for a non-negative integer: at least `w` characters,
      left-padded with zeros, and never truncated. */
  function PadZeros(n: nat, w: nat): (r: string)
    ensures AllDigits(r) && DigitsValue(r) == n
    ensures |r| == if |NatToString(n)| < w then w else |NatToString(n)|
  {
    var d := NatToString(n);
    var r := Zeros(if |d| < w then w - |d| else 0) + d;
    LeadingZerosValue(if |d| < w then w - |d| else 0, d);
    r
  }

  /** Appending a digit to a positive number appends its character. */
  lemma NatToStringStep(n: nat, d: nat)
    requires n >= 1 && d < 10
    ensures NatToString(10 * n + d) == NatToString(n) + [DigitChar(d)]
  {
    assert (10 * n + d) / 10 == n && (10 * n + d) % 10 == d;
  }

  /** A one-digit number padded to width `w`. */
  lemma PadOneDigit(d: nat, w: nat)
    requires d < 10 && w >= 1
    ensures PadZeros(d, w) == Zeros(w - 1) + [DigitChar(d)]
  {
    assert NatToString(d) == [DigitChar(d)];
  }

  /** A padded field has exactly the requested width iff the number fits in it. */
  lemma PadZerosWidth(n: nat, w: nat)
    requires w >= 1
    ensures |PadZeros(n, w)| == w <==> n < Pow10(w)
  {
    DigitCount(n, w);
  }

  /** `s.split(sep, 1)` when the separator occurs: the text before its first
      occurrence and the text after it. */
  function SplitFirst(s: string, sep: char): (r: Option<(string, string)>)
    ensures r.Some? ==> s == r.value.0 + [sep] + r.value.1 && sep !in r.value.0
    ensures r.None? ==> sep !in s
  {
    if s == [] then None
    else if s[0] == sep then Some(([], s[1..]))
    else match SplitFirst(s[1..], sep)
      case None => None
      case Some(p) =>
        assert s == [s[0]] + s[1..];
        Some(([s[0]] + p.0, p.1))
  }

  lemma {:induction false} SplitFirstAt(a: string, sep: char, b: string)
    requires sep !in a
    ensures SplitFirst(a + [sep] + b, sep) == Some((a, b))
  {
    var s := a + [sep] + b;
    if a == [] {
      assert s[1..] == b;
    } else {
      assert s[0] == a[0] && s[1..] == a[1..] + [sep] + b;
      SplitFirstAt(a[1..], sep, b);
      assert [a[0]] + a[1..] == a;
    }
  }

  // ---------------------------------------------------------------------
  // Joining
  // ---------------------------------------------------------------------

  /** `sep.join(parts)` */
  function JoinWith(sep: string, parts: seq<string>): (r: string)
    ensures parts == [] ==> r == []
    ensures |parts| == 1 ==> r == parts[0]
  {
    if parts == [] then []
    else if |parts| == 1 then parts[0]
    else JoinWith(sep, parts[..|parts| - 1]) + sep + parts[|parts| - 1]
  }

  /** An occurrence survives appending text after it. */
  lemma OccursBefore(a: string, b: string, pattern: string, i: int)
    requires OccursAt(a, pattern, i)
    ensures OccursAt(a + b, pattern, i)
  {
    assert (a + b)[i..i + |pattern|] == a[i..i + |pattern|];
  }

  /** An occurrence moves right by `|a|` when `a` is put in front. */
  lemma OccursAfter(a: string, b: string, pattern: string, i: int)
    requires OccursAt(b, pattern, i)
    ensures OccursAt(a + b, pattern, |a| + i)
  {
    assert (a + b)[|a| + i..|a| + i + |pattern|] == b[i..i + |pattern|];
  }

  /** Each part occurs in the joined text. */
  lemma {:induction false} JoinWithHasPart(sep: string, parts: seq<string>, k: nat) returns (i: int)
    requires k < |parts|
    ensures OccursAt(JoinWith(sep, parts), parts[k], i)
  {
    if |parts| == 1 {
      i := 0;
      assert JoinWith(sep, parts)[0..|parts[k]|] == parts[0];
    } else {
      var init := parts[..|parts| - 1];
      var last := parts[|parts| - 1];
      assert JoinWith(sep, parts) == JoinWith(sep, init) + sep + last;
      if k == |parts| - 1 {
        assert OccursAt(last, last, 0) by { assert last[0..|last|] == last; }
        OccursAfter(JoinWith(sep, init) + sep, last, last, 0);
        i := |JoinWith(sep, init) + sep|;
      } else {
        assert init[k] == parts[k];
        i := JoinWithHasPart(sep, init, k);
        OccursBefore(JoinWith(sep, init), sep, parts[k], i);
        OccursBefore(JoinWith(sep, init) + sep, last, parts[k], i);
      }
    }
  }

  /** The joined text ends with the last part. */
  lemma JoinWithEndsWithLast(sep: string, parts: seq<string>)
    requires parts != []
    ensures EndsWith(JoinWith(sep, parts), parts[|parts| - 1])
  {
    var r := JoinWith(sep, parts);
    var last := parts[|parts| - 1];
    if |parts| > 1 {
      assert r == (JoinWith(sep, parts[..|parts| - 1]) + sep) + last;
    }
    assert r[|r| - |last|..] == last;
  }
}
