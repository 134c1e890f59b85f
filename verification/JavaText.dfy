/** The two `java.lang.String` operations the ledger relies on: `trim` and an
    ASCII abstraction of `equalsIgnoreCase`. */
module JavaText {
  import opened Wrappers

  /** Java's `s.trim().isEmpty()`: every character is at most U+0020. */
  predicate IsBlank(s: string) {
    forall k :: 0 <= k < |s| ==> s[k] <= ' '
  }

  /** `r` sits in `s` at offset `i`, and everything of `s` around it is at most U+0020. */
  ghost predicate IsTrimAt(r: string, s: string, i: nat)
    requires i + |r| <= |s|
  {
    && s[i..i + |r|] == r
    && (forall k :: 0 <= k < i ==> s[k] <= ' ')
    && (forall k :: i + |r| <= k < |s| ==> s[k] <= ' ')
  }

  /** Reference definition of trimming: `r` is `s` with characters at most U+0020
      removed from both ends, and `r` neither starts nor ends with one. */
  ghost predicate IsTrimOf(r: string, s: string) {
    && (r != [] ==> r[0] > ' ' && r[|r| - 1] > ' ')
    && exists i: nat :: i + |r| <= |s| && IsTrimAt(r, s, i)
  }

  /** Java's `s == null || s.trim().isEmpty()`. */
  predicate Missing(s: Option<string>): (b: bool)
    ensures b <==> s.None? || Trim(s.value) == []
  {
    s.None? || IsBlank(s.value)
  }

  /** A string as a validating constructor stores it: non-empty and unchanged by `trim`. */
  predicate IsNormalField(s: string) {
    s != [] && Trim(s) == s
  }

  /** Drops the leading characters at most U+0020. */
  function TrimStart(s: string): string {
    if s != [] && s[0] <= ' ' then TrimStart(s[1..]) else s
  }

  /** Drops the trailing characters at most U+0020. */
  function TrimEnd(s: string): string {
    if s != [] && s[|s| - 1] <= ' ' then TrimEnd(s[..|s| - 1]) else s
  }

  /** `TrimStart` keeps a suffix of `s` that does not start with a character at
      most U+0020, and drops only such characters. */
  lemma {:induction false} TrimStartIsSuffix(s: string)
    ensures |TrimStart(s)| <= |s| && TrimStart(s) == s[|s| - |TrimStart(s)|..]
    ensures TrimStart(s) != [] ==> TrimStart(s)[0] > ' '
    ensures forall k :: 0 <= k < |s| - |TrimStart(s)| ==> s[k] <= ' '
  {
    if s != [] && s[0] <= ' ' {
      TrimStartIsSuffix(s[1..]);
    }
  }

  /** `TrimEnd` keeps a prefix of `s` that does not end with a character at
      most U+0020, and drops only such characters. */
  lemma {:induction false} TrimEndIsPrefix(s: string)
    ensures |TrimEnd(s)| <= |s| && TrimEnd(s) == s[..|TrimEnd(s)|]
    ensures TrimEnd(s) != [] ==> TrimEnd(s)[|TrimEnd(s)| - 1] > ' '
    ensures forall k :: |TrimEnd(s)| <= k < |s| ==> s[k] <= ' '
  {
    if s != [] && s[|s| - 1] <= ' ' {
      TrimEndIsPrefix(s[..|s| - 1]);
    }
  }

  /** Java's `String.trim`. */
  function Trim(s: string): (r: string)
    ensures IsTrimOf(r, s)
    ensures r == [] <==> IsBlank(s)
  {
    var t := TrimStart(s);
    var r := TrimEnd(t);
    TrimStartIsSuffix(s);
    TrimEndIsPrefix(t);
    assert IsTrimAt(r, s, |s| - |t|);
    r
  }

  /** The reference definition admits one trimmed form per string. */
  lemma TrimOfIsUnique(r1: string, r2: string, s: string)
    requires IsTrimOf(r1, s) && IsTrimOf(r2, s)
    ensures r1 == r2
  {
    var i1: nat :| i1 + |r1| <= |s| && IsTrimAt(r1, s, i1);
    var i2: nat :| i2 + |r2| <= |s| && IsTrimAt(r2, s, i2);
    if r1 != [] && r2 != [] {
      assert s[i1] == r1[0] && s[i2] == r2[0];
      assert i1 == i2;
      assert s[i1 + |r1| - 1] == r1[|r1| - 1] && s[i2 + |r2| - 1] == r2[|r2| - 1];
      assert |r1| == |r2|;
    }
  }

  /** Trimming an already trimmed string changes nothing. */
  lemma {:induction false} TrimIdempotent(s: string)
    ensures Trim(Trim(s)) == Trim(s)
  {
    var r := Trim(s);
    assert IsTrimAt(r, r, 0);
    TrimOfIsUnique(Trim(r), r, r);
  }

  /** A string that starts and ends with a character above U+0020 is its own trim. */
  lemma TrimOfPlain(s: string)
    requires s != [] && s[0] > ' ' && s[|s| - 1] > ' '
    ensures Trim(s) == s && !IsBlank(s)
  {
    assert IsTrimAt(s, s, 0);
    TrimOfIsUnique(Trim(s), s, s);
  }

  /** Java's `Character.toLowerCase` restricted to ASCII letters. */
  function ToLowerAscii(c: char): (l: char)
    ensures 'A' <= c <= 'Z' ==> 'a' <= l <= 'z' && l as int - c as int == 32
    ensures !('A' <= c <= 'Z') ==> l == c
  {
    if 'A' <= c <= 'Z' then (c as int + 32) as char else c
  }

  /** ASCII case folding of a whole string. */
  function LowerAscii(s: string): (r: string)
    ensures |r| == |s|
    ensures forall k :: 0 <= k < |s| ==> r[k] == ToLowerAscii(s[k])
  {
    seq(|s|, k requires 0 <= k < |s| => ToLowerAscii(s[k]))
  }

  /** Equal lengths and equal characters up to ASCII case is equality of the
      case-folded strings. */
  lemma FoldedEquality(a: string, b: string)
    ensures (|a| == |b| && forall k :: 0 <= k < |a| ==> ToLowerAscii(a[k]) == ToLowerAscii(b[k]))
        <==> LowerAscii(a) == LowerAscii(b)
  {
    if LowerAscii(a) == LowerAscii(b) {
      forall k | 0 <= k < |a| ensures ToLowerAscii(a[k]) == ToLowerAscii(b[k]) {
        assert LowerAscii(a)[k] == LowerAscii(b)[k];
      }
    }
  }

  /** Java's `a.equalsIgnoreCase(b)` on a non-null argument: equal lengths and
      equal characters up to case, that is, equal case-folded strings. */
  predicate EqualsIgnoreCase(a: string, b: string): (r: bool)
    ensures r <==> LowerAscii(a) == LowerAscii(b)
  {
    FoldedEquality(a, b);
    |a| == |b| && forall k :: 0 <= k < |a| ==> ToLowerAscii(a[k]) == ToLowerAscii(b[k])
  }

  /** Ignoring case is an equivalence relation on strings. */
  lemma EqualsIgnoreCaseIsEquivalence(a: string, b: string, c: string)
    ensures EqualsIgnoreCase(a, a)
    ensures EqualsIgnoreCase(a, b) ==> EqualsIgnoreCase(b, a)
    ensures EqualsIgnoreCase(a, b) && EqualsIgnoreCase(b, c) ==> EqualsIgnoreCase(a, c)
  {
  }

  /** "FoOd" matches "Food", "FOOD" and "food", and not "Foods". */
  lemma IgnoreCaseExamples()
    ensures EqualsIgnoreCase("Food", "FoOd")
    ensures EqualsIgnoreCase("FOOD", "FoOd")
    ensures EqualsIgnoreCase("food", "FoOd")
    ensures !EqualsIgnoreCase("Foods", "FoOd")
  {
  }
}
