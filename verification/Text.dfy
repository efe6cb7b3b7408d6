/** The string operations the components share, on sequences of characters. */
module Text {
  import opened Wrappers

  /** unicode.IsSpace. */
  predicate IsSpace(c: char) {
    || '\t' <= c <= '\r'
    || c == ' ' || c == '\U{0085}' || c == '\U{00A0}' || c == '\U{1680}'
    || '\U{2000}' <= c <= '\U{200A}'
    || c == '\U{2028}' || c == '\U{2029}' || c == '\U{202F}' || c == '\U{205F}' || c == '\U{3000}'
  }

  function TrimLeft(drop: char -> bool, s: string): string {
    if s != [] && drop(s[0]) then TrimLeft(drop, s[1..]) else s
  }

  function TrimRight(drop: char -> bool, s: string): string
    decreases |s|
  {
    if s != [] && drop(s[|s| - 1]) then TrimRight(drop, s[..|s| - 1]) else s
  }

  /** s without its longest edges of characters to drop. */
  function Trim(drop: char -> bool, s: string): string { TrimRight(drop, TrimLeft(drop, s)) }

  function TrimSpace(s: string): string { Trim(IsSpace, s) }

  /** Neither edge of s is a character to drop. */
  predicate Trimmed(drop: char -> bool, s: string) {
    s == [] || (!drop(s[0]) && !drop(s[|s| - 1]))
  }

  ghost predicate All(p: char -> bool, s: string) { forall i | 0 <= i < |s| :: p(s[i]) }

  lemma {:induction false} TrimLeftPadded(drop: char -> bool, pad: string, s: string)
    requires All(drop, pad) && (s == [] || !drop(s[0]))
    ensures TrimLeft(drop, pad + s) == s
  {
    if pad == [] {
      assert pad + s == s;
    } else {
      TrimLeftPadded(drop, pad[1..], s);
      assert (pad + s)[1..] == pad[1..] + s;
    }
  }

  lemma {:induction false} TrimRightPadded(drop: char -> bool, s: string, pad: string)
    requires All(drop, pad) && (s == [] || !drop(s[|s| - 1]))
    ensures TrimRight(drop, s + pad) == s
    decreases |pad|
  {
    if pad == [] {
      assert s + pad == s;
    } else {
      var rest := pad[..|pad| - 1];
      TrimRightPadded(drop, s, rest);
      assert (s + pad)[..|s + pad| - 1] == s + rest;
    }
  }

  /** Trimming removes padding and nothing else. */
  lemma TrimPadded(drop: char -> bool, left: string, s: string, right: string)
    requires All(drop, left) && All(drop, right) && Trimmed(drop, s)
    ensures Trim(drop, left + s + right) == s
  {
    assert left + s + right == left + (s + right);
    if s == [] {
      assert left + (s + right) == (left + right) + s;
      TrimLeftPadded(drop, left + right, s);
      assert TrimRight(drop, s) == s;
    } else {
      TrimLeftPadded(drop, left, s + right);
      TrimRightPadded(drop, s, right);
    }
  }

  lemma {:induction false} TrimLeftSuffix(drop: char -> bool, s: string)
    ensures |TrimLeft(drop, s)| <= |s|
    ensures s == s[..|s| - |TrimLeft(drop, s)|] + TrimLeft(drop, s)
    ensures All(drop, s[..|s| - |TrimLeft(drop, s)|])
    ensures TrimLeft(drop, s) == [] || !drop(TrimLeft(drop, s)[0])
  {
    if s != [] && drop(s[0]) {
      TrimLeftSuffix(drop, s[1..]);
      var n := |s| - |TrimLeft(drop, s)|;
      assert s[..n] == [s[0]] + s[1..][..n - 1];
    }
  }

  lemma {:induction false} TrimRightPrefix(drop: char -> bool, s: string)
    ensures TrimRight(drop, s) <= s
    ensures All(drop, s[|TrimRight(drop, s)|..])
    ensures TrimRight(drop, s) == [] || !drop(TrimRight(drop, s)[|TrimRight(drop, s)| - 1])
    decreases |s|
  {
    if s != [] && drop(s[|s| - 1]) {
      TrimRightPrefix(drop, s[..|s| - 1]);
    }
  }

  /** What is left is a stretch of s with clean edges, and what is gone was all to drop. */
  lemma TrimIsTrimmed(drop: char -> bool, s: string) returns (a: string, b: string)
    ensures Trimmed(drop, Trim(drop, s))
    ensures s == a + Trim(drop, s) + b
    ensures All(drop, a) && All(drop, b)
  {
    var l := TrimLeft(drop, s);
    TrimLeftSuffix(drop, s);
    TrimRightPrefix(drop, l);
    a, b := s[..|s| - |l|], l[|TrimRight(drop, l)|..];
  }

  /** Padding makes no difference. */
  lemma TrimIgnoresPadding(drop: char -> bool, left: string, s: string, right: string)
    requires All(drop, left) && All(drop, right)
    ensures Trim(drop, left + s + right) == Trim(drop, s)
  {
    var a, b := TrimIsTrimmed(drop, s);
    assert left + s + right == (left + a) + Trim(drop, s) + (b + right);
    TrimPadded(drop, left + a, Trim(drop, s), b + right);
  }

  /** The characters with the White_Space property of Unicode, by their numbers. */
  lemma SpacesAre(c: char)
    ensures IsSpace(c) <==>
            c as int in {0x09, 0x0A, 0x0B, 0x0C, 0x0D, 0x20, 0x85, 0xA0, 0x1680, 0x2000, 0x2001, 0x2002, 0x2003, 0x2004,
                         0x2005, 0x2006, 0x2007, 0x2008, 0x2009, 0x200A, 0x2028, 0x2029, 0x202F, 0x205F, 0x3000}
  {}

  /**
   * Simple case folding onto ASCII: the letters A-Z, and the two characters outside ASCII whose
   * folding is an ASCII letter (the long s and the Kelvin sign).
   */
  function Fold(c: char): char {
    if 'A' <= c <= 'Z' then c + 32 as char
    else if c == '\U{017F}' then 's'
    else if c == '\U{212A}' then 'k'
    else c
  }

  /** What folds to a small letter: it, its capital, and for s and k one character outside ASCII. */
  lemma FoldsToLetter(c: char, small: char)
    requires 'a' <= small <= 'z'
    ensures Fold(c) == small <==>
            || c == small
            || c as int == small as int - 32
            || (small == 's' && c as int == 0x017F)
            || (small == 'k' && c as int == 0x212A)
  {}

  /** strings.EqualFold, exact as soon as one of the two strings is ASCII. */
  predicate EqualFold(a: string, b: string) {
    |a| == |b| && forall i | 0 <= i < |a| :: Fold(a[i]) == Fold(b[i])
  }

  // ----- lengths in bytes

  /** The length of a character in UTF-8. */
  function CharBytes(c: char): nat {
    if c < '\U{0080}' then 1 else if c < '\U{0800}' then 2 else if c < '\U{10000}' then 3 else 4
  }

  /** len(s). */
  function ByteLen(s: string): nat { if s == [] then 0 else CharBytes(s[0]) + ByteLen(s[1..]) }

  /** How many characters s[:n] holds, n counting bytes; None if that cuts a character in two or s is too short. */
  function CharsIn(s: string, n: nat): Option<nat> {
    if n == 0 then Some(0)
    else if s == [] || CharBytes(s[0]) > n then None
    else
      match CharsIn(s[1..], n - CharBytes(s[0]))
      case None => None
      case Some(k) => Some(k + 1)
  }

  predicate IsAscii(s: string) { forall i | 0 <= i < |s| :: s[i] < '\U{0080}' }

  lemma {:induction false} CharsInPrefix(a: string, b: string)
    ensures CharsIn(a + b, ByteLen(a)) == Some(|a|)
    ensures ByteLen(a + b) == ByteLen(a) + ByteLen(b)
  {
    if a == [] {
      assert a + b == b;
    } else {
      assert (a + b)[1..] == a[1..] + b;
      CharsInPrefix(a[1..], b);
    }
  }

  lemma {:induction false} CharsInIsExact(s: string, n: nat)
    ensures CharsIn(s, n).Some? ==> CharsIn(s, n).value <= |s| && ByteLen(s[..CharsIn(s, n).value]) == n
  {
    if n > 0 && s != [] && CharBytes(s[0]) <= n {
      CharsInIsExact(s[1..], n - CharBytes(s[0]));
      if CharsIn(s, n).Some? {
        var k := CharsIn(s, n).value;
        assert s[..k][1..] == s[1..][..k - 1];
      }
    }
  }

  lemma {:induction false} AsciiBytes(s: string)
    ensures ByteLen(s) >= |s|
    ensures ByteLen(s) == |s| <==> IsAscii(s)
  {
    if s != [] {
      AsciiBytes(s[1..]);
      assert IsAscii(s) <==> s[0] < '\U{0080}' && IsAscii(s[1..]) by {
        if s[0] < '\U{0080}' && IsAscii(s[1..]) {
          forall i | 0 <= i < |s| ensures s[i] < '\U{0080}' { if i > 0 { assert s[i] == s[1..][i - 1]; } }
        }
      }
    }
  }
}
