/**
 * Letters, words and occurrence counts shared by both engines.
 * Words are upper-case ASCII strings; a letter's alphabet slot is its offset from 'A'.
 */
module Letters {

  const ALPHABET_SIZE: nat := 26

  function Min(x: nat, y: nat): nat { if x <= y then x else y }

  predicate IsUpper(c: char) { 'A' <= c <= 'Z' }

  predicate AllUpper(s: string) { forall i :: 0 <= i < |s| ==> IsUpper(s[i]) }

  /** The alphabet slot of an upper-case letter (`c as u8 - b'A'`). */
  function Idx(c: char): (k: nat)
    requires IsUpper(c)
    ensures k < ALPHABET_SIZE
  {
    c as int - 'A' as int
  }

  /** The letter whose alphabet slot is `k`. */
  function Letter(k: nat): (c: char)
    requires k < ALPHABET_SIZE
    ensures IsUpper(c) && Idx(c) == k
  {
    ('A' as int + k) as char
  }

  lemma LetterOfIdx(c: char)
    requires IsUpper(c)
    ensures Letter(Idx(c)) == c
  {
  }

  /** Number of occurrences of `x` in `s`. */
  function Count<T(==)>(s: seq<T>, x: T): nat
  {
    if |s| == 0 then 0 else Count(s[..|s| - 1], x) + (if s[|s| - 1] == x then 1 else 0)
  }

  /** Counting a prefix one element further. */
  lemma CountStep<T>(s: seq<T>, x: T, n: nat)
    requires n < |s|
    ensures Count(s[..n + 1], x) == Count(s[..n], x) + (if s[n] == x then 1 else 0)
  {
    assert s[..n + 1][..n] == s[..n];
  }

  lemma {:induction false} CountAbsent<T>(s: seq<T>, x: T)
    requires x !in s
    ensures Count(s, x) == 0
  {
    if |s| > 0 {
      assert forall y :: y in s[..|s| - 1] ==> y in s;
      CountAbsent(s[..|s| - 1], x);
    }
  }

  lemma {:induction false} CountPresent<T>(s: seq<T>, x: T)
    requires x in s
    ensures Count(s, x) > 0
  {
    if s[|s| - 1] != x {
      var i :| 0 <= i < |s| && s[i] == x;
      assert s[..|s| - 1][i] == x;
      CountPresent(s[..|s| - 1], x);
    }
  }

  lemma {:induction false} CountAppend<T>(s: seq<T>, t: seq<T>, x: T)
    ensures Count(s + t, x) == Count(s, x) + Count(t, x)
  {
    if |t| > 0 {
      assert (s + t)[..|s + t| - 1] == s + t[..|t| - 1];
      CountAppend(s, t[..|t| - 1], x);
    } else {
      assert s + t == s;
    }
  }

  function UpperChar(c: char): char
  {
    if 'a' <= c <= 'z' then (c as int - 32) as char else c
  }

  function LowerChar(c: char): char
  {
    if 'A' <= c <= 'Z' then (c as int + 32) as char else c
  }

  /** `str::to_ascii_uppercase`: only ASCII letters change. */
  function ToAsciiUpper(s: string): (u: string)
    ensures |u| == |s|
    ensures forall i :: 0 <= i < |s| ==> u[i] == UpperChar(s[i])
  {
    seq(|s|, i requires 0 <= i < |s| => UpperChar(s[i]))
  }

  /** `str::to_lowercase`, restricted to ASCII characters. */
  function ToAsciiLower(s: string): (l: string)
    ensures |l| == |s|
    ensures forall i :: 0 <= i < |s| ==> l[i] == LowerChar(s[i])
  {
    seq(|s|, i requires 0 <= i < |s| => LowerChar(s[i]))
  }

  predicate IsLowerWord(s: string) { forall i :: 0 <= i < |s| ==> 'a' <= s[i] <= 'z' }

  /**
   * An upper-cased string whose lower-case form is made of lower-case letters
   * is made of upper-case letters.
   */
  lemma UpperWordFromLower(s: string)
    requires IsLowerWord(ToAsciiLower(ToAsciiUpper(s)))
    ensures AllUpper(ToAsciiUpper(s))
  {
    var u := ToAsciiUpper(s);
    forall i | 0 <= i < |u| ensures IsUpper(u[i]) {
      assert ToAsciiLower(u)[i] == LowerChar(u[i]);
    }
  }

  /** `char::is_whitespace`: the characters of the Unicode White_Space property. */
  predicate IsSpace(c: char)
  {
    if c <= ' ' then c == ' ' || '\t' <= c <= '\r'
    else if c < '\U{2000}' then c == '\U{85}' || c == '\U{A0}' || c == '\U{1680}'
    else c <= '\U{200A}' || c == '\U{2028}' || c == '\U{2029}' || c == '\U{202F}' || c == '\U{205F}' || c == '\U{3000}'
  }

  /** Drops the leading white space. */
  function TrimStart(s: string): string
  {
    if |s| > 0 && IsSpace(s[0]) then TrimStart(s[1..]) else s
  }

  /** Drops the trailing white space. */
  function TrimEnd(s: string): string
  {
    if |s| > 0 && IsSpace(s[|s| - 1]) then TrimEnd(s[..|s| - 1]) else s
  }

  /** `str::trim`: the string without its leading and trailing white space. */
  function Trim(s: string): string
  {
    TrimEnd(TrimStart(s))
  }

  /** What `TrimStart` leaves is a suffix that starts with no space, and all it drops is space. */
  lemma {:induction false} TrimStartCuts(s: string)
    ensures |TrimStart(s)| <= |s| && TrimStart(s) == s[|s| - |TrimStart(s)|..]
    ensures |TrimStart(s)| > 0 ==> !IsSpace(TrimStart(s)[0])
    ensures forall i :: 0 <= i < |s| - |TrimStart(s)| ==> IsSpace(s[i])
  {
    if |s| > 0 && IsSpace(s[0]) {
      TrimStartCuts(s[1..]);
      assert forall i :: 1 <= i < |s| ==> s[i] == s[1..][i - 1];
    }
  }

  /** What `TrimEnd` leaves is a prefix that ends with no space, and all it drops is space. */
  lemma {:induction false} TrimEndCuts(s: string)
    ensures |TrimEnd(s)| <= |s| && TrimEnd(s) == s[..|TrimEnd(s)|]
    ensures |TrimEnd(s)| > 0 ==> !IsSpace(TrimEnd(s)[|TrimEnd(s)| - 1])
    ensures forall i :: |TrimEnd(s)| <= i < |s| ==> IsSpace(s[i])
  {
    if |s| > 0 && IsSpace(s[|s| - 1]) {
      TrimEndCuts(s[..|s| - 1]);
    }
  }

  /**
   * `str::trim` keeps the slice of `s` from the first to the last character that is not
   * white space: the result neither starts nor ends with white space, and everything cut off
   * is white space.
   */
  lemma TrimCuts(s: string)
    ensures var a, t := |s| - |TrimStart(s)|, Trim(s);
      && 0 <= a && a + |t| <= |s| && t == s[a..a + |t|]
      && (forall i :: 0 <= i < a || a + |t| <= i < |s| ==> IsSpace(s[i]))
      && (|t| > 0 ==> !IsSpace(t[0]) && !IsSpace(t[|t| - 1]))
  {
    TrimStartCuts(s);
    TrimEndCuts(TrimStart(s));
    var a, m := |s| - |TrimStart(s)|, TrimStart(s);
    assert forall i :: 0 <= i < |m| ==> m[i] == s[a + i];
  }

  /** Letters are not white space, so trimming a string of letters leaves it whole. */
  lemma TrimLetters(s: string)
    requires AllUpper(s)
    ensures Trim(s) == s
  {
    TrimCuts(s);
    if |s| > 0 {
      assert !IsSpace(s[0]) && !IsSpace(s[|s| - 1]);
    }
  }

  /** Bytes the UTF-8 encoding of a character takes. */
  function Utf8Width(c: char): nat
  {
    if c as int < 0x80 then 1 else if c as int < 0x800 then 2 else if c as int < 0x10000 then 3 else 4
  }

  /** `str::len`: the length in bytes of the UTF-8 encoding; it is the number of characters exactly when all are ASCII. */
  function ByteLen(s: string): (n: nat)
    ensures |s| <= n
    ensures n == |s| <==> forall i :: 0 <= i < |s| ==> s[i] as int < 0x80
  {
    if |s| == 0 then 0
    else
      var n := Utf8Width(s[0]) + ByteLen(s[1..]);
      assert forall i :: 1 <= i < |s| ==> s[i] == s[1..][i - 1];
      n
  }

  /** `c as u8`: the low byte of the character's code point. */
  function AsByte(c: char): (b: nat)
    ensures b < 256
    ensures c as int < 0x80 ==> b == c as int
  {
    c as int % 256
  }

  /** The byte `as u8` takes from each character. */
  function LowBytes(s: string): (b: string)
    ensures |b| == |s|
    ensures forall i :: 0 <= i < |s| ==> b[i] as int == AsByte(s[i])
  {
    seq(|s|, i requires 0 <= i < |s| => AsByte(s[i]) as char)
  }

  /** On ASCII text the byte view is the text itself. */
  lemma LowBytesOfAscii(s: string)
    requires ByteLen(s) == |s|
    ensures LowBytes(s) == s
  {
    assert forall i :: 0 <= i < |s| ==> LowBytes(s)[i] == s[i];
  }

  /** Upper-case letters are ASCII. */
  lemma UpperIsAscii(s: string)
    requires AllUpper(s)
    ensures ByteLen(s) == |s|
  {
  }
}
