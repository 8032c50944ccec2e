/**
 * The System.ComponentModel.DataAnnotations rules that the book store's
 * payloads carry ([Required], [MaxLength], [StringLength], [Range]), as
 * predicates over the member values they are attached to.
 */
module Annotations {

  /** A money amount in hundredths: prices are SQL decimal(18,2). */
  type Cents = int

  /** .NET's char.IsWhiteSpace: the Unicode space separators, line and
      paragraph separators, and the controls U+0009..U+000D and U+0085. */
  predicate IsWhiteSpace(c: char) {
    || ('\U{9}' <= c <= '\U{D}')
    || c == ' ' || c == '\U{85}' || c == '\U{A0}' || c == '\U{1680}'
    || ('\U{2000}' <= c <= '\U{200A}')
    || c == '\U{2028}' || c == '\U{2029}' || c == '\U{202F}' || c == '\U{205F}' || c == '\U{3000}'
  }

  /** UTF-16 code units .NET spends on one character: two for a character
      outside the Basic Multilingual Plane (a surrogate pair), else one. */
  function Utf16Units(c: char): nat {
    if c as int > 0xFFFF then 2 else 1
  }

  /** string.Length of the .NET string holding `s`. */
  function Utf16Length(s: string): nat {
    if s == [] then 0 else Utf16Units(s[0]) + Utf16Length(s[1..])
  }

  /** A string counts at least one and at most two code units per character. */
  lemma {:induction false} Utf16LengthBounds(s: string)
    ensures |s| <= Utf16Length(s) <= 2 * |s|
  {
    if s != [] {
      Utf16LengthBounds(s[1..]);
    }
  }

  /** A string of Basic Multilingual Plane characters counts one code unit per character. */
  lemma {:induction false} BmpUtf16Length(s: string)
    requires forall i :: 0 <= i < |s| ==> s[i] as int <= 0xFFFF
    ensures Utf16Length(s) == |s|
  {
    if s != [] {
      BmpUtf16Length(s[1..]);
    }
  }

  /** [Required] on a string: RequiredAttribute rejects the null, the empty
      and the all-white-space string (AllowEmptyStrings is false). */
  predicate Required(s: string) {
    exists i :: 0 <= i < |s| && !IsWhiteSpace(s[i])
  }

  /** [MaxLength(n)] on a string: at most n UTF-16 code units. */
  predicate MaxLength(s: string, n: nat) {
    Utf16Length(s) <= n
  }

  /** [StringLength(maximum)] on a string, with its MinimumLength (0 unless set). */
  predicate StringLength(s: string, minimum: nat, maximum: nat) {
    minimum <= Utf16Length(s) <= maximum
  }

  /** [Range(minimum, maximum)]: both bounds inclusive. */
  predicate InRange(v: int, minimum: int, maximum: int) {
    minimum <= v <= maximum
  }

  /** The empty string (the initialiser of the creation payloads' string members) fails [Required]. */
  lemma EmptyIsNotRequired()
    ensures !Required("")
  {
  }

  /** A string that passes [Required] and [MaxLength(n)] has between 1 and n characters. */
  lemma {:induction false} RequiredMaxLengthBounds(s: string, n: nat)
    requires Required(s) && MaxLength(s, n)
    ensures 1 <= |s| <= n
  {
    Utf16LengthBounds(s);
  }

  /** A string of `n` copies of one BMP character: what tests use for over-long titles. */
  function Repeat(c: char, n: nat): (s: string)
    ensures |s| == n && forall i :: 0 <= i < n ==> s[i] == c
  {
    if n == 0 then [] else [c] + Repeat(c, n - 1)
  }

  /** A run of `n` non-blank BMP characters passes [Required] when n > 0 and is n code units long. */
  lemma {:induction false} RepeatRules(c: char, n: nat)
    requires c as int <= 0xFFFF && !IsWhiteSpace(c)
    ensures Utf16Length(Repeat(c, n)) == n
    ensures Required(Repeat(c, n)) <==> n > 0
  {
    BmpUtf16Length(Repeat(c, n));
    if n > 0 {
      assert Repeat(c, n)[0] == c;
    }
  }
}
