/**
 * Currency-code validation (`normalize_ccy`): trim the input, upper-case
 * it, and accept it only when exactly three letters remain. The codes are
 * meant to be ISO 4217 ones, but only their shape is checked, never the
 * list of codes in use.
 *
 * Characters are handled as Python handles the ASCII range: `str.strip`
 * drops the ASCII characters for which `str.isspace` holds, `str.upper`
 * maps `a`..`z` to `A`..`Z`, `str.isalpha` accepts `a`..`z` and `A`..`Z`.
 */
module CurrencyCode {
  import opened Wrappers
  import opened Errors

  /** `c.isspace()` in the ASCII range: tab, line feed, vertical tab, form feed,
      carriage return, the four separators 0x1C..0x1F, and the space. */
  predicate IsSpace(c: char)
  {
    var n := c as int;
    (9 <= n <= 13) || (28 <= n <= 32)
  }

  /** `c.isalpha()` in the ASCII range. */
  predicate IsLetter(c: char)
  {
    ('a' <= c <= 'z') || ('A' <= c <= 'Z')
  }

  predicate IsUpperLetter(c: char)
  {
    'A' <= c <= 'Z'
  }

  /** `c.upper()` in the ASCII range. */
  function UpperChar(c: char): (u: char)
    ensures IsLetter(c) <==> IsUpperLetter(u)
    ensures IsUpperLetter(c) ==> u == c
    ensures !IsLetter(c) ==> u == c
    ensures 'a' <= c <= 'z' ==> u as int - 'A' as int == c as int - 'a' as int
  {
    if 'a' <= c <= 'z' then (c as int - 32) as char else c
  }

  /** `s.upper()`: every character upper-cased, the length kept. */
  function Upper(s: string): (r: string)
    ensures |r| == |s|
    ensures forall i :: 0 <= i < |s| ==> r[i] == UpperChar(s[i])
  {
    seq(|s|, i requires 0 <= i < |s| => UpperChar(s[i]))
  }

  /** The number of whitespace characters at the start of `s`: they are all
      whitespace, and the character after them is not. */
  function LeadingBlanks(s: string): (n: nat)
    ensures n <= |s|
    ensures forall k :: 0 <= k < n ==> IsSpace(s[k])
    ensures n < |s| ==> !IsSpace(s[n])
  {
    if s != [] && IsSpace(s[0]) then 1 + LeadingBlanks(s[1..]) else 0
  }

  /** Drops the trailing whitespace: what remains is a prefix that ends with
      a non-space, and everything dropped was whitespace. */
  function TrimRight(s: string): (r: string)
    ensures |r| <= |s| && r == s[..|r|]
    ensures r == [] || !IsSpace(r[|r| - 1])
    ensures forall k :: |r| <= k < |s| ==> IsSpace(s[k])
  {
    if s != [] && IsSpace(s[|s| - 1]) then TrimRight(s[..|s| - 1]) else s
  }

  /** `s.strip()`: the input with its whitespace removed from both ends. The
      result is the infix of `s` after its leading blanks; it neither starts
      nor ends with whitespace, and all that follows it in `s` is whitespace. */
  function Strip(s: string): (r: string)
    ensures r == [] || (!IsSpace(r[0]) && !IsSpace(r[|r| - 1]))
    ensures LeadingBlanks(s) + |r| <= |s|
    ensures r == s[LeadingBlanks(s)..LeadingBlanks(s) + |r|]
    ensures forall k :: LeadingBlanks(s) + |r| <= k < |s| ==> IsSpace(s[k])
  {
    TrimRight(s[LeadingBlanks(s)..])
  }

  /** Strip removes exactly the blank padding around a string that has no
      whitespace at either end. */
  lemma StripPadded(pre: string, t: string, post: string)
    requires forall k :: 0 <= k < |pre| ==> IsSpace(pre[k])
    requires forall k :: 0 <= k < |post| ==> IsSpace(post[k])
    requires t == [] || (!IsSpace(t[0]) && !IsSpace(t[|t| - 1]))
    ensures Strip(pre + t + post) == t
  {
    var s := pre + t + post;
    var n := LeadingBlanks(s);
    var r := Strip(s);
    if t == [] {
      assert forall k :: 0 <= k < |s| ==> IsSpace(s[k]) by {
        forall k | 0 <= k < |s| ensures IsSpace(s[k]) {
          if k < |pre| { assert s[k] == pre[k]; } else { assert s[k] == post[k - |pre|]; }
        }
      }
      assert n == |s|;
    } else {
      assert s[|pre|] == t[0];
      assert forall k :: 0 <= k < |pre| ==> s[k] == pre[k];
      assert n == |pre|;
      assert s[|pre| + |t| - 1] == t[|t| - 1];
      assert forall k :: |pre| + |t| <= k < |s| ==> s[k] == post[k - |pre| - |t|];
      assert |r| == |t|;
      assert r == s[|pre|..|pre| + |t|] == t;
    }
  }

  /** A string with no whitespace at either end is its own strip. */
  lemma StripUntrimmed(s: string)
    requires s == [] || (!IsSpace(s[0]) && !IsSpace(s[|s| - 1]))
    ensures Strip(s) == s
  {
  }

  /** A string made of whitespace only strips to nothing. */
  lemma StripBlank(s: string)
    requires forall k :: 0 <= k < |s| ==> IsSpace(s[k])
    ensures Strip(s) == []
  {
  }

  /** Stripping twice is stripping once. */
  lemma StripIdempotent(s: string)
    ensures Strip(Strip(s)) == Strip(s)
  {
  }

  /** A well-formed code as `normalize_ccy` returns it: three upper-case letters. */
  predicate IsCode(c: string)
  {
    |c| == 3 && forall i :: 0 <= i < 3 ==> IsUpperLetter(c[i])
  }

  /** `normalize_ccy(ccy)`. */
  function NormalizeCcy(ccy: string): (r: Result<string, Error>)
    ensures r.Success? <==>
              |Strip(ccy)| == 3 && forall i :: 0 <= i < 3 ==> IsLetter(Strip(ccy)[i])
    ensures r.Success? ==> IsCode(r.value)
    ensures r.Success? ==> forall i :: 0 <= i < 3 ==> r.value[i] == UpperChar(Strip(ccy)[i])
    ensures r.Failure? ==> r.error == InvalidCurrencyCode(ccy)
  {
    var c := Upper(Strip(ccy));
    if |c| != 3 || !(forall i :: 0 <= i < |c| ==> IsLetter(c[i])) then
      Failure(InvalidCurrencyCode(ccy))
    else
      Success(c)
  }

  /** A well-formed code is accepted exactly as it is. */
  lemma NormalizeCode(c: string)
    requires IsCode(c)
    ensures NormalizeCcy(c) == Success(c)
  {
    StripUntrimmed(c);
    assert Upper(c) == c;
  }

  /** `normalize_ccy` is idempotent: normalizing its own output changes nothing. */
  lemma NormalizeIdempotent(ccy: string)
    requires NormalizeCcy(ccy).Success?
    ensures NormalizeCcy(NormalizeCcy(ccy).value) == NormalizeCcy(ccy)
  {
    NormalizeCode(NormalizeCcy(ccy).value);
  }

  /** Surrounding whitespace is ignored and case is folded: a code padded with
      blanks, in any case, normalizes to its upper-case form. */
  lemma NormalizePadded(pre: string, code: string, post: string)
    requires forall k :: 0 <= k < |pre| ==> IsSpace(pre[k])
    requires forall k :: 0 <= k < |post| ==> IsSpace(post[k])
    requires |code| == 3 && forall k :: 0 <= k < 3 ==> IsLetter(code[k])
    ensures NormalizeCcy(pre + code + post) == Success(Upper(code))
  {
    StripPadded(pre, code, post);
  }

  /** A lower-case code with a trailing blank is accepted in upper case. */
  lemma NormalizeExample()
    ensures NormalizeCcy("usd ") == Success("USD")
  {
    NormalizePadded("", "usd", " ");
    assert "" + "usd" + " " == "usd ";
    assert Upper("usd") == "USD";
  }

  /** Too short, or not all letters: rejected. */
  lemma NormalizeRejectExamples()
    ensures NormalizeCcy("US").Failure?
    ensures NormalizeCcy("US1").Failure?
  {
    StripUntrimmed("US");
    StripUntrimmed("US1");
  }
}
