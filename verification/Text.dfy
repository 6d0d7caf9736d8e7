/** The string operations of the runtime that the modelled code relies on. */
module Text {
  import opened Wrappers

  /** indexOf(x, start), with None for -1. */
  function IndexOf<T(==)>(s: seq<T>, x: T, start: nat): (r: Option<nat>)
    ensures r.Some? ==> start <= r.value < |s| && s[r.value] == x && forall i :: start <= i < r.value ==> s[i] != x
    ensures r.None? ==> forall i :: start <= i < |s| ==> s[i] != x
    decreases |s| - start
  {
    if start >= |s| then None
    else if s[start] == x then Some(start)
    else IndexOf(s, x, start + 1)
  }

  lemma IndexOfFirst<T>(s: seq<T>, x: T, at: nat, start: nat)
    requires start <= at < |s| && s[at] == x && forall i :: start <= i < at ==> s[i] != x
    ensures IndexOf(s, x, start) == Some(at)
  {
  }

  lemma IndexOfNone<T>(s: seq<T>, x: T, start: nat)
    requires forall i :: start <= i < |s| ==> s[i] != x
    ensures IndexOf(s, x, start) == None
  {
  }

  /** 43 characters of base64url, as 32 random bytes print. */
  predicate IsOpaque(text: string) {
    |text| == 43 && forall i :: 0 <= i < 43 ==>
      'A' <= text[i] <= 'Z' || 'a' <= text[i] <= 'z' || '0' <= text[i] <= '9' || text[i] == '_' || text[i] == '-'
  }

  const UPPER := "ABCDEFGHIJKLMNOPQRSTUVWXYZ"
  const LOWER := "abcdefghijklmnopqrstuvwxyz"
  const DIGITS := "0123456789"

  /** The alphabet of base64url: section 5 of RFC 4648. */
  const BASE64URL := UPPER + LOWER + DIGITS + "-_"

  lemma UpperRange(c: char)
    ensures c in UPPER <==> 'A' <= c <= 'Z'
  {
    if 'A' <= c <= 'Z' { assert UPPER[c as int - 'A' as int] == c; }
  }

  lemma LowerRange(c: char)
    ensures c in LOWER <==> 'a' <= c <= 'z'
  {
    if 'a' <= c <= 'z' { assert LOWER[c as int - 'a' as int] == c; }
  }

  lemma DigitRange(c: char)
    ensures c in DIGITS <==> '0' <= c <= '9'
  {
    if '0' <= c <= '9' { assert DIGITS[c as int - '0' as int] == c; }
  }

  lemma Base64UrlRange(c: char)
    ensures c in BASE64URL
            <==> 'A' <= c <= 'Z' || 'a' <= c <= 'z' || '0' <= c <= '9' || c == '_' || c == '-'
  {
    UpperRange(c);
    LowerRange(c);
    DigitRange(c);
  }

  lemma OpaqueIsBase64Url(text: string)
    ensures IsOpaque(text) <==> |text| == 43 && forall c :: c in text ==> c in BASE64URL
  {
    forall i | 0 <= i < |text|
      ensures text[i] in text
      ensures text[i] in BASE64URL
              <==> 'A' <= text[i] <= 'Z' || 'a' <= text[i] <= 'z' || '0' <= text[i] <= '9'
                   || text[i] == '_' || text[i] == '-'
    {
      Base64UrlRange(text[i]);
    }
  }

  function DigitChar(d: nat): (c: char)
    requires d < 10
    ensures '0' <= c <= '9' && c as nat - '0' as nat == d
  {
    ('0' as nat + d) as char
  }

  /** String(n) */
  function Decimal(n: nat): (text: string)
    ensures text != ""
  {
    if n < 10 then [DigitChar(n)] else Decimal(n / 10) + [DigitChar(n % 10)]
  }
}
