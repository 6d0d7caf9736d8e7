/** The `cdt1.<device_id>.<secret>` token: server/src/auth/device-token.ts. */
module DeviceToken {
  import opened Wrappers
  import opened Text

  const DEVICE_TOKEN_PREFIX := "cdt1"

  datatype ParsedToken = ParsedToken(deviceId: string, secret: string)

  predicate IsHexDigit(c: char) {
    '0' <= c <= '9' || 'a' <= c <= 'f' || 'A' <= c <= 'F'
  }

  predicate IsUuid(s: string) {
    && |s| == 36
    && forall i :: 0 <= i < 36 ==> if i in {8, 13, 18, 23} then s[i] == '-' else IsHexDigit(s[i])
  }

  function ParseDeviceToken(token: Option<string>): Option<ParsedToken> {
    if token.None? || token.value == "" then None else
    var text := token.value;
    var firstDot := IndexOf(text, '.', 0);
    if firstDot.None? || text[..firstDot.value] != DEVICE_TOKEN_PREFIX then None else
    var secondDot := IndexOf(text, '.', firstDot.value + 1);
    if secondDot.None? then None else
    var deviceId, secret := text[firstDot.value + 1..secondDot.value], text[secondDot.value + 1..];
    if !IsUuid(deviceId) || secret == "" then None else Some(ParsedToken(deviceId, secret))
  }

  function FormatDeviceToken(deviceId: string, secret: string): string {
    DEVICE_TOKEN_PREFIX + "." + deviceId + "." + secret
  }

  /** A formatted token reads back, dots in the secret included, exactly for UUID devices and non-empty secrets. */
  lemma ParseUndoesFormat(deviceId: string, secret: string)
    ensures ParseDeviceToken(Some(FormatDeviceToken(deviceId, secret))) == Some(ParsedToken(deviceId, secret))
            <==> IsUuid(deviceId) && secret != ""
  {
    var text := FormatDeviceToken(deviceId, secret);
    if IsUuid(deviceId) && secret != "" {
      assert text[0] == 'c' && text[1] == 'd' && text[2] == 't' && text[3] == '1';
      IndexOfFirst(text, '.', 4, 0);
      assert forall i :: 5 <= i < 41 ==> text[i] == deviceId[i - 5];
      IndexOfFirst(text, '.', 41, 5);
      assert text[..4] == DEVICE_TOKEN_PREFIX && text[5..41] == deviceId && text[42..] == secret;
    }
  }

  /** Accepted tokens are canonical: formatting what was parsed gives the text back. */
  lemma FormatUndoesParse(text: string)
    requires ParseDeviceToken(Some(text)).Some?
    ensures
      var parsed := ParseDeviceToken(Some(text)).value;
      FormatDeviceToken(parsed.deviceId, parsed.secret) == text && IsUuid(parsed.deviceId) && parsed.secret != ""
  {
    var firstDot := IndexOf(text, '.', 0).value;
    var secondDot := IndexOf(text, '.', firstDot + 1).value;
    assert text == text[..firstDot] + "." + text[firstDot + 1..secondDot] + "." + text[secondDot + 1..];
  }

  ghost predicate Hex(text: string) {
    forall c :: c in text ==> c in "0123456789abcdefABCDEF"
  }

  /** Hexadecimal digits of either case in groups of 8, 4, 4, 4 and 12, with hyphens between them. */
  ghost predicate Grouped(s: string) {
    && |s| == 36 && s[8] == s[13] == s[18] == s[23] == '-'
    && Hex(s[..8]) && Hex(s[9..13]) && Hex(s[14..18]) && Hex(s[19..23]) && Hex(s[24..])
  }

  lemma HexDigitExactly(c: char)
    ensures IsHexDigit(c) <==> c in "0123456789abcdefABCDEF"
  {
    var digits := "0123456789abcdefABCDEF";
    if '0' <= c <= '9' { assert digits[c as int - '0' as int] == c; }
    if 'a' <= c <= 'f' { assert digits[10 + c as int - 'a' as int] == c; }
    if 'A' <= c <= 'F' { assert digits[16 + c as int - 'A' as int] == c; }
  }

  lemma HexExactly(text: string)
    ensures Hex(text) <==> forall i :: 0 <= i < |text| ==> IsHexDigit(text[i])
  {
    forall c ensures IsHexDigit(c) <==> c in "0123456789abcdefABCDEF" { HexDigitExactly(c); }
    assert forall i :: 0 <= i < |text| ==> text[i] in text;
  }

  lemma UuidExactly(s: string)
    ensures IsUuid(s) <==> Grouped(s)
  {
    if |s| == 36 {
      HexExactly(s[..8]);
      HexExactly(s[9..13]);
      HexExactly(s[14..18]);
      HexExactly(s[19..23]);
      HexExactly(s[24..]);
      if Grouped(s) {
        forall i | 0 <= i < 36 ensures if i in {8, 13, 18, 23} then s[i] == '-' else IsHexDigit(s[i]) {
          assert i < 8 ==> s[i] == s[..8][i];
          assert 9 <= i < 13 ==> s[i] == s[9..13][i - 9];
          assert 14 <= i < 18 ==> s[i] == s[14..18][i - 14];
          assert 19 <= i < 23 ==> s[i] == s[19..23][i - 19];
          assert 24 <= i ==> s[i] == s[24..][i - 24];
        }
      }
    }
  }

  /** What is accepted, and as what: "cdt1", a device id in groups and a non-empty secret, with dots between them. */
  lemma ParsesExactly(token: Option<string>, deviceId: string, secret: string)
    ensures ParseDeviceToken(token) == Some(ParsedToken(deviceId, secret))
            <==> token == Some("cdt1." + deviceId + "." + secret) && Grouped(deviceId) && secret != ""
  {
    UuidExactly(deviceId);
    assert "cdt1." + deviceId + "." + secret == FormatDeviceToken(deviceId, secret);
    ParseUndoesFormat(deviceId, secret);
    if ParseDeviceToken(token).Some? { FormatUndoesParse(token.value); }
  }
}
