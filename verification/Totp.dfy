/**
 Authenticator secrets and codes: server/src/auth/mfa-totp.ts.

 Both base32 loops keep an unmasked 32-bit accumulator, so its upper bits overflow; what they preserve is
 the stream of bits. SHA-1 HMAC is a parameter that returns 20 bytes.
 */
module Totp {
  import opened Wrappers
  import opened Text

  /** Alphabet of section 6 of RFC 4648. */
  const BASE32 := "ABCDEFGHIJKLMNOPQRSTUVWXYZ234567"

  const TOTP_PERIOD_MS := 30_000

  type Byte = b: bv32 | b < 256

  // ---------------------------------------------------------------- bit streams

  ghost predicate Bit(v: bv32, i: nat)
    requires i < 32
  {
    (v >> i) & 1 == 1
  }

  /** The low n bits of v, most significant first. */
  ghost function Low(v: bv32, n: nat): (bits: seq<bool>)
    requires n <= 32
    ensures |bits| == n
  {
    if n == 0 then [] else [Bit(v, n - 1)] + Low(v, n - 1)
  }

  lemma {:induction false} LowAt(v: bv32, n: nat, k: nat)
    requires k < n <= 32
    ensures Low(v, n)[k] == Bit(v, n - 1 - k)
  {
    if k > 0 {
      LowAt(v, n - 1, k - 1);
    }
  }

  ghost function ByteStream(bytes: seq<Byte>): (bits: seq<bool>)
    ensures |bits| == 8 * |bytes|
  {
    if bytes == [] then [] else ByteStream(bytes[..|bytes| - 1]) + Low(bytes[|bytes| - 1], 8)
  }

  predicate IsBase32(text: string) {
    forall i :: 0 <= i < |text| ==> text[i] in BASE32
  }

  lemma AlphabetIsDistinct(i: nat)
    requires i < 32
    ensures IndexOf(BASE32, BASE32[i], 0) == Some(i)
  {
    assert forall k: nat :: k < 32 ==>
      BASE32[k] == if k < 26 then ('A' as int + k) as char else ('2' as int + k - 26) as char;
  }

  function SymbolIndex(c: char): (i: nat)
    requires c in BASE32
    ensures i < 32 && BASE32[i] == c
  {
    IndexOf(BASE32, c, 0).value
  }

  /** An alphabet position as an operand of the bitwise or. */
  function FiveBits(i: nat): (v: bv32)
    requires i < 32
    ensures v < 32
  {
    i as bv32
  }

  ghost function SymbolStream(text: string): (bits: seq<bool>)
    requires IsBase32(text)
    ensures |bits| == 5 * |text|
  {
    if text == [] then [] else SymbolStream(text[..|text| - 1]) + Low(FiveBits(SymbolIndex(text[|text| - 1])), 5)
  }

  // ---------------------------------------------------------------- one step of each accumulator

  lemma {:induction false} LowAgrees(v: bv32, low: bv32, m: nat)
    requires m <= 32 && forall k: nat :: k < m ==> Bit(v, k) == Bit(low, k)
    ensures Low(v, m) == Low(low, m)
  {
    if m > 0 { LowAgrees(v, low, m - 1); }
  }

  lemma {:induction false} LowConcat(v: bv32, high: bv32, n: nat, low: bv32, m: nat)
    requires n + m <= 32
    requires forall k: nat :: k < m ==> Bit(v, k) == Bit(low, k)
    requires forall k: nat {:trigger Bit(high, k)} :: k < n ==> Bit(v, m + k) == Bit(high, k)
    ensures Low(v, n + m) == Low(high, n) + Low(low, m)
    decreases n
  {
    if n == 0 {
      LowAgrees(v, low, m);
    } else {
      LowConcat(v, high, n - 1, low, m);
      assert Bit(v, m + (n - 1)) == Bit(high, n - 1);
      Reassociate([Bit(high, n - 1)], Low(high, n - 1), Low(low, m));
    }
  }

  lemma ByteBit(value: bv32, byte: Byte, k: nat)
    requires k < 12
    ensures Bit((value << 8) | byte, k) == if k < 8 then Bit(byte, k) else Bit(value, k - 8)
  {
    if k == 0 {} else if k == 1 {} else if k == 2 {} else if k == 3 {} else if k == 4 {} else if k == 5 {}
    else if k == 6 {} else if k == 7 {} else if k == 8 {} else if k == 9 {} else if k == 10 {} else if k == 11 {}
  }

  method ShiftInByte(value: bv32, byte: Byte, ghost bits: nat) returns (next: bv32)
    requires bits <= 4
    ensures Low(next, bits + 8) == Low(value, bits) + Low(byte, 8)
  {
    next := (value << 8) | byte;
    forall k: nat | k < 8 ensures Bit(next, k) == Bit(byte, k) { ByteBit(value, byte, k); }
    forall k: nat {:trigger Bit(value, k)} | k < bits ensures Bit(next, 8 + k) == Bit(value, k) {
      ByteBit(value, byte, 8 + k);
    }
    LowConcat(next, value, bits, byte, 8);
  }

  lemma SymbolBit(value: bv32, symbol: bv32, k: nat)
    requires k < 12 && symbol < 32
    ensures Bit((value << 5) | symbol, k) == if k < 5 then Bit(symbol, k) else Bit(value, k - 5)
  {
    if k == 0 {} else if k == 1 {} else if k == 2 {} else if k == 3 {} else if k == 4 {} else if k == 5 {}
    else if k == 6 {} else if k == 7 {} else if k == 8 {} else if k == 9 {} else if k == 10 {} else if k == 11 {}
  }

  method ShiftInSymbol(value: bv32, symbol: bv32, ghost bits: nat) returns (next: bv32)
    requires bits <= 7 && symbol < 32
    ensures Low(next, bits + 5) == Low(value, bits) + Low(symbol, 5)
  {
    next := (value << 5) | symbol;
    forall k: nat | k < 5 ensures Bit(next, k) == Bit(symbol, k) { SymbolBit(value, symbol, k); }
    forall k: nat {:trigger Bit(value, k)} | k < bits ensures Bit(next, 5 + k) == Bit(value, k) {
      SymbolBit(value, symbol, 5 + k);
    }
    LowConcat(next, value, bits, symbol, 5);
  }

  lemma ExtractedBit(value: bv32, shift: nat, k: nat)
    requires shift <= 7 && k < 8
    ensures Bit((value >> shift) & 255, k) == Bit(value, shift + k)
    ensures k < 5 ==> Bit((value >> shift) & 31, k) == Bit(value, shift + k)
  {
    if k == 0 {} else if k == 1 {} else if k == 2 {} else if k == 3 {} else if k == 4 {}
    else if k == 5 {} else if k == 6 {} else if k == 7 {}
  }

  method SymbolAbove(value: bv32, rest: nat) returns (symbol: bv32)
    requires rest <= 7
    ensures symbol < 32 && Low(value, rest + 5) == Low(symbol, 5) + Low(value, rest)
  {
    symbol := (value >> rest) & 31;
    forall k: nat {:trigger Bit(symbol, k)} | k < 5 ensures Bit(value, rest + k) == Bit(symbol, k) {
      ExtractedBit(value, rest, k);
    }
    LowConcat(value, symbol, 5, value, rest);
  }

  method ByteAbove(value: bv32, rest: nat) returns (byte: Byte)
    requires rest <= 7
    ensures Low(value, rest + 8) == Low(byte, 8) + Low(value, rest)
  {
    byte := (value >> rest) & 255;
    forall k: nat {:trigger Bit(byte, k)} | k < 8 ensures Bit(value, rest + k) == Bit(byte, k) {
      ExtractedBit(value, rest, k);
    }
    LowConcat(value, byte, 8, value, rest);
  }

  function SymbolChar(symbol: bv32): (c: char)
    requires symbol < 32
    ensures c in BASE32
  {
    BASE32[symbol as nat]
  }

  lemma SymbolReadsBack(symbol: bv32)
    requires symbol < 32
    ensures FiveBits(SymbolIndex(SymbolChar(symbol))) == symbol
  {
    AlphabetIsDistinct(symbol as nat);
  }

  lemma {:induction false} AppendSymbol(text: string, symbol: bv32)
    requires IsBase32(text) && symbol < 32
    ensures IsBase32(text + [SymbolChar(symbol)])
    ensures SymbolStream(text + [SymbolChar(symbol)]) == SymbolStream(text) + Low(symbol, 5)
  {
    SymbolReadsBack(symbol);
    assert (text + [SymbolChar(symbol)])[..|text|] == text;
  }

  lemma PrefixStream(bytes: seq<Byte>, i: nat)
    requires i < |bytes|
    ensures ByteStream(bytes[..i + 1]) == ByteStream(bytes[..i]) + Low(bytes[i], 8)
  {
    assert bytes[..i + 1][..i] == bytes[..i];
  }

  lemma {:induction false} PrefixSymbols(text: string, i: nat)
    requires IsBase32(text) && i < |text|
    ensures SymbolStream(text[..i + 1]) == SymbolStream(text[..i]) + Low(FiveBits(SymbolIndex(text[i])), 5)
  {
    assert text[..i + 1][..i] == text[..i];
  }

  lemma Reassociate(a: seq<bool>, b: seq<bool>, c: seq<bool>)
    ensures (a + b) + c == a + (b + c)
  {
  }

  lemma AppendByte(bytes: seq<Byte>, byte: Byte)
    ensures ByteStream(bytes + [byte]) == ByteStream(bytes) + Low(byte, 8)
  {
    assert (bytes + [byte])[..|bytes|] == bytes;
  }

  // ---------------------------------------------------------------- the two loops

  /** The symbols already emitted, and the bits still in the accumulator. */
  ghost function Carried(text: string, value: bv32, bits: nat): seq<bool>
    requires IsBase32(text) && bits <= 32
  {
    SymbolStream(text) + Low(value, bits)
  }

  /** The inner loop of newTotpSecret: moves complete groups of five from the accumulator to the text. */
  method EmitSymbols(value: bv32, pending: nat, text: string) returns (bits: nat, encoded: string)
    requires pending <= 12 && IsBase32(text)
    ensures bits < 5 && IsBase32(encoded) && 5 * |encoded| + bits == 5 * |text| + pending
    ensures Carried(encoded, value, bits) == Carried(text, value, pending)
  {
    bits, encoded := pending, text;
    while bits >= 5
      invariant bits <= 12 && IsBase32(encoded) && 5 * |encoded| + bits == 5 * |text| + pending
      invariant Carried(encoded, value, bits) == Carried(text, value, pending)
    {
      var symbol := SymbolAbove(value, bits - 5);
      AppendSymbol(encoded, symbol);
      Reassociate(SymbolStream(encoded), Low(symbol, 5), Low(value, bits - 5));
      bits, encoded := bits - 5, encoded + [SymbolChar(symbol)];
    }
  }

  /** newTotpSecret on the drawn bytes: every bit is encoded, except a last group shorter than five. */
  method EncodeSecret(random: seq<Byte>) returns (encoded: string)
    ensures IsBase32(encoded) && |encoded| == 8 * |random| / 5
    ensures SymbolStream(encoded) == ByteStream(random)[..5 * |encoded|]
  {
    var bits, value := 0, 0 as bv32;
    encoded := "";
    for i := 0 to |random|
      invariant 0 <= bits < 5 && IsBase32(encoded) && 5 * |encoded| + bits == 8 * i
      invariant Carried(encoded, value, bits) == ByteStream(random[..i])
    {
      var next := ShiftInByte(value, random[i], bits);
      Reassociate(SymbolStream(encoded), Low(value, bits), Low(random[i], 8));
      PrefixStream(random, i);
      value := next;
      bits := bits + 8;
      bits, encoded := EmitSymbols(value, bits, encoded);
    }
    assert random[..|random|] == random;
  }

  /** The loop of decodeSecret: every bit is decoded, except a last group shorter than eight. */
  method DecodeSymbols(secret: string) returns (bytes: seq<Byte>)
    requires IsBase32(secret)
    ensures |bytes| == 5 * |secret| / 8
    ensures ByteStream(bytes) == SymbolStream(secret)[..8 * |bytes|]
  {
    var bits, value := 0, 0 as bv32;
    bytes := [];
    for i := 0 to |secret|
      invariant 0 <= bits < 8 && 8 * |bytes| + bits == 5 * i
      invariant ByteStream(bytes) + Low(value, bits) == SymbolStream(secret[..i])
    {
      var symbol := FiveBits(SymbolIndex(secret[i]));
      var next := ShiftInSymbol(value, symbol, bits);
      Reassociate(ByteStream(bytes), Low(value, bits), Low(symbol, 5));
      PrefixSymbols(secret, i);
      value := next;
      bits := bits + 5;
      if bits >= 8 {
        bits := bits - 8;
        var byte := ByteAbove(value, bits);
        AppendByte(bytes, byte);
        Reassociate(ByteStream(bytes), Low(byte, 8), Low(value, bits));
        bytes := bytes + [byte];
      }
    }
    assert secret[..|secret|] == secret;
  }

  /** decodeSecret: None where it throws. */
  method DecodeSecret(secret: string) returns (key: Option<seq<Byte>>)
    ensures key.Some? <==> |secret| == 32 && IsBase32(secret)
    ensures key.Some? ==> |key.value| == 20 && ByteStream(key.value) == SymbolStream(secret)
  {
    if |secret| != 32 || !IsBase32(secret) { return None; }
    var bytes := DecodeSymbols(secret);
    key := Some(bytes);
  }

  // ---------------------------------------------------------------- the streams determine the data

  lemma BitsDetermineByte(a: Byte, b: Byte)
    requires Low(a, 8) == Low(b, 8)
    ensures a == b
  {
    forall k: nat | k < 8 ensures Bit(a, k) == Bit(b, k) {
      LowAt(a, 8, 7 - k);
      LowAt(b, 8, 7 - k);
    }
    assert Bit(a, 0) == Bit(b, 0) && Bit(a, 1) == Bit(b, 1) && Bit(a, 2) == Bit(b, 2) && Bit(a, 3) == Bit(b, 3);
    assert Bit(a, 4) == Bit(b, 4) && Bit(a, 5) == Bit(b, 5) && Bit(a, 6) == Bit(b, 6) && Bit(a, 7) == Bit(b, 7);
  }

  lemma {:induction false} StreamDeterminesBytes(a: seq<Byte>, b: seq<Byte>)
    requires ByteStream(a) == ByteStream(b)
    ensures a == b
  {
    if a != [] {
      var n := |a| - 1;
      assert |b| == |a|;
      assert ByteStream(a[..n]) == ByteStream(a)[..8 * n] && ByteStream(b[..n]) == ByteStream(b)[..8 * n];
      assert Low(a[n], 8) == ByteStream(a)[8 * n..] && Low(b[n], 8) == ByteStream(b)[8 * n..];
      StreamDeterminesBytes(a[..n], b[..n]);
      BitsDetermineByte(a[n], b[n]);
      assert a == a[..n] + [a[n]] && b == b[..n] + [b[n]];
    }
  }

  lemma {:induction false} StreamOfPrefix(bytes: seq<Byte>, n: nat)
    requires n <= |bytes|
    ensures ByteStream(bytes[..n]) == ByteStream(bytes)[..8 * n]
  {
    if n == |bytes| {
      assert bytes[..n] == bytes;
    } else {
      var m := |bytes| - 1;
      StreamOfPrefix(bytes[..m], n);
      assert bytes[..m][..n] == bytes[..n];
      assert ByteStream(bytes)[..8 * m] == ByteStream(bytes[..m]);
    }
  }

  lemma DecodedLength(n: nat)
    ensures 5 * (8 * n / 5) / 8 <= n
    ensures 5 * (8 * n / 5) / 8 == n <==> n % 5 == 0
  {
  }

  /**
   Encoding and then decoding keeps the leading bytes, and is the identity exactly when the length is a multiple of
   five.
   */
  method EncodeThenDecode(random: seq<Byte>) returns (decoded: seq<Byte>)
    ensures decoded <= random
    ensures decoded == random <==> |random| % 5 == 0
  {
    var encoded := EncodeSecret(random);
    decoded := DecodeSymbols(encoded);
    DecodedLength(|random|);
    StreamOfPrefix(random, |decoded|);
    assert ByteStream(random)[..5 * |encoded|][..8 * |decoded|] == ByteStream(random)[..8 * |decoded|];
    StreamDeterminesBytes(decoded, random[..|decoded|]);
  }

  /** What newTotpSecret makes from its 20 random bytes is 32 characters that decodeSecret accepts and reads back. */
  method StoredSecretReadsBack(random: seq<Byte>) returns (encoded: string, key: Option<seq<Byte>>)
    requires |random| == 20
    ensures |encoded| == 32 && IsBase32(encoded) && key == Some(random)
  {
    encoded := EncodeSecret(random);
    key := DecodeSecret(encoded);
    StreamDeterminesBytes(key.value, random);
  }

  // ---------------------------------------------------------------- codes

  /** A SHA-1 HMAC of the counter `step` under `key`. */
  type Digest = d: seq<Byte> | |d| == 20 witness seq(20, _ => 0)
  type Hmac = (seq<Byte>, nat) -> Digest

  function LowNibble(byte: Byte): (offset: nat)
    ensures offset < 16
  {
    (byte & 15) as nat
  }

  /** readUInt32BE of four bytes. */
  function Word(a: Byte, b: Byte, c: Byte, d: Byte): bv32 {
    ((a as bv32) << 24) | ((b as bv32) << 16) | ((c as bv32) << 8) | (d as bv32)
  }

  /** Dynamic truncation (section 5.3 of RFC 4226): the word read always lies inside the digest. */
  function Truncated(digest: Digest): nat {
    var offset := LowNibble(digest[19]);
    var word := Word(digest[offset], digest[offset + 1], digest[offset + 2], digest[offset + 3]);
    (word & 0x7fff_ffff) as nat
  }

  /** The offset is the low nibble of the last byte; the four bytes from there on make the word, the first highest. */
  lemma TruncatedExactly(digest: Digest)
    ensures LowNibble(digest[19]) == (digest[19] % 16) as nat
    ensures
      var i := LowNibble(digest[19]);
      var word := Word(digest[i], digest[i + 1], digest[i + 2], digest[i + 3]);
      && Truncated(digest) == (word % 0x8000_0000) as nat
      && word / 0x100_0000 == digest[i] && word / 0x1_0000 % 0x100 == digest[i + 1]
      && word / 0x100 % 0x100 == digest[i + 2] && word % 0x100 == digest[i + 3]
  {
  }

  function PadStart(text: string, width: nat, c: char): string {
    if |text| >= width then text else seq(width - |text|, _ => c) + text
  }

  function CodeAt(hmac: Hmac, key: seq<Byte>, step: nat): string {
    PadStart(Decimal(Truncated(hmac(key, step)) % 1_000_000), 6, '0')
  }

  predicate IsCode(text: string) {
    |text| == 6 && forall i :: 0 <= i < 6 ==> '0' <= text[i] <= '9'
  }

  ghost predicate SixDigits(code: string) {
    |code| == 6 && forall i :: 0 <= i < 6 ==> code[i] in "0123456789"
  }

  lemma SixDigitsExactly(text: string)
    ensures IsCode(text) <==> SixDigits(text)
  {
    if |text| == 6 {
      forall i | 0 <= i < 6 ensures '0' <= text[i] <= '9' <==> text[i] in "0123456789" { DigitRange(text[i]); }
    }
  }

  ghost function NumberOf(text: string): int {
    if text == "" then 0 else 10 * NumberOf(text[..|text| - 1]) + (text[|text| - 1] as int - '0' as int)
  }

  ghost function PowerOfTen(n: nat): nat {
    if n == 0 then 1 else 10 * PowerOfTen(n - 1)
  }

  lemma {:induction false} DecimalReadsBack(n: nat, width: nat)
    requires 0 < width && n < PowerOfTen(width)
    ensures |Decimal(n)| <= width && NumberOf(Decimal(n)) == n
    ensures forall i :: 0 <= i < |Decimal(n)| ==> '0' <= Decimal(n)[i] <= '9'
    decreases width
  {
    if n >= 10 {
      DecimalReadsBack(n / 10, width - 1);
      assert Decimal(n)[..|Decimal(n)| - 1] == Decimal(n / 10);
    } else {
      assert Decimal(n)[..0] == "";
    }
  }

  lemma {:induction false} ZerosDoNotCount(zeros: string, text: string)
    requires forall i :: 0 <= i < |zeros| ==> zeros[i] == '0'
    ensures NumberOf(zeros + text) == NumberOf(text)
    decreases |zeros| + |text|
  {
    if text != "" {
      ZerosDoNotCount(zeros, text[..|text| - 1]);
      assert (zeros + text)[..|zeros + text| - 1] == zeros + text[..|text| - 1];
    } else if zeros != "" {
      ZerosDoNotCount(zeros[..|zeros| - 1], "");
      assert zeros[..|zeros| - 1] + "" == zeros[..|zeros| - 1] && zeros + "" == zeros;
    }
  }

  /** Every code is six digits and denotes the truncated digest modulo one million. */
  lemma CodeDenotesTruncatedDigest(hmac: Hmac, key: seq<Byte>, step: nat)
    ensures SixDigits(CodeAt(hmac, key, step))
    ensures NumberOf(CodeAt(hmac, key, step)) == Truncated(hmac(key, step)) % 1_000_000
  {
    var n := Truncated(hmac(key, step)) % 1_000_000;
    assert PowerOfTen(6) == 1_000_000 by {
      assert PowerOfTen(2) == 100 && PowerOfTen(4) == 10_000;
    }
    DecimalReadsBack(n, 6);
    var text := Decimal(n);
    ZerosDoNotCount(seq(6 - |text|, _ => '0'), text);
    SixDigitsExactly(CodeAt(hmac, key, step));
    if |text| == 6 {
      assert seq(0, _ => '0') + text == text;
    }
  }

  /** A step that `code` is accepted for at `now`: in the window, matching, and not used before. */
  ghost predicate Acceptable(codes: nat -> string, code: string, lastStep: int, now: nat, step: int) {
    && 0 <= step && now / 30_000 - 1 <= step <= now / 30_000 + 1
    && codes(step) == code && lastStep < step
  }

  datatype Guess = Guess(code: string, now: nat)

  /** The latest acceptable step, if there is one. */
  function AcceptedStep(codes: nat -> string, guess: Guess, lastStep: int): (step: Option<nat>)
    ensures step.Some? ==> Acceptable(codes, guess.code, lastStep, guess.now, step.value)
    ensures forall s: nat :: Acceptable(codes, guess.code, lastStep, guess.now, s) ==> step.Some? && s <= step.value
  {
    var current := guess.now / TOTP_PERIOD_MS;
    if codes(current + 1) == guess.code && lastStep < current + 1 then Some(current + 1)
    else if codes(current) == guess.code && lastStep < current then Some(current)
    else if current > 0 && codes(current - 1) == guess.code && lastStep < current - 1 then Some(current - 1)
    else None
  }

  /** The loop over the three steps of the window. */
  method LatestMatch(codes: nat -> string, code: string, lastStep: int, now: nat) returns (matched: Option<nat>)
    ensures matched == AcceptedStep(codes, Guess(code, now), lastStep)
  {
    var current := now / TOTP_PERIOD_MS;
    var window := [current - 1, current, current + 1];
    matched := None;
    for i := 0 to 3
      invariant matched.Some? ==>
        Acceptable(codes, code, lastStep, now, matched.value) && matched.value < current - 1 + i
      invariant forall s: nat :: Acceptable(codes, code, lastStep, now, s) && s < current - 1 + i ==>
        matched.Some? && s <= matched.value
    {
      var step := window[i];
      if step < 0 { continue; }
      var equal := codes(step) == code;
      if equal && step > lastStep { matched := Some(step); }
    }
  }

  function CodesOf(hmac: Hmac, key: seq<Byte>): nat -> string {
    (step: nat) => CodeAt(hmac, key, step)
  }

  /**
   verifyTotpStep: an error for a secret that does not decode; otherwise the latest acceptable step, or None
   when the code is malformed, the time is negative or no step is acceptable.
   */
  method VerifyTotpStep(hmac: Hmac, secret: string, code: string, lastStep: int, now: int)
    returns (step: Result<Option<nat>, ()>)
    ensures !SixDigits(code) || now < 0 ==> step == Ok(None)
    ensures SixDigits(code) && now >= 0 ==> (step.Ok? <==> |secret| == 32 && IsBase32(secret))
    ensures SixDigits(code) && now >= 0 && step.Ok? ==>
      exists key: seq<Byte> :: |key| == 20 && ByteStream(key) == SymbolStream(secret)
                               && step.value == AcceptedStep(CodesOf(hmac, key), Guess(code, now), lastStep)
  {
    SixDigitsExactly(code);
    if !IsCode(code) || now < 0 { return Ok(None); }
    var key := DecodeSecret(secret);
    if key.None? { return Err(()); }
    var matched := LatestMatch(CodesOf(hmac, key.value), code, lastStep, now);
    step := Ok(matched);
  }

  // ---------------------------------------------------------------- acceptances between enrolment and removal

  /** The steps accepted by a run of guesses, each acceptance stored as the new totpLastStep. */
  function AcceptedSteps(codes: nat -> string, guesses: seq<Guess>, lastStep: int): seq<nat>
    decreases |guesses|
  {
    if guesses == [] then [] else
    var accepted := AcceptedStep(codes, guesses[0], lastStep);
    if accepted.None? then AcceptedSteps(codes, guesses[1..], lastStep)
    else [accepted.value] + AcceptedSteps(codes, guesses[1..], accepted.value)
  }

  /**
   Whatever the guesses and clocks, accepted steps strictly increase, so no step is accepted twice (section 5.2 of RFC
   6238).
   */
  lemma {:induction false} AcceptedStepsIncrease(codes: nat -> string, guesses: seq<Guess>, lastStep: int)
    ensures forall i :: 0 <= i < |AcceptedSteps(codes, guesses, lastStep)| ==>
      lastStep < AcceptedSteps(codes, guesses, lastStep)[i]
    ensures forall i, j :: 0 <= i < j < |AcceptedSteps(codes, guesses, lastStep)| ==>
      AcceptedSteps(codes, guesses, lastStep)[i] < AcceptedSteps(codes, guesses, lastStep)[j]
    decreases |guesses|
  {
    if guesses != [] {
      var accepted := AcceptedStep(codes, guesses[0], lastStep);
      AcceptedStepsIncrease(codes, guesses[1..], if accepted.None? then lastStep else accepted.value);
    }
  }

  /** Up to time t, at most floor(t / 30000) + 1 minus the enrolment step codes are accepted. */
  lemma {:induction false} AcceptancesAreBounded(codes: nat -> string, guesses: seq<Guess>, lastStep: int, t: nat)
    requires forall i :: 0 <= i < |guesses| ==> guesses[i].now <= t
    requires lastStep <= t / 30_000 + 1
    ensures |AcceptedSteps(codes, guesses, lastStep)| <= t / 30_000 + 1 - lastStep
    decreases |guesses|
  {
    if guesses != [] {
      var accepted := AcceptedStep(codes, guesses[0], lastStep);
      assert guesses[0].now / TOTP_PERIOD_MS <= t / TOTP_PERIOD_MS;
      AcceptancesAreBounded(codes, guesses[1..], if accepted.None? then lastStep else accepted.value, t);
    }
  }
}
