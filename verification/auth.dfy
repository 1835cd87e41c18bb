/**
 * Header assembly for the authenticated websocket handshake
 * (`KalshiSigner::get_auth_headers` in `src/ingestor/auth.rs`): the
 * millisecond timestamp rendered in decimal, the challenge `timestamp +
 * "GET/trade-api/ws/v2"`, and the triple (key id, base64 signature,
 * timestamp).
 *
 * The clock reading is a parameter. The randomized RSA-PSS signature is an
 * uninterpreted function of the challenge's bytes; the random salt is folded
 * into that function.
 */
module Auth {
  import opened Wrappers
  import opened Messages
  import Base64

  const SIGNED_PATH: string := "GET/trade-api/ws/v2"

  // ---------------------------------------------------------------------
  // Decimal rendering (`to_string` of an unsigned integer) and its inverse,
  // `str::parse::<u64>`.
  // ---------------------------------------------------------------------

  predicate IsDecimalDigit(c: char)
  {
    '0' <= c <= '9'
  }

  function DigitChar(d: nat): (c: char)
    requires d < 10
    ensures IsDecimalDigit(c)
  {
    ('0' as int + d) as char
  }

  /** The decimal rendering of `n`: most significant digit first, no leading zeros. */
  function Decimal(n: nat): (s: string)
    decreases n
    ensures s != []
    ensures forall i :: 0 <= i < |s| ==> IsDecimalDigit(s[i])
    ensures |s| > 1 ==> s[0] != '0'
  {
    if n < 10 then [DigitChar(n)] else Decimal(n / 10) + [DigitChar(n % 10)]
  }

  /** The number a string of decimal digits denotes. */
  function DigitsValue(ds: string): nat
    requires forall i :: 0 <= i < |ds| ==> IsDecimalDigit(ds[i])
    decreases |ds|
  {
    if ds == [] then 0
    else
      var d := ds[|ds| - 1];
      assert IsDecimalDigit(d);
      DigitsValue(ds[..|ds| - 1]) * 10 + (d as int - '0' as int)
  }

  /**
   * `str::parse::<u64>`: an optional `+`, then at least one decimal digit and
   * nothing else, denoting a value below 2^64.
   */
  function ParseU64(s: string): (r: Option<U64>)
    ensures r.Some? ==> s != [] && (s[0] == '+' || IsDecimalDigit(s[0]))
  {
    var ds := if s != [] && s[0] == '+' then s[1..] else s;
    if ds == [] || exists i :: 0 <= i < |ds| && !IsDecimalDigit(ds[i]) then None
    else
      var v := DigitsValue(ds);
      if v < U64_LIMIT then Some(v) else None
  }

  lemma {:induction false} DigitsValueOfDecimal(n: nat)
    ensures DigitsValue(Decimal(n)) == n
    decreases n
  {
    if n >= 10 {
      DigitsValueOfDecimal(n / 10);
      var s := Decimal(n);
      assert s[..|s| - 1] == Decimal(n / 10);
    }
  }

  /** The rendering parses back exactly when the number fits in a `u64`. */
  lemma ParseDecimal(n: nat)
    ensures ParseU64(Decimal(n)) == if n < U64_LIMIT then Some(n) else None
  {
    DigitsValueOfDecimal(n);
  }

  // ---------------------------------------------------------------------
  // The challenge and the headers.
  // ---------------------------------------------------------------------

  /** The text signed for a handshake made at timestamp `ts`. */
  function Challenge(ts: string): (msg: string)
    ensures |msg| == |ts| + |SIGNED_PATH|
  {
    ts + SIGNED_PATH
  }

  /** The UTF-8 bytes of a text all of whose characters are ASCII, as `as_bytes` gives them. */
  function AsciiBytes(s: string): (bs: seq<Base64.byte>)
    requires forall i :: 0 <= i < |s| ==> s[i] as int < 128
    ensures |bs| == |s|
    ensures forall i :: 0 <= i < |s| ==> bs[i] == s[i] as int
  {
    seq(|s|, i requires 0 <= i < |s| => s[i] as int)
  }

  lemma ChallengeIsAscii(ts: string)
    requires forall i :: 0 <= i < |ts| ==> IsDecimalDigit(ts[i])
    ensures forall i :: 0 <= i < |Challenge(ts)| ==> Challenge(ts)[i] as int < 128
  {
    var msg := Challenge(ts);
    forall i | 0 <= i < |msg|
      ensures msg[i] as int < 128
    {
      if i >= |ts| {
        assert msg[i] == SIGNED_PATH[i - |ts|];
      }
    }
  }

  /** The bytes signed for a handshake made at timestamp `ts`. */
  function ChallengeBytes(ts: string): (bs: seq<Base64.byte>)
    requires forall i :: 0 <= i < |ts| ==> IsDecimalDigit(ts[i])
    ensures |bs| == |ts| + |SIGNED_PATH|
  {
    ChallengeIsAscii(ts);
    AsciiBytes(Challenge(ts))
  }

  /** The header triple: key id, base64 signature, timestamp. */
  datatype Headers = Headers(keyId: string, signature: string, timestamp: string)

  /**
   * The headers for a handshake at `nowMillis` milliseconds since the Unix
   * epoch, signing with `sign`.
   */
  function AuthHeaders(keyId: string, nowMillis: nat, sign: seq<Base64.byte> -> seq<Base64.byte>): (h: Headers)
    ensures h.keyId == keyId
    // the timestamp header is the decimal clock reading, which parses back whenever it fits in a u64
    ensures forall i :: 0 <= i < |h.timestamp| ==> IsDecimalDigit(h.timestamp[i])
    ensures nowMillis < U64_LIMIT ==> ParseU64(h.timestamp) == Some(nowMillis)
    // the signature header decodes to the signature over the timestamp header followed by the path
    ensures Base64.Decode(h.signature) == Some(sign(ChallengeBytes(h.timestamp)))
  {
    var ts := Decimal(nowMillis);
    ParseDecimal(nowMillis);
    var sig := sign(ChallengeBytes(ts));
    Base64.DecodeEncode(sig);
    Headers(keyId, Base64.Encode(sig), ts)
  }

  /** The signature header's length is 4·⌈n/3⌉ for an n-byte signature, so it is non-empty. */
  lemma SignatureHeaderLength(keyId: string, nowMillis: nat, sign: seq<Base64.byte> -> seq<Base64.byte>)
    ensures var h := AuthHeaders(keyId, nowMillis, sign);
      var sig := sign(ChallengeBytes(h.timestamp));
      && |h.signature| == 4 * ((|sig| + 2) / 3)
      && (sig != [] ==> h.signature != [])
  {
    Base64.EncodeLength(sign(ChallengeBytes(Decimal(nowMillis))));
  }

  /** Two handshakes sign the same text only if they happen at the same millisecond. */
  lemma ChallengeInjective(n1: nat, n2: nat)
    requires Challenge(Decimal(n1)) == Challenge(Decimal(n2))
    ensures n1 == n2
  {
    var t1, t2 := Decimal(n1), Decimal(n2);
    assert t1 == Challenge(t1)[..|t1|];
    assert t2 == Challenge(t2)[..|t2|];
    DigitsValueOfDecimal(n1);
    DigitsValueOfDecimal(n2);
  }
}
