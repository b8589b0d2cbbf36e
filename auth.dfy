/**
 * The pure helpers of the site's authentication library: the hex step of
 * password hashing, the constant-time comparison, request headers and the
 * client address used as rate-limit key. The `Set-Cookie` builder and the
 * `Cookie` header lookup are module Cookies; the rate limiter, which keeps
 * state, is module RateLimit.
 */
module Auth {
  import opened Wrappers
  import opened Strings

  /** Name of the session cookie. */
  const CookieName: string := "site_auth"
  /** Session lifetime in seconds: thirty days. */
  const CookieMaxAge: nat := 60 * 60 * 24 * 30

  newtype byte = b: int | 0 <= b < 256

  /** A SHA-256 digest: 32 bytes (FIPS 180-4). */
  type Digest = d: seq<byte> | |d| == 32 witness seq(32, _ => 0 as byte)

  /**
   * UTF-8 encoding followed by the platform's SHA-256 of the result. The digest is
   * computed by the runtime, so it enters the model as a parameter of this type;
   * `None` stands for a rejected digest promise.
   */
  type Sha256 = string -> Option<Digest>

  // ---------------------------------------------------------------------------
  // Hex step of hashPassword: b.toString(16).padStart(2, '0'), joined

  predicate IsLowerHex(c: char) {
    '0' <= c <= '9' || 'a' <= c <= 'f'
  }

  function HexDigit(n: nat): (c: char)
    requires n < 16
    ensures IsLowerHex(c)
  {
    if n < 10 then ('0' as int + n) as char else ('a' as int + n - 10) as char
  }

  function HexValue(c: char): (n: nat)
    requires IsLowerHex(c)
    ensures n < 16 && HexDigit(n) == c
  {
    if c <= '9' then c as int - '0' as int else c as int - 'a' as int + 10
  }

  /** `n.toString(16)`: lowercase base-16 digits without leading zeros. */
  function ToBase16(n: nat): (s: string)
    ensures |s| >= 1 && forall i :: 0 <= i < |s| ==> IsLowerHex(s[i])
  {
    if n < 16 then [HexDigit(n)] else ToBase16(n / 16) + [HexDigit(n % 16)]
  }

  /** The number a text of lowercase hex digits denotes, most significant digit first. */
  function HexNumber(s: string): nat
    requires forall i :: 0 <= i < |s| ==> IsLowerHex(s[i])
  {
    if s == [] then 0 else 16 * HexNumber(s[..|s| - 1]) + HexValue(s[|s| - 1])
  }

  /** `n.toString(16)` denotes `n`, and has no leading zero unless it is `0` itself. */
  lemma {:induction false} ToBase16Value(n: nat)
    ensures HexNumber(ToBase16(n)) == n
    ensures |ToBase16(n)| > 1 ==> ToBase16(n)[0] != '0'
  {
    var s := ToBase16(n);
    if n >= 16 {
      ToBase16Value(n / 16);
      assert s[..|s| - 1] == ToBase16(n / 16);
    }
  }

  /** `s.padStart(width, fill)` for a one-character fill string. */
  function PadStart(s: string, width: nat, fill: char): (r: string)
    ensures |r| == if |s| < width then width else |s|
  {
    if |s| < width then seq(width - |s|, _ => fill) + s else s
  }

  /** Padding keeps the input as the suffix, behind nothing but `fill` characters. */
  lemma PadStartContents(s: string, width: nat, fill: char)
    ensures var r := PadStart(s, width, fill);
      && r[|r| - |s|..] == s
      && forall i :: 0 <= i < |r| - |s| ==> r[i] == fill
  {
  }

  /** One byte as hex: two lowercase digits, high nibble first, zero-padded. */
  function ByteToHex(b: byte): (h: string)
    ensures |h| == 2 && IsLowerHex(h[0]) && IsLowerHex(h[1])
    ensures HexValue(h[0]) * 16 + HexValue(h[1]) == b as int
  {
    var digits := ToBase16(b as nat);
    assert b < 16 ==> digits == [HexDigit(b as nat)];
    assert b >= 16 ==> ToBase16(b as nat / 16) == [HexDigit(b as nat / 16)];
    PadStart(digits, 2, '0')
  }

  /** The digest bytes as one lowercase hex string, two characters per byte. */
  function HexEncode(bytes: seq<byte>): (s: string)
    ensures |s| == 2 * |bytes|
    ensures forall i :: 0 <= i < |s| ==> IsLowerHex(s[i])
  {
    if bytes == [] then "" else ByteToHex(bytes[0]) + HexEncode(bytes[1..])
  }

  /** Reads lowercase hex text back into bytes; `None` for odd length or a non-hex character. */
  function HexDecode(s: string): Option<seq<byte>>
    decreases |s|
  {
    if s == [] then Some([])
    else if |s| < 2 || !IsLowerHex(s[0]) || !IsLowerHex(s[1]) then None
    else
      match HexDecode(s[2..])
      case None => None
      case Some(rest) => Some([(HexValue(s[0]) * 16 + HexValue(s[1])) as byte] + rest)
  }

  /** Decoding undoes the hex step. */
  lemma {:induction false} HexRoundTrip(bytes: seq<byte>)
    ensures HexDecode(HexEncode(bytes)) == Some(bytes)
  {
    if bytes != [] {
      var s := HexEncode(bytes);
      HexRoundTrip(bytes[1..]);
      assert s[2..] == HexEncode(bytes[1..]);
      assert s[..2] == ByteToHex(bytes[0]);
      assert [bytes[0]] + bytes[1..] == bytes;
    }
  }

  /** Distinct digests give distinct hex strings. */
  lemma HexInjective(x: seq<byte>, y: seq<byte>)
    ensures HexEncode(x) == HexEncode(y) <==> x == y
  {
    HexRoundTrip(x);
    HexRoundTrip(y);
  }

  /** Hex text holds no character outside the sixteen digits, such as a separator. */
  lemma HexLacks(bytes: seq<byte>, c: char)
    requires !IsLowerHex(c)
    ensures Lacks(HexEncode(bytes), c)
  {
  }

  /** `hashPassword`: the hex text of the SHA-256 digest of the password. */
  function HashPassword(sha: Sha256, password: string): (h: Option<string>)
    ensures h.None? <==> sha(password).None?
    ensures h.Some? ==> |h.value| == 64 && forall i :: 0 <= i < 64 ==> IsLowerHex(h.value[i])
    ensures h.Some? ==> HexDecode(h.value) == Some(sha(password).value)
  {
    match sha(password)
    case None => None
    case Some(d) => HexRoundTrip(d); Some(HexEncode(d))
  }

  // ---------------------------------------------------------------------------
  // constantTimeEquals

  /** `charCodeAt`: the code of a character. */
  function Code(c: char): nat {
    c as int
  }

  /** The `^` operator on non-negative operands, bit by bit. */
  function BitXor(x: nat, y: nat): nat
    decreases x + y
  {
    if x == 0 && y == 0 then 0 else 2 * BitXor(x / 2, y / 2) + (x % 2 + y % 2) % 2
  }

  /** The `|` operator on non-negative operands, bit by bit. */
  function BitOr(x: nat, y: nat): nat
    decreases x + y
  {
    if x == 0 && y == 0 then 0
    else 2 * BitOr(x / 2, y / 2) + (if x % 2 == 1 || y % 2 == 1 then 1 else 0)
  }

  lemma {:induction false} BitXorZero(x: nat, y: nat)
    ensures BitXor(x, y) == 0 <==> x == y
    decreases x + y
  {
    if !(x == 0 && y == 0) {
      BitXorZero(x / 2, y / 2);
    }
  }

  lemma {:induction false} BitOrZero(x: nat, y: nat)
    ensures BitOr(x, y) == 0 <==> x == 0 && y == 0
    decreases x + y
  {
    if !(x == 0 && y == 0) {
      BitOrZero(x / 2, y / 2);
    }
  }

  /** The accumulator after the first `n` rounds of `result |= a.charCodeAt(i) ^ b.charCodeAt(i)`. */
  function OrOfXor(a: string, b: string, n: nat): nat
    requires n <= |a| && n <= |b|
  {
    if n == 0 then 0 else BitOr(OrOfXor(a, b, n - 1), BitXor(Code(a[n - 1]), Code(b[n - 1])))
  }

  /** What `constantTimeEquals` computes: unequal lengths fail, otherwise the accumulator must stay 0. */
  function ConstantTimeEq(a: string, b: string): bool {
    |a| == |b| && OrOfXor(a, b, |a|) == 0
  }

  /** The accumulator stays zero exactly while the prefixes agree. */
  lemma {:induction false} OrOfXorZero(a: string, b: string, n: nat)
    requires n <= |a| && n <= |b|
    ensures OrOfXor(a, b, n) == 0 <==> a[..n] == b[..n]
  {
    if n > 0 {
      OrOfXorZero(a, b, n - 1);
      BitOrZero(OrOfXor(a, b, n - 1), BitXor(Code(a[n - 1]), Code(b[n - 1])));
      BitXorZero(Code(a[n - 1]), Code(b[n - 1]));
      assert a[..n] == a[..n - 1] + [a[n - 1]];
      assert b[..n] == b[..n - 1] + [b[n - 1]];
      if a[..n] == b[..n] {
        assert a[..n - 1] == a[..n][..n - 1] && b[..n - 1] == b[..n][..n - 1];
        assert a[n - 1] == a[..n][n - 1] && b[n - 1] == b[..n][n - 1];
      }
    }
  }

  /** The comparison is string equality; hence also symmetric and reflexive. */
  lemma ConstantTimeEqIsEquality(a: string, b: string)
    ensures ConstantTimeEq(a, b) <==> a == b
    ensures ConstantTimeEq(a, b) == ConstantTimeEq(b, a)
    ensures ConstantTimeEq(a, a)
    ensures |a| != |b| ==> !ConstantTimeEq(a, b)
  {
    if |a| == |b| {
      OrOfXorZero(a, b, |a|);
      OrOfXorZero(b, a, |a|);
      assert a[..|a|] == a && b[..|b|] == b;
    }
    OrOfXorZero(a, a, |a|);
  }

  /** `constantTimeEquals`: every character pair is folded into the accumulator, none is skipped. */
  method ConstantTimeEquals(a: string, b: string) returns (equal: bool)
    ensures equal == ConstantTimeEq(a, b)
    ensures equal <==> a == b
  {
    ConstantTimeEqIsEquality(a, b);
    if |a| != |b| {
      return false;
    }
    var result: nat := 0;
    for i := 0 to |a|
      invariant result == OrOfXor(a, b, i)
    {
      result := BitOr(result, BitXor(Code(a[i]), Code(b[i])));
    }
    equal := result == 0;
  }

  // ---------------------------------------------------------------------------
  // Request headers

  /** Request headers by lower-case name; `Headers.get` of an absent name is `None`. */
  type Headers = map<string, string>

  function Header(h: Headers, name: string): (v: Option<string>)
    ensures v.Some? <==> name in h
    ensures v.Some? ==> v.value == h[name]
  {
    if name in h then Some(h[name]) else None
  }

  /** JavaScript truthiness of an optional string: present and not empty. */
  predicate Truthy(v: Option<string>) {
    v.Some? && v.value != ""
  }

  /** `getClientIP`: `cf-connecting-ip || x-real-ip || x-forwarded-for.split(',')[0] || 'unknown'`. */
  function ClientIP(h: Headers): (ip: string)
    ensures ip != ""
    ensures Truthy(Header(h, "cf-connecting-ip")) ==> ip == h["cf-connecting-ip"]
    ensures !Truthy(Header(h, "cf-connecting-ip")) && Truthy(Header(h, "x-real-ip")) ==> ip == h["x-real-ip"]
    ensures !Truthy(Header(h, "cf-connecting-ip")) && !Truthy(Header(h, "x-real-ip")) ==>
      var fwd := Header(h, "x-forwarded-for");
      if fwd.Some? && fwd.value != "" && fwd.value[0] != ',' then
        && StartsWith(fwd.value, ip) && Lacks(ip, ',')
        && (|ip| == |fwd.value| || fwd.value[|ip|] == ',')
      else ip == "unknown"
  {
    var forwarded := Header(h, "x-forwarded-for");
    var realIP := Header(h, "x-real-ip");
    var cfConnectingIP := Header(h, "cf-connecting-ip");
    var firstForwarded := if forwarded.Some? then SplitPieces(forwarded.value, ','); Some(Split(forwarded.value, ',')[0]) else None;
    if Truthy(cfConnectingIP) then cfConnectingIP.value
    else if Truthy(realIP) then realIP.value
    else if Truthy(firstForwarded) then firstForwarded.value
    else "unknown"
  }
}
