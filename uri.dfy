/**
  encodeURIComponent and decodeURIComponent of ECMA-262 (section 19.2.6,
  "URI Handling Functions"). Every scalar value outside the unreserved set
  becomes the %XY escapes of its UTF-8 octets (section 2.1 of RFC 3986);
  the unreserved set is that of section 2.3 of RFC 3986 plus ! * ' ( ).
 */
module Uri {
  import opened JsString

  type Byte = b: int | 0 <= b < 0x100

  /** uriUnreserved: ASCII letters, decimal digits and - _ . ! ~ * ' ( ). */
  predicate IsUnreserved(c: char) {
    || 'A' <= c <= 'Z' || 'a' <= c <= 'z' || '0' <= c <= '9'
    || c == '-' || c == '_' || c == '.' || c == '!' || c == '~'
    || c == '*' || c == '\'' || c == '(' || c == ')'
  }

  predicate IsHexDigit(c: char) {
    '0' <= c <= '9' || 'A' <= c <= 'F' || 'a' <= c <= 'f'
  }

  /** The upper-case hexadecimal digit the encoder writes for `n`. */
  function HexDigit(n: int): char
    requires 0 <= n < 16
  {
    if n < 10 then ('0' as int + n) as char else ('A' as int + n - 10) as char
  }

  function HexValue(c: char): int
    requires IsHexDigit(c)
  {
    if '0' <= c <= '9' then c as int - '0' as int
    else if 'A' <= c <= 'F' then c as int - 'A' as int + 10
    else c as int - 'a' as int + 10
  }

  /** The UTF-8 octets of a scalar value. */
  function Utf8(c: Scalar): seq<Byte> {
    if c < 0x80 then [c]
    else if c < 0x800 then [0xC0 + c / 0x40, 0x80 + c % 0x40]
    else if c < 0x1_0000 then [0xE0 + c / 0x1000, 0x80 + (c / 0x40) % 0x40, 0x80 + c % 0x40]
    else [0xF0 + c / 0x4_0000, 0x80 + (c / 0x1000) % 0x40, 0x80 + (c / 0x40) % 0x40, 0x80 + c % 0x40]
  }

  /** `%XY` for one octet. */
  function Escape(b: Byte): string {
    ['%', HexDigit(b / 16), HexDigit(b % 16)]
  }

  function EscapeAll(bs: seq<Byte>): (t: string)
    ensures |t| == 3 * |bs|
  {
    if bs == [] then [] else Escape(bs[0]) + EscapeAll(bs[1..])
  }

  /** One scalar value: itself when unreserved, else its escaped UTF-8 octets. */
  function EncodeScalar(c: Scalar): string {
    if IsUnreserved(c as char) then [c as char] else EscapeAll(Utf8(c))
  }

  function EncodeScalars(cs: seq<Scalar>): string {
    if cs == [] then [] else EncodeScalar(cs[0]) + EncodeScalars(cs[1..])
  }

  /** encodeURIComponent: a URIError exactly when the string has an unpaired surrogate. */
  function EncodeURIComponent(s: JSString): (r: Result<string>)
    ensures r.Ok? <==> WellFormed(s)
  {
    match Decode16(s)
    case Ok(cs) => Ok(EncodeScalars(cs))
    case URIError => URIError
  }

  /**
    The shape of an encoder output: unreserved characters and `%XY` escapes
    with upper-case hexadecimal digits, nothing else.
   */
  predicate IsEscaped(t: string)
    decreases |t|
  {
    || t == []
    || (IsUnreserved(t[0]) && IsEscaped(t[1..]))
    || (|t| >= 3 && t[0] == '%' && IsUpperHex(t[1]) && IsUpperHex(t[2]) && IsEscaped(t[3..]))
  }

  predicate IsUpperHex(c: char) {
    '0' <= c <= '9' || 'A' <= c <= 'F'
  }

  // ---------------------------------------------------------------------
  // Decoding

  /** The octet written `%XY` at index `i` of `t`, or a URIError. */
  function OctetAt(t: string, i: nat): Result<Byte> {
    if i + 3 <= |t| && t[i] == '%' && IsHexDigit(t[i + 1]) && IsHexDigit(t[i + 2])
    then Ok(16 * HexValue(t[i + 1]) + HexValue(t[i + 2]))
    else URIError
  }

  /** The number of leading one bits of an octet. */
  function LeadingOnes(b: Byte): nat {
    if b < 0x80 then 0
    else if b < 0xC0 then 1
    else if b < 0xE0 then 2
    else if b < 0xF0 then 3
    else if b < 0xF8 then 4
    else if b < 0xFC then 5
    else if b < 0xFE then 6
    else if b < 0xFF then 7
    else 8
  }

  /** The octets of the first `n` escapes of `t`. */
  function OctetsAt(t: string, n: nat): (r: Result<seq<Byte>>)
    ensures r.Ok? ==> |r.value| == n && forall j :: 0 <= j < n ==> OctetAt(t, 3 * j) == Ok(r.value[j])
  {
    if n == 0 then Ok([])
    else
      match OctetsAt(t, n - 1)
      case URIError => URIError
      case Ok(bs) =>
        match OctetAt(t, 3 * (n - 1))
        case URIError => URIError
        case Ok(b) => Ok(bs + [b])
  }

  predicate IsContinuation(b: Byte) {
    0x80 <= b < 0xC0
  }

  /**
    The scalar value of a multi-octet UTF-8 sequence whose lead octet
    announces its length; a URIError when the octets are not a valid UTF-8
    encoding (a bad continuation octet, an overlong form, a surrogate, or a
    value above U+10FFFF).
   */
  function Utf8Decode(bs: seq<Byte>): Result<Scalar>
    requires 2 <= |bs| <= 4 && LeadingOnes(bs[0]) == |bs|
  {
    if exists j :: 1 <= j < |bs| && !IsContinuation(bs[j]) then URIError
    else
      var w := seq(|bs|, j requires 0 <= j < |bs| => bs[j] as int);
      var v: int :=
        if |bs| == 2 then (w[0] - 0xC0) * 0x40 + (w[1] - 0x80)
        else if |bs| == 3 then (w[0] - 0xE0) * 0x1000 + (w[1] - 0x80) * 0x40 + (w[2] - 0x80)
        else (w[0] - 0xF0) * 0x4_0000 + (w[1] - 0x80) * 0x1000 + (w[2] - 0x80) * 0x40 + (w[3] - 0x80);
      var least: int := if |bs| == 2 then 0x80 else if |bs| == 3 then 0x800 else 0x1_0000;
      if v < least || 0x11_0000 <= v || 0xD800 <= v < 0xE000 then URIError else Ok(v)
  }

  /** The first scalar value of `t` and the number of characters it takes. */
  function DecodeOne(t: string): (r: Result<(Scalar, nat)>)
    requires t != []
    ensures r.Ok? ==> 1 <= r.value.1 <= |t|
  {
    if t[0] != '%' then Ok((t[0] as int, 1))
    else
      match OctetAt(t, 0)
      case URIError => URIError
      case Ok(b) =>
        var n := LeadingOnes(b);
        if n == 0 then Ok((b, 3))
        else if n == 1 || n > 4 then URIError
        else if |t| < 3 * n then URIError
        else
          match OctetsAt(t, n)
          case URIError => URIError
          case Ok(bs) =>
            match Utf8Decode(bs)
            case URIError => URIError
            case Ok(c) => Ok((c, 3 * n))
  }

  function DecodeScalars(t: string): Result<seq<Scalar>>
    decreases |t|
  {
    if t == [] then Ok([])
    else
      match DecodeOne(t)
      case URIError => URIError
      case Ok((c, k)) => Prepend(c, DecodeScalars(t[k..]))
  }

  /** decodeURIComponent: escapes back to octets, octets back to UTF-16. */
  function DecodeURIComponent(t: string): Result<JSString> {
    match DecodeScalars(t)
    case Ok(cs) => Ok(Encode16(cs))
    case URIError => URIError
  }

  // ---------------------------------------------------------------------
  // Round trip

  lemma HexDigitValue(n: int)
    requires 0 <= n < 16
    ensures IsHexDigit(HexDigit(n)) && IsUpperHex(HexDigit(n)) && HexValue(HexDigit(n)) == n
  {
  }

  /** The escape of octet `j` sits at index 3j of the escaped octets. */
  lemma {:induction false} EscapeAllAt(bs: seq<Byte>, rest: string, j: nat)
    requires j < |bs|
    ensures OctetAt(EscapeAll(bs) + rest, 3 * j) == Ok(bs[j])
  {
    var t := EscapeAll(bs) + rest;
    if j == 0 {
      HexDigitValue(bs[0] / 16);
      HexDigitValue(bs[0] % 16);
      assert t[..3] == Escape(bs[0]);
    } else {
      EscapeAllAt(bs[1..], rest, j - 1);
      assert t[3..] == EscapeAll(bs[1..]) + rest;
      assert forall i :: 0 <= i < |t| - 3 ==> t[3 + i] == t[3..][i];
    }
  }

  /** Reading back the escapes of a run of octets gives the octets, whatever follows them. */
  lemma OctetsOfEscaped(bs: seq<Byte>, rest: string)
    ensures OctetsAt(EscapeAll(bs) + rest, |bs|) == Ok(bs)
  {
    var t := EscapeAll(bs) + rest;
    var n := |bs|;
    forall j | 0 <= j < n ensures OctetAt(t, 3 * j) == Ok(bs[j]) {
      EscapeAllAt(bs, rest, j);
    }
    OctetsPrefix(t, bs, n);
    assert bs[..n] == bs;
  }

  lemma {:induction false} OctetsPrefix(t: string, bs: seq<Byte>, k: nat)
    requires k <= |bs|
    requires forall j :: 0 <= j < |bs| ==> OctetAt(t, 3 * j) == Ok(bs[j])
    ensures OctetsAt(t, k) == Ok(bs[..k])
  {
    if k > 0 {
      OctetsPrefix(t, bs, k - 1);
      assert bs[..k] == bs[..k - 1] + [bs[k - 1]];
    }
  }

  /** The UTF-8 octets of `c` decode to `c`, and announce their count. */
  lemma Utf8RoundTrip(c: Scalar)
    ensures 1 <= |Utf8(c)| <= 4
    ensures |Utf8(c)| == 1 <==> c < 0x80
    ensures |Utf8(c)| == 1 ==> Utf8(c)[0] == c
    ensures |Utf8(c)| >= 2 ==> LeadingOnes(Utf8(c)[0]) == |Utf8(c)| && Utf8Decode(Utf8(c)) == Ok(c)
  {
    if c < 0x80 {
    } else if c < 0x800 {
      Utf8TwoOctets(c);
    } else if c < 0x1_0000 {
      Utf8ThreeOctets(c);
    } else {
      Utf8FourOctets(c);
    }
  }

  lemma Utf8TwoOctets(c: Scalar)
    requires 0x80 <= c < 0x800
    ensures |Utf8(c)| == 2 && LeadingOnes(Utf8(c)[0]) == 2 && Utf8Decode(Utf8(c)) == Ok(c)
  {
    var bs := Utf8(c);
    assert IsContinuation(bs[1]);
    assert c == (c / 0x40) * 0x40 + c % 0x40;
  }

  lemma Utf8ThreeOctets(c: Scalar)
    requires 0x800 <= c < 0x1_0000
    ensures |Utf8(c)| == 3 && LeadingOnes(Utf8(c)[0]) == 3 && Utf8Decode(Utf8(c)) == Ok(c)
  {
    var bs := Utf8(c);
    assert IsContinuation(bs[1]) && IsContinuation(bs[2]);
    var q := c / 0x40;
    assert c == q * 0x40 + c % 0x40;
    assert q == (q / 0x40) * 0x40 + q % 0x40;
    assert q / 0x40 == c / 0x1000;
  }

  lemma Utf8FourOctets(c: Scalar)
    requires 0x1_0000 <= c
    ensures |Utf8(c)| == 4 && LeadingOnes(Utf8(c)[0]) == 4 && Utf8Decode(Utf8(c)) == Ok(c)
  {
    var bs := Utf8(c);
    assert IsContinuation(bs[1]) && IsContinuation(bs[2]) && IsContinuation(bs[3]);
    var q := c / 0x40;
    var p := q / 0x40;
    assert c == q * 0x40 + c % 0x40;
    assert q == p * 0x40 + q % 0x40;
    assert p == (p / 0x40) * 0x40 + p % 0x40;
    assert p == c / 0x1000;
    assert p / 0x40 == c / 0x4_0000;
  }

  /** Decoding the encoding of `c` followed by anything reads exactly `c`. */
  lemma DecodeOneEncoded(c: Scalar, rest: string)
    ensures EncodeScalar(c) != []
    ensures DecodeOne(EncodeScalar(c) + rest) == Ok((c, |EncodeScalar(c)|))
  {
    var t := EncodeScalar(c) + rest;
    if !IsUnreserved(c as char) {
      var bs := Utf8(c);
      Utf8RoundTrip(c);
      EscapeAllAt(bs, rest, 0);
      OctetsOfEscaped(bs, rest);
      assert t[0] == '%';
    }
  }

  /** Decoding the encoding of a sequence of scalar values returns them. */
  lemma {:induction false} DecodeEncodeScalars(cs: seq<Scalar>)
    ensures DecodeScalars(EncodeScalars(cs)) == Ok(cs)
  {
    if cs != [] {
      var e, rest := EncodeScalar(cs[0]), EncodeScalars(cs[1..]);
      var t := EncodeScalars(cs);
      assert t == e + rest;
      DecodeOneEncoded(cs[0], rest);
      assert t[|e|..] == rest;
      DecodeEncodeScalars(cs[1..]);
      assert cs == [cs[0]] + cs[1..];
    }
  }

  /** decodeURIComponent(encodeURIComponent(s)) == s whenever the encoding succeeds. */
  lemma EncodeDecodeRoundTrip(s: JSString)
    requires WellFormed(s)
    ensures DecodeURIComponent(EncodeURIComponent(s).value) == Ok(s)
  {
    DecodeEncodeScalars(Decode16(s).value);
    Encode16Decode16(s);
  }

  lemma EscapedStep(u: string, t: string)
    requires (|u| == 1 && IsUnreserved(u[0])) || (|u| == 3 && u[0] == '%' && IsUpperHex(u[1]) && IsUpperHex(u[2]))
    requires IsEscaped(t)
    ensures IsEscaped(u + t)
  {
    assert (u + t)[|u|..] == t;
  }

  lemma SplitConcat<T>(a: seq<T>, b: seq<T>, n: nat)
    requires n <= |a|
    ensures a + b == a[..n] + (a[n..] + b)
  {
  }

  lemma {:induction false} IsEscapedConcat(a: string, b: string)
    requires IsEscaped(a) && IsEscaped(b)
    ensures IsEscaped(a + b)
    decreases |a|
  {
    if a != [] {
      var n := if IsUnreserved(a[0]) && IsEscaped(a[1..]) then 1 else 3;
      IsEscapedConcat(a[n..], b);
      EscapedStep(a[..n], a[n..] + b);
      SplitConcat(a, b, n);
    } else {
      assert a + b == b;
    }
  }

  lemma {:induction false} EscapeAllIsEscaped(bs: seq<Byte>)
    ensures IsEscaped(EscapeAll(bs))
  {
    if bs != [] {
      HexDigitValue(bs[0] / 16);
      HexDigitValue(bs[0] % 16);
      EscapeAllIsEscaped(bs[1..]);
      assert Escape(bs[0])[3..] == [];
      IsEscapedConcat(Escape(bs[0]), EscapeAll(bs[1..]));
    }
  }

  /** The encoder writes only unreserved characters and `%XY` escapes. */
  lemma {:induction false} EncodeScalarsIsEscaped(cs: seq<Scalar>)
    ensures IsEscaped(EncodeScalars(cs))
  {
    if cs != [] {
      EncodeScalarsIsEscaped(cs[1..]);
      if IsUnreserved(cs[0] as char) {
        assert EncodeScalar(cs[0])[1..] == [];
      } else {
        EscapeAllIsEscaped(Utf8(cs[0]));
      }
      IsEscapedConcat(EncodeScalar(cs[0]), EncodeScalars(cs[1..]));
    }
  }

  /** Every character of an escaped text is unreserved or '%'. */
  lemma {:induction false} EscapedCharacters(t: string)
    requires IsEscaped(t)
    ensures forall i :: 0 <= i < |t| ==> IsUnreserved(t[i]) || t[i] == '%'
    decreases |t|
  {
    if t != [] {
      if IsUnreserved(t[0]) && IsEscaped(t[1..]) {
        EscapedCharacters(t[1..]);
        assert forall i :: 1 <= i < |t| ==> t[i] == t[1..][i - 1];
      } else {
        EscapedCharacters(t[3..]);
        assert forall i :: 3 <= i < |t| ==> t[i] == t[3..][i - 3];
      }
    }
  }

  /**
    What the encoder promises: success exactly for well-formed strings, an
    output made of unreserved characters and escapes only, and decoding
    the output gives the input back.
   */
  lemma EncodeURIComponentSpec(s: JSString)
    ensures EncodeURIComponent(s).Ok? <==> WellFormed(s)
    ensures WellFormed(s) ==> IsEscaped(EncodeURIComponent(s).value)
    ensures WellFormed(s) ==> DecodeURIComponent(EncodeURIComponent(s).value) == Ok(s)
  {
    if WellFormed(s) {
      EncodeScalarsIsEscaped(Decode16(s).value);
      EncodeDecodeRoundTrip(s);
    }
  }
}
