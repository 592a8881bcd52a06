/**
  JavaScript string values as the form sees them: sequences of UTF-16 code
  units that need not be well formed. This module gives the pairing of
  surrogates into Unicode scalar values (and the error a lone surrogate
  raises), the conversion of Dafny literals, and `String.prototype.trim`.
 */
module JsString {

  /** A UTF-16 code unit, the element of a JavaScript string value. */
  type CodeUnit = u: int | 0 <= u < 0x1_0000

  /** A JavaScript string value; a lone surrogate is allowed in it. */
  type JSString = seq<CodeUnit>

  /** A Unicode scalar value: a code point that is not a surrogate. */
  type Scalar = c: int | 0 <= c < 0x11_0000 && !(0xD800 <= c < 0xE000)

  /** The outcome of an operation that may throw a URIError. */
  datatype Result<T> = Ok(value: T) | URIError

  predicate IsHighSurrogate(u: int) { 0xD800 <= u < 0xDC00 }

  predicate IsLowSurrogate(u: int) { 0xDC00 <= u < 0xE000 }

  function CombineSurrogates(hi: CodeUnit, lo: CodeUnit): Scalar
    requires IsHighSurrogate(hi) && IsLowSurrogate(lo)
  {
    0x1_0000 + (hi - 0xD800) * 0x400 + (lo - 0xDC00)
  }

  function Prepend(c: Scalar, r: Result<seq<Scalar>>): Result<seq<Scalar>> {
    match r
    case Ok(cs) => Ok([c] + cs)
    case URIError => URIError
  }

  function Append(r: Result<seq<Scalar>>, r': Result<seq<Scalar>>): Result<seq<Scalar>> {
    if r.Ok? && r'.Ok? then Ok(r.value + r'.value) else URIError
  }

  /**
    The scalar values of a string, pairing each high surrogate with the low
    surrogate after it; an unpaired surrogate of either kind is a URIError,
    as in the Encode operation behind encodeURIComponent.
   */
  function Decode16(s: JSString): Result<seq<Scalar>>
    decreases |s|
  {
    if s == [] then Ok([])
    else if IsHighSurrogate(s[0]) && |s| >= 2 && IsLowSurrogate(s[1]) then
      Prepend(CombineSurrogates(s[0], s[1]), Decode16(s[2..]))
    else if IsHighSurrogate(s[0]) || IsLowSurrogate(s[0]) then URIError
    else Prepend(s[0], Decode16(s[1..]))
  }

  /** A string without unpaired surrogates. */
  predicate WellFormed(s: JSString) {
    Decode16(s).Ok?
  }

  /** UTF16EncodeCodePoint of ECMA-262: one unit, or a surrogate pair above U+FFFF. */
  function UnitsOf(c: Scalar): JSString {
    if c < 0x1_0000 then [c]
    else [0xD800 + (c - 0x1_0000) / 0x400, 0xDC00 + (c - 0x1_0000) % 0x400]
  }

  function Encode16(cs: seq<Scalar>): JSString {
    if cs == [] then [] else UnitsOf(cs[0]) + Encode16(cs[1..])
  }

  /** Encoding scalar values as UTF-16 and pairing them back gives the same values. */
  lemma {:induction false} Decode16Encode16(cs: seq<Scalar>)
    ensures Decode16(Encode16(cs)) == Ok(cs)
  {
    if cs != [] {
      var c, rest := cs[0], Encode16(cs[1..]);
      var s := Encode16(cs);
      Decode16Encode16(cs[1..]);
      assert s == UnitsOf(c) + rest;
      assert cs == [c] + cs[1..];
      if c < 0x1_0000 {
        assert s[1..] == rest;
      } else {
        var x := c as int - 0x1_0000;
        assert x == (x / 0x400) * 0x400 + x % 0x400;
        assert s[2..] == rest;
        assert CombineSurrogates(s[0], s[1]) == c;
      }
    }
  }

  lemma PairValues(a: int, b: int)
    requires 0 <= a < 0x400 && 0 <= b < 0x400
    ensures (a * 0x400 + b) / 0x400 == a && (a * 0x400 + b) % 0x400 == b
  {
  }

  /** A well-formed string is the UTF-16 encoding of its scalar values. */
  lemma {:induction false} Encode16Decode16(s: JSString)
    requires WellFormed(s)
    ensures Encode16(Decode16(s).value) == s
    decreases |s|
  {
    if s != [] {
      if IsHighSurrogate(s[0]) && |s| >= 2 && IsLowSurrogate(s[1]) {
        Encode16Decode16(s[2..]);
        var c := CombineSurrogates(s[0], s[1]);
        PairValues(s[0] - 0xD800, s[1] - 0xDC00);
        assert UnitsOf(c) == s[..2];
        assert s == s[..2] + s[2..];
      } else {
        Encode16Decode16(s[1..]);
        assert s == [s[0]] + s[1..];
      }
    }
  }

  /** Dropping a prefix of the left operand commutes with concatenation. */
  lemma DropConcat<T>(a: seq<T>, b: seq<T>, n: nat)
    requires n <= |a|
    ensures (a + b)[n..] == a[n..] + b
    ensures n < |a| ==> (a + b)[n] == a[n]
  {
  }

  lemma ConsAssoc<T>(x: T, u: seq<T>, v: seq<T>)
    ensures [x] + (u + v) == ([x] + u) + v
  {
  }

  /**
    Pairing surrogates distributes over concatenation unless the join would
    pair a high surrogate at the end of `a` with a low one at the start of `b`.
   */
  lemma {:induction false} Decode16Concat(a: JSString, b: JSString)
    requires a == [] || b == [] || !IsHighSurrogate(a[|a| - 1]) || !IsLowSurrogate(b[0])
    ensures Decode16(a + b) == Append(Decode16(a), Decode16(b))
    decreases |a|
  {
    if a == [] {
      assert a + b == b;
      if Decode16(b).Ok? {
        assert [] + Decode16(b).value == Decode16(b).value;
      }
    } else if IsHighSurrogate(a[0]) && |a| >= 2 && IsLowSurrogate(a[1]) {
      DropConcat(a, b, 2);
      Decode16Concat(a[2..], b);
      var c := CombineSurrogates(a[0], a[1]);
      if Decode16(a[2..]).Ok? && Decode16(b).Ok? {
        ConsAssoc(c, Decode16(a[2..]).value, Decode16(b).value);
      }
    } else if IsHighSurrogate(a[0]) || IsLowSurrogate(a[0]) {
      if |a| == 1 {
        assert a + b == [a[0]] + b;
      }
    } else {
      DropConcat(a, b, 1);
      Decode16Concat(a[1..], b);
      if Decode16(a[1..]).Ok? && Decode16(b).Ok? {
        ConsAssoc(a[0] as Scalar, Decode16(a[1..]).value, Decode16(b).value);
      }
    }
  }

  /** The same join condition makes well-formedness of the join that of its parts. */
  lemma WellFormedConcat(a: JSString, b: JSString)
    requires a == [] || b == [] || !IsHighSurrogate(a[|a| - 1]) || !IsLowSurrogate(b[0])
    ensures WellFormed(a + b) <==> WellFormed(a) && WellFormed(b)
  {
    Decode16Concat(a, b);
  }

  /** A code unit that is not a surrogate is a well-formed string on its own. */
  lemma UnitWellFormed(u: CodeUnit)
    requires !IsHighSurrogate(u) && !IsLowSurrogate(u)
    ensures Decode16([u]) == Ok([u])
  {
    assert [u][1..] == [];
    assert [u] + [] == [u];
  }

  /**
    A Dafny string literal as a JavaScript string value. Every literal of
    this model lies in the Basic Multilingual Plane, where a character is
    one code unit; a character beyond it would become U+FFFD here.
   */
  function Str(s: string): (r: JSString)
    ensures |r| == |s|
    ensures forall i :: 0 <= i < |s| && s[i] as int < 0x1_0000 ==> r[i] == s[i] as int
  {
    seq(|s|, i requires 0 <= i < |s| => if s[i] as int < 0x1_0000 then s[i] as int else 0xFFFD)
  }

  /**
    A literal of the Basic Multilingual Plane means what it says: the code
    points of its conversion are the literal's characters, in order.
   */
  lemma {:induction false} StrDecodes(s: string)
    requires forall i :: 0 <= i < |s| ==> s[i] as int < 0x1_0000
    ensures Decode16(Str(s)).Ok?
    ensures |Decode16(Str(s)).value| == |s|
    ensures forall i :: 0 <= i < |s| ==> Decode16(Str(s)).value[i] == s[i] as int
    decreases |s|
  {
    if s != [] {
      var r := Str(s);
      StrDecodes(s[1..]);
      assert r[1..] == Str(s[1..]);
      var rest := Decode16(Str(s[1..])).value;
      assert Decode16(r).value == [s[0] as int] + rest;
    }
  }

  /** A string without surrogate code units is well formed. */
  lemma {:induction false} NoSurrogatesWellFormed(s: JSString)
    requires forall i :: 0 <= i < |s| ==> !IsHighSurrogate(s[i]) && !IsLowSurrogate(s[i])
    ensures WellFormed(s)
    decreases |s|
  {
    if s != [] {
      NoSurrogatesWellFormed(s[1..]);
    }
  }

  /** Converted literals are well formed: a Dafny character is never a surrogate. */
  lemma StrWellFormed(s: string)
    ensures WellFormed(Str(s))
  {
    NoSurrogatesWellFormed(Str(s));
  }

  /**
    WhiteSpace and LineTerminator of ECMA-262 (sections 12.2 and 12.3): TAB,
    VT, FF, ZWNBSP, the space separators of Unicode category Zs, LF, CR, LS
    and PS. All of them lie in the Basic Multilingual Plane, so a code unit
    test is the code point test.
   */
  predicate IsWhitespace(u: CodeUnit) {
    || u == 0x09 || u == 0x0B || u == 0x0C || u == 0xFEFF
    || u == 0x20 || u == 0xA0 || u == 0x1680 || 0x2000 <= u <= 0x200A
    || u == 0x202F || u == 0x205F || u == 0x3000
    || u == 0x0A || u == 0x0D || u == 0x2028 || u == 0x2029
  }

  /** A string made of white space only (the empty string included). */
  predicate IsBlank(s: JSString) {
    forall i :: 0 <= i < |s| ==> IsWhitespace(s[i])
  }

  /** `s` without its leading white space. */
  function TrimStart(s: JSString): JSString {
    if s != [] && IsWhitespace(s[0]) then TrimStart(s[1..]) else s
  }

  /** `s` without its trailing white space. */
  function TrimEnd(s: JSString): JSString {
    if s != [] && IsWhitespace(s[|s| - 1]) then TrimEnd(s[..|s| - 1]) else s
  }

  /** String.prototype.trim: leading and trailing white space removed. */
  function Trim(s: JSString): JSString {
    TrimEnd(TrimStart(s))
  }

  /** TrimStart removes a white-space prefix, and exactly the longest one. */
  lemma {:induction false} TrimStartRemovesPrefix(s: JSString)
    ensures var r := TrimStart(s);
      && |r| <= |s| && r == s[|s| - |r|..]
      && IsBlank(s[..|s| - |r|])
      && (r == [] || !IsWhitespace(r[0]))
  {
    if s != [] && IsWhitespace(s[0]) {
      TrimStartRemovesPrefix(s[1..]);
      var r := TrimStart(s);
      assert s[1..][|s| - 1 - |r|..] == s[|s| - |r|..];
      forall i | 0 <= i < |s| - |r| ensures IsWhitespace(s[i]) {
        if i > 0 {
          assert s[i] == s[1..][..|s| - 1 - |r|][i - 1];
        }
      }
    }
  }

  /** TrimEnd removes a white-space suffix, and exactly the longest one. */
  lemma {:induction false} TrimEndRemovesSuffix(s: JSString)
    ensures var r := TrimEnd(s);
      && |r| <= |s| && r == s[..|r|]
      && IsBlank(s[|r|..])
      && (r == [] || !IsWhitespace(r[|r| - 1]))
  {
    if s != [] && IsWhitespace(s[|s| - 1]) {
      TrimEndRemovesSuffix(s[..|s| - 1]);
      var r := TrimEnd(s);
      assert s[..|s| - 1][..|r|] == s[..|r|];
      forall i | |r| <= i < |s| ensures IsWhitespace(s[i]) {
        if i < |s| - 1 {
          assert s[i] == s[..|s| - 1][|r|..][i - |r|];
        }
      }
    }
  }

  /** Trimming leaves nothing exactly when the string is white space only. */
  lemma TrimEmptyIffBlank(s: JSString)
    ensures Trim(s) == [] <==> IsBlank(s)
  {
    var r := TrimStart(s);
    TrimStartRemovesPrefix(s);
    TrimEndRemovesSuffix(r);
    if Trim(s) == [] {
      assert IsBlank(r[0..]);
      assert s == s[..|s| - |r|] + r;
    }
  }
}
