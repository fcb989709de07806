/** Well-formed UTF-8 (section 4 of RFC 3629), over strings whose characters
    each stand for one byte. A Rust `String` always satisfies `ValidUtf8`. */
module Utf8 {

  predicate InRange(s: string, i: nat, lo: int, hi: int) {
    i < |s| && lo <= s[i] as int <= hi
  }

  /** Width of the first encoded scalar value, or 0 if none is well formed. */
  function Width(s: string): (w: nat)
    ensures w <= 4 && w <= |s|
  {
    if InRange(s, 0, 0x00, 0x7F) then 1
    else if InRange(s, 0, 0xC2, 0xDF) && InRange(s, 1, 0x80, 0xBF) then 2
    else if
      && (|| (InRange(s, 0, 0xE0, 0xE0) && InRange(s, 1, 0xA0, 0xBF))
          || (InRange(s, 0, 0xED, 0xED) && InRange(s, 1, 0x80, 0x9F))
          || (InRange(s, 0, 0xE1, 0xEF) && !InRange(s, 0, 0xED, 0xED) && InRange(s, 1, 0x80, 0xBF)))
      && InRange(s, 2, 0x80, 0xBF) then 3
    else if
      && (|| (InRange(s, 0, 0xF0, 0xF0) && InRange(s, 1, 0x90, 0xBF))
          || (InRange(s, 0, 0xF1, 0xF3) && InRange(s, 1, 0x80, 0xBF))
          || (InRange(s, 0, 0xF4, 0xF4) && InRange(s, 1, 0x80, 0x8F)))
      && InRange(s, 2, 0x80, 0xBF) && InRange(s, 3, 0x80, 0xBF) then 4
    else 0
  }

  predicate ValidUtf8(s: string) {
    s == "" || (Width(s) > 0 && ValidUtf8(s[Width(s)..]))
  }

  // ------------------------------------------- against the encoding of scalars

  /** A Unicode scalar value: no surrogates, nothing above U+10FFFF. */
  predicate IsScalar(cp: nat) {
    cp < 0x11_0000 && !(0xD800 <= cp <= 0xDFFF)
  }

  /** How a scalar value is written in bytes. */
  function Encode(cp: nat): (s: string)
    requires IsScalar(cp)
    ensures 1 <= |s| <= 4
  {
    if cp < 0x80 then [cp as char]
    else if cp < 0x800 then [(0xC0 + cp / 64) as char, (0x80 + cp % 64) as char]
    else if cp < 0x1_0000 then [(0xE0 + cp / 4096) as char, (0x80 + cp / 64 % 64) as char, (0x80 + cp % 64) as char]
    else [(0xF0 + cp / 262144) as char, (0x80 + cp / 4096 % 64) as char, (0x80 + cp / 64 % 64) as char, (0x80 + cp % 64) as char]
  }

  predicate AreScalars(cps: seq<nat>) {
    forall i :: 0 <= i < |cps| ==> IsScalar(cps[i])
  }

  function EncodeAll(cps: seq<nat>): string
    requires AreScalars(cps)
  {
    if cps == [] then "" else Encode(cps[0]) + EncodeAll(cps[1..])
  }

  function Tail6(s: string, i: nat): int
    requires i < |s|
  {
    s[i] as int - 0x80
  }

  /** The scalar value at the start of well-formed bytes. */
  function Decode(s: string): (cp: nat)
    requires Width(s) > 0
  {
    var b := s[0] as int;
    if Width(s) == 1 then b
    else if Width(s) == 2 then (b - 0xC0) * 64 + Tail6(s, 1)
    else if Width(s) == 3 then (b - 0xE0) * 4096 + Tail6(s, 1) * 64 + Tail6(s, 2)
    else (b - 0xF0) * 262144 + Tail6(s, 1) * 4096 + Tail6(s, 2) * 64 + Tail6(s, 3)
  }

  lemma {:induction false} DecodeEncodes(s: string)
    requires Width(s) > 0
    ensures IsScalar(Decode(s)) && Encode(Decode(s)) == s[..Width(s)]
  {
    if Width(s) == 1 {
    } else if Width(s) == 2 {
      Digits(s[0] as int - 0xC0, Tail6(s, 1));
    } else if Width(s) == 3 {
      DecodeThree(s);
    } else {
      DecodeFour(s);
    }
  }

  lemma {:induction false} DecodeThree(s: string)
    requires Width(s) == 3
    ensures IsScalar(Decode(s)) && Encode(Decode(s)) == s[..3]
  {
    var cp := Decode(s);
    Digits((s[0] as int - 0xE0) * 64 + Tail6(s, 1), Tail6(s, 2));
    Digits(s[0] as int - 0xE0, Tail6(s, 1));
    assert cp / 4096 == cp / 64 / 64;
  }

  lemma {:induction false} DecodeFour(s: string)
    requires Width(s) == 4
    ensures IsScalar(Decode(s)) && Encode(Decode(s)) == s[..4]
  {
    var cp := Decode(s);
    Digits((s[0] as int - 0xF0) * 4096 + Tail6(s, 1) * 64 + Tail6(s, 2), Tail6(s, 3));
    Digits((s[0] as int - 0xF0) * 64 + Tail6(s, 1), Tail6(s, 2));
    Digits(s[0] as int - 0xF0, Tail6(s, 1));
    assert cp / 4096 == cp / 64 / 64 && cp / 262144 == cp / 64 / 64 / 64;
  }

  lemma {:induction false} Digits(hi: int, lo: int)
    requires 0 <= lo < 64
    ensures (hi * 64 + lo) / 64 == hi && (hi * 64 + lo) % 64 == lo
  {
  }

  lemma {:induction false} EncodeHasWidth(cp: nat, rest: string)
    requires IsScalar(cp)
    ensures Width(Encode(cp) + rest) == |Encode(cp)|
  {
    var e := Encode(cp);
    var s := e + rest;
    assert forall i :: 0 <= i < |e| ==> s[i] == e[i];
    if cp < 0x80 {
    } else if cp < 0x800 {
      assert 2 <= cp / 64 < 32;
    } else if cp < 0x1_0000 {
      assert cp / 4096 == cp / 64 / 64;
      ThreeBytes(cp);
    } else {
      FourBytes(cp);
    }
  }

  lemma {:induction false} ThreeBytes(cp: nat)
    requires 0x800 <= cp < 0x1_0000 && IsScalar(cp)
    ensures var a, b := cp / 4096, cp / 64 % 64;
      a < 16 && (a == 0 ==> b >= 32) && (a == 13 ==> b < 32)
  {
    var q := cp / 64;
    assert cp / 4096 == q / 64 && q == q / 64 * 64 + q % 64;
  }

  lemma {:induction false} FourBytes(cp: nat)
    requires 0x1_0000 <= cp && IsScalar(cp)
    ensures var a, b := cp / 262144, cp / 4096 % 64;
      a < 5 && (a == 0 ==> b >= 16) && (a == 4 ==> b < 16)
  {
    var q := cp / 4096;
    assert cp / 262144 == q / 64 && q == q / 64 * 64 + q % 64;
  }

  lemma {:induction false} ScalarsOf(s: string) returns (cps: seq<nat>)
    requires ValidUtf8(s)
    ensures AreScalars(cps) && EncodeAll(cps) == s
  {
    if s == "" {
      cps := [];
    } else {
      var rest := ScalarsOf(s[Width(s)..]);
      DecodeEncodes(s);
      cps := [Decode(s)] + rest;
      assert cps[1..] == rest && s == s[..Width(s)] + s[Width(s)..];
    }
  }

  lemma {:induction false} EncodedIsValid(cps: seq<nat>)
    requires AreScalars(cps)
    ensures ValidUtf8(EncodeAll(cps))
  {
    if cps == [] {
    } else {
      var e, rest := Encode(cps[0]), EncodeAll(cps[1..]);
      EncodedIsValid(cps[1..]);
      EncodeHasWidth(cps[0], rest);
      assert (e + rest)[|e|..] == rest;
    }
  }

  /** Well formed are exactly the encodings of sequences of scalar values. */
  lemma {:induction false} ValidIsEncoded(s: string)
    ensures ValidUtf8(s) <==> exists cps :: AreScalars(cps) && EncodeAll(cps) == s
  {
    if ValidUtf8(s) {
      var cps := ScalarsOf(s);
    }
    if cps :| AreScalars(cps) && EncodeAll(cps) == s {
      EncodedIsValid(cps);
    }
  }
}
