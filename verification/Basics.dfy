/** Vocabulary shared by every component: optional values, sums over maps,
    lowercase hex and decimal numerals.

    Byte strings and Rust strings are both Dafny strings. Where code works on
    bytes, one `char` below 256 stands for one byte. */
module Basics {

  datatype Option<+T> = None | Some(value: T) {
    function GetOr(default: T): T {
      if Some? then value else default
    }
  }

  datatype Result<+T, +E> = Ok(value: T) | Err(error: E)

  // ----------------------------------------------------------- sequences

  function Last<T>(s: seq<T>): T
    requires s != []
  {
    s[|s| - 1]
  }

  function Init<T>(s: seq<T>): seq<T>
    requires s != []
  {
    s[..|s| - 1]
  }

  // ---------------------------------------------------------------- maps

  /** The value a counter map holds for `k`; an absent key reads as zero. */
  function At(m: map<string, int>, k: string): int {
    if k in m then m[k] else 0
  }

  /** Sum of all values of a finite map, in no particular order. */
  ghost function Total(m: map<string, int>): int {
    if m == map[] then 0 else
      var k :| k in m;
      m[k] + Total(m - {k})
  }

  /** Any entry may be taken out first. */
  lemma {:induction false} TotalWithout(m: map<string, int>, k: string)
    requires k in m
    ensures Total(m) == m[k] + Total(m - {k})
    decreases |m|
  {
    var first :| first in m && Total(m) == m[first] + Total(m - {first});
    if first != k {
      var m1, m2 := m - {first}, m - {k};
      TotalWithout(m1, k);
      TotalWithout(m2, first);
      assert m1 - {k} == m2 - {first};
    }
  }

  /** Writing one entry changes the sum by the difference. */
  lemma {:induction false} TotalUpdate(m: map<string, int>, k: string, v: int)
    ensures Total(m[k := v]) == Total(m) - At(m, k) + v
  {
    var m' := m[k := v];
    TotalWithout(m', k);
    if k in m {
      TotalWithout(m, k);
      assert m' - {k} == m - {k};
    } else {
      assert m' - {k} == m;
    }
  }

  /** Adds up the values of a map by visiting its entries in some order. */
  method SumValues(m: map<string, int>) returns (sum: int)
    ensures sum == Total(m)
  {
    sum := 0;
    var rest := m;
    while rest != map[]
      invariant Total(m) == sum + Total(rest)
      decreases |rest|
    {
      var k :| k in rest;
      TotalWithout(rest, k);
      sum := sum + rest[k];
      rest := rest - {k};
    }
  }

  // ----------------------------------------------------------------- hex

  const HEX_DIGITS: string := "0123456789abcdef"

  function NibbleOf(c: char): (n: Option<nat>)
    ensures n.Some? ==> n.value < 16
  {
    if '0' <= c <= '9' then Some(c as int - '0' as int)
    else if 'a' <= c <= 'f' then Some(c as int - 'a' as int + 10)
    else None
  }

  /** True when every character stands for one byte. */
  predicate IsBytes(s: string) {
    forall i | 0 <= i < |s| :: s[i] as int < 256
  }

  function HexEncode(b: string): string {
    if b == "" then "" else
      [HEX_DIGITS[b[0] as int / 16 % 16], HEX_DIGITS[b[0] as int % 16]] + HexEncode(b[1..])
  }

  /** Lowercase hex to bytes; uppercase digits and odd lengths are refused. */
  function HexDecode(s: string): (r: Option<string>)
    ensures r.Some? ==> IsBytes(r.value)
  {
    if |s| == 0 then Some("")
    else if |s| == 1 then None
    else
      match (NibbleOf(s[0]), NibbleOf(s[1]), HexDecode(s[2..]))
      case (Some(hi), Some(lo), Some(rest)) => Some([(hi * 16 + lo) as char] + rest)
      case _ => None
  }

  lemma {:induction false} HexRoundTrip(b: string)
    requires IsBytes(b)
    ensures HexDecode(HexEncode(b)) == Some(b)
  {
    if b == "" {
    } else {
      HexRoundTrip(b[1..]);
      var s := HexEncode(b);
      assert s[2..] == HexEncode(b[1..]);
      var v := b[0] as int;
      assert v / 16 % 16 == v / 16;
      NibbleRoundTrip(v / 16);
      NibbleRoundTrip(v % 16);
      assert [b[0]] + b[1..] == b;
    }
  }

  lemma {:induction false} NibbleRoundTrip(n: nat)
    requires n < 16
    ensures NibbleOf(HEX_DIGITS[n]) == Some(n)
  {
  }

  /** Only what encoding produces decodes: two lowercase digits a byte. */
  lemma {:induction false} HexExact(s: string)
    ensures HexDecode(s).Some? ==> HexEncode(HexDecode(s).value) == s
    decreases |s|
  {
    if |s| >= 2 && HexDecode(s).Some? {
      HexExact(s[2..]);
      NibbleExact(s[0]);
      NibbleExact(s[1]);
      HexFront(NibbleOf(s[0]).value, NibbleOf(s[1]).value, HexDecode(s[2..]).value);
      assert s == [s[0], s[1]] + s[2..];
    }
  }

  lemma {:induction false} HexFront(hi: nat, lo: nat, rest: string)
    requires hi < 16 && lo < 16
    ensures HexEncode([(hi * 16 + lo) as char] + rest) == [HEX_DIGITS[hi], HEX_DIGITS[lo]] + HexEncode(rest)
  {
    var b := [(hi * 16 + lo) as char] + rest;
    assert b[1..] == rest && b[0] as int / 16 % 16 == hi && b[0] as int % 16 == lo;
  }

  lemma {:induction false} NibbleExact(c: char)
    ensures NibbleOf(c).Some? ==> HEX_DIGITS[NibbleOf(c).value] == c
  {
  }

  // ------------------------------------------------------------- decimal

  function Decimal(n: nat): (s: string)
    ensures |s| > 0
  {
    if n < 10 then [HEX_DIGITS[n]] else Decimal(n / 10) + [HEX_DIGITS[n % 10]]
  }

  /** Reads an unsigned decimal numeral; anything but digits is refused. */
  function ParseDecimal(s: string): Option<nat> {
    if s == "" then None
    else
      var last := s[|s| - 1];
      if !('0' <= last <= '9') then None
      else
        var d := last as int - '0' as int;
        if |s| == 1 then Some(d)
        else
          match ParseDecimal(s[..|s| - 1])
          case Some(hi) => Some(hi * 10 + d)
          case None => None
  }

  lemma {:induction false} DecimalRoundTrip(n: nat)
    ensures ParseDecimal(Decimal(n)) == Some(n)
  {
    DigitValue(n % 10);
    if n >= 10 {
      DecimalRoundTrip(n / 10);
      var s := Decimal(n);
      assert s[..|s| - 1] == Decimal(n / 10);
      assert s[|s| - 1] == HEX_DIGITS[n % 10];
    }
  }

  lemma {:induction false} DigitValue(d: nat)
    requires d < 10
    ensures HEX_DIGITS[d] as int == '0' as int + d
  {
  }
}
