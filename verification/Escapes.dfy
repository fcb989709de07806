/** What `skim_string` makes of escapes, against what JSON says they mean
    (section 7 of RFC 8259), for bodies of ASCII characters. */
module Escapes {
  import opened Basics
  import opened Json
  import opened Scanner
  import opened ScanJson

  predicate HexDigit(c: char) {
    '0' <= c <= '9' || 'a' <= c <= 'f' || 'A' <= c <= 'F'
  }

  function HexValue(c: char): nat {
    if '0' <= c <= '9' then c as int - '0' as int
    else if 'a' <= c <= 'f' then c as int - 'a' as int + 10
    else if 'A' <= c <= 'F' then c as int - 'A' as int + 10
    else 0
  }

  /** How long the escape or plain character at the start of `raw` is, or 0 if
      JSON does not allow it. */
  function UnitLength(raw: string): (n: nat)
    requires raw != ""
    ensures n <= |raw|
  {
    if raw[0] as int >= 128 || raw[0] as int < 32 || raw[0] == '"' then 0
    else if raw[0] != '\\' then 1
    else if |raw| >= 2 && raw[1] in "\"\\/bfnrt" then 2
    else if |raw| >= 6 && raw[1] == 'u' && HexDigit(raw[2]) && HexDigit(raw[3]) && HexDigit(raw[4]) && HexDigit(raw[5]) then 6
    else 0
  }

  /** An ASCII string body that JSON allows. */
  predicate JsonBody(raw: string) {
    raw == "" || (UnitLength(raw) > 0 && JsonBody(raw[UnitLength(raw)..]))
  }

  /** The code unit the first character or escape stands for. */
  function UnitValue(raw: string): int
    requires raw != "" && UnitLength(raw) > 0
  {
    if raw[0] != '\\' then raw[0] as int
    else
      match raw[1]
      case 'b' => 8
      case 'f' => 12
      case 'n' => 10
      case 'r' => 13
      case 't' => 9
      case 'u' => HexValue(raw[2]) * 4096 + HexValue(raw[3]) * 256 + HexValue(raw[4]) * 16 + HexValue(raw[5])
      case c => c as int
  }

  /** The code units of the string that JSON says the body denotes. */
  function Meaning(raw: string): seq<int>
    requires JsonBody(raw)
  {
    if raw == "" then [] else [UnitValue(raw)] + Meaning(raw[UnitLength(raw)..])
  }

  /** The body uses no escape but those for quote, backslash, slash, newline,
      carriage return and tab. */
  predicate BasicEscapes(raw: string)
    requires JsonBody(raw)
  {
    raw == "" ||
    ((raw[0] == '\\' ==> raw[1] in "\"\\/nrt") && BasicEscapes(raw[UnitLength(raw)..]))
  }

  function Codes(s: string): seq<int> {
    if s == "" then [] else [s[0] as int] + Codes(s[1..])
  }

  lemma {:induction false} CodesLength(s: string)
    ensures |Codes(s)| == |s|
  {
    if s == "" {
    } else {
      CodesLength(s[1..]);
    }
  }

  /** Skimming never loses characters, and keeps the digits of a unicode escape. */
  lemma {:induction false} SkimNotShorter(raw: string)
    requires JsonBody(raw)
    ensures |Unescape(raw)| >= |Meaning(raw)|
    ensures raw != "" && UnitLength(raw) == 6 ==> |Unescape(raw)| > |Meaning(raw)|
    decreases |raw|
  {
    if raw == "" {
    } else {
      var rest := raw[UnitLength(raw)..];
      SkimNotShorter(rest);
      if UnitLength(raw) == 6 {
        SkimUnicode(raw);
      }
    }
  }

  lemma {:induction false} SkimUnicode(raw: string)
    requires raw != "" && UnitLength(raw) == 6
    ensures |Unescape(raw)| == 5 + |Unescape(raw[6..])|
  {
    assert raw[2..][1..] == raw[3..] && raw[3..][1..] == raw[4..];
    assert raw[4..][1..] == raw[5..] && raw[5..][1..] == raw[6..];
    assert |Unescape(raw)| == 1 + |Unescape(raw[2..])|;
    assert |Unescape(raw[2..])| == 1 + |Unescape(raw[3..])|;
    assert |Unescape(raw[3..])| == 1 + |Unescape(raw[4..])|;
    assert |Unescape(raw[4..])| == 1 + |Unescape(raw[5..])|;
  }

  /** The skimmed value is the JSON value of the string exactly when the body
      has no other escape than the basic ones: a backspace, form feed or
      unicode escape comes out wrong, always. */
  lemma {:induction false} SkimmedIsMeaning(raw: string)
    requires JsonBody(raw)
    ensures Codes(Unescape(raw)) == Meaning(raw) <==> BasicEscapes(raw)
    decreases |raw|
  {
    CodesLength(Unescape(raw));
    if raw == "" {
    } else {
      var n := UnitLength(raw);
      if n == 6 {
        SkimNotShorter(raw);
      } else {
        var h := UnitSkimmed(raw);
        var rest := raw[n..];
        SkimmedIsMeaning(rest);
        HeadsAndTails(h as int, Codes(Unescape(rest)), UnitValue(raw), Meaning(rest));
      }
    }
  }

  /** A plain character or short escape is skimmed to one character, the right
      one for plain characters and basic escapes only. */
  lemma {:induction false} UnitSkimmed(raw: string) returns (h: char)
    requires raw != "" && 0 < UnitLength(raw) < 6
    ensures Unescape(raw) == [h] + Unescape(raw[UnitLength(raw)..])
    ensures Codes(Unescape(raw)) == [h as int] + Codes(Unescape(raw[UnitLength(raw)..]))
    ensures h as int == UnitValue(raw) <==> (raw[0] == '\\' ==> raw[1] in "\"\\/nrt")
  {
    h := if raw[0] == '\\' then Unescaped(raw[1]) else raw[0];
    var rest := Unescape(raw[UnitLength(raw)..]);
    assert ([h] + rest)[1..] == rest;
  }

  lemma {:induction false} HeadsAndTails(a: int, s: seq<int>, b: int, t: seq<int>)
    ensures [a] + s == [b] + t <==> a == b && s == t
  {
    if [a] + s == [b] + t {
      assert ([a] + s)[0] == ([b] + t)[0];
      assert ([a] + s)[1..] == s && ([b] + t)[1..] == t;
    }
  }

  // ------------------------------------------------- the two skimmers compared

  predicate High(b: char) {
    b as int >= 128
  }

  /** Neither escapes nor bytes above 127. */
  predicate Plain(raw: string) {
    forall i :: 0 <= i < |raw| ==> raw[i] != '\\' && !High(raw[i])
  }

  lemma {:induction false} PlainTail(raw: string)
    requires raw != ""
    ensures Plain(raw) <==> raw[0] != '\\' && !High(raw[0]) && Plain(raw[1..])
  {
    if raw[0] != '\\' && !High(raw[0]) && Plain(raw[1..]) {
      forall i | 0 <= i < |raw| ensures raw[i] != '\\' && !High(raw[i]) {
        assert i > 0 ==> raw[i] == raw[1..][i - 1];
      }
    }
    if Plain(raw) {
      forall i | 0 <= i < |raw[1..]| ensures raw[1..][i] != '\\' && !High(raw[1..][i]) {
        assert raw[1..][i] == raw[i + 1];
      }
    }
  }

  predicate AllHigh(x: string) {
    forall i :: 0 <= i < |x| ==> High(x[i])
  }

  /** High bytes in front of a body are pushed one by one. */
  lemma {:induction false} UnescapeHigh(x: string, s: string) returns (y: string)
    requires AllHigh(x)
    ensures Unescape(x + s) == y + Unescape(s) && AllHigh(y) && |y| == 2 * |x|
  {
    if x == "" {
      assert x + s == s;
      y := "";
      assert y + Unescape(s) == Unescape(s);
    } else {
      var rest := UnescapeHigh(x[1..], s);
      y := Pushed(x[0]) + rest;
      assert (x + s)[0] == x[0] && (x + s)[1..] == x[1..] + s;
      assert y + Unescape(s) == Pushed(x[0]) + (rest + Unescape(s));
    }
  }

  /** Unescaping never moves a body back behind high bytes. */
  lemma {:induction false} NoHighShift(x: string, s: string)
    requires x != "" && AllHigh(x)
    ensures s != x + Unescape(s)
    decreases |s|
  {
    if s == x + Unescape(s) {
      var t := Unescape(s);
      var y := UnescapeHigh(x, t);
      NoHighShift(y, t);
    }
  }

  predicate Backslashes(x: string) {
    forall i :: 0 <= i < |x| ==> x[i] == '\\'
  }

  /** Nor does it ever put backslashes in front. */
  lemma {:induction false} NoBackslashShift(x: string, s: string)
    requires x != "" && Backslashes(x) && Escaped(s)
    ensures Unescape(s) != x + s
    decreases |s|
  {
    if s != "" && Unescape(s) == x + s {
      assert Unescape(s)[0] == '\\';
      assert s[0] == '\\' && s[1] == '\\';
      var rest := s[2..];
      assert Unescape(s) == ['\\'] + Unescape(rest);
      assert x + s == ['\\'] + (x[1..] + s) == ['\\'] + ((x[1..] + ['\\', '\\']) + rest);
      var x' := x[1..] + ['\\', '\\'];
      assert Unescape(rest) == (['\\'] + Unescape(rest))[1..] == (['\\'] + (x' + rest))[1..] == x' + rest;
      NoBackslashShift(x', rest);
    }
  }

  /** Unescaping leaves a body as it is exactly when it is plain. */
  lemma {:induction false} UnescapeFixes(raw: string)
    requires Escaped(raw)
    ensures Unescape(raw) == raw <==> Plain(raw)
    decreases |raw|
  {
    if raw == "" {
    } else {
      PlainTail(raw);
      if raw[0] == '\\' {
        EscapeChanges(raw);
      } else {
        var rest := raw[1..];
        assert raw == [raw[0]] + rest;
        if High(raw[0]) {
          HighChanges(raw[0], rest);
        } else {
          UnescapeFixes(rest);
          assert ([raw[0]] + Unescape(rest))[1..] == Unescape(rest) && ([raw[0]] + rest)[1..] == rest;
        }
      }
    }
  }

  lemma {:induction false} EscapeChanges(raw: string)
    requires Escaped(raw) && raw != "" && raw[0] == '\\'
    ensures Unescape(raw) != raw
  {
    var rest := raw[2..];
    if Unescape(raw) == raw {
      assert Unescape(raw)[0] == '\\';
      assert raw[1] == '\\';
      assert Unescape(raw) == ['\\'] + Unescape(rest);
      assert raw == ['\\'] + (['\\'] + rest);
      assert Unescape(rest) == (['\\'] + Unescape(rest))[1..] == (['\\'] + (['\\'] + rest))[1..] == ['\\'] + rest;
      NoBackslashShift(['\\'], rest);
    }
  }

  lemma {:induction false} HighChanges(b: char, rest: string)
    requires High(b)
    ensures Unescape([b] + rest) != [b] + rest
  {
    assert ([b] + rest)[1..] == rest;
    var p := Pushed(b);
    assert p == [p[0]] + [p[1]];
    if p + Unescape(rest) == [b] + rest {
      assert rest == ([b] + rest)[1..] == (p + Unescape(rest))[1..] == [p[1]] + Unescape(rest);
      NoHighShift([p[1]], rest);
    }
  }

  /** What lies between two quotes of any text is an escaped body. */
  lemma {:induction false} BodyEscaped(blob: string, j: nat)
    ensures CloseQuote(blob, j).Some? ==> Escaped(blob[j..CloseQuote(blob, j).value])
    decreases |blob| - j
  {
    var close := CloseQuote(blob, j);
    if close.Some? && blob[j] != '"' {
      var n := if blob[j] == '\\' then 2 else 1;
      BodyEscaped(blob, j + n);
      assert blob[j..close.value][n..] == blob[j + n..close.value];
    }
  }

  /** On any text at all, `skim_session` succeeds exactly when `skim_string`
      does, and they return the same text exactly when the value has neither a
      backslash nor a byte above 127. */
  lemma {:induction false} SkimmersAgree(blob: string)
    ensures SkimmedRaw(blob, "session_id").Some? <==> Skimmed(blob, "session_id").Some?
    ensures var raw := SkimmedRaw(blob, "session_id");
      raw.Some? ==> (Skimmed(blob, "session_id") == raw <==> Plain(raw.value))
  {
    var raw := SkimmedRaw(blob, "session_id");
    if raw.Some? {
      BodyEscaped(blob, ValueFor(blob, "session_id").value + 1);
      UnescapeFixes(raw.value);
    }
  }

  lemma {:induction false} UnescapePair(a: char, b: char)
    requires a != '\\' && b != '\\'
    ensures Unescape([a, b]) == Pushed(a) + Pushed(b)
  {
    assert [a, b][1..] == [b] && [b][1..] == "";
    assert Unescape([b]) == Pushed(b) + "";
  }

  /** Two UTF-8 bytes that spell an e with an acute accent come out as four. */
  lemma {:induction false} AccentSkimmed()
    ensures Unescape([0xC3 as char, 0xA9 as char]) == [0xC3 as char, 0x83 as char, 0xC2 as char, 0xA9 as char]
  {
    UnescapePair(0xC3 as char, 0xA9 as char);
  }

  /** However a document with that session id is printed, the hook sends four
      bytes and the status line the two: one session goes by two ids. */
  lemma {:induction false} OneSessionTwoIds(lead: string, ps: seq<Piece>, v: Value, key: string, id: string)
    requires Prints(lead, ps, v) && PlainKey(key) && FirstMember(v, key) == Some(Str(id))
    requires id == [0xC3 as char, 0xA9 as char]
    ensures SkimmedRaw(lead + Render(ps), key) == Some(id)
    ensures Skimmed(lead + Render(ps), key) == Some([0xC3 as char, 0x83 as char, 0xC2 as char, 0xA9 as char])
  {
    SkimsFirstMember(lead, ps, v, key);
    AccentSkimmed();
  }
}
