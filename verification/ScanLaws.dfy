/** What the scanners accept as a key, in terms of the characters of the text. */
module ScanLaws {
  import opened Basics
  import opened Utf8
  import J = Json
  import opened Scanner
  import X = Escapes
  import S = ScanJson

  /** Unicode White_Space, which `char::is_whitespace` accepts. */
  predicate WhiteSpace(cp: nat) {
    || 9 <= cp <= 13 || cp == 0x20 || cp == 0x85 || cp == 0xA0 || cp == 0x1680
    || 0x2000 <= cp <= 0x200A || cp == 0x2028 || cp == 0x2029 || cp == 0x202F || cp == 0x205F || cp == 0x3000
  }

  /** The text is nothing but white space. */
  ghost predicate AllWhite(s: string) {
    exists cps :: WhiteAs(s, cps)
  }

  ghost predicate WhiteAs(s: string, cps: seq<nat>) {
    AreScalars(cps) && (forall i :: 0 <= i < |cps| ==> WhiteSpace(cps[i])) && EncodeAll(cps) == s
  }

  /** A white space character ends at `p`. */
  predicate EndsIn(s: string, p: nat, cp: nat)
    requires p <= |s|
  {
    IsScalar(cp) && |Encode(cp)| <= p && s[p - |Encode(cp)|..p] == Encode(cp)
  }

  lemma {:induction false} WhiteBytes(cp: nat)
    requires WhiteSpace(cp)
    ensures IsScalar(cp)
    ensures cp < 0x80 ==> Encode(cp) == [cp as char]
    ensures cp == 0x85 ==> Encode(cp) == [0xC2 as char, 0x85 as char]
    ensures cp == 0xA0 ==> Encode(cp) == [0xC2 as char, 0xA0 as char]
    ensures cp == 0x1680 ==> Encode(cp) == [0xE1 as char, 0x9A as char, 0x80 as char]
    ensures 0x2000 <= cp <= 0x202F ==> Encode(cp) == [0xE2 as char, 0x80 as char, (0x80 + cp - 0x2000) as char]
    ensures cp == 0x205F ==> Encode(cp) == [0xE2 as char, 0x81 as char, 0x9F as char]
    ensures cp == 0x3000 ==> Encode(cp) == [0xE3 as char, 0x80 as char, 0x80 as char]
  {
  }

  /** Any white space character that ends at `p` is found, with its length. */
  lemma {:induction false} WhiteIsFound(s: string, p: nat, cp: nat)
    requires p <= |s| && WhiteSpace(cp) && EndsIn(s, p, cp)
    ensures WsBefore(s, p) == |Encode(cp)|
  {
    WhiteBytes(cp);
    var e := Encode(cp);
    var t := s[p - |e|..p];
    assert forall i :: 0 <= i < |e| ==> t[i] == s[p - |e| + i];
  }

  /** What is found is a white space character. */
  lemma {:induction false} FoundIsWhite(s: string, p: nat) returns (cp: nat)
    requires p <= |s| && WsBefore(s, p) > 0
    ensures WhiteSpace(cp) && EndsIn(s, p, cp) && |Encode(cp)| == WsBefore(s, p)
  {
    var c := s[p - 1] as int;
    cp := if WsBefore(s, p) == 1 then c
          else if WsBefore(s, p) == 2 then c
          else if s[p - 3] as int == 0xE1 then 0x1680
          else if s[p - 3] as int == 0xE3 then 0x3000
          else if s[p - 2] as int == 0x81 then 0x205F
          else 0x2000 + c - 0x80;
    WhiteBytes(cp);
    LastBytes(s, p, WsBefore(s, p));
  }

  lemma {:induction false} LastBytes(s: string, p: nat, n: nat)
    requires n <= p <= |s|
    ensures n == 1 ==> s[p - n..p] == [s[p - 1]]
    ensures n == 2 ==> s[p - n..p] == [s[p - 2], s[p - 1]]
    ensures n == 3 ==> s[p - n..p] == [s[p - 3], s[p - 2], s[p - 1]]
  {
  }

  lemma {:induction false} WhiteJoins(s: string, e: nat, m: nat, p: nat, cp: nat)
    requires e <= m <= p <= |s| && AllWhite(s[e..m]) && WhiteSpace(cp) && IsScalar(cp) && s[m..p] == Encode(cp)
    ensures AllWhite(s[e..p])
  {
    var cps :| WhiteAs(s[e..m], cps);
    EncodeEnd(cps, cp);
    assert s[e..p] == s[e..m] + s[m..p];
    assert WhiteAs(s[e..p], cps + [cp]);
  }

  lemma {:induction false} EncodeEnd(cps: seq<nat>, cp: nat)
    requires AreScalars(cps) && IsScalar(cp)
    ensures AreScalars(cps + [cp]) && EncodeAll(cps + [cp]) == EncodeAll(cps) + Encode(cp)
  {
    if cps == [] {
      assert [cp][1..] == [] && EncodeAll([cp]) == Encode(cp) + "";
      assert [] + [cp] == [cp] && "" + Encode(cp) == Encode(cp);
    } else {
      EncodeEnd(cps[1..], cp);
      assert (cps + [cp])[1..] == cps[1..] + [cp];
      assert Encode(cps[0]) + (EncodeAll(cps[1..]) + Encode(cp)) == EncodeAll(cps) + Encode(cp);
    }
  }

  /** Everything trimmed is white space, and no white space ends there. */
  lemma {:induction false} TrimmedIsWhite(s: string, p: nat)
    requires p <= |s|
    ensures var e := TrimEndAt(s, p); AllWhite(s[e..p]) && WsBefore(s, e) == 0
    decreases p
  {
    if WsBefore(s, p) == 0 {
      assert WhiteAs("", []);
      assert s[p..p] == "";
    } else {
      var m := p - WsBefore(s, p);
      var cp := FoundIsWhite(s, p);
      TrimmedIsWhite(s, m);
      WhiteJoins(s, TrimEndAt(s, m), m, p, cp);
    }
  }

  /** White space behind position `e` is trimmed away down to `e`. */
  lemma {:induction false} WhiteIsTrimmed(s: string, e: nat, p: nat, cps: seq<nat>)
    requires e <= p <= |s| && WhiteAs(s[e..p], cps)
    ensures TrimEndAt(s, p) == TrimEndAt(s, e)
    decreases |cps|
  {
    if cps == [] {
      assert |s[e..p]| == 0;
    } else {
      var cp, front := Last(cps), Init(cps);
      var m := p - |Encode(cp)|;
      assert cps == front + [cp] && AreScalars(front);
      EncodeEnd(front, cp);
      SliceEnd(s, e, p, EncodeAll(front), Encode(cp));
      WhiteIsFound(s, p, cp);
      WhiteIsTrimmed(s, e, m, front);
    }
  }

  lemma {:induction false} SliceEnd(s: string, e: nat, p: nat, a: string, b: string)
    requires e <= p <= |s| && s[e..p] == a + b
    ensures e <= p - |b| && s[e..p - |b|] == a && s[p - |b|..p] == b
  {
    assert |a| + |b| == p - e;
    var t := s[e..p];
    assert t[..|a|] == a && t[|a|..] == b;
    assert s[e..p - |b|] == t[..|a|] && s[p - |b|..p] == t[|a|..];
  }

  /** Before a key: only white space back to the start of the text, an opening
      brace or a comma. */
  lemma {:induction false} PrevOkIs(s: string, p: nat)
    requires p <= |s|
    ensures PrevOk(s, p) <==> exists e :: 0 <= e <= p && AllWhite(s[e..p]) && (e == 0 || s[e - 1] == '{' || s[e - 1] == ',')
  {
    TrimmedIsWhite(s, p);
    if e :| 0 <= e <= p && AllWhite(s[e..p]) && (e == 0 || s[e - 1] == '{' || s[e - 1] == ',') {
      var cps :| WhiteAs(s[e..p], cps);
      WhiteIsTrimmed(s, e, p, cps);
    }
  }

  /** The whitespace of ASCII, without the vertical tab. */
  predicate AsciiWhite(s: string) {
    forall i :: 0 <= i < |s| ==> s[i] == ' ' || s[i] == '\t' || s[i] == '\n' || s[i] == '\r' || s[i] == 12 as char
  }

  /** Behind a key: only ASCII whitespace up to a colon. */
  lemma {:induction false} ColonNextIs(s: string, i: nat)
    requires i <= |s|
    ensures ColonNext(s, i) <==> exists j :: i <= j < |s| && AsciiWhite(s[i..j]) && s[j] == ':'
  {
    var k := SkipWs(s, i);
    if ColonNext(s, i) {
      assert AsciiWhite(s[i..k]);
    }
    if j :| i <= j < |s| && AsciiWhite(s[i..j]) && s[j] == ':' {
      assert forall m :: i <= m < j ==> s[m] == s[i..j][m - i];
      assert k == j;
    }
  }

  /** A key is recognised exactly where it stands in quotes with the right things
      on both sides; at the start of the text no brace is needed. */
  lemma {:induction false} AcceptsIs(s: string, key: string, p: nat)
    ensures Accepts(s, key, p) <==>
      && p + |key| + 2 <= |s| && s[p..p + |key| + 2] == "\"" + key + "\""
      && (exists e :: 0 <= e <= p && AllWhite(s[e..p]) && (e == 0 || s[e - 1] == '{' || s[e - 1] == ','))
      && (exists j :: p + |key| + 2 <= j < |s| && AsciiWhite(s[p + |key| + 2..j]) && s[j] == ':')
  {
    if p + |key| + 2 <= |s| {
      PrevOkIs(s, p);
      ColonNextIs(s, p + |key| + 2);
      MatchIs(s, key, p);
    }
  }

  lemma {:induction false} MatchIs(s: string, key: string, p: nat)
    requires p + |key| + 2 <= |s|
    ensures MatchAt(s, key, p) <==> s[p..p + |key| + 2] == "\"" + key + "\""
  {
    var t, n := s[p..p + |key| + 2], "\"" + key + "\"";
    assert forall i :: 0 <= i < |t| ==> t[i] == s[p + i];
    if t == n {
      assert forall i :: 0 <= i < |key| ==> s[p + 1 + i] == t[1 + i] == n[1 + i] == key[i];
      assert s[p] == t[0] == n[0] && s[p + 1 + |key|] == t[1 + |key|] == n[1 + |key|];
    }
  }

  /** A pushed byte is the UTF-8 of the character with that number. */
  lemma {:induction false} PushedIs(b: char)
    requires b as int < 256
    ensures Pushed(b) == Encode(b as int)
  {
  }

  /** Every escape but three stands for the character behind the backslash. */
  lemma {:induction false} OtherEscapes(c: char, rest: string)
    requires c as int < 256
    ensures Unescape(['\\', c] + rest) ==
      (if c == 'n' then "\n" else if c == 't' then "\t" else if c == 'r' then "\r" else Encode(c as int)) + Unescape(rest)
  {
    assert (['\\', c] + rest)[2..] == rest;
    PushedIs(c);
  }

  /** The string that opens at `v`: its body runs to the first quote without a
      backslash of its own, and there is none if no such quote follows. */
  lemma {:induction false} BodyAtIs(blob: string, v: nat, raw: string)
    ensures BodyAt(blob, v) == Some(raw) <==>
      v + |raw| + 2 <= |blob| && J.Escaped(raw) && blob[v..v + |raw| + 2] == "\"" + raw + "\""
  {
    if BodyAt(blob, v) == Some(raw) {
      X.BodyEscaped(blob, v + 1);
    }
    if v + |raw| + 2 <= |blob| && J.Escaped(raw) && blob[v..v + |raw| + 2] == "\"" + raw + "\"" {
      StringStands(blob, v, raw);
      S.StringRead(blob, v, raw);
    }
  }

  lemma {:induction false} StringStands(blob: string, v: nat, raw: string)
    requires v + |raw| + 2 <= |blob| && blob[v..v + |raw| + 2] == "\"" + raw + "\""
    ensures S.StringAt(blob, v, raw)
  {
    var t, n := blob[v..v + |raw| + 2], "\"" + raw + "\"";
    assert forall i :: 0 <= i < |t| ==> t[i] == blob[v + i];
    assert t[0] == n[0] == '"' && t[|raw| + 1] == n[|raw| + 1] == '"';
    forall i | 0 <= i < |raw| ensures blob[v + 1 + i] == raw[i] {
      assert t[1 + i] == n[1 + i] == raw[i];
    }
  }

  /** Trimming strips white space on both sides, all of it and nothing else. */
  lemma {:induction false} TrimIs(s: string)
    ensures exists a, b :: AllWhite(a) && AllWhite(b) && s == a + Trim(s) + b
    ensures WsAfter(Trim(s)) == 0 && WsBefore(Trim(s), |Trim(s)|) == 0
  {
    var e := TrimEndAt(s, |s|);
    var u := s[..e];
    TrimmedIsWhite(s, |s|);
    assert s == u + s[e..|s|];
    var a := TrimStartIs(u);
    assert WsBefore(u, |u|) == 0 by {
      SameBefore(s[e..|s|], u, s);
    }
    SuffixEnd(u, a, Trim(s));
    assert s == a + Trim(s) + s[e..|s|];
  }

  lemma {:induction false} SameBefore(rest: string, u: string, s: string)
    requires s == u + rest
    ensures WsBefore(u, |u|) > 0 ==> WsBefore(s, |u|) > 0
  {
    if WsBefore(u, |u|) > 0 {
      var cp := FoundIsWhite(u, |u|);
      assert s[|u| - |Encode(cp)|..|u|] == u[|u| - |Encode(cp)|..|u|];
      WhiteIsFound(s, |u|, cp);
    }
  }

  lemma {:induction false} SuffixEnd(u: string, a: string, t: string)
    requires u == a + t
    ensures WsBefore(t, |t|) > 0 ==> WsBefore(u, |u|) > 0
  {
    if WsBefore(t, |t|) > 0 {
      var cp := FoundIsWhite(t, |t|);
      assert u[|u| - |Encode(cp)|..|u|] == t[|t| - |Encode(cp)|..|t|];
      WhiteIsFound(u, |u|, cp);
    }
  }

  lemma {:induction false} TrimStartIs(s: string) returns (a: string)
    ensures AllWhite(a) && s == a + TrimStart(s) && WsAfter(TrimStart(s)) == 0
    decreases |s|
  {
    var n := WsAfter(s);
    if n == 0 {
      a := "";
      assert WhiteAs("", []);
      assert "" + s == s;
    } else {
      var rest := TrimStartIs(s[n..]);
      var cp := FirstWhite(s);
      a := Encode(cp) + rest;
      WhiteFront(cp, rest);
      JoinFront(s, n, rest, TrimStart(s[n..]));
    }
  }

  lemma {:induction false} FirstWhite(s: string) returns (cp: nat)
    requires WsAfter(s) > 0
    ensures WhiteSpace(cp) && IsScalar(cp) && Encode(cp) == s[..WsAfter(s)]
  {
    var n := WsAfter(s);
    cp := FoundIsWhite(s, n);
    assert s[0..n] == s[..n];
  }

  lemma {:induction false} JoinFront(s: string, n: nat, rest: string, t: string)
    requires n <= |s| && s[n..] == rest + t
    ensures s == (s[..n] + rest) + t
  {
    assert s == s[..n] + s[n..];
  }

  lemma {:induction false} WhiteFront(cp: nat, s: string)
    requires WhiteSpace(cp) && IsScalar(cp) && AllWhite(s)
    ensures AllWhite(Encode(cp) + s)
  {
    var cps :| WhiteAs(s, cps);
    assert ([cp] + cps)[1..] == cps;
    assert WhiteAs(Encode(cp) + s, [cp] + cps);
  }
}
