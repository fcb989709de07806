/** The hand-written JSON scanners: `skim_string` of the hook binary,
    `skim_session` of the status binary and `value_for_key` of the metadata
    reader. None of them parses; all three look for `"key"` in the raw bytes. */
module Scanner {
  import opened Basics

  // -------------------------------------------------------------- whitespace

  /** What `u8::is_ascii_whitespace` accepts. */
  predicate IsAsciiWs(c: char) {
    c == ' ' || c == '\t' || c == '\n' || c == '\r' || c as int == 12
  }

  /** How many bytes right before `p` encode one Unicode White_Space character. */
  function WsBefore(s: string, p: nat): (n: nat)
    requires p <= |s|
    ensures n <= p
  {
    if p == 0 then 0
    else
      var c := s[p - 1] as int;
      if 9 <= c <= 13 || c == 0x20 then 1
      else if c < 0x80 || p == 1 then 0
      else if s[p - 2] as int == 0xC2 && (c == 0x85 || c == 0xA0) then 2
      else if p >= 3 && WideSpace(s[p - 3] as int, s[p - 2] as int, c) then 3
      else 0
  }

  /** The three-byte white space characters of UTF-8. */
  predicate WideSpace(a: int, b: int, c: int) {
    || (a == 0xE1 && b == 0x9A && c == 0x80)
    || (a == 0xE2 && b == 0x80 && (0x80 <= c <= 0x8A || c == 0xA8 || c == 0xA9 || c == 0xAF))
    || (a == 0xE2 && b == 0x81 && c == 0x9F)
    || (a == 0xE3 && b == 0x80 && c == 0x80)
  }

  /** Where `str::trim_end` of the first `p` bytes ends. */
  function TrimEndAt(s: string, p: nat): (e: nat)
    requires p <= |s|
    ensures e <= p
  {
    var n := WsBefore(s, p);
    if n == 0 then p else TrimEndAt(s, p - n)
  }

  /** How many bytes at the start of `s` encode one White_Space character. */
  function WsAfter(s: string): (n: nat)
    ensures n <= |s|
  {
    if |s| >= 1 && WsBefore(s, 1) == 1 then 1
    else if |s| >= 2 && WsBefore(s, 2) == 2 then 2
    else if |s| >= 3 && WsBefore(s, 3) == 3 then 3
    else 0
  }

  function TrimStart(s: string): string {
    var n := WsAfter(s);
    if n == 0 then s else TrimStart(s[n..])
  }

  /** `str::trim` on the UTF-8 bytes. */
  function Trim(s: string): string {
    TrimStart(s[..TrimEndAt(s, |s|)])
  }

  function SkipWs(blob: string, i: nat): (j: nat)
    requires i <= |blob|
    ensures i <= j <= |blob|
    ensures forall k :: i <= k < j ==> IsAsciiWs(blob[k])
    ensures j < |blob| ==> !IsAsciiWs(blob[j])
    decreases |blob| - i
  {
    if i < |blob| && IsAsciiWs(blob[i]) then SkipWs(blob, i + 1) else i
  }

  // ------------------------------------------------- where a key is recognised

  /** The bytes `"key"` stand at `p`. */
  predicate MatchAt(blob: string, key: string, p: int) {
    && 0 <= p && p + |key| + 2 <= |blob|
    && blob[p] == '"' && (forall i :: 0 <= i < |key| ==> blob[p + 1 + i] == key[i]) && blob[p + 1 + |key|] == '"'
  }

  /** `str::find` from an offset: the first match at or after it. */
  function FirstMatch(blob: string, key: string, from: nat): (at: Option<nat>)
    ensures at.Some? ==> from <= at.value && at.value + |key| + 2 <= |blob|
    decreases |blob| - from
  {
    if from > |blob| then None
    else if MatchAt(blob, key, from) then Some(from)
    else FirstMatch(blob, key, from + 1)
  }

  /** The last visible character before `p` opens an object or ends a member. */
  predicate PrevOk(blob: string, p: nat)
    requires p <= |blob|
  {
    var e := TrimEndAt(blob, p);
    e == 0 || blob[e - 1] == '{' || blob[e - 1] == ','
  }

  /** The next visible character at or after `i` is a colon. */
  predicate ColonNext(blob: string, i: nat)
    requires i <= |blob|
  {
    var j := SkipWs(blob, i);
    j < |blob| && blob[j] == ':'
  }

  /** The scanner takes the match at `p` for the key of a member. */
  predicate Accepts(blob: string, key: string, p: int) {
    MatchAt(blob, key, p) && PrevOk(blob, p) && ColonNext(blob, p + |key| + 2)
  }

  function ValueStart(blob: string, key: string, p: int): (v: nat)
    requires Accepts(blob, key, p)
    ensures v <= |blob|
  {
    SkipWs(blob, SkipWs(blob, p + |key| + 2) + 1)
  }

  /** The position after which the scan goes on is the end of the rejected
      match, so matches that overlap a rejected one are never looked at. */
  function Scan(blob: string, key: string, from: nat): (at: Option<nat>)
    ensures at.Some? ==> Accepts(blob, key, at.value)
    decreases |blob| - from
  {
    match FirstMatch(blob, key, from)
    case None => None
    case Some(p) => if Accepts(blob, key, p) then Some(p) else Scan(blob, key, p + |key| + 2)
  }

  function ValueFor(blob: string, key: string): (v: Option<nat>)
    ensures v.Some? ==> v.value <= |blob|
  {
    match Scan(blob, key, 0)
    case None => None
    case Some(p) => Some(ValueStart(blob, key, p))
  }

  /** A key a scanner is called with: letters and underscores only. */
  predicate PlainKey(key: string) {
    key != "" && forall i :: 0 <= i < |key| ==> NameChar(key[i])
  }

  predicate NameChar(c: char) {
    'a' <= c <= 'z' || 'A' <= c <= 'Z' || c == '_'
  }

  lemma {:induction false} FirstMatchMatches(blob: string, key: string, from: nat)
    ensures FirstMatch(blob, key, from).Some? ==> MatchAt(blob, key, FirstMatch(blob, key, from).value)
    decreases |blob| - from
  {
    if from <= |blob| && !MatchAt(blob, key, from) {
      FirstMatchMatches(blob, key, from + 1);
    }
  }

  /** One round of the scan. */
  lemma {:induction false} ScanRound(blob: string, key: string, from: nat)
    requires FirstMatch(blob, key, from).Some?
    ensures var p := FirstMatch(blob, key, from).value;
            var end := p + |key| + 2;
      Scan(blob, key, from) == if PrevOk(blob, p) && ColonNext(blob, end) then Some(p) else Scan(blob, key, end)
  {
    FirstMatchMatches(blob, key, from);
  }

  /** No position in the range is accepted. */
  ghost predicate NoneAccepted(blob: string, key: string, from: nat, to: nat) {
    forall q :: from <= q < to ==> !Accepts(blob, key, q)
  }

  lemma {:induction false} NoneBeforeMatch(blob: string, key: string, from: nat)
    ensures NoneAccepted(blob, key, from, FirstMatch(blob, key, from).GetOr(|blob|))
    decreases |blob| - from
  {
    if from <= |blob| && !MatchAt(blob, key, from) {
      NoneBeforeMatch(blob, key, from + 1);
    }
  }

  /** Two overlapping matches share only a quote, and then the character before
      the second is the end of the key, so the second is not accepted. */
  lemma {:induction false} NoAcceptedOverlap(blob: string, key: string, p: nat)
    requires PlainKey(key) && MatchAt(blob, key, p)
    ensures NoneAccepted(blob, key, p + 1, p + |key| + 2)
  {
    forall q | p < q < p + |key| + 2 ensures !Accepts(blob, key, q) {
      if q <= p + |key| {
        assert blob[q] == key[q - p - 1];
      } else {
        assert blob[q - 1] == key[|key| - 1];
      }
    }
  }

  /** A rejected match rules out everything up to its end. */
  lemma {:induction false} RejectedRound(blob: string, key: string, from: nat, p: nat)
    requires PlainKey(key) && FirstMatch(blob, key, from) == Some(p) && !Accepts(blob, key, p)
    ensures NoneAccepted(blob, key, from, p + |key| + 2)
  {
    FirstMatchMatches(blob, key, from);
    NoneBeforeMatch(blob, key, from);
    NoAcceptedOverlap(blob, key, p);
  }

  /** The scan finds the least accepted position, on any text whatever. */
  lemma {:induction false} ScanIsLeast(blob: string, key: string, from: nat)
    requires PlainKey(key)
    ensures NoneAccepted(blob, key, from, Scan(blob, key, from).GetOr(|blob|))
    decreases |blob| - from
  {
    var first := FirstMatch(blob, key, from);
    if first.None? || Accepts(blob, key, first.value) {
      NoneBeforeMatch(blob, key, from);
    } else {
      var p := first.value;
      RejectedRound(blob, key, from, p);
      ScanIsLeast(blob, key, p + |key| + 2);
      ScanRejects(blob, key, from, p);
    }
  }

  lemma {:induction false} ScanRejects(blob: string, key: string, from: nat, p: nat)
    requires FirstMatch(blob, key, from) == Some(p) && !Accepts(blob, key, p)
    ensures Scan(blob, key, from) == Scan(blob, key, p + |key| + 2)
  {
  }

  /** An accepted position with none before it is the one the scan returns. */
  lemma {:induction false} ScanFinds(blob: string, key: string, p: nat)
    requires PlainKey(key) && Accepts(blob, key, p) && NoneAccepted(blob, key, 0, p)
    ensures ValueFor(blob, key) == Some(ValueStart(blob, key, p))
  {
    ScanIsLeast(blob, key, 0);
  }

  lemma {:induction false} ScanFindsNone(blob: string, key: string)
    requires NoneAccepted(blob, key, 0, |blob|)
    ensures ValueFor(blob, key) == None
  {
  }

  // ---------------------------------------------------------------- the value

  /** The quote that closes a string whose body starts at `j`. */
  function CloseQuote(blob: string, j: nat): (close: Option<nat>)
    ensures close.Some? ==> j <= close.value < |blob| && blob[close.value] == '"'
    decreases |blob| - j
  {
    if j >= |blob| then None
    else if blob[j] == '\\' then CloseQuote(blob, j + 2)
    else if blob[j] == '"' then Some(j)
    else CloseQuote(blob, j + 1)
  }

  /** The body of the string that opens at `v`, escapes untouched. */
  function BodyAt(blob: string, v: nat): Option<string> {
    if v < |blob| && blob[v] == '"' && CloseQuote(blob, v + 1).Some?
    then Some(blob[v + 1..CloseQuote(blob, v + 1).value])
    else None
  }

  function Unescaped(c: char): char {
    if c == 'n' then '\n' else if c == 't' then '\t' else if c == 'r' then '\r' else c
  }

  /** `out.push(b as char)`: the byte becomes the character of that number, which
      takes two bytes of UTF-8 above 127. */
  function Pushed(b: char): (s: string)
    ensures 1 <= |s| <= 2 && (|s| == 1 <==> b as int < 128)
    ensures b as int >= 128 ==> s[0] as int >= 128 && s[1] as int >= 128
  {
    if b as int < 128 then [b] else [(0xC0 + b as int / 64) as char, (0x80 + b as int % 64) as char]
  }

  /** The minimal unescaping of `skim_string`, byte by byte. */
  function Unescape(raw: string): string {
    if raw == "" then ""
    else if raw[0] == '\\' && |raw| >= 2 then Pushed(Unescaped(raw[1])) + Unescape(raw[2..])
    else Pushed(raw[0]) + Unescape(raw[1..])
  }

  function SkimmedRaw(blob: string, key: string): Option<string> {
    match ValueFor(blob, key)
    case None => None
    case Some(v) => BodyAt(blob, v)
  }

  function Skimmed(blob: string, key: string): Option<string> {
    match SkimmedRaw(blob, key)
    case None => None
    case Some(raw) => Some(Unescape(raw))
  }

  /** End of a bare value: the first comma or closing brace. */
  function BareEnd(blob: string, j: nat): (k: nat)
    requires j <= |blob|
    ensures j <= k <= |blob|
    ensures forall i :: j <= i < k ==> blob[i] != ',' && blob[i] != '}'
    ensures k < |blob| ==> blob[k] == ',' || blob[k] == '}'
    decreases |blob| - j
  {
    if j < |blob| && blob[j] != ',' && blob[j] != '}' then BareEnd(blob, j + 1) else j
  }

  function TokenAt(blob: string, v: nat): Option<string> {
    if v >= |blob| then None
    else if blob[v] == '"' then
      (match CloseQuote(blob, v + 1)
       case None => None
       case Some(j) => Some(blob[v..j + 1]))
    else Some(Trim(blob[v..BareEnd(blob, v)]))
  }

  function ValueToken(line: string, key: string): Option<string> {
    match ValueFor(line, key)
    case None => None
    case Some(v) => TokenAt(line, v)
  }

  // ------------------------------------------------------------ the scanners

  method SkipSpaces(blob: string, start: nat) returns (i: nat)
    requires start <= |blob|
    ensures i == SkipWs(blob, start)
  {
    i := start;
    while i < |blob| && IsAsciiWs(blob[i])
      invariant start <= i <= |blob| && SkipWs(blob, i) == SkipWs(blob, start)
    {
      i := i + 1;
    }
  }

  /** Checks both sides of a match and skips to the value behind the colon. */
  method BehindColon(blob: string, start: nat, end: nat) returns (v: Option<nat>)
    requires start <= end <= |blob|
    ensures v.Some? <==> PrevOk(blob, start) && ColonNext(blob, end)
    ensures v.Some? ==> v.value == SkipWs(blob, SkipWs(blob, end) + 1)
  {
    if !PrevOk(blob, start) {
      return None;
    }
    var i := SkipSpaces(blob, end);
    if i >= |blob| || blob[i] != ':' {
      return None;
    }
    i := SkipSpaces(blob, i + 1);
    return Some(i);
  }

  /** One round of the loop: the value behind the next match, or where the
      search goes on after it, or neither when there is no match. */
  method TryNext(blob: string, key: string, from: nat) returns (v: Option<nat>, next: Option<nat>)
    ensures next.Some? ==> from < next.value <= |blob| && Scan(blob, key, from) == Scan(blob, key, next.value)
    ensures next.None? && v.None? ==> Scan(blob, key, from) == None
    ensures v.Some? ==> next.None? && Scan(blob, key, from).Some? && v.value == ValueStart(blob, key, Scan(blob, key, from).value)
  {
    var at := FirstMatch(blob, key, from);
    if at.None? {
      return None, None;
    }
    ScanRound(blob, key, from);
    FirstMatchMatches(blob, key, from);
    v := TryMatch(blob, key, at.value);
    next := if v.Some? then None else Some(at.value + |key| + 2);
  }

  /** The value behind a match, if the match is accepted. */
  method TryMatch(blob: string, key: string, start: nat) returns (v: Option<nat>)
    requires MatchAt(blob, key, start)
    ensures v.Some? <==> PrevOk(blob, start) && ColonNext(blob, start + |key| + 2)
    ensures v.Some? ==> v.value == ValueStart(blob, key, start)
  {
    v := BehindColon(blob, start, start + |key| + 2);
  }

  /** The loop all three scanners share: finds where the value of `key` starts. */
  method LocateValue(blob: string, key: string) returns (v: Option<nat>)
    ensures v == ValueFor(blob, key)
  {
    v := None;
    var next := Some(0);
    while next.Some?
      invariant next.Some? ==> Scan(blob, key, next.value) == Scan(blob, key, 0)
      invariant next.None? ==> v == ValueFor(blob, key)
      decreases if next.Some? then 1 + if next.value <= |blob| then |blob| - next.value else 0 else 0
    {
      v, next := TryNext(blob, key, next.value);
    }
  }

  /** Reads a quoted body from its first character, unescaping as it goes. */
  method ReadString(blob: string, start: nat) returns (r: Option<string>)
    ensures r == match CloseQuote(blob, start) { case None => None case Some(k) => Some(Unescape(blob[start..k])) }
  {
    var out, j := "", start;
    ghost var close := CloseQuote(blob, start);
    while j < |blob|
      invariant start <= j && CloseQuote(blob, j) == close
      invariant close.Some? ==> j <= close.value && out + Unescape(blob[j..close.value]) == Unescape(blob[start..close.value])
    {
      if blob[j] == '\\' && j + 1 < |blob| {
        UnescapeStep(blob, j, out);
        out := out + Pushed(Unescaped(blob[j + 1]));
        j := j + 2;
      } else if blob[j] == '"' {
        assert close == Some(j) && blob[j..j] == "" && out + "" == out;
        return Some(out);
      } else {
        UnescapeStep(blob, j, out);
        out := out + Pushed(blob[j]);
        j := j + 1;
      }
    }
    return None;
  }

  /** `skim_string`: the unescaped value, or nothing if it is not a string. */
  method SkimString(blob: string, key: string) returns (r: Option<string>)
    ensures r == Skimmed(blob, key)
  {
    var v := LocateValue(blob, key);
    if v.None? || v.value >= |blob| || blob[v.value] != '"' {
      return None;
    }
    r := ReadString(blob, v.value + 1);
  }

  /** Reading one more character or escape of a body keeps what it unescapes to. */
  lemma {:induction false} UnescapeStep(blob: string, j: nat, out: string)
    requires j < |blob| && blob[j] != '"'
    ensures CloseQuote(blob, j).Some? ==>
      var k := CloseQuote(blob, j).value;
      if blob[j] == '\\' then
        j + 2 <= k && out + Unescape(blob[j..k]) == (out + Pushed(Unescaped(blob[j + 1]))) + Unescape(blob[j + 2..k])
      else
        j + 1 <= k && out + Unescape(blob[j..k]) == (out + Pushed(blob[j])) + Unescape(blob[j + 1..k])
  {
    var close := CloseQuote(blob, j);
    if close.Some? {
      var raw := blob[j..close.value];
      if blob[j] == '\\' {
        assert raw[2..] == blob[j + 2..close.value] && raw[1] == blob[j + 1];
      } else {
        assert raw[1..] == blob[j + 1..close.value];
      }
    }
  }

  /** The closing quote of a body, skipping over escapes two bytes at a time. */
  method FindClose(blob: string, start: nat) returns (close: Option<nat>)
    ensures close == CloseQuote(blob, start)
  {
    var j := start;
    while j < |blob|
      invariant CloseQuote(blob, j) == CloseQuote(blob, start)
      decreases |blob| - j
    {
      if blob[j] == '\\' {
        j := j + 2;
        continue;
      }
      if blob[j] == '"' {
        return Some(j);
      }
      j := j + 1;
    }
    return None;
  }

  /** `skim_session`: the value as it stands between the quotes. */
  method SkimSession(blob: string) returns (r: Option<string>)
    ensures r == SkimmedRaw(blob, "session_id")
  {
    var v := LocateValue(blob, "session_id");
    if v.None? || v.value >= |blob| || blob[v.value] != '"' {
      return None;
    }
    var start := v.value + 1;
    var close := FindClose(blob, start);
    return if close.Some? then Some(blob[start..close.value]) else None;
  }

  /** `value_for_key`: a quoted string with its quotes, or a bare value. */
  method ValueForKey(line: string, key: string) returns (r: Option<string>)
    ensures r == ValueToken(line, key)
  {
    var v := LocateValue(line, key);
    if v.None? || v.value >= |line| {
      return None;
    }
    var i := v.value;
    if line[i] == '"' {
      var close := FindClose(line, i + 1);
      return if close.Some? then Some(line[i..close.value + 1]) else None;
    }
    var j := i;
    while j < |line| && line[j] != ',' && line[j] != '}'
      invariant i <= j <= |line| && BareEnd(line, j) == BareEnd(line, i)
    {
      j := j + 1;
    }
    return Some(Trim(line[i..j]));
  }

  /** `extract`: event name and session id, both present and not empty. */
  method Extract(blob: string) returns (r: Option<(string, string)>)
    ensures r.Some? <==>
      exists event, session :: event != "" && session != "" &&
        Skimmed(blob, "hook_event_name") == Some(event) && Skimmed(blob, "session_id") == Some(session)
    ensures r.Some? ==> Skimmed(blob, "hook_event_name") == Some(r.value.0) && Skimmed(blob, "session_id") == Some(r.value.1)
  {
    var event := SkimString(blob, "hook_event_name");
    if event.None? {
      return None;
    }
    var session := SkimString(blob, "session_id");
    if session.None? || event.value == "" || session.value == "" {
      return None;
    }
    return Some((event.value, session.value));
  }
}
