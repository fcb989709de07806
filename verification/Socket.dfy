/** The datagram codec of the daemon socket (crates/spnr-proto/src/socket.rs):
    one tag byte, then length-prefixed strings or one command byte. */
module Socket {
  import opened Basics
  import opened Utf8

  datatype SocketCmd = Ping | Pause | Resume

  datatype SocketMsg =
    | Hook(eventName: string, sessionId: string)
    | Heartbeat(sessionId: string)
    | Cmd(cmd: SocketCmd)

  const MAX_STR: nat := 65535
  /** The daemon receives into a buffer of this size; the rest is cut off. */
  const RECV_BUFFER: nat := 65536

  // ------------------------------------------------------------ the grammar

  function U16(n: nat): string
    requires n <= MAX_STR
  {
    [(n / 256) as char, (n % 256) as char]
  }

  function Clip(s: string): (r: string) {
    if |s| <= MAX_STR then s else s[..MAX_STR]
  }

  /** A string on the wire: big-endian length, then the bytes, clipped. */
  function Field(s: string): string {
    U16(|Clip(s)|) + Clip(s)
  }

  function Tag(m: SocketMsg): char {
    match m
    case Hook(_, _) => 1 as char
    case Heartbeat(_) => 2 as char
    case Cmd(_) => 3 as char
  }

  function Body(m: SocketMsg): string {
    match m
    case Hook(name, sid) => Field(name) + Field(sid)
    case Heartbeat(sid) => Field(sid)
    case Cmd(Ping) => [1 as char]
    case Cmd(Pause) => [2 as char]
    case Cmd(Resume) => [3 as char]
  }

  function Encoding(m: SocketMsg): string {
    [Tag(m)] + Body(m)
  }

  predicate ShortUtf8(s: string) {
    |s| <= MAX_STR && ValidUtf8(s)
  }

  /** Strings are well-formed UTF-8 and fit their length prefix. */
  predicate Sendable(m: SocketMsg) {
    match m
    case Hook(name, sid) => ShortUtf8(name) && ShortUtf8(sid)
    case Heartbeat(sid) => ShortUtf8(sid)
    case Cmd(_) => true
  }

  /** `bytes` is the wire form of exactly the message `m`. */
  predicate Denotes(bytes: string, m: SocketMsg) {
    Sendable(m) && bytes == Encoding(m)
  }

  // ---------------------------------------------------------- byte by byte

  /** A field on the wire: the length in two bytes, most significant first, then
      the string, at most 65535 bytes of it. */
  lemma {:induction false} FieldIs(s: string)
    ensures var f := Field(s);
            var n := f[0] as int * 256 + f[1] as int;
      && |f| >= 2 && IsBytes(f[..2]) && n == (if |s| <= 65535 then |s| else 65535) && f[2..] == s[..n]
  {
    var n := |Clip(s)|;
    assert n == n / 256 * 256 + n % 256;
  }

  /** The datagrams of the protocol, byte by byte. */
  lemma {:induction false} WireForm(m: SocketMsg)
    ensures var b := Encoding(m);
      match m
      case Hook(name, sid) => b == [1 as char] + Field(name) + Field(sid)
      case Heartbeat(sid) => b == [2 as char] + Field(sid)
      case Cmd(Ping) => b == [3 as char, 1 as char]
      case Cmd(Pause) => b == [3 as char, 2 as char]
      case Cmd(Resume) => b == [3 as char, 3 as char]
  {
  }

  // ---------------------------------------------------- no two readings, ever

  lemma {:induction false} U16Injective(a: nat, b: nat)
    requires a <= MAX_STR && b <= MAX_STR && U16(a) == U16(b)
    ensures a == b
  {
    var u, v := U16(a), U16(b);
    assert u[0] == v[0] && u[1] == v[1];
    assert a / 256 == (u[0] as int) == b / 256;
    assert a % 256 == (u[1] as int) == b % 256;
  }

  /** If one field-led byte string is a prefix of another, the fields agree. */
  lemma {:induction false} FieldPrefix(a: string, x: string, b: string, y: string)
    requires |a| <= MAX_STR
    requires Field(a) + x <= Field(b) + y
    ensures a == Clip(b) && x <= y
  {
    var l, r := Field(a) + x, Field(b) + y;
    assert l == r[..|l|];
    assert U16(|a|) == l[..2] == r[..2] == U16(|Clip(b)|);
    U16Injective(|a|, |Clip(b)|);
    assert a == l[2..2 + |a|] == r[2..2 + |a|] == Clip(b);
    assert x == l[2 + |a|..];
    assert y == r[2 + |a|..];
  }

  lemma {:induction false} BodyPrefix(m: SocketMsg, other: SocketMsg)
    requires Sendable(m) && Tag(m) == Tag(other) && Body(m) <= Body(other)
    ensures Body(m) == Body(other)
    ensures Sendable(other) ==> m == other
  {
    match m {
      case Hook(n, s) =>
        FieldPrefix(n, Field(s), other.eventName, Field(other.sessionId));
        assert Field(s) == Field(s) + "" && Field(other.sessionId) == Field(other.sessionId) + "";
        FieldPrefix(s, "", other.sessionId, "");
      case Heartbeat(s) =>
        assert Field(s) == Field(s) + "" && Field(other.sessionId) == Field(other.sessionId) + "";
        FieldPrefix(s, "", other.sessionId, "");
      case Cmd(_) =>
        assert Body(m)[0] == Body(other)[0];
    }
  }

  /** The code is prefix-free: no byte string that denotes a message is a
      prefix of the encoding of any other message, clipped strings included. */
  lemma {:induction false} PrefixFree(bytes: string, m: SocketMsg, other: SocketMsg)
    requires Denotes(bytes, m) && bytes <= Encoding(other)
    ensures bytes == Encoding(other)
    ensures Sendable(other) ==> m == other
  {
    assert bytes[0] == Encoding(other)[0];
    assert Body(m) == bytes[1..] && Body(other) == Encoding(other)[1..];
    BodyPrefix(m, other);
  }

  /** A datagram cut short anywhere, by the receive buffer or on the way,
      denotes nothing. */
  lemma {:induction false} TruncatedDenotesNothing(m: SocketMsg, cut: nat, other: SocketMsg)
    requires cut < |Encoding(m)|
    ensures !Denotes(Encoding(m)[..cut], other)
  {
    if Denotes(Encoding(m)[..cut], other) {
      PrefixFree(Encoding(m)[..cut], other, m);
    }
  }

  /** What the daemon receives of a datagram. */
  function Received(bytes: string): string {
    if |bytes| <= RECV_BUFFER then bytes else bytes[..RECV_BUFFER]
  }

  /** A message arrives as itself exactly when every string fits its length
      prefix and the whole datagram fits the receive buffer. Otherwise the
      daemon never takes it for this message. */
  lemma {:induction false} DeliveredIntact(m: SocketMsg)
    requires match m case Hook(n, s) => ValidUtf8(n) && ValidUtf8(s) case Heartbeat(s) => ValidUtf8(s) case Cmd(_) => true
    ensures Denotes(Received(Encoding(m)), m) <==> Sendable(m) && |Encoding(m)| <= 65536
  {
    if |Encoding(m)| > RECV_BUFFER {
      TruncatedDenotesNothing(m, RECV_BUFFER, m);
    }
  }

  // ---------------------------------------------------------------- methods

  method PutStr(out: string, s: string) returns (out': string)
    ensures out' == out + Field(s)
  {
    var len := |s|;
    if len > MAX_STR {
      len := MAX_STR;
    }
    out' := out + [(len / 256) as char, (len % 256) as char];
    out' := out' + s[..len];
    assert s[..len] == Clip(s);
  }

  method Encode(m: SocketMsg) returns (out: string)
    ensures out == Encoding(m)
  {
    WireForm(m);
    match m {
      case Hook(name, sid) =>
        out := [1 as char];
        out := PutStr(out, name);
        out := PutStr(out, sid);
      case Heartbeat(sid) =>
        out := [2 as char];
        out := PutStr(out, sid);
      case Cmd(c) =>
        out := [3 as char];
        match c {
          case Ping => out := out + [1 as char];
          case Pause => out := out + [2 as char];
          case Resume => out := out + [3 as char];
        }
    }
  }

  /** Some short UTF-8 string stands at the cursor. */
  predicate FieldAt(bytes: string, cursor: nat, s: string) {
    cursor <= |bytes| && ShortUtf8(s) && Field(s) <= bytes[cursor..]
  }

  /** Reads the one string whose field stands at the cursor and moves past it;
      fails exactly when there is none. */
  method TakeStr(bytes: string, cursor: nat) returns (r: Option<string>, next: nat)
    requires IsBytes(bytes) && cursor <= |bytes|
    ensures r.Some? ==> FieldAt(bytes, cursor, r.value) && next == cursor + 2 + |r.value| <= |bytes|
    ensures forall s :: FieldAt(bytes, cursor, s) ==> r == Some(s)
  {
    next := cursor;
    var lenEnd := cursor + 2;
    if lenEnd > |bytes| {
      return None, cursor;
    }
    var len := bytes[cursor] as int * 256 + bytes[cursor + 1] as int;
    var strEnd := lenEnd + len;
    assert U16(len) == bytes[cursor..lenEnd];
    forall s | FieldAt(bytes, cursor, s)
      ensures strEnd <= |bytes| && s == bytes[lenEnd..strEnd]
    {
      assert bytes[cursor..][..2] == U16(|s|);
      U16Injective(|s|, len);
      assert bytes[cursor..][2..2 + len] == s;
    }
    if strEnd > |bytes| || !ValidUtf8(bytes[lenEnd..strEnd]) {
      return None, cursor;
    }
    var s := bytes[lenEnd..strEnd];
    assert bytes[cursor..][..2 + len] == Field(s);
    return Some(s), strEnd;
  }

  method DecodeHook(rest: string) returns (r: Option<SocketMsg>)
    requires IsBytes(rest)
    ensures r.Some? ==> r.value.Hook? && Sendable(r.value) && rest == Body(r.value)
    ensures forall m: SocketMsg :: m.Hook? && Sendable(m) && rest == Body(m) ==> r.Some?
  {
    var name, next := TakeStr(rest, 0);
    assert rest[0..] == rest;
    forall n, s | Sendable(Hook(n, s)) && rest == Field(n) + Field(s) ensures FieldAt(rest, 0, n) {
    }
    if name.None? {
      return None;
    }
    var sid, end := TakeStr(rest, next);
    assert rest == Field(name.value) + rest[next..];
    forall n, s | Sendable(Hook(n, s)) && rest == Field(n) + Field(s)
      ensures FieldAt(rest, next, s) && |rest| == next + 2 + |s|
    {
      assert FieldAt(rest, 0, n);
      assert rest[next..] == Field(s);
    }
    if sid.None? || end != |rest| {
      return None;
    }
    assert rest[next..] == Field(sid.value);
    return Some(Hook(name.value, sid.value));
  }

  method DecodeHeartbeat(rest: string) returns (r: Option<SocketMsg>)
    requires IsBytes(rest)
    ensures r.Some? ==> r.value.Heartbeat? && Sendable(r.value) && rest == Body(r.value)
    ensures forall m: SocketMsg :: m.Heartbeat? && Sendable(m) && rest == Body(m) ==> r.Some?
  {
    var sid, end := TakeStr(rest, 0);
    assert rest[0..] == rest;
    forall s | ShortUtf8(s) && rest == Field(s) ensures FieldAt(rest, 0, s) {
    }
    if sid.None? || end != |rest| {
      return None;
    }
    assert rest == Field(sid.value);
    return Some(Heartbeat(sid.value));
  }

  method DecodeCmd(rest: string) returns (r: Option<SocketMsg>)
    ensures r.Some? ==> r.value.Cmd? && rest == Body(r.value)
    ensures forall m: SocketMsg :: m.Cmd? && rest == Body(m) ==> r.Some?
  {
    if |rest| == 0 {
      return None;
    }
    var cmd;
    if rest[0] == 1 as char {
      cmd := Ping;
    } else if rest[0] == 2 as char {
      cmd := Pause;
    } else if rest[0] == 3 as char {
      cmd := Resume;
    } else {
      return None;
    }
    if 1 != |rest| {
      return None;
    }
    assert rest == [rest[0]];
    return Some(Cmd(cmd));
  }

  /** Decoding is the exact inverse of encoding: a message is returned iff the
      bytes are its encoding, and nothing else is ever accepted. */
  method Decode(bytes: string) returns (r: Option<SocketMsg>)
    requires IsBytes(bytes)
    ensures r.Some? ==> Denotes(bytes, r.value)
    ensures forall m :: Denotes(bytes, m) ==> r == Some(m)
  {
    forall m, m' | Denotes(bytes, m) && Denotes(bytes, m') ensures m == m' {
      PrefixFree(bytes, m, m');
    }
    if |bytes| == 0 {
      return None;
    }
    var tag, rest := bytes[0], bytes[1..];
    if tag == 1 as char {
      r := DecodeHook(rest);
    } else if tag == 2 as char {
      r := DecodeHeartbeat(rest);
    } else if tag == 3 as char {
      r := DecodeCmd(rest);
    } else {
      r := None;
    }
    assert r.Some? ==> bytes == [tag] + rest && Denotes(bytes, r.value);
    forall m | Denotes(bytes, m) ensures r == Some(m) {
      assert Tag(m) == tag && Body(m) == rest && Sendable(m);
      assert r.Some?;
    }
  }
}
