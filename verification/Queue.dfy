/** The append-only, length-prefixed event log (crates/spnrd/src/queue.rs). */
module Queue {
  import opened Basics

  const MAX_RECORD: nat := 0xFFFF_FFFF

  // -------------------------------------------------------------- framing

  function U32(n: nat): string
    requires n <= MAX_RECORD
  {
    seq(4, i requires 0 <= i < 4 => ByteOf(n, 3 - i) as char)
  }

  /** Byte `i` of a number, counted from the least significant. */
  function ByteOf(n: nat, i: nat): (b: nat)
    ensures b < 256
  {
    if i == 0 then n % 256 else ByteOf(n / 256, i - 1)
  }

  function FromU32(b: string): nat
    requires |b| >= 4
  {
    b[0] as int * 0x100_0000 + b[1] as int * 0x1_0000 + b[2] as int * 256 + b[3] as int
  }

  function Frame(record: string): string
    requires |record| <= MAX_RECORD
  {
    U32(|record|) + record
  }

  predicate Framable(records: seq<string>) {
    forall r :: r in records ==> |r| <= MAX_RECORD
  }

  function Frames(records: seq<string>): string
    requires Framable(records)
  {
    if records == [] then "" else Frame(records[0]) + Frames(records[1..])
  }

  lemma {:induction false} U32RoundTrip(n: nat, tail: string)
    requires n <= MAX_RECORD
    ensures FromU32(U32(n) + tail) == n
  {
    var a := n / 256;
    var b := a / 256;
    var c := b / 256;
    assert n == 256 * a + n % 256 && a == 256 * b + a % 256 && b == 256 * c + b % 256 && c < 256;
    assert ByteOf(n, 1) == ByteOf(a, 0) && ByteOf(n, 2) == ByteOf(a, 1) == ByteOf(b, 0);
    assert ByteOf(n, 3) == ByteOf(a, 2) == ByteOf(b, 1) == ByteOf(c, 0);
    var bytes := U32(n) + tail;
    assert bytes[0] == U32(n)[0] && bytes[1] == U32(n)[1] && bytes[2] == U32(n)[2] && bytes[3] == U32(n)[3];
  }

  /** A frame on disk: the length in four bytes, most significant first, then
      the record. */
  lemma {:induction false} FrameIs(record: string)
    requires |record| <= 4294967295
    ensures var f := Frame(record);
      && |f| == 4 + |record| && f[4..] == record && IsBytes(f[..4])
      && f[0] as int * 16777216 + f[1] as int * 65536 + f[2] as int * 256 + f[3] as int == |record|
  {
    U32RoundTrip(|record|, record);
  }

  // ------------------------------------------------- what a byte string holds

  /** The bytes start with a whole frame. */
  predicate HasRecord(bytes: string) {
    |bytes| >= 4 && 4 + FromU32(bytes) <= |bytes|
  }

  function FirstEnd(bytes: string): (end: nat)
    requires HasRecord(bytes)
    ensures 4 <= end <= |bytes|
  {
    4 + FromU32(bytes)
  }

  /** The complete records, in order, up to the first truncated frame. */
  function Records(bytes: string): seq<string> {
    if HasRecord(bytes) then [bytes[4..FirstEnd(bytes)]] + Records(bytes[FirstEnd(bytes)..]) else []
  }

  /** What is left after the last complete record. */
  function Torn(bytes: string): string {
    if HasRecord(bytes) then Torn(bytes[FirstEnd(bytes)..]) else bytes
  }

  lemma {:induction false} RecordOfFrame(record: string, tail: string)
    requires |record| <= MAX_RECORD
    ensures var bytes := Frame(record) + tail;
            HasRecord(bytes) && FirstEnd(bytes) == 4 + |record| &&
            Records(bytes) == [record] + Records(tail) && Torn(bytes) == Torn(tail)
  {
    var bytes := Frame(record) + tail;
    assert bytes == U32(|record|) + (record + tail);
    U32RoundTrip(|record|, record + tail);
    assert bytes[4..4 + |record|] == record;
    assert bytes[4 + |record|..] == tail;
  }

  /** Every byte string is its complete records followed by its torn tail. */
  lemma {:induction false} SplitAt(a: string, b: string)
    ensures Records(a + b) == Records(a) + Records(Torn(a) + b)
    ensures Torn(a + b) == Torn(Torn(a) + b)
    decreases |a|
  {
    if HasRecord(a) {
      var end := FirstEnd(a);
      assert FromU32(a + b) == FromU32(a);
      assert (a + b)[4..end] == a[4..end];
      assert (a + b)[end..] == a[end..] + b;
      SplitAt(a[end..], b);
    }
  }

  /** Whatever is written later, the complete records already in the log are
      read back unchanged and first. */
  lemma {:induction false} EarlierRecordsKept(a: string, b: string)
    ensures Records(a) <= Records(a + b)
  {
    SplitAt(a, b);
  }

  /** Framed appends read back in order, with nothing left over. */
  lemma {:induction false} RecordsOfFrames(records: seq<string>)
    requires Framable(records)
    ensures Records(Frames(records)) == records && Torn(Frames(records)) == ""
  {
    if records == [] {
    } else {
      RecordsOfFrames(records[1..]);
      RecordOfFrame(records[0], Frames(records[1..]));
    }
  }

  lemma {:induction false} CutInFirst(record: string, tail: string, cut: nat)
    requires |record| <= MAX_RECORD && cut < |Frame(record)|
    ensures Records((Frame(record) + tail)[..cut]) == []
  {
    var bytes := (Frame(record) + tail)[..cut];
    if cut >= 4 {
      U32RoundTrip(|record|, bytes[4..]);
      assert bytes == U32(|record|) + bytes[4..];
    }
  }

  /** How many bytes the first `k` records take. */
  function SizeOf(records: seq<string>, k: nat): nat
    requires k <= |records|
  {
    if k == 0 then 0 else 4 + |records[0]| + SizeOf(records[1..], k - 1)
  }

  lemma {:induction false} SizeIsLength(records: seq<string>, k: nat)
    requires Framable(records) && k <= |records|
    ensures Framable(records[..k]) && |Frames(records[..k])| == SizeOf(records, k)
  {
    if k > 0 {
      SizeIsLength(records[1..], k - 1);
      assert records[..k][1..] == records[1..][..k - 1];
    }
  }

  lemma {:induction false} CutBehind<T>(a: seq<T>, b: seq<T>, cut: nat)
    requires |a| <= cut <= |a + b|
    ensures (a + b)[..cut] == a + b[..cut - |a|]
  {
  }

  lemma {:induction false} TakeBehind<T>(s: seq<T>, k: nat)
    requires k < |s|
    ensures s[..k + 1] == [s[0]] + s[1..][..k]
  {
  }

  lemma {:induction false} CutLater(record: string, tail: string, cut: nat, kept: seq<string>)
    requires |record| <= MAX_RECORD && |Frame(record)| <= cut <= |Frame(record) + tail|
    requires Records(tail[..cut - |Frame(record)|]) == kept
    ensures Records((Frame(record) + tail)[..cut]) == [record] + kept
  {
    CutBehind(Frame(record), tail, cut);
    RecordOfFrame(record, tail[..cut - |Frame(record)|]);
  }

  /** The cut keeps `k` records, and record `k` would not fit. */
  ghost predicate CutAt(records: seq<string>, log: string, cut: nat, k: nat) {
    && cut <= |log| && k <= |records|
    && Records(log[..cut]) == records[..k]
    && SizeOf(records, k) <= cut && (k < |records| ==> cut < SizeOf(records, k + 1))
  }

  lemma {:induction false} CutAtLater(records: seq<string>, tail: string, cut: nat, k: nat)
    requires records != [] && |records[0]| <= MAX_RECORD && |Frame(records[0])| <= cut
    requires CutAt(records[1..], tail, cut - |Frame(records[0])|, k)
    ensures CutAt(records, Frame(records[0]) + tail, cut, k + 1)
  {
    CutLater(records[0], tail, cut, records[1..][..k]);
    TakeBehind(records, k);
  }

  lemma {:induction false} CutSized(records: seq<string>, cut: nat) returns (k: nat)
    requires Framable(records) && cut <= |Frames(records)|
    ensures CutAt(records, Frames(records), cut, k)
    decreases |records|
  {
    if records == [] {
      return 0;
    }
    var frame := Frame(records[0]);
    if cut < |frame| {
      k := 0;
      CutInFirst(records[0], Frames(records[1..]), cut);
    } else {
      k := CutSized(records[1..], cut - |frame|);
      CutAtLater(records, Frames(records[1..]), cut, k);
      k := k + 1;
    }
  }

  /** A log cut at any byte yields exactly the records whose frames lie wholly
      before the cut: the `k` that fit, and record `k` would not. */
  lemma {:induction false} CutLog(records: seq<string>, cut: nat) returns (k: nat)
    requires Framable(records) && cut <= |Frames(records)|
    ensures k <= |records| && Records(Frames(records)[..cut]) == records[..k]
    ensures |Frames(records[..k])| <= cut
    ensures k < |records| ==> cut < |Frames(records[..k + 1])|
  {
    k := CutSized(records, cut);
    SizeIsLength(records, k);
    if k < |records| {
      SizeIsLength(records, k + 1);
    }
  }

  // ------------------------------------------------ appending after a crash

  /** The record appended to `bytes` comes back as the next record. */
  predicate Recovered(bytes: string, record: string)
    requires |record| <= MAX_RECORD
  {
    Records(bytes + Frame(record)) == Records(bytes) + [record]
  }

  lemma {:induction false} TornIsShort(bytes: string)
    ensures !HasRecord(Torn(bytes))
  {
    if HasRecord(bytes) {
      TornIsShort(bytes[FirstEnd(bytes)..]);
    }
  }

  /** A torn tail swallows some record appended after it. */
  lemma {:induction false} TornTailSwallows(torn: string) returns (record: string)
    requires IsBytes(torn) && torn != "" && !HasRecord(torn)
    ensures |record| <= MAX_RECORD && Records(torn + Frame(record)) != [record]
  {
    var zeros := forall i :: 0 <= i < |torn| ==> torn[i] == 0 as char;
    record := if |torn| < 4 && zeros then "a" else "";
    var bytes := torn + Frame(record);
    if |torn| < 4 && zeros {
      assert FromU32(bytes) == 0;
      assert bytes[4..4] == "";
      assert Records(bytes)[0] == "";
    } else if |torn| < 4 {
      assert FromU32(bytes) > |bytes|;
    } else {
      assert FromU32(bytes) == FromU32(torn) > |torn| - 4;
      if HasRecord(bytes) {
        assert |Records(bytes)[0]| == FromU32(torn);
      }
    }
  }

  /** Only the torn tail decides what becomes of an appended record. */
  lemma {:induction false} RecoveredByTail(bytes: string, record: string)
    requires |record| <= MAX_RECORD
    ensures Recovered(bytes, record) <==> Records(Torn(bytes) + Frame(record)) == [record]
  {
    SplitAt(bytes, Frame(record));
    var before, after := Records(bytes), Records(Torn(bytes) + Frame(record));
    assert (before + after)[|before|..] == after;
    assert (before + [record])[|before|..] == [record];
  }

  /** Appends are recovered, whatever the record, exactly when the log ends
      with a complete record. After a torn write later records can be lost. */
  lemma {:induction false} RecoveryCondition(bytes: string)
    requires IsBytes(bytes)
    ensures (forall r: string | |r| <= MAX_RECORD :: Recovered(bytes, r)) <==> Torn(bytes) == ""
  {
    if Torn(bytes) == "" {
      forall r: string | |r| <= MAX_RECORD ensures Recovered(bytes, r) {
        assert Torn(bytes) + Frame(r) == Frame(r) + "";
        RecordOfFrame(r, "");
        RecoveredByTail(bytes, r);
      }
    } else {
      TornIsShort(bytes);
      TornIsBytes(bytes);
      var r := TornTailSwallows(Torn(bytes));
      RecoveredByTail(bytes, r);
    }
  }

  lemma {:induction false} TornIsBytes(bytes: string)
    requires IsBytes(bytes)
    ensures IsBytes(Torn(bytes))
    decreases |bytes|
  {
    if HasRecord(bytes) {
      TornIsBytes(bytes[FirstEnd(bytes)..]);
    }
  }

  // ------------------------------------------------------------- the log file

  class Log {
    var bytes: string

    constructor ()
      ensures bytes == ""
    {
      bytes := "";
    }

    /** Adds one frame at the end; a record too long for its prefix is refused. */
    method Append(record: string) returns (ok: bool)
      modifies this
      ensures ok == (|record| <= 4294967295)
      ensures bytes == if ok then old(bytes) + Frame(record) else old(bytes)
      ensures ok && Torn(old(bytes)) == "" ==> Records(bytes) == Records(old(bytes)) + [record] && Torn(bytes) == ""
    {
      if |record| > MAX_RECORD {
        return false;
      }
      SplitAt(bytes, Frame(record));
      RecordOfFrame(record, "");
      assert Frame(record) + "" == Frame(record) == "" + Frame(record);
      bytes := bytes + Frame(record);
      return true;
    }

    /** Walks the frames; stops at the first truncated one. */
    method ReadAll() returns (out: seq<string>)
      ensures out == Records(bytes)
    {
      out := [];
      var i := 0;
      while i + 4 <= |bytes|
        invariant i <= |bytes|
        invariant out + Records(bytes[i..]) == Records(bytes)
        decreases |bytes| - i
      {
        var len := bytes[i] as int * 0x100_0000 + bytes[i + 1] as int * 0x1_0000 + bytes[i + 2] as int * 256 + bytes[i + 3] as int;
        var start := i + 4;
        var end := start + len;
        assert len == FromU32(bytes[i..]);
        if end > |bytes| {
          break;
        }
        assert bytes[i..][4..4 + len] == bytes[start..end];
        assert bytes[i..][4 + len..] == bytes[end..];
        out := out + [bytes[start..end]];
        i := end;
      }
    }
  }
}
