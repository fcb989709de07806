/** SAP/1 events, signatures and the per-device hash chain
    (crates/spnr-proto/src/event.rs, key.rs, chain.rs).

    Cryptography is a parameter: `Crypto` and `DeviceKey` hold arbitrary
    functions, and a lemma that needs more of them says so in its `requires`. */
module Proto {
  import opened Basics

  datatype EventType = Imp | ClickHint | SessionStart | SessionEnd | HeartbeatSummary | Gap

  type u32 = n: nat | n < 0x1_0000_0000

  datatype Event = Event(
    v: nat,
    id: string,
    ctr: nat,
    prev: string,
    t: int,
    ty: EventType,
    session: string,
    creative: Option<string>,
    n: Option<u32>)

  const GENESIS_PREV: string := "b3:0000000000000000000000000000000000000000000000000000000000000000"

  /** An event and its signature in lowercase hex. */
  datatype SignedEvent = SignedEvent(e: Event, s: string)

  /** What the server computes with: the digest of an event's canonical bytes,
      signature verification, and the check that 32 bytes are a public key. */
  datatype Crypto = Crypto(
    chainNext: Event -> string,
    verify: (Event, string, string) -> bool,
    validKey: string -> bool)

  /** One device's key pair and the salted fingerprint derived from it. */
  datatype DeviceKey = DeviceKey(
    pubkey: string,
    sign: Event -> string,
    fingerprint: string -> string)

  // ----------------------------------------------------------- the hash chain

  /** The chain head after a history of events. */
  function HeadOf(c: Crypto, history: seq<Event>): string {
    if history == [] then GENESIS_PREV else c.chainNext(history[|history| - 1])
  }

  /** Event i carries counter i and the head of everything before it. */
  ghost predicate Chained(c: Crypto, history: seq<Event>) {
    forall i :: 0 <= i < |history| ==> history[i].ctr == i && history[i].prev == HeadOf(c, history[..i])
  }

  lemma {:induction false} ChainedAppend(c: Crypto, history: seq<Event>, e: Event)
    requires Chained(c, history) && e.ctr == |history| && e.prev == HeadOf(c, history)
    ensures Chained(c, history + [e])
  {
    var longer := history + [e];
    forall i | 0 <= i < |longer|
      ensures longer[i].ctr == i && longer[i].prev == HeadOf(c, longer[..i])
    {
      assert longer[..i] == history[..i];
      assert history[..|history|] == history;
    }
  }

  lemma {:induction false} ChainedInit(c: Crypto, h: seq<Event>) returns (h': seq<Event>)
    requires Chained(c, h) && h != []
    ensures Chained(c, h') && h == h' + [h[|h| - 1]] && h[|h| - 1].prev == HeadOf(c, h')
  {
    h' := h[..|h| - 1];
    forall i | 0 <= i < |h'| ensures h'[i].ctr == i && h'[i].prev == HeadOf(c, h'[..i]) {
      assert h'[..i] == h[..i];
    }
  }

  ghost predicate CollisionFree(c: Crypto) {
    && (forall a, b :: c.chainNext(a) == c.chainNext(b) ==> a == b)
    && (forall a :: c.chainNext(a) != GENESIS_PREV)
  }

  /** With collision-free digests the head fixes the entire history. */
  lemma {:induction false} HeadDeterminesHistory(c: Crypto, a: seq<Event>, b: seq<Event>)
    requires CollisionFree(c) && Chained(c, a) && Chained(c, b)
    requires HeadOf(c, a) == HeadOf(c, b)
    ensures a == b
  {
    if a != [] && b != [] {
      var last := a[|a| - 1];
      assert last == b[|b| - 1];
      var a' := ChainedInit(c, a);
      var b' := ChainedInit(c, b);
      HeadDeterminesHistory(c, a', b');
    }
  }
}
