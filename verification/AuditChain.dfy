/** The tamper-evident audit log of services/audit: a hash chain, its verifier, and what a head hash commits to.

    Strings are their UTF-8 bytes. The hash is any function from byte strings to 64-byte hex strings. */
module AuditChain {
  import opened Bytes
  import opened Wrappers

  type Hash = s: seq<byte> | |s| == 64 witness seq(64, _ => 0x30)
  type Hasher = seq<byte> -> Hash

  /** Sixty-four characters '0'. */
  function Genesis(): Hash {
    seq(64, _ => 0x30)
  }

  datatype AuditEvent = AuditEvent(
    sequenceNumber: u64,
    eventId: seq<byte>,
    timestamp: seq<byte>,
    eventType: seq<byte>,
    actor: seq<byte>,
    resource: seq<byte>,
    status: seq<byte>,
    details: seq<byte>,
    prevHash: seq<byte>,
    hash: seq<byte>)

  /** What the hasher is fed: the fields one after the other, with nothing between them. */
  function HashedBytes(e: AuditEvent): seq<byte> {
    BE(e.sequenceNumber, 8) + e.eventId + e.timestamp + e.eventType + e.actor + e.resource + e.status + e.details + e.prevHash
  }

  function HeadHash(chain: seq<AuditEvent>): seq<byte> {
    if chain == [] then Genesis() else chain[|chain| - 1].hash
  }

  predicate HashOk(hasher: Hasher, e: AuditEvent) {
    e.hash == hasher(HashedBytes(e))
  }

  /** Event `i` links to the one before and carries its own hash. */
  predicate EventOk(hasher: Hasher, chain: seq<AuditEvent>, i: nat)
    requires i < |chain|
  {
    chain[i].prevHash == HeadHash(chain[..i]) && HashOk(hasher, chain[i])
  }

  ghost predicate Verifies(hasher: Hasher, chain: seq<AuditEvent>) {
    forall i: nat :: i < |chain| ==> EventOk(hasher, chain, i)
  }

  /** The first event, if any, whose link or hash fails. */
  ghost predicate FirstBad(hasher: Hasher, chain: seq<AuditEvent>, bad: Option<nat>) {
    match bad
    case None => Verifies(hasher, chain)
    case Some(k) =>
      k < |chain| && !EventOk(hasher, chain, k) && forall i: nat :: i < k ==> EventOk(hasher, chain, i)
  }

  // ---------- the service ----------

  datatype Entry = Entry(
    eventId: seq<byte>,
    timestamp: seq<byte>,
    eventType: seq<byte>,
    actor: seq<byte>,
    resource: seq<byte>,
    status: seq<byte>,
    details: seq<byte>)

  datatype IntegrityReport = IntegrityReport(
    isValid: bool,
    totalEvents: nat,
    genesisHash: seq<byte>,
    headHash: seq<byte>,
    tamperedEventId: Option<seq<byte>>)

  /** The event `log_event` builds on a chain. */
  function NewEvent(hasher: Hasher, chain: seq<AuditEvent>, entry: Entry): AuditEvent
    requires |chain| < TWO64
  {
    var unsealed := AuditEvent(|chain|, entry.eventId, entry.timestamp, entry.eventType, entry.actor, entry.resource,
                               entry.status, entry.details, HeadHash(chain), []);
    unsealed.(hash := hasher(HashedBytes(unsealed)))
  }

  class AuditLogService {
    const hasher: Hasher
    var chain: seq<AuditEvent>

    constructor (hasher: Hasher)
      ensures this.hasher == hasher && chain == []
    {
      this.hasher := hasher;
      chain := [];
    }

    /** The identifier and time come from outside. */
    method LogEvent(entry: Entry) returns (event: AuditEvent)
      requires |chain| < TWO64
      modifies this`chain
      ensures event == NewEvent(hasher, old(chain), entry)
      ensures event.eventId == entry.eventId && event.timestamp == entry.timestamp && event.eventType == entry.eventType
      ensures event.actor == entry.actor && event.resource == entry.resource
      ensures event.status == entry.status && event.details == entry.details
      ensures event.sequenceNumber == |old(chain)|
      ensures event.prevHash == if old(chain) == [] then seq(64, _ => 0x30) else old(chain[|chain| - 1].hash)
      ensures event.hash == hasher(HashedBytes(event))
      ensures chain == old(chain) + [event]
    {
      var sequenceNumber := |chain|;
      var prevHash := if |chain| > 0 then chain[|chain| - 1].hash else Genesis();
      event := AuditEvent(sequenceNumber, entry.eventId, entry.timestamp, entry.eventType, entry.actor, entry.resource,
                          entry.status, entry.details, prevHash, []);
      var hash := hasher(HashedBytes(event));
      event := event.(hash := hash);
      chain := chain + [event];
    }

    /** Walks the chain, carrying the hash the next event must link to; reports the first failure. */
    method VerifyIntegrity() returns (report: IntegrityReport, ghost bad: Option<nat>)
      ensures FirstBad(hasher, chain, bad)
      ensures report.isValid <==> Verifies(hasher, chain)
      ensures report.totalEvents == |chain| && report.headHash == HeadHash(chain)
      ensures report.genesisHash == if chain == [] then Genesis() else chain[0].hash
      ensures report.tamperedEventId == if bad.None? then None else Some(chain[bad.value].eventId)
    {
      hide HashedBytes;
      bad := None;
      if |chain| == 0 {
        return IntegrityReport(true, 0, Genesis(), Genesis(), None), None;
      }
      var expectedPrevHash: seq<byte> := Genesis();
      var headHash := chain[|chain| - 1].hash;
      for i := 0 to |chain|
        invariant expectedPrevHash == HeadHash(chain[..i])
        invariant forall k: nat :: k < i ==> EventOk(hasher, chain, k)
      {
        var event := chain[i];
        if event.prevHash != expectedPrevHash {
          bad := Some(i);
          report := IntegrityReport(false, |chain|, chain[0].hash, headHash, Some(event.eventId));
          assert !EventOk(hasher, chain, i);
          return;
        }
        var computed := hasher(HashedBytes(event));
        if computed != event.hash {
          bad := Some(i);
          report := IntegrityReport(false, |chain|, chain[0].hash, headHash, Some(event.eventId));
          assert !EventOk(hasher, chain, i);
          return;
        }
        expectedPrevHash := event.hash;
      }
      report := IntegrityReport(true, |chain|, chain[0].hash, headHash, None);
    }
  }

  // ---------- chains built by logging ----------

  /** The chain any run of `log_event` from an empty log leaves. */
  function Logged(hasher: Hasher, entries: seq<Entry>): (chain: seq<AuditEvent>)
    requires |entries| <= TWO64
    ensures |chain| == |entries|
  {
    if entries == [] then []
    else
      var n := |entries| - 1;
      var chain := Logged(hasher, entries[..n]);
      chain + [NewEvent(hasher, chain, entries[n])]
  }

  predicate Numbered(chain: seq<AuditEvent>) {
    forall i: nat :: i < |chain| ==> chain[i].sequenceNumber == i
  }

  lemma PrefixOk(hasher: Hasher, chain: seq<AuditEvent>, n: nat, i: nat)
    requires i < n <= |chain|
    ensures EventOk(hasher, chain[..n], i) <==> EventOk(hasher, chain, i)
  {
    hide HashOk;
    assert chain[..n][..i] == chain[..i];
  }

  lemma NewEventOk(hasher: Hasher, chain: seq<AuditEvent>, entry: Entry)
    requires |chain| < TWO64
    ensures HashOk(hasher, NewEvent(hasher, chain, entry))
  {
    hide BE;
  }

  /** Every logged chain verifies, and numbers its events by position. */
  lemma {:induction false} LoggedVerifies(hasher: Hasher, entries: seq<Entry>)
    requires |entries| <= TWO64
    ensures Verifies(hasher, Logged(hasher, entries))
    ensures Numbered(Logged(hasher, entries))
  {
    hide HashOk, HashedBytes;
    if entries == [] {
    } else {
      var n := |entries| - 1;
      LoggedVerifies(hasher, entries[..n]);
      var before, after := Logged(hasher, entries[..n]), Logged(hasher, entries);
      NewEventOk(hasher, before, entries[n]);
      assert after[..n] == before;
      forall i: nat | i < |after|
        ensures EventOk(hasher, after, i) && after[i].sequenceNumber == i
      {
        if i < n {
          PrefixOk(hasher, after, n, i);
          assert EventOk(hasher, before, i);
          assert after[i] == before[i];
        }
      }
    }
  }

  // ---------- head commitment ----------

  datatype Verdict =
    | Same
    | Collision(x: seq<byte>, y: seq<byte>)
    | GenesisPreimage(z: seq<byte>)

  /** Walks two chains back from their heads, until they differ or one runs out. */
  function Compare(c: seq<AuditEvent>, d: seq<AuditEvent>): Verdict {
    if c == [] && d == [] then Same
    else if c == [] then GenesisPreimage(HashedBytes(d[|d| - 1]))
    else if d == [] then GenesisPreimage(HashedBytes(c[|c| - 1]))
    else
      var x, y := HashedBytes(c[|c| - 1]), HashedBytes(d[|d| - 1]);
      if x != y then Collision(x, y) else Compare(c[..|c| - 1], d[..|d| - 1])
  }

  /** The number and the previous hash can be read back from the hashed bytes, from either end. */
  lemma HashedBytesDetermine(e: AuditEvent, f: AuditEvent)
    requires HashedBytes(e) == HashedBytes(f)
    requires |e.prevHash| == 64 && |f.prevHash| == 64
    ensures e.sequenceNumber == f.sequenceNumber && e.prevHash == f.prevHash
  {
    hide BE, FromBE;
    var x := HashedBytes(e);
    assert x[..8] == BE(e.sequenceNumber, 8) == BE(f.sequenceNumber, 8);
    Pow256Values();
    FromBEOfBE(e.sequenceNumber, 8);
    FromBEOfBE(f.sequenceNumber, 8);
    assert x[|x| - 64..] == e.prevHash == f.prevHash;
  }

  lemma LastLink(hasher: Hasher, chain: seq<AuditEvent>)
    requires Verifies(hasher, chain) && chain != []
    ensures var n := |chain| - 1;
            && Verifies(hasher, chain[..n])
            && chain[n].prevHash == HeadHash(chain[..n]) && |chain[n].prevHash| == 64
            && chain[n].hash == hasher(HashedBytes(chain[n]))
  {
    hide HashedBytes;
    var n := |chain| - 1;
    assert EventOk(hasher, chain, n);
    forall i: nat | i < n
      ensures EventOk(hasher, chain[..n], i)
    {
      PrefixOk(hasher, chain, n, i);
    }
    if n > 0 { assert EventOk(hasher, chain, n - 1); }
  }

  /** The head hash commits to the whole history: two chains that verify with the same head agree in
      length and, event by event, on the hashed bytes, the number and both hashes, or else the walk
      has found two inputs with one hash, or an input whose hash is the genesis value. */
  lemma {:induction false} HeadCommits(hasher: Hasher, c: seq<AuditEvent>, d: seq<AuditEvent>)
    requires Verifies(hasher, c) && Verifies(hasher, d)
    requires HeadHash(c) == HeadHash(d)
    ensures match Compare(c, d)
            case Same =>
              |c| == |d| && forall i :: 0 <= i < |c| ==>
                && HashedBytes(c[i]) == HashedBytes(d[i])
                && c[i].sequenceNumber == d[i].sequenceNumber
                && c[i].prevHash == d[i].prevHash && c[i].hash == d[i].hash
            case Collision(x, y) => x != y && hasher(x) == hasher(y)
            case GenesisPreimage(z) => hasher(z) == Genesis()
    decreases |c|
  {
    hide HashedBytes, Verifies;
    if c != [] { LastLink(hasher, c); }
    if d != [] { LastLink(hasher, d); }
    if c == [] || d == [] {
    } else {
      var e, f := c[|c| - 1], d[|d| - 1];
      if HashedBytes(e) == HashedBytes(f) {
        HashedBytesDetermine(e, f);
        HeadCommits(hasher, c[..|c| - 1], d[..|d| - 1]);
        if Compare(c, d) == Same {
          forall i | 0 <= i < |c|
            ensures HashedBytes(c[i]) == HashedBytes(d[i]) && c[i].sequenceNumber == d[i].sequenceNumber
            ensures c[i].prevHash == d[i].prevHash && c[i].hash == d[i].hash
          {
            if i < |c| - 1 {
              assert c[i] == c[..|c| - 1][i] && d[i] == d[..|d| - 1][i];
            }
          }
        }
      }
    }
  }

  /** For chains numbered by position, as logged ones are, the walk cannot run out on one side first:
      two non-empty chains with the same head agree throughout, or exhibit a collision. */
  lemma {:induction false} NumberedHeadCommits(hasher: Hasher, c: seq<AuditEvent>, d: seq<AuditEvent>)
    requires Verifies(hasher, c) && Verifies(hasher, d)
    requires Numbered(c) && Numbered(d) && c != [] && d != []
    requires HeadHash(c) == HeadHash(d)
    ensures !Compare(c, d).GenesisPreimage?
    decreases |c|
  {
    hide HashedBytes, Verifies;
    LastLink(hasher, c);
    LastLink(hasher, d);
    var e, f := c[|c| - 1], d[|d| - 1];
    if HashedBytes(e) == HashedBytes(f) {
      HashedBytesDetermine(e, f);
      assert |c| == |d|;
      if |c| > 1 {
        NumberedHeadCommits(hasher, c[..|c| - 1], d[..|d| - 1]);
      }
    }
  }

  // ---------- tamper localisation ----------

  /** Replacing one event of a chain that verifies is reported at that event unless the substitute is
      self-consistent and linked, then at the next event if the hash changed, and otherwise not at all. */
  lemma TamperIsLocalised(hasher: Hasher, chain: seq<AuditEvent>, i: nat, e: AuditEvent)
    requires Verifies(hasher, chain) && i < |chain|
    ensures FirstBad(hasher, chain[i := e],
              if e.prevHash != chain[i].prevHash || !HashOk(hasher, e) then Some(i)
              else if e.hash != chain[i].hash && i + 1 < |chain| then Some(i + 1)
              else None)
  {
    hide HashOk;
    var changed := chain[i := e];
    assert EventOk(hasher, chain, i);
    forall k: nat | k < |chain|
      ensures k < i ==> EventOk(hasher, changed, k)
      ensures k == i ==> (EventOk(hasher, changed, k) <==> e.prevHash == chain[i].prevHash && HashOk(hasher, e))
      ensures k == i + 1 ==> (EventOk(hasher, changed, k) <==> e.hash == chain[i].hash)
      ensures k > i + 1 ==> EventOk(hasher, changed, k)
    {
      assert EventOk(hasher, chain, k);
      if k <= i {
        assert changed[..k] == chain[..k];
      }
    }
  }

  // ---------- every field is hashed ----------

  /** The nine hashed fields, in their order. */
  function Pieces(e: AuditEvent): (p: seq<seq<byte>>)
    ensures |p| == 9
  {
    [BE(e.sequenceNumber, 8), e.eventId, e.timestamp, e.eventType, e.actor, e.resource, e.status, e.details, e.prevHash]
  }

  lemma HashedBytesAre(e: AuditEvent)
    ensures HashedBytes(e) == Flatten(Pieces(e))
  {
    hide BE;
    var p := Pieces(e);
    assert p[..0] == [] && p[..9] == p;
    FlattenPrefix(p, 0);
    FlattenPrefix(p, 1);
    FlattenPrefix(p, 2);
    FlattenPrefix(p, 3);
    FlattenPrefix(p, 4);
    FlattenPrefix(p, 5);
    FlattenPrefix(p, 6);
    FlattenPrefix(p, 7);
    FlattenPrefix(p, 8);
    assert [] + p[0] == p[0];
  }

  lemma {:induction false} FlattenPrefix(parts: seq<seq<byte>>, n: nat)
    requires n < |parts|
    ensures Flatten(parts[..n + 1]) == Flatten(parts[..n]) + parts[n]
    decreases n
  {
    if n == 0 {
      assert parts[..1][1..] == [] && parts[0] + [] == [] + parts[0];
    } else {
      FlattenPrefix(parts[1..], n - 1);
      assert parts[..n + 1][1..] == parts[1..][..n] && parts[..n][1..] == parts[1..][..n - 1];
      assert parts[0] + (Flatten(parts[1..][..n - 1]) + parts[n]) == (parts[0] + Flatten(parts[1..][..n - 1])) + parts[n];
    }
  }

  /** Replacing one part changes the concatenation. */
  lemma {:induction false} FlattenIff(parts: seq<seq<byte>>, i: nat, v: seq<byte>)
    requires i < |parts|
    ensures Flatten(parts[i := v]) == Flatten(parts) <==> v == parts[i]
    decreases i
  {
    var changed := parts[i := v];
    if i == 0 {
      assert changed[1..] == parts[1..];
      SameTail(v, parts[0], Flatten(parts[1..]));
    } else {
      assert changed[1..] == parts[1..][i - 1 := v];
      FlattenIff(parts[1..], i - 1, v);
      SameFront(parts[0], Flatten(changed[1..]), Flatten(parts[1..]));
    }
  }

  lemma SameTail(s: seq<byte>, t: seq<byte>, tail: seq<byte>)
    ensures s + tail == t + tail <==> s == t
  {
    if s + tail == t + tail {
      assert (s + tail)[..|s|] == s && (t + tail)[..|t|] == t;
    }
  }

  lemma SameFront(front: seq<byte>, s: seq<byte>, t: seq<byte>)
    ensures front + s == front + t <==> s == t
  {
    if front + s == front + t {
      assert (front + s)[|front|..] == s && (front + t)[|front|..] == t;
    }
  }

  /** An edit of one hashed field. */
  datatype Edit =
    | SetNumber(n: u64)
    | SetEventId(s: seq<byte>)
    | SetTimestamp(s: seq<byte>)
    | SetEventType(s: seq<byte>)
    | SetActor(s: seq<byte>)
    | SetResource(s: seq<byte>)
    | SetStatus(s: seq<byte>)
    | SetDetails(s: seq<byte>)
    | SetPrevHash(s: seq<byte>)

  function Edited(e: AuditEvent, edit: Edit): AuditEvent {
    match edit
    case SetNumber(n) => e.(sequenceNumber := n)
    case SetEventId(s) => e.(eventId := s)
    case SetTimestamp(s) => e.(timestamp := s)
    case SetEventType(s) => e.(eventType := s)
    case SetActor(s) => e.(actor := s)
    case SetResource(s) => e.(resource := s)
    case SetStatus(s) => e.(status := s)
    case SetDetails(s) => e.(details := s)
    case SetPrevHash(s) => e.(prevHash := s)
  }

  /** The piece an edit replaces, and what with. */
  function PieceOf(edit: Edit): (nat, seq<byte>) {
    match edit
    case SetNumber(n) => (0, BE(n, 8))
    case SetEventId(s) => (1, s)
    case SetTimestamp(s) => (2, s)
    case SetEventType(s) => (3, s)
    case SetActor(s) => (4, s)
    case SetResource(s) => (5, s)
    case SetStatus(s) => (6, s)
    case SetDetails(s) => (7, s)
    case SetPrevHash(s) => (8, s)
  }

  /** Each of the nine fields is hashed: editing one leaves the hashed bytes as they were only by
      leaving the field as it was. */
  lemma EveryFieldIsHashed(e: AuditEvent, edit: Edit)
    ensures HashedBytes(Edited(e, edit)) == HashedBytes(e) <==> Edited(e, edit) == e
  {
    hide BE, FromBE, HashedBytes;
    var f := Edited(e, edit);
    var (i, v) := PieceOf(edit);
    HashedBytesAre(e);
    HashedBytesAre(f);
    assert Pieces(f) == Pieces(e)[i := v];
    FlattenIff(Pieces(e), i, v);
    if edit.SetNumber? {
      Pow256Values();
      FromBEOfBE(e.sequenceNumber, 8);
      FromBEOfBE(edit.n, 8);
    }
  }

  /** The order of the fields, on one-byte values: the number comes first, most significant byte first. */
  lemma HashedOrder(a: byte, b: byte, c: byte, d: byte, e: byte, f: byte, g: byte, h: byte)
    ensures HashedBytes(AuditEvent(0x0102030405060708, [a], [b], [c], [d], [e], [f], [g], [h], []))
            == [1, 2, 3, 4, 5, 6, 7, 8, a, b, c, d, e, f, g, h]
  {
    NumberSpelled();
    hide BE;
    assert BE(0x0102030405060708, 8) == [1, 2, 3, 4, 5, 6, 7, 8];
  }

  lemma NumberSpelled()
    ensures BE(0x0102030405060708, 8) == [1, 2, 3, 4, 5, 6, 7, 8]
  {
    hide ToByte;
    SpelledBytes();
  }

  lemma SpelledBytes()
    ensures ToByte(0x01) == 1 && ToByte(0x0102) == 2 && ToByte(0x010203) == 3 && ToByte(0x01020304) == 4
    ensures ToByte(0x0102030405) == 5 && ToByte(0x010203040506) == 6 && ToByte(0x01020304050607) == 7
    ensures ToByte(0x0102030405060708) == 8
  {
    hide ToByte;
    ToByteIs(0x01, 1);
    ToByteIs(0x0102, 2);
    ToByteIs(0x010203, 3);
    ToByteIs(0x01020304, 4);
    ToByteIs(0x0102030405, 5);
    ToByteIs(0x010203040506, 6);
    ToByteIs(0x01020304050607, 7);
    ToByteIs(0x0102030405060708, 8);
  }

  /** Editing one hashed field of an event, its stored hash kept, is reported at that event, or else
      exhibits two inputs with one hash. */
  lemma EditIsReported(hasher: Hasher, chain: seq<AuditEvent>, i: nat, edit: Edit)
    requires Verifies(hasher, chain) && i < |chain| && Edited(chain[i], edit) != chain[i]
    ensures var x, y := HashedBytes(chain[i]), HashedBytes(Edited(chain[i], edit));
            FirstBad(hasher, chain[i := Edited(chain[i], edit)], Some(i)) || (x != y && hasher(x) == hasher(y))
  {
    hide HashedBytes, FirstBad;
    EveryFieldIsHashed(chain[i], edit);
    assert EventOk(hasher, chain, i);
    TamperIsLocalised(hasher, chain, i, Edited(chain[i], edit));
  }

  /** Edits of several fields are another matter, as nothing stands between the fields: moving the first
      byte of the resource to the end of the actor changes no hash and is not reported. */
  lemma SlideIsNotReported(hasher: Hasher, chain: seq<AuditEvent>, i: nat)
    requires Verifies(hasher, chain) && i < |chain| && chain[i].resource != []
    ensures var e := chain[i];
            var slid := e.(actor := e.actor + [e.resource[0]], resource := e.resource[1..]);
            slid != e && FirstBad(hasher, chain[i := slid], None)
  {
    var e := chain[i];
    var slid := e.(actor := e.actor + [e.resource[0]], resource := e.resource[1..]);
    var front := BE(e.sequenceNumber, 8) + e.eventId + e.timestamp + e.eventType;
    hide BE, FirstBad;
    SlideKeeps(front, e.actor, e.resource);
    assert HashedBytes(slid) == HashedBytes(e);
    assert |slid.actor| != |e.actor|;
    assert EventOk(hasher, chain, i);
    TamperIsLocalised(hasher, chain, i, slid);
  }

  lemma SlideKeeps(front: seq<byte>, a: seq<byte>, b: seq<byte>)
    requires b != []
    ensures front + (a + [b[0]]) + b[1..] == front + a + b
  {
    assert b == [b[0]] + b[1..];
  }
}
