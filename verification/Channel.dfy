/**
 The counter discipline of the secure channel. Sealing is ideal authenticated
 encryption: a packet either carries a sealed word and plaintext, or is forged.
 */
module Channel {
  import opened Prelude
  import opened Replay

  const DIRECTION_BIT := 0x8000_0000_0000_0000
  const MAX_COUNTER := DIRECTION_BIT - 1

  type Counter = c: int | 0 <= c <= MAX_COUNTER

  datatype Role = Client | Server

  datatype Direction = ClientToServer | ServerToClient

  datatype SealError = CounterExhausted | EncryptionFailed
  datatype OpenError = PacketTooShort | AuthenticationFailed | UnexpectedDirection

  datatype Packet = Short | Forged | Sealed(word: u64, plaintext: seq<byte>)

  function Outbound(role: Role): Direction {
    if role == Client then ClientToServer else ServerToClient
  }

  function Inbound(role: Role): Direction {
    if role == Client then ServerToClient else ClientToServer
  }

  /** `PacketDirection::encode`: the direction is the top bit of the nonce word. */
  function EncodeWord(direction: Direction, counter: Counter): u64 {
    match direction
    case ClientToServer => counter
    case ServerToClient => counter + DIRECTION_BIT
  }

  /** `PacketDirection::decode`. */
  function DecodeWord(word: u64): (Direction, Counter) {
    (if word < DIRECTION_BIT then ClientToServer else ServerToClient, word % DIRECTION_BIT)
  }

  /** `make_nonce`: four zero bytes, then the word in network order. */
  function Nonce(word: u64): (nonce: seq<byte>)
    ensures |nonce| == 12
  {
    [0, 0, 0, 0] + BigEndian(word, 8)
  }

  lemma WordRoundTrip(direction: Direction, counter: Counter)
    ensures DecodeWord(EncodeWord(direction, counter)) == (direction, counter)
  {
  }

  /** Different directions or counters give different nonces. */
  lemma NoncesDiffer(d1: Direction, c1: Counter, d2: Direction, c2: Counter)
    requires Nonce(EncodeWord(d1, c1)) == Nonce(EncodeWord(d2, c2))
    ensures d1 == d2 && c1 == c2
  {
    var w1, w2 := EncodeWord(d1, c1), EncodeWord(d2, c2);
    EightBytes();
    BigEndianRoundTrip(w1, 8);
    BigEndianRoundTrip(w2, 8);
    assert BigEndian(w1, 8) == Nonce(w1)[4..];
    assert BigEndian(w2, 8) == Nonce(w2)[4..];
    WordRoundTrip(d1, c1);
    WordRoundTrip(d2, c2);
  }

  /** The counter after `sealed` successful seals: exhausted once all 2^63 are spent. */
  function NextCounter(sealed: nat): Option<Counter> {
    if sealed <= MAX_COUNTER then Some(sealed) else None
  }

  class SecureChannel {
    const role: Role
    var nextCounter: Option<Counter>
    ghost var sealed: nat   // successful seals so far

    ghost predicate Valid()
      reads this
    {
      nextCounter == NextCounter(sealed) && sealed <= MAX_COUNTER + 1
    }

    constructor (role: Role)
      ensures this.role == role && Valid() && sealed == 0
    {
      this.role, nextCounter, sealed := role, Some(0), 0;
    }

    /** Seals with the next counter; a failing cipher leaves the counter unspent and emits nothing. */
    method SealNext(plaintext: seq<byte>, cipherWorks: bool) returns (r: Result<Packet, SealError>)
      requires Valid()
      modifies this
      ensures Valid()
      ensures r == if old(sealed) > MAX_COUNTER then Err(CounterExhausted)
                   else if !cipherWorks then Err(EncryptionFailed)
                   else Ok(Sealed(EncodeWord(Outbound(role), old(sealed)), plaintext))
      ensures sealed == old(sealed) + if r.Ok? then 1 else 0
    {
      if nextCounter.None? {
        return Err(CounterExhausted);
      }
      var counter: int := nextCounter.value;
      if !cipherWorks {
        return Err(EncryptionFailed);
      }
      nextCounter := if counter + 1 <= MAX_COUNTER then Some(counter + 1) else None;
      sealed := sealed + 1;
      return Ok(Sealed(EncodeWord(Outbound(role), counter), plaintext));
    }

    /** Opens a packet: plaintext comes out only when it is authentic and travelled towards us. */
    method Open(packet: Packet) returns (r: Result<(Counter, seq<byte>), OpenError>)
      ensures r == Opened(role, packet)
    {
      match packet {
        case Short => return Err(PacketTooShort);
        case Forged => return Err(AuthenticationFailed);
        case Sealed(word, plaintext) =>
          var (direction, counter) := DecodeWord(word);
          if direction != Inbound(role) {
            return Err(UnexpectedDirection);
          }
          return Ok((counter, plaintext));
      }
    }
  }

  function Opened(role: Role, packet: Packet): Result<(Counter, seq<byte>), OpenError> {
    match packet
    case Short => Err(PacketTooShort)
    case Forged => Err(AuthenticationFailed)
    case Sealed(word, plaintext) =>
      if DecodeWord(word).0 != Inbound(role) then Err(UnexpectedDirection)
      else Ok((DecodeWord(word).1, plaintext))
  }

  // ---- On the wire ----------------------------------------------------------

  /** What one side seals the other opens as it was, and the side itself refuses. */
  lemma SidesMatch(counter: Counter, plaintext: seq<byte>)
    ensures var (fromClient, fromServer) :=
              (Sealed(EncodeWord(Outbound(Client), counter), plaintext),
               Sealed(EncodeWord(Outbound(Server), counter), plaintext));
            && Opened(Server, fromClient) == Opened(Client, fromServer) == Ok((counter, plaintext))
            && Opened(Client, fromClient) == Opened(Server, fromServer) == Err(UnexpectedDirection)
  {
    WordRoundTrip(Outbound(Client), counter);
    WordRoundTrip(Outbound(Server), counter);
  }

  /** A client's words are its counters, a server's have the top bit set, and a nonce is four zeros before the word. */
  lemma WordsOnTheWire(counter: Counter)
    ensures EncodeWord(Outbound(Client), counter) == counter < 9_223_372_036_854_775_808
    ensures EncodeWord(Outbound(Server), counter) == 9_223_372_036_854_775_808 + counter
    ensures forall role :: var word := EncodeWord(Outbound(role), counter);
              Nonce(word)[..4] == [0, 0, 0, 0] && FromBigEndian(Nonce(word)[4..]) == word
  {
    EightBytes();
    forall role
      ensures var word := EncodeWord(Outbound(role), counter);
              Nonce(word)[..4] == [0, 0, 0, 0] && FromBigEndian(Nonce(word)[4..]) == word
    {
      var word := EncodeWord(Outbound(role), counter);
      BigEndianRoundTrip(word, 8);
      assert Nonce(word)[4..] == BigEndian(word, 8);
    }
  }

  // ---- Two peers sharing one key -------------------------------------------

  /** One attempt to seal: by whom, what, and whether the cipher worked. */
  datatype Attempt = Attempt(role: Role, plaintext: seq<byte>, cipherWorks: bool)

  /** How many packets `role` has sealed over the attempts. */
  function SealedBy(role: Role, attempts: seq<Attempt>): (count: nat)
    ensures count <= MAX_COUNTER + 1
  {
    if attempts == [] then 0
    else
      var before := SealedBy(role, attempts[..|attempts| - 1]);
      var last := attempts[|attempts| - 1];
      if last.role == role && last.cipherWorks && before <= MAX_COUNTER then before + 1 else before
  }

  /** The packet attempt `i` puts on the wire, if any. */
  function Emitted(attempts: seq<Attempt>, i: nat): Option<Packet>
    requires i < |attempts|
  {
    var a := attempts[i];
    var count := SealedBy(a.role, attempts[..i]);
    if !a.cipherWorks || count > MAX_COUNTER then None
    else Some(Sealed(EncodeWord(Outbound(a.role), count), a.plaintext))
  }

  lemma {:induction false} LaterSealsCountHigher(attempts: seq<Attempt>, i: nat, j: nat)
    requires i < j <= |attempts| && Emitted(attempts, i).Some?
    ensures SealedBy(attempts[i].role, attempts[..j]) > SealedBy(attempts[i].role, attempts[..i])
    decreases j
  {
    assert attempts[..j][..j - 1] == attempts[..j - 1];
    if i < j - 1 { LaterSealsCountHigher(attempts, i, j - 1); }
  }

  /** No two packets of the two peers ever share a nonce (RFC 7253, section 5.1). */
  lemma NoncesNeverRepeat(attempts: seq<Attempt>, i: nat, j: nat)
    requires i < j < |attempts| && Emitted(attempts, i).Some? && Emitted(attempts, j).Some?
    ensures Nonce(Emitted(attempts, i).value.word) != Nonce(Emitted(attempts, j).value.word)
  {
    LaterSealsCountHigher(attempts, i, j);
    if Nonce(Emitted(attempts, i).value.word) == Nonce(Emitted(attempts, j).value.word) {
      NoncesDiffer(Outbound(attempts[i].role), SealedBy(attempts[i].role, attempts[..i]),
                   Outbound(attempts[j].role), SealedBy(attempts[j].role, attempts[..j]));
    }
  }

  /** A receiver opens each delivery and offers the counters that open to its replay window. */
  ghost function Offered(role: Role, deliveries: seq<Packet>): seq<u64> {
    if deliveries == [] then []
    else
      var last := Opened(role, deliveries[|deliveries| - 1]);
      Offered(role, deliveries[..|deliveries| - 1]) + if last.Ok? then [last.value.0] else []
  }

  /** Whether delivery `i` opens and passes the replay window. */
  ghost predicate Received(role: Role, deliveries: seq<Packet>, i: nat)
    requires i < |deliveries|
  {
    var plain := Opened(role, deliveries[i]);
    plain.Ok? && AcceptedAt(Offered(role, deliveries[..i]) + [plain.value.0], |Offered(role, deliveries[..i])|)
  }

  /** Every delivery is a packet some attempt emitted, or noise; any order, any repetition. */
  ghost predicate FromWire(attempts: seq<Attempt>, deliveries: seq<Packet>, origin: seq<nat>) {
    && |origin| == |deliveries|
    && forall k :: 0 <= k < |deliveries| ==>
         deliveries[k].Sealed? ==> origin[k] < |attempts| && Emitted(attempts, origin[k]) == Some(deliveries[k])
  }

  lemma {:induction false} OfferedPrefix(role: Role, deliveries: seq<Packet>, i: nat, j: nat)
    requires i < j <= |deliveries| && Opened(role, deliveries[i]).Ok?
    ensures Offered(role, deliveries[..i]) + [Opened(role, deliveries[i]).value.0] <= Offered(role, deliveries[..j])
  {
    assert deliveries[..j][..j - 1] == deliveries[..j - 1];
    if i < j - 1 { OfferedPrefix(role, deliveries, i, j - 1); }
  }

  /**
   Two accepted deliveries come from two different sealed packets: however the
   network repeats and reorders, each sealed packet is accepted at most once.
   */
  lemma AcceptedAtMostOnce(role: Role, attempts: seq<Attempt>, deliveries: seq<Packet>, origin: seq<nat>, i: nat,
                           j: nat)
    requires FromWire(attempts, deliveries, origin)
    requires i < j < |deliveries| && Received(role, deliveries, i) && Received(role, deliveries, j)
    ensures origin[i] != origin[j]
    ensures Emitted(attempts, origin[i]).value != Emitted(attempts, origin[j]).value
  {
    var first := Offered(role, deliveries[..i]) + [Opened(role, deliveries[i]).value.0];
    var second := Offered(role, deliveries[..j]) + [Opened(role, deliveries[j]).value.0];
    OfferedPrefix(role, deliveries, i, j);
    assert first <= second;
    assert second[..|first| - 1] == first[..|first| - 1];
    NeverTwice(second, |first| - 1, |second| - 1);
  }

  /** A fresh packet that arrives in order is accepted: the filter refuses only repeats and the very old. */
  lemma NewestIsAccepted(offered: seq<u64>, counter: u64)
    requires forall c :: c in offered ==> c < counter
    ensures AcceptedAt(offered + [counter], |offered|)
  {
    assert (offered + [counter])[..|offered|] == offered;
    HighestIsKept(offered);
    OnlyOffered(offered);
  }

  lemma {:induction false} OnlyOffered(offered: seq<u64>)
    ensures forall c :: c in AcceptedAfter(offered).0 ==> c in offered
  {
    if offered != [] { OnlyOffered(offered[..|offered| - 1]); }
  }
}
