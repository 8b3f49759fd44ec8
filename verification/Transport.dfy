/** One direction of a tunnel: what the sender seals, what the network may do to it, and what
    the receiver lets through. */
module Transport {
  import opened Words
  import opened Net
  import opened Headers
  import opened Crypto
  import opened ReplayBits
  import opened ReplaySpec

  /** A data packet on the wire: sixteen header bytes and a box. */
  datatype DataPacket = DataPacket(head: Head, box: Ciphertext)

  function DataHeader(remoteIndex: u32, counter: u64): Header {
    Header(VERSION, TYPE_MESSAGE, 0, remoteIndex, counter)
  }

  /** What is sent for one plaintext; the header's bytes are sealed in as additional data. */
  function Seal(key: Key, remoteIndex: u32, counter: u64, p: Payload): DataPacket {
    var head := ToBytes(DataHeader(remoteIndex, counter));
    DataPacket(head, Encrypt(key, counter, head, p))
  }

  /** The counter of send number `i`, counting from zero: the 64-bit counter is bumped first
      and wraps. */
  function CounterOf(i: nat): u64 {
    (i + 1) % U64_SIZE
  }

  /** A tunnel direction: its key, and the index the receiver gave the session. */
  datatype Channel = Channel(key: Key, index: u32)

  function Sending(ch: Channel, ps: seq<Payload>, i: nat): DataPacket
    requires i < |ps|
  {
    Seal(ch.key, ch.index, CounterOf(i), ps[i])
  }

  lemma SealedHeader(remoteIndex: u32, counter: u64)
    ensures Parse(ToBytes(DataHeader(remoteIndex, counter))) == Parsed(DataHeader(remoteIndex, counter))
  {
    var h := DataHeader(remoteIndex, counter);
    RoundTripExactly(h, []);
    assert ToBytes(h) + [] == ToBytes(h);
  }

  // ---------- Nonces ----------

  /** Two sends of a session use the same nonce exactly when they are a multiple of 2^64 apart,
      so never within fewer than 2^64 sends; and the nonce is the one of the counter in the
      authenticated header. */
  lemma NoncesRepeatExactly(ch: Channel, ps: seq<Payload>, i: nat, j: nat)
    requires i < |ps| && j < |ps|
    ensures var a, b := Sending(ch, ps, i), Sending(ch, ps, j);
            && (a.box.nonce == b.box.nonce <==> i % U64_SIZE == j % U64_SIZE)
            && (|ps| < U64_SIZE ==> (a.box.nonce == b.box.nonce <==> i == j))
            && Parse(a.box.ad).Parsed? && a.box.nonce == CounterNonce(Parse(a.box.ad).header.counter)
  {
    hide CounterNonce, ToBytes, Parse, CounterOf;
    NonceDeterminesCounter(CounterOf(i), CounterOf(j));
    CountersRepeat(i, j);
    SealedHeader(ch.index, CounterOf(i));
  }

  lemma CountersRepeat(i: nat, j: nat)
    ensures CounterOf(i) == CounterOf(j) <==> i % U64_SIZE == j % U64_SIZE
  {
  }

  lemma NoWrap(i: nat)
    requires i + 1 < U64_SIZE
    ensures CounterOf(i) == i + 1
  {
  }

  // ---------- Arrivals ----------

  /** The packet gets as far as the session's replay check: its header parses, is a data header,
      and carries the session's index. */
  predicate GetsThere(ch: Channel, pkt: DataPacket) {
    var r := Parse(pkt.head);
    r.Parsed? && r.header.kind == TYPE_MESSAGE && r.header.remoteIndex == ch.index
  }

  lemma SendGetsThere(ch: Channel, ps: seq<Payload>, i: nat)
    requires i < |ps|
    ensures GetsThere(ch, Sending(ch, ps, i))
  {
    hide ToBytes, Parse;
    SealedHeader(ch.index, CounterOf(i));
  }

  function Counter(ch: Channel, pkt: DataPacket): u64
    requires GetsThere(ch, pkt)
  {
    Parse(pkt.head).header.counter
  }

  function Open(ch: Channel, pkt: DataPacket): Option<Payload>
    requires GetsThere(ch, pkt)
  {
    Decrypt(ch.key, Counter(ch, pkt), pkt.head, pkt.box)
  }

  ghost predicate AllGetThere(ch: Channel, pkts: seq<DataPacket>) {
    forall j :: 0 <= j < |pkts| ==> GetsThere(ch, pkts[j])
  }

  function Counters(ch: Channel, pkts: seq<DataPacket>): (cs: seq<nat>)
    requires AllGetThere(ch, pkts)
    ensures |cs| == |pkts| && forall j :: 0 <= j < |pkts| ==> cs[j] == Counter(ch, pkts[j])
  {
    seq(|pkts|, j requires 0 <= j < |pkts| => Counter(ch, pkts[j]))
  }

  /** Arrival `j` passes the replay check and opens to `p`. The check marks the counter whether
      or not the box opens. */
  ghost predicate Delivered(ch: Channel, pkts: seq<DataPacket>, j: nat, p: Payload)
    requires AllGetThere(ch, pkts)
  {
    j < |pkts| && Passes(Counters(ch, pkts), j) && Open(ch, pkts[j]) == Some(p)
  }

  /** Nobody but the sender seals under the channel's key: whatever the network makes of the
      packets, a box under that key is one that was sent. Headers may be altered at will. */
  ghost predicate NoForgery(ch: Channel, ps: seq<Payload>, pkts: seq<DataPacket>) {
    forall j :: 0 <= j < |pkts| && pkts[j].box.Sealed? && pkts[j].box.key == ch.key ==>
      exists i: nat :: i < |ps| && pkts[j].box == Sending(ch, ps, i).box
  }

  /** A box that opens came in the packet it was sent in, header included. */
  lemma OpensOnlyUnaltered(ch: Channel, ps: seq<Payload>, pkt: DataPacket, i: nat)
    requires GetsThere(ch, pkt) && i < |ps| && pkt.box == Sending(ch, ps, i).box
    ensures Open(ch, pkt) == (if pkt == Sending(ch, ps, i) then Some(ps[i]) else None)
    ensures pkt == Sending(ch, ps, i) ==> Counter(ch, pkt) == CounterOf(i)
  {
    var sent := Sending(ch, ps, i);
    OpensExactly(ch.key, CounterOf(i), sent.head, ps[i], ch.key, Counter(ch, pkt), pkt.head);
    SealedHeader(ch.index, CounterOf(i));
  }

  /** Arrival `j` is delivered, whatever it holds. */
  predicate LetThrough(ch: Channel, pkts: seq<DataPacket>, j: nat)
    requires AllGetThere(ch, pkts)
  {
    j < |pkts| && Passes(Counters(ch, pkts), j) && Open(ch, pkts[j]).Some?
  }

  lemma LetThroughInRange(ch: Channel, pkts: seq<DataPacket>)
    requires AllGetThere(ch, pkts)
    ensures forall j: nat :: LetThrough(ch, pkts, j) ==> j < |pkts|
  {
  }

  /** Arrival `j` delivers send `i`: the same plaintext in the same packet, under its counter. */
  ghost predicate Comes(ch: Channel, ps: seq<Payload>, pkts: seq<DataPacket>, j: nat, i: nat)
    requires AllGetThere(ch, pkts)
  {
    && i < |ps| && j < |pkts| && Delivered(ch, pkts, j, ps[i]) && pkts[j] == Sending(ch, ps, i)
    && Counters(ch, pkts)[j] == CounterOf(i)
  }

  lemma DeliveredWasSent(ch: Channel, ps: seq<Payload>, pkts: seq<DataPacket>, j: nat, p: Payload) returns (i: nat)
    requires AllGetThere(ch, pkts) && NoForgery(ch, ps, pkts) && Delivered(ch, pkts, j, p)
    ensures Comes(ch, ps, pkts, j, i) && ps[i] == p
  {
    i :| i < |ps| && pkts[j].box == Sending(ch, ps, i).box;
    OpensOnlyUnaltered(ch, ps, pkts[j], i);
  }

  lemma LetThroughWasSent(ch: Channel, ps: seq<Payload>, pkts: seq<DataPacket>, j: nat) returns (i: nat)
    requires AllGetThere(ch, pkts) && NoForgery(ch, ps, pkts) && LetThrough(ch, pkts, j)
    ensures Comes(ch, ps, pkts, j, i)
  {
    i := DeliveredWasSent(ch, ps, pkts, j, Open(ch, pkts[j]).value);
  }

  lemma OneDeliveryPerSend(ch: Channel, ps: seq<Payload>, pkts: seq<DataPacket>, j: nat, k: nat, i: nat)
    requires AllGetThere(ch, pkts) && Comes(ch, ps, pkts, j, i) && Comes(ch, ps, pkts, k, i)
    ensures j == k
  {
    hide Open, CounterOf, GetsThere, Sending;
    if j < k {
      NeverTwice(Counters(ch, pkts), j, k);
    } else if k < j {
      NeverTwice(Counters(ch, pkts), k, j);
    }
  }

  /** Every delivered plaintext is one that was sent, under its own counter and unchanged, and
      different deliveries come from different sends. `origin` says which. */
  lemma DeliveryIsSafe(ch: Channel, ps: seq<Payload>, pkts: seq<DataPacket>) returns (origin: map<nat, nat>)
    requires AllGetThere(ch, pkts) && NoForgery(ch, ps, pkts)
    ensures forall j: nat :: j in origin <==> LetThrough(ch, pkts, j)
    ensures forall j: nat :: j in origin ==> Comes(ch, ps, pkts, j, origin[j])
    ensures forall j, k :: j in origin && k in origin && origin[j] == origin[k] ==> j == k
  {
    hide LetThrough, Comes, NoForgery, AllGetThere;
    origin := map[];
    for n := 0 to |pkts|
      invariant forall j: nat :: j in origin ==> j < n && Comes(ch, ps, pkts, j, origin[j])
      invariant forall j: nat :: j < n ==> (j in origin <==> LetThrough(ch, pkts, j))
    {
      if LetThrough(ch, pkts, n) {
        var i := LetThroughWasSent(ch, ps, pkts, n);
        origin := origin[n := i];
      }
    }
    LetThroughInRange(ch, pkts);
    forall j, k | j in origin && k in origin && origin[j] == origin[k]
      ensures j == k
    {
      OneDeliveryPerSend(ch, ps, pkts, j, k, origin[j]);
    }
  }

  /** With fewer than 2^64 sends, the counter alone names the plaintext. */
  lemma CounterNamesPlaintext(ch: Channel, ps: seq<Payload>, pkts: seq<DataPacket>, j: nat, p: Payload)
    requires AllGetThere(ch, pkts) && NoForgery(ch, ps, pkts) && Delivered(ch, pkts, j, p) && |ps| < U64_SIZE
    ensures var c := Counters(ch, pkts)[j]; 1 <= c <= |ps| && p == ps[c - 1]
  {
    hide Open, Counter, Counters, Passes, CounterOf, GetsThere, Sending, NoForgery, AllGetThere;
    var i := DeliveredWasSent(ch, ps, pkts, j, p);
    NoWrap(i);
  }

  /** An unaltered packet is delivered exactly when no earlier arrival, genuine or not, took its
      counter or one at least 4096 higher. */
  lemma GenuineDeliveredExactly(ch: Channel, ps: seq<Payload>, pkts: seq<DataPacket>, j: nat, i: nat)
    requires AllGetThere(ch, pkts) && j < |pkts| && i < |ps| && pkts[j] == Sending(ch, ps, i)
    ensures Delivered(ch, pkts, j, ps[i]) <==> !PassedAtOrBeyond(Counters(ch, pkts)[..j], CounterOf(i))
  {
    OpensOnlyUnaltered(ch, ps, pkts[j], i);
    TurnedAwayExactly(Counters(ch, pkts)[..j], CounterOf(i));
  }

  /** All arrivals are packets as they were sent. */
  ghost predicate Unaltered(ch: Channel, ps: seq<Payload>, pkts: seq<DataPacket>) {
    forall j :: 0 <= j < |pkts| ==> exists i: nat :: i < |ps| && pkts[j] == Sending(ch, ps, i)
  }

  /** On a network that alters nothing and reorders by less than 4096, every send that arrives
      is delivered, at its first copy and at no other. */
  lemma ReorderingIsTolerated(ch: Channel, ps: seq<Payload>, pkts: seq<DataPacket>, j: nat, i: nat)
    requires AllGetThere(ch, pkts) && Unaltered(ch, ps, pkts) && WithinWindow(Counters(ch, pkts)) && |ps| < U64_SIZE
    requires j < |pkts| && i < |ps| && pkts[j] == Sending(ch, ps, i)
    ensures Delivered(ch, pkts, j, ps[i]) <==> pkts[j] !in pkts[..j]
  {
    var cs := Counters(ch, pkts);
    OpensOnlyUnaltered(ch, ps, pkts[j], i);
    FirstCopiesPass(cs, j);
    SameCounterSamePacket(ch, ps, pkts, j, i);
  }

  lemma SameCounterSamePacket(ch: Channel, ps: seq<Payload>, pkts: seq<DataPacket>, j: nat, i: nat)
    requires AllGetThere(ch, pkts) && Unaltered(ch, ps, pkts) && |ps| < U64_SIZE
    requires j < |pkts| && i < |ps| && pkts[j] == Sending(ch, ps, i)
    ensures Counters(ch, pkts)[j] in Counters(ch, pkts)[..j] <==> pkts[j] in pkts[..j]
  {
    hide Open, CounterOf, GetsThere, Sending, Counter;
    var cs := Counters(ch, pkts);
    OpensOnlyUnaltered(ch, ps, pkts[j], i);
    NoWrap(i);
    if cs[j] in cs[..j] {
      var h :| 0 <= h < j && cs[h] == cs[j];
      var i': nat :| i' < |ps| && pkts[h] == Sending(ch, ps, i');
      OpensOnlyUnaltered(ch, ps, pkts[h], i');
      NoWrap(i');
      assert pkts[..j][h] == pkts[j];
    }
    if pkts[j] in pkts[..j] {
      var h :| 0 <= h < j && pkts[h] == pkts[j];
      assert cs[..j][h] == cs[j];
    }
  }

  /** A genuine packet can be refused: a packet nobody sealed, with a forged counter 4096 or more
      above, is not delivered itself but keeps the genuine one that follows it out. */
  lemma ForgedCounterBlocksGenuine(ch: Channel, p: Payload, c: u64) returns (pkts: seq<DataPacket>)
    requires c > SLOTS
    ensures AllGetThere(ch, pkts) && NoForgery(ch, [p], pkts) && |pkts| == 2 && pkts[1] == Sending(ch, [p], 0)
    ensures !LetThrough(ch, pkts, 0) && !Delivered(ch, pkts, 1, p)
  {
    hide Parse, ToBytes;
    var forged := DataPacket(ToBytes(DataHeader(ch.index, c)), Noise([]));
    pkts := [forged, Sending(ch, [p], 0)];
    SealedHeader(ch.index, c);
    SealedHeader(ch.index, 1);
    var cs := Counters(ch, pkts);
    assert cs[..0] == [] && cs[..1] == [c] && cs[..1][..0] == [];
    assert Passes(cs[..1], 0);
    GenuineDeliveredExactly(ch, [p], pkts, 1, 0);
  }
}
