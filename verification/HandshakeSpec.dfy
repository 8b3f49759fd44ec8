/** The handshake manager on values: pending handshakes, their retries and queues, and what
    each packet and tick does to them. */
module HandshakeSpec {
  import opened Words
  import opened Net
  import opened Crypto

  type Time = int  // nanoseconds

  const MAX_PENDING_PACKETS := 50
  const MAX_ATTEMPTS := 10
  const MILLISECOND: Time := 1_000_000
  const RETRY_BASE: Time := 500 * MILLISECOND
  const RETRY_MAX: Time := 30_000 * MILLISECOND

  // ---------- Packets ----------

  datatype Details = Details(cert: Cert, initiatorIndex: u32, responderIndex: u32)

  /** A keyed digest of everything in the envelope. */
  datatype Mac = Mac(key: Digest, details: Details, noise: NoiseMessage)

  /** The body of a handshake packet; `Malformed` is one whose message, details or certificate
      does not parse. */
  datatype Body = Malformed | Body(details: Details, noise: NoiseMessage, mac: Mac)

  datatype Packet = Packet(remoteIndex: u32, body: Body)

  function Envelope(details: Details, noise: NoiseMessage): Body {
    Body(details, noise, Mac(details.cert.fingerprint, details, noise))
  }

  /** The envelope parses, its certificate is trusted at the moment, and its digest is right. */
  predicate Authentic(b: Body, trusted: set<Cert>) {
    b.Body? && b.details.cert in trusted && b.mac == Mac(b.details.cert.fingerprint, b.details, b.noise)
  }

  datatype Session = Session(vpnIP: Addr, remote: UdpAddr, index: u32, remoteIndex: u32, ciphers: CipherPair,
                             cert: Cert)

  // ---------- The responder ----------

  /** Whether the responder `local` goes along with a stage-0 body. */
  predicate Accepts(local: Cert, b: Body, trusted: set<Cert>) {
    Authentic(b, trusted) &&
    ResponderReads(local.publicKey, XorBytes(local.fingerprint, b.details.cert.fingerprint), b.noise)
  }

  function ResponderTranscript(b: Body, er: Ephemeral): Transcript
    requires b.Body? && b.noise.First?
  {
    Transcript(b.noise.init, er)
  }

  function Reply(local: Cert, b: Body, index: u32, er: Ephemeral): Packet
    requires b.Body? && b.noise.First?
  {
    Packet(b.details.initiatorIndex,
           Envelope(Details(local, b.details.initiatorIndex, index), Second(ResponderTranscript(b, er))))
  }

  function ResponderSession(b: Body, from: UdpAddr, index: u32, er: Ephemeral): Session
    requires b.Body? && b.noise.First?
  {
    Session(b.details.cert.vpnIP, from, index, b.details.initiatorIndex,
            SessionCiphers(ResponderTranscript(b, er), false), b.details.cert)
  }

  // ---------- The initiator's pending handshakes ----------

  /** `serial` numbers the handshakes a manager has started. */
  datatype Pending = Pending(serial: nat, state: Initiator, localIndex: u32, remoteVpnIP: Addr, remoteAddr: UdpAddr,
                             queue: seq<Payload>, attempts: nat, nextRetry: Time, stage0: Packet)

  /** The two tables of a manager, how many handshakes it started, and which of them were
      answered or expired. */
  datatype Manager = Manager(pending: map<Addr, Pending>, index: map<u32, Addr>,
                             started: nat, answered: set<nat>, expired: set<nat>)

  const NEW := Manager(map[], map[], 0, {}, {})

  function NewState(local: Cert, remote: Cert, e: Ephemeral): Initiator {
    Initiator(e, local.publicKey, remote.publicKey, XorBytes(local.fingerprint, remote.fingerprint))
  }

  function Stage0(local: Cert, state: Initiator, index: u32): Packet {
    Packet(0, Envelope(Details(local, index, 0), First(state)))
  }

  function NewPending(local: Cert, serial: nat, ip: Addr, addr: UdpAddr, remote: Cert, index: u32, e: Ephemeral,
                      now: Time): Pending {
    var state := NewState(local, remote, e);
    Pending(serial, state, index, ip, addr, [], 1, now + RETRY_BASE, Stage0(local, state, index))
  }

  /** A start does nothing while one is in progress for the peer, or without a random index. */
  predicate Starts(m: Manager, ip: Addr, index: Option<u32>) {
    ip !in m.pending && index.Some?
  }

  function AfterStart(local: Cert, m: Manager, ip: Addr, addr: UdpAddr, remote: Cert, index: Option<u32>, e: Ephemeral,
                      now: Time): Manager {
    if !Starts(m, ip, index) then m
    else m.(pending := m.pending[ip := NewPending(local, m.started, ip, addr, remote, index.value, e, now)],
            index := m.index[index.value := ip], started := m.started + 1)
  }

  /** The pending handshake that a stage-1 packet for `index` reaches. */
  predicate Reaches(m: Manager, index: u32) {
    index in m.index && m.index[index] in m.pending
  }

  function Reached(m: Manager, index: u32): Pending
    requires Reaches(m, index)
  {
    m.pending[m.index[index]]
  }

  /** The handshake is taken out of both tables before the packet is looked at. */
  function AfterStage1(m: Manager, index: u32): Manager {
    if !Reaches(m, index) then m
    else m.(pending := m.pending - {m.index[index]}, index := m.index - {index},
            answered := m.answered + {Reached(m, index).serial})
  }

  /** The session that comes of it, if the packet holds up. */
  function Completion(p: Pending, b: Body, trusted: set<Cert>): Option<Session> {
    if Authentic(b, trusted) && InitiatorReads(p.state, b.noise)
    then Some(Session(p.remoteVpnIP, p.remoteAddr, p.localIndex, b.details.responderIndex,
                      SessionCiphers(b.noise.transcript, true), b.details.cert))
    else None
  }

  function Enqueue(queue: seq<Payload>, pkt: Payload): seq<Payload> {
    (if |queue| >= MAX_PENDING_PACKETS then queue[1..] else queue) + [pkt]
  }

  function AfterQueue(m: Manager, ip: Addr, pkt: Payload): Manager {
    if ip !in m.pending then m
    else m.(pending := m.pending[ip := m.pending[ip].(queue := Enqueue(m.pending[ip].queue, pkt))])
  }

  // ---------- Retries ----------

  /** The wait after the given attempt: doubling, capped. */
  function Delay(attempt: nat): Time {
    var delay := RETRY_BASE * Pow2(if attempt < 6 then attempt else 6);
    if delay > RETRY_MAX then RETRY_MAX else delay
  }

  predicate Due(p: Pending, now: Time) {
    p.nextRetry <= now
  }

  predicate Expires(p: Pending, now: Time) {
    Due(p, now) && p.attempts >= MAX_ATTEMPTS
  }

  predicate Resends(p: Pending, now: Time) {
    Due(p, now) && p.attempts < MAX_ATTEMPTS
  }

  function AfterTick(p: Pending, now: Time): Pending {
    if Resends(p, now) then p.(attempts := p.attempts + 1, nextRetry := now + Delay(p.attempts + 1)) else p
  }

  /** Index `i` is the local index of a handshake that this tick expires. */
  ghost predicate Dropped(m: Manager, i: u32, now: Time) {
    exists ip :: ip in m.pending && Expires(m.pending[ip], now) && m.pending[ip].localIndex == i
  }

  /** `m'` is what a tick makes of `m`. */
  ghost predicate Ticks(m: Manager, m': Manager, now: Time) {
    && (forall ip :: ip in m'.pending <==> ip in m.pending && !Expires(m.pending[ip], now))
    && (forall ip :: ip in m'.pending ==> m'.pending[ip] == AfterTick(m.pending[ip], now))
    && (forall i :: i in m'.index <==> i in m.index && !Dropped(m, i, now))
    && (forall i :: i in m'.index ==> m'.index[i] == m.index[i])
    && m'.started == m.started && m'.answered == m.answered
    && (forall n :: n in m'.expired <==>
          n in m.expired || exists ip :: ip in m.pending && Expires(m.pending[ip], now) && m.pending[ip].serial == n)
  }

  // ---------- What every operation keeps ----------

  /** Every handshake sits under its own address, and every index entry leads to a live
      handshake with that index. */
  ghost predicate Linked(m: Manager) {
    && (forall ip :: ip in m.pending ==> m.pending[ip].remoteVpnIP == ip)
    && (forall i :: i in m.index ==> m.index[i] in m.pending && m.pending[m.index[i]].localIndex == i)
  }

  ghost predicate Live(m: Manager, n: nat) {
    exists ip :: ip in m.pending && m.pending[ip].serial == n
  }

  /** Every handshake ever started is in exactly one place: pending once, answered, or expired. */
  ghost predicate Accounted(m: Manager) {
    && (forall n: nat :: n < m.started <==> Live(m, n) || n in m.answered || n in m.expired)
    && (forall n: nat :: Live(m, n) ==> n !in m.answered && n !in m.expired)
    && m.answered !! m.expired
    && (forall a, b :: a in m.pending && b in m.pending && m.pending[a].serial == m.pending[b].serial ==> a == b)
  }

  ghost predicate Inv(m: Manager) {
    Linked(m) && Accounted(m)
  }

  /** Every pending handshake is also found by its index. */
  ghost predicate Bijective(m: Manager) {
    forall ip :: ip in m.pending ==> var i := m.pending[ip].localIndex; i in m.index && m.index[i] == ip
  }

  lemma NewInv()
    ensures Inv(NEW) && Bijective(NEW)
  {
  }

  lemma StartKeeps(local: Cert, m: Manager, ip: Addr, addr: UdpAddr, remote: Cert, index: Option<u32>, e: Ephemeral,
                   now: Time)
    requires Inv(m)
    ensures Inv(AfterStart(local, m, ip, addr, remote, index, e, now))
  {
    var m' := AfterStart(local, m, ip, addr, remote, index, e, now);
    if Starts(m, ip, index) {
      assert m'.pending[ip].serial == m.started;
      assert forall n: nat :: Live(m, n) ==> n < m.started;
      forall n: nat
        ensures Live(m', n) <==> Live(m, n) || n == m.started
      {
        if Live(m, n) {
          var a :| a in m.pending && m.pending[a].serial == n;
          assert m'.pending[a].serial == n;
        }
      }
      assert forall a :: a in m.pending ==> Live(m, m.pending[a].serial);
    }
  }

  /** A start keeps the tables in bijection exactly when its index is not in use. */
  lemma StartKeepsBijectionExactly(local: Cert, m: Manager, ip: Addr, addr: UdpAddr, remote: Cert, index: Option<u32>,
                                   e: Ephemeral, now: Time)
    requires Inv(m) && Bijective(m) && Starts(m, ip, index)
    ensures Bijective(AfterStart(local, m, ip, addr, remote, index, e, now)) <==> index.value !in m.index
  {
    var m' := AfterStart(local, m, ip, addr, remote, index, e, now);
    if index.value in m.index {
      var other := m.index[index.value];
      assert other in m'.pending && m'.pending[other].localIndex == index.value && m'.index[index.value] == ip;
    }
  }

  lemma Stage1Keeps(m: Manager, index: u32)
    requires Inv(m)
    ensures Inv(AfterStage1(m, index))
    ensures Bijective(m) ==> Bijective(AfterStage1(m, index))
  {
    var m' := AfterStage1(m, index);
    if Reaches(m, index) {
      var gone := Reached(m, index);
      assert Live(m, gone.serial);
      forall n: nat
        ensures Live(m', n) <==> Live(m, n) && n != gone.serial
      {
        if Live(m, n) && n != gone.serial {
          var a :| a in m.pending && m.pending[a].serial == n;
          assert a in m'.pending;
        }
      }
    }
  }

  lemma QueueKeeps(m: Manager, ip: Addr, pkt: Payload)
    requires Inv(m)
    ensures Inv(AfterQueue(m, ip, pkt))
    ensures Bijective(m) ==> Bijective(AfterQueue(m, ip, pkt))
  {
    var m' := AfterQueue(m, ip, pkt);
    if ip in m.pending {
      assert m'.pending.Keys == m.pending.Keys;
      assert forall a :: a in m.pending ==> m'.pending[a].serial == m.pending[a].serial;
      assert forall n: nat :: Live(m', n) <==> Live(m, n);
    }
  }

  lemma TickKeeps(m: Manager, m': Manager, now: Time)
    requires Inv(m) && Ticks(m, m', now)
    ensures Inv(m') && (Bijective(m) ==> Bijective(m'))
  {
    TickKeepsLinks(m, m', now);
    TickKeepsAccounts(m, m', now);
    if Bijective(m) {
      TickKeepsBijection(m, m', now);
    }
  }

  lemma TickKeepsLinks(m: Manager, m': Manager, now: Time)
    requires Linked(m) && Ticks(m, m', now)
    ensures Linked(m')
  {
    forall i | i in m'.index
      ensures m'.index[i] in m'.pending && m'.pending[m'.index[i]].localIndex == i
    {
      var ip := m.index[i];
      assert ip in m.pending && m.pending[ip].localIndex == i;
      assert Expires(m.pending[ip], now) ==> Dropped(m, i, now);
    }
  }

  lemma TickKeepsBijection(m: Manager, m': Manager, now: Time)
    requires Bijective(m) && Ticks(m, m', now)
    ensures Bijective(m')
  {
    forall ip | ip in m'.pending
      ensures m'.pending[ip].localIndex in m'.index && m'.index[m'.pending[ip].localIndex] == ip
    {
      var i := m.pending[ip].localIndex;
      assert i in m.index && m.index[i] == ip;
      assert forall other :: other in m.pending && m.pending[other].localIndex == i ==> other == ip;
    }
  }

  lemma TickKeepsAccounts(m: Manager, m': Manager, now: Time)
    requires Accounted(m) && Ticks(m, m', now)
    ensures Accounted(m')
  {
    forall n: nat
      ensures Live(m, n) <==> Live(m', n) || (n in m'.expired && n !in m.expired)
      ensures Live(m', n) ==> Live(m, n) && n !in m'.expired
    {
      if Live(m, n) {
        var a :| a in m.pending && m.pending[a].serial == n;
        if !Expires(m.pending[a], now) {
          assert a in m'.pending && m'.pending[a].serial == n;
        }
      }
      if Live(m', n) {
        var a :| a in m'.pending && m'.pending[a].serial == n;
        assert m.pending[a].serial == n;
      }
    }
    forall a, b | a in m'.pending && b in m'.pending && m'.pending[a].serial == m'.pending[b].serial
      ensures a == b
    {
      assert m.pending[a].serial == m.pending[b].serial;
    }
    forall n | n in m'.answered
      ensures n !in m'.expired
    {
      assert n !in m.expired && !Live(m, n);
    }
  }
}
