/** The handshake manager as the daemon runs it: two tables that share mutable entries. */
module HandshakeManager {
  import opened Words
  import opened Net
  import opened Crypto
  import opened HandshakeSpec
  import opened HandshakeRuns
  import opened QueuedPackets

  class PendingHandshake {
    ghost const serial: nat
    const state: Initiator
    const localIndex: u32
    const remoteVpnIP: Addr
    const remoteAddr: UdpAddr
    const stage0: Packet
    var pendingPackets: seq<Payload>
    var attempts: nat
    var nextRetry: Time

    ghost function Value(): Pending
      reads this
    {
      Pending(serial, state, localIndex, remoteVpnIP, remoteAddr, pendingPackets, attempts, nextRetry, stage0)
    }

    constructor (ghost serial: nat, state: Initiator, localIndex: u32, ip: Addr, addr: UdpAddr, stage0: Packet,
                 nextRetry: Time)
      ensures Value() == Pending(serial, state, localIndex, ip, addr, [], 1, nextRetry, stage0)
    {
      this.serial, this.state, this.localIndex := serial, state, localIndex;
      remoteVpnIP, remoteAddr, this.stage0 := ip, addr, stage0;
      pendingPackets, attempts, this.nextRetry := [], 1, nextRetry;
    }
  }

  class HandshakeManager {
    const localCert: Cert
    var pending: map<Addr, PendingHandshake>
    var indexMap: map<u32, PendingHandshake>
    ghost var started: nat
    ghost var answered: set<nat>
    ghost var expired: set<nat>
    ghost var states: seq<Manager>  // every state the manager went through
    ghost var events: seq<Event>    // and what took it from one to the next

    ghost function State(): Manager
      reads this, pending.Values
    {
      Manager(map ip | ip in pending :: pending[ip].Value(), map i | i in indexMap :: indexMap[i].remoteVpnIP,
              started, answered, expired)
    }

    /** Both tables hold the very same entries. */
    ghost predicate Shared()
      reads this
    {
      && (forall ip :: ip in pending ==> pending[ip].remoteVpnIP == ip)
      && (forall i :: i in indexMap ==> indexMap[i].localIndex == i)
      && (forall i :: i in indexMap ==> var ip := indexMap[i].remoteVpnIP; ip in pending && pending[ip] == indexMap[i])
    }

    /** The manager's whole life is a run, and its tables are where the run has got to. */
    ghost predicate Valid()
      reads this, pending.Values
    {
      Shared() && IsRun(localCert, states, events) && states[|events|] == State()
    }

    constructor (localCert: Cert)
      ensures Valid() && State() == NEW && events == [] && this.localCert == localCert
    {
      this.localCert := localCert;
      pending, indexMap, started, answered, expired := map[], map[], 0, {}, {};
      states, events := [NEW], [];
    }

    lemma CurrentState()
      requires Valid()
      ensures |states| == |events| + 1 && states[|events|] == State()
    {
    }

    ghost method Record(ev: Event)
      requires Shared() && IsRun(localCert, states, events) && Step(localCert, states[|events|], ev, State())
      modifies this`states, this`events
      ensures Valid() && State() == old(State())
      ensures states == old(states) + [State()] && events == old(events) + [ev]
    {
      hide IsRun, Step;
      RunExtends(localCert, states, events, ev, State());
      RunLength(localCert, states, events);
      states, events := states + [State()], events + [ev];
      assert states[|events|] == State();
    }

    /** Enters a handshake into both tables; a colliding index entry is overwritten. */
    method Insert(ph: PendingHandshake)
      requires Shared() && ph.remoteVpnIP !in pending
      modifies this`pending, this`indexMap, this`started
      ensures Shared() && pending == old(pending)[ph.remoteVpnIP := ph]
      ensures State() == old(State()).(pending := old(State()).pending[ph.remoteVpnIP := ph.Value()],
                                       index := old(State()).index[ph.localIndex := ph.remoteVpnIP],
                                       started := old(started) + 1)
    {
      ghost var was := State();
      pending := pending[ph.remoteVpnIP := ph];
      indexMap := indexMap[ph.localIndex := ph];
      started := started + 1;
      assert State().pending == was.pending[ph.remoteVpnIP := ph.Value()];
      assert State().index == was.index[ph.localIndex := ph.remoteVpnIP];
    }

    /** Deletes a handshake from its address, and whatever its index leads to. */
    method Delete(ph: PendingHandshake)
      requires Shared() && ph.remoteVpnIP in pending && pending[ph.remoteVpnIP] == ph
      modifies this`pending, this`indexMap
      ensures Shared() && pending.Values <= old(pending.Values)
      ensures State() == old(State()).(pending := old(State()).pending - {ph.remoteVpnIP},
                                       index := old(State()).index - {ph.localIndex})
    {
      ghost var was := State();
      pending := pending - {ph.remoteVpnIP};
      indexMap := indexMap - {ph.localIndex};
      assert State().pending == was.pending - {ph.remoteVpnIP};
      assert State().index == was.index - {ph.localIndex};
    }

    ghost method MarkAnswered(serial: nat)
      requires Shared()
      modifies this`answered
      ensures Shared() && State() == old(State()).(answered := old(State()).answered + {serial})
    {
      answered := answered + {serial};
    }

    ghost method MarkExpired(serial: nat)
      requires Shared()
      modifies this`expired
      ensures Shared() && State() == old(State()).(expired := old(State()).expired + {serial})
    {
      expired := expired + {serial};
    }

    lemma IndexLeads(i: u32)
      requires Shared() && i in indexMap
      ensures var ph := indexMap[i];
              && ph.localIndex == i && ph.remoteVpnIP in pending && pending[ph.remoteVpnIP] == ph
              && Reaches(State(), i) && State().index[i] == ph.remoteVpnIP && Reached(State(), i) == ph.Value()
    {
    }

    /** Enters the handshake in both tables and then writes its first packet; a failed write is
        reported, but the entry stays and will be resent. */
    method StartHandshake(ip: Addr, addr: UdpAddr, remoteCert: Cert, randomIndex: Option<u32>, e: Ephemeral, now: Time,
                          sendOk: bool)
      returns (ok: bool, sent: Option<Packet>)
      requires Valid()
      modifies this
      ensures Valid() && State() == AfterStart(localCert, old(State()), ip, addr, remoteCert, randomIndex, e, now)
      ensures events == old(events) + [Start(ip, addr, remoteCert, randomIndex, e, now)]
      ensures fresh(pending.Values - old(pending.Values))
      ensures ok <==> ip in old(State()).pending || (randomIndex.Some? && sendOk)
      ensures sent == if Starts(old(State()), ip, randomIndex)
                      then Some(Stage0(localCert, NewState(localCert, remoteCert, e), randomIndex.value)) else None
      ensures sent.Some? <==> ip !in old(State()).pending && randomIndex.Some?
      ensures sent.Some? ==>
                var b := sent.value.body;
                && sent.value.remoteIndex == 0 && b.Body? && b.details == Details(localCert, randomIndex.value, 0)
                && b.mac == Mac(localCert.fingerprint, b.details, b.noise)
                && b.noise.First? && b.noise.init.e == e && b.noise.init.s == localCert.publicKey
                && b.noise.init.rs == remoteCert.publicKey
                && SharedKey(b.noise.init.psk, localCert.fingerprint, remoteCert.fingerprint)
      ensures sent.Some? ==>
                && State().index == old(State()).index[randomIndex.value := ip]
                && State().pending == old(State()).pending[ip :=
                     Pending(old(State()).started, sent.value.body.noise.init, randomIndex.value, ip, addr, [], 1,
                             now + 500_000_000, sent.value)]
      ensures sent.None? ==> State() == old(State())
    {
      hide IsRun, XorBytes, State, Shared;
      ghost var ev := Start(ip, addr, remoteCert, randomIndex, e, now);
      EntryValue(ip);
      if ip in pending || randomIndex.None? {
        Record(ev);
        return ip in pending, None;
      }
      SharedKeyIsXor(localCert.fingerprint, remoteCert.fingerprint);
      var localIndex := randomIndex.value;
      var key := DerivePreSharedKey(localCert, remoteCert);
      var psk: Digest := key[..];
      var state := Initiator(e, localCert.publicKey, remoteCert.publicKey, psk);
      var wire := Packet(0, Envelope(Details(localCert, localIndex, 0), First(state)));
      var ph := new PendingHandshake(started, state, localIndex, ip, addr, wire, now + RETRY_BASE);
      assert ph.Value() == NewPending(localCert, started, ip, addr, remoteCert, localIndex, e, now);
      Insert(ph);
      Record(ev);
      return sendOk, Some(wire);
    }

    /** Answers a stage-0 packet: the reply handed to the socket, and the session if it went out. */
    method HandleStage0(pkt: Packet, from: UdpAddr, trusted: set<Cert>, randomIndex: Option<u32>, er: Ephemeral,
                        sendOk: bool)
      returns (reply: Option<Packet>, done: Option<Session>)
      ensures reply.Some? <==> Accepts(localCert, pkt.body, trusted) && randomIndex.Some?
      ensures reply.Some? ==> reply.value == Reply(localCert, pkt.body, randomIndex.value, er)
      ensures done.Some? <==> reply.Some? && sendOk
      ensures done.Some? ==> done.value == ResponderSession(pkt.body, from, randomIndex.value, er)
      ensures var b := pkt.body;
              reply.Some? <==>
                && b.Body? && b.details.cert in trusted && b.mac == Mac(b.details.cert.fingerprint, b.details, b.noise)
                && b.noise.First? && b.noise.init.rs == localCert.publicKey
                && SharedKey(b.noise.init.psk, localCert.fingerprint, b.details.cert.fingerprint)
                && randomIndex.Some?
      ensures reply.Some? ==>
                var d, b := pkt.body.details, reply.value.body;
                && reply.value.remoteIndex == d.initiatorIndex && b.Body?
                && b.details == Details(localCert, d.initiatorIndex, randomIndex.value)
                && b.noise == Second(Transcript(pkt.body.noise.init, er))
                && b.mac == Mac(localCert.fingerprint, b.details, b.noise)
      ensures done.Some? ==>
                var d, t := pkt.body.details, Transcript(pkt.body.noise.init, er);
                && done.value.cert == d.cert && done.value.cert in trusted && done.value.vpnIP == d.cert.vpnIP
                && done.value.remote == from && done.value.index == randomIndex.value
                && done.value.remoteIndex == d.initiatorIndex
                && done.value.ciphers == CipherPair(ToInitiator(t), ToResponder(t))
    {
      reply, done := None, None;
      var b := pkt.body;
      if !Authentic(b, trusted) {
        return;
      }
      SharedKeyIsXor(localCert.fingerprint, b.details.cert.fingerprint);
      var key := DerivePreSharedKey(localCert, b.details.cert);
      var psk: Digest := key[..];
      if !ResponderReads(localCert.publicKey, psk, b.noise) || randomIndex.None? {
        return;
      }
      var transcript := Transcript(b.noise.init, er);
      var idx := randomIndex.value;
      var details := Details(localCert, b.details.initiatorIndex, idx);
      reply := Some(Packet(b.details.initiatorIndex, Envelope(details, Second(transcript))));
      if !sendOk {
        return;
      }
      var ciphers := CiphersFromStates(ToResponder(transcript), ToInitiator(transcript), false);
      done := Some(Session(b.details.cert.vpnIP, from, idx, b.details.initiatorIndex, ciphers, b.details.cert));
    }

    /** Takes an answered handshake out of both tables. */
    method TakeOut(ph: PendingHandshake, ghost pkt: Packet, ghost trusted: set<Cert>)
      requires Valid() && pkt.remoteIndex in indexMap && indexMap[pkt.remoteIndex] == ph
      modifies this
      ensures Valid() && pending.Values <= old(pending.Values)
      ensures Reaches(old(State()), pkt.remoteIndex) && Reached(old(State()), pkt.remoteIndex) == ph.Value()
      ensures State() == AfterStage1(old(State()), pkt.remoteIndex) && events == old(events) + [Answer(pkt, trusted)]
      ensures states == old(states) + [State()]
    {
      hide IsRun, State, Shared;
      IndexLeads(pkt.remoteIndex);
      Delete(ph);
      MarkAnswered(ph.serial);
      Record(Answer(pkt, trusted));
    }

    method HandleStage1(pkt: Packet, trusted: set<Cert>) returns (done: Option<Session>, flush: seq<Payload>)
      requires Valid()
      modifies this
      ensures Valid() && State() == AfterStage1(old(State()), pkt.remoteIndex)
      ensures events == old(events) + [Answer(pkt, trusted)] && pending.Values <= old(pending.Values)
      ensures states == old(states) + [State()]
      ensures done == if Reaches(old(State()), pkt.remoteIndex)
                      then Completion(Reached(old(State()), pkt.remoteIndex), pkt.body, trusted) else None
      ensures flush == if done.Some? then Reached(old(State()), pkt.remoteIndex).queue else []
      ensures var m, b := old(State()), pkt.body;
              done.Some? <==>
                && pkt.remoteIndex in m.index && m.index[pkt.remoteIndex] in m.pending
                && b.Body? && b.details.cert in trusted && b.mac == Mac(b.details.cert.fingerprint, b.details, b.noise)
                && b.noise.Second? && b.noise.transcript.first == m.pending[m.index[pkt.remoteIndex]].state
      ensures done.Some? ==>
                var p, d, t := old(State()).pending[old(State()).index[pkt.remoteIndex]], pkt.body.details,
                               pkt.body.noise.transcript;
                && done.value.cert == d.cert && done.value.cert in trusted && done.value.vpnIP == p.remoteVpnIP
                && done.value.remote == p.remoteAddr && done.value.index == p.localIndex
                && done.value.remoteIndex == d.responderIndex && flush == p.queue
                && done.value.ciphers == CipherPair(ToResponder(t), ToInitiator(t))
    {
      hide IsRun;
      done, flush := None, [];
      if pkt.remoteIndex !in indexMap {
        Record(Answer(pkt, trusted));
        return;
      }
      var ph := indexMap[pkt.remoteIndex];
      TakeOut(ph, pkt, trusted);
      var b := pkt.body;
      if !Authentic(b, trusted) || !InitiatorReads(ph.state, b.noise) {
        return;
      }
      var t := b.noise.transcript;
      var ciphers := CiphersFromStates(ToResponder(t), ToInitiator(t), true);
      var remoteIndex := b.details.responderIndex;
      done := Some(Session(ph.remoteVpnIP, ph.remoteAddr, ph.localIndex, remoteIndex, ciphers, b.details.cert));
      flush := ph.pendingPackets;
    }

    /** The packets a completed handshake hands over are the last fifty queued for its peer since
        it was started, `s` being that event of the manager's life. */
    lemma FlushedSinceStart(before: seq<Event>, was: Manager, pkt: Packet, trusted: set<Cert>) returns (s: nat)
      requires Valid() && events == before + [Answer(pkt, trusted)] && states[|before|] == was
      requires Reaches(was, pkt.remoteIndex)
      ensures s < |before| && Begins(states[s], before[s])
      ensures var p := Reached(was, pkt.remoteIndex);
              && before[s].ip == p.remoteVpnIP && before[s].addr == p.remoteAddr && states[s].started == p.serial
              && p.queue == LastOf(MAX_PENDING_PACKETS, QueuedFor(before[s + 1..], p.remoteVpnIP))
    {
      hide Delay, Step;
      var n := |before|;
      AlwaysConsistent(localCert, states, events);
      assert Linked(was);
      s := PendingWasStarted(localCert, states, events, n, was.index[pkt.remoteIndex]);
      AnswerFlushesLastFifty(localCert, states, events, s, n);
      assert events[s + 1..n] == before[s + 1..];
    }

    method Append(ph: PendingHandshake, pkt: Payload)
      requires Shared() && ph.remoteVpnIP in pending && pending[ph.remoteVpnIP] == ph
      modifies ph`pendingPackets
      ensures Shared() && State() == AfterQueue(old(State()), ph.remoteVpnIP, pkt)
    {
      ghost var was := State();
      ghost var queue := Enqueue(ph.pendingPackets, pkt);
      if |ph.pendingPackets| >= MAX_PENDING_PACKETS {
        ph.pendingPackets := ph.pendingPackets[1..];
      }
      ph.pendingPackets := ph.pendingPackets + [pkt];
      assert ph.Value() == was.pending[ph.remoteVpnIP].(queue := queue);
      assert State().pending == was.pending[ph.remoteVpnIP := ph.Value()];
      assert State().index == was.index;
    }

    /** Keeps a copy of the caller's buffer, dropping the oldest packet when the queue is full. */
    method QueuePacket(ip: Addr, pkt: array<u8>)
      requires Valid()
      modifies this, pending.Values
      ensures Valid() && State() == AfterQueue(old(State()), ip, old(pkt[..]))
      ensures events == old(events) + [Queue(ip, old(pkt[..]))] && pending == old(pending)
      ensures ip in old(State()).pending ==> Queues(states, events, |old(events)|)
      ensures ip in old(State()).pending ==>
                var p := old(State()).pending[ip];
                State().pending == old(State()).pending[ip :=
                  p.(queue := (if |p.queue| >= 50 then p.queue[1..] else p.queue) + [old(pkt[..])])]
      ensures ip !in old(State()).pending ==> State() == old(State())
    {
      hide IsRun;
      CurrentState();
      var copied := pkt[..];
      if ip in pending {
        Append(pending[ip], copied);
      }
      Record(Queue(ip, copied));
    }

    /** Counts one more attempt and puts the next one off. */
    method Reschedule(ph: PendingHandshake, now: Time)
      requires Shared() && ph.remoteVpnIP in pending && pending[ph.remoteVpnIP] == ph
      modifies ph
      ensures Shared()
      ensures var p := old(ph.Value());
              State() == old(State()).(pending := old(State()).pending[ph.remoteVpnIP :=
                p.(attempts := p.attempts + 1, nextRetry := now + Delay(p.attempts + 1))])
    {
      hide Delay;
      ghost var was := State();
      ph.attempts := ph.attempts + 1;
      ph.nextRetry := now + Delay(ph.attempts);
      assert State().pending == was.pending[ph.remoteVpnIP := ph.Value()];
      assert State().index == was.index;
    }

    /** Gives up on a handshake. */
    method Expire(ph: PendingHandshake)
      requires Shared() && ph.remoteVpnIP in pending && pending[ph.remoteVpnIP] == ph
      modifies this`pending, this`indexMap, this`expired
      ensures Shared() && pending.Values <= old(pending.Values)
      ensures State() == old(State()).(pending := old(State()).pending - {ph.remoteVpnIP},
                                       index := old(State()).index - {ph.localIndex},
                                       expired := old(State()).expired + {ph.serial})
    {
      hide State, Shared;
      Delete(ph);
      MarkExpired(ph.serial);
    }

    lemma EntryValue(ip: Addr)
      ensures State().pending.Keys == pending.Keys
      ensures ip in pending ==> State().pending[ip] == pending[ip].Value()
      ensures State().started == started && State().expired == expired
    {
    }

    /** One pending handshake under a tick: left alone, resent, or dropped from both tables. */
    method RetryOne(vpnIP: Addr, now: Time) returns (sent: Option<Packet>)
      requires Shared() && vpnIP in pending
      modifies this`pending, this`indexMap, this`expired, pending[vpnIP]
      ensures Shared() && pending.Values <= old(pending.Values)
      ensures State() == TickOne(old(State()), vpnIP, now)
      ensures var p := old(State()).pending[vpnIP]; sent == if Resends(p, now) then Some(p.stage0) else None
    {
      hide Delay, State;
      var ph := pending[vpnIP];
      EntryValue(vpnIP);
      sent := None;
      if now >= ph.nextRetry {
        if ph.attempts >= MAX_ATTEMPTS {
          Expire(ph);
        } else {
          Reschedule(ph, now);
          sent := Some(ph.stage0);
        }
      }
    }

    /** Visits the pending handshakes in whatever order the map gives them; `out` is what went
        back on the wire, by peer. */
    method RetryPending(now: Time) returns (out: map<Addr, Packet>)
      requires Valid()
      modifies this, pending.Values
      ensures Valid() && Ticks(old(State()), State(), now) && events == old(events) + [Tick(now)]
      ensures pending.Values <= old(pending.Values) && states == old(states) + [State()]
      ensures Resent(old(State()), out, now)
      ensures forall ip :: ip in out <==>
                && ip in old(State()).pending
                && var p := old(State()).pending[ip]; p.nextRetry <= now && p.attempts < 10
      ensures forall ip :: ip in out ==> out[ip] == old(State()).pending[ip].stage0
      ensures forall ip :: ip in State().pending <==>
                && ip in old(State()).pending
                && var p := old(State()).pending[ip]; !(p.nextRetry <= now && p.attempts >= 10)
    {
      hide IsRun, TickedExcept, TickOne, Ticks, Resends, State, Shared;
      ghost var was := State();
      EntryValue(NoAddr);
      out := map[];
      var todo := pending.Keys;
      TickBegins(was, now);
      assert was.pending.Keys == todo;
      while todo != {}
        invariant todo <= pending.Keys && pending.Values <= old(pending.Values)
        invariant Shared() && TickedExcept(was, State(), todo, now)
        invariant todo <= was.pending.Keys && states == old(states) && events == old(events)
        invariant forall ip :: ip in out <==> ip in was.pending && ip !in todo && Resends(was.pending[ip], now)
        invariant forall ip :: ip in out ==> out[ip] == was.pending[ip].stage0
        decreases todo
      {
        var vpnIP :| vpnIP in todo;
        TickAdvances(was, State(), todo, vpnIP, now);
        var sent := RetryOne(vpnIP, now);
        if sent.Some? {
          out := out[vpnIP := sent.value];
        }
        todo := todo - {vpnIP};
        StillPending(was, State(), todo, now);
        EntryValue(NoAddr);
      }
      TickEnds(was, State(), now);
      TickSpelledOut(was, State(), out, now);
      Record(Tick(now));
    }

    /** The retry ticker: one round for every tick. */
    method Run(ticks: seq<Time>) returns (outs: seq<map<Addr, Packet>>)
      requires Valid()
      modifies this, pending.Values
      ensures Valid() && |outs| == |ticks| && pending.Values <= old(pending.Values)
      ensures events == old(events) + TicksAt(ticks) && |states| == |old(states)| + |ticks|
      ensures forall i: nat :: i < |ticks| ==> Resent(states[|old(events)| + i], outs[i], ticks[i])
    {
      hide IsRun, State, Shared, Ticks, Resent;
      outs := [];
      RunLength(localCert, states, events);
      for i := 0 to |ticks|
        invariant Valid() && |outs| == i && pending.Values <= old(pending.Values)
        invariant events == old(events) + TicksAt(ticks[..i])
        invariant |states| == |old(states)| + i && |states| == |events| + 1
        invariant forall j: nat :: j < i ==> Resent(states[|old(events)| + j], outs[j], ticks[j])
      {
        var out := RetryPending(ticks[i]);
        outs := outs + [out];
        assert TicksAt(ticks[..i]) + [Tick(ticks[i])] == TicksAt(ticks[..i + 1]);
      }
      assert ticks[..|ticks|] == ticks;
    }

    // ---------- The manager's own life ----------

    /** With ticks at most `gap` apart, a handshake started at event `s` that nobody answered is
        still there before 180.5 s, and in neither table after 180.5 s and ten gaps. */
    lemma ExpiresInTime(s: nat, gap: Time)
      requires Valid() && |states| == |events| + 1 && s < |events| && Begins(states[s], events[s])
      requires Unanswered(states, events, s, |events|, states[s].started)
      requires gap >= 0 && Regular(events[s].now, TickTimes(events[s + 1..]), gap)
      ensures var serial, ts := states[s].started, TickTimes(events[s + 1..]);
              var elapsed := Latest(events[s].now, ts) - events[s].now;
              if serial in State().expired
              then elapsed >= LIFETIME
                   && (forall ip :: ip in State().pending ==> State().pending[ip].serial != serial)
                   && (forall i | i in State().index && State().index[i] in State().pending ::
                         State().pending[State().index[i]].serial != serial)
                   && SendCount(states, events, s, |events|, events[s].ip, serial) == MAX_ATTEMPTS
              else Live(State(), serial) && elapsed < LIFETIME + MAX_ATTEMPTS * gap
    {
      hide IsRun, State, Unanswered, Regular, TickTimes, SendCount, Live;
      assert events[s + 1..|events|] == events[s + 1..];
      UnansweredExpires(localCert, states, events, s, |events|, gap);
    }

    /** No two answers of its life take the same handshake, and none takes an expired one. */
    lemma AnswersOnce(i: nat, j: nat, serial: nat)
      requires Valid() && |states| == |events| + 1 && i <= j < |events| && Takes(states[j], events[j], serial)
      ensures serial !in states[i].expired && (i < j ==> !Takes(states[i], events[i], serial))
    {
      hide IsRun, State, Takes;
      AnsweredAtMostOnce(localCert, states, events, i, j, serial);
    }

    /** Every packet it ever queued for a pending handshake has met exactly one fate by now. */
    lemma AccountsForPacket(q: nat) returns (fate: PacketFate)
      requires Valid() && Queues(states, events, q)
      ensures Meets(states, events, q, |events|, fate)
      ensures forall other :: Meets(states, events, q, |events|, other) ==> other == fate
    {
      hide IsRun, State, Meets;
      fate := ExactlyOneFate(localCert, states, events, q, |events|);
    }
  }

  /** Byte for byte, the key that two fingerprints give. */
  ghost predicate SharedKey(psk: Digest, a: Digest, b: Digest) {
    forall k :: 0 <= k < 32 ==> psk[k] == a[k] ^ b[k]
  }

  lemma SharedKeyIsXor(a: Digest, b: Digest)
    ensures forall psk: Digest :: SharedKey(psk, a, b) <==> psk == XorBytes(a, b)
  {
  }

  /** What a tick puts back on the wire, by peer. */
  ghost predicate Resent(m: Manager, out: map<Addr, Packet>, now: Time) {
    && (forall ip :: ip in out <==> ip in m.pending && Resends(m.pending[ip], now))
    && (forall ip :: ip in out ==> out[ip] == m.pending[ip].stage0)
  }

  lemma TickSpelledOut(m: Manager, m': Manager, out: map<Addr, Packet>, now: Time)
    requires Ticks(m, m', now)
    requires Resent(m, out, now)
    ensures forall ip :: ip in out <==> ip in m.pending && m.pending[ip].nextRetry <= now && m.pending[ip].attempts < 10
    ensures forall ip :: ip in m'.pending <==>
              ip in m.pending && !(m.pending[ip].nextRetry <= now && m.pending[ip].attempts >= 10)
  {
  }

  function TicksAt(ts: seq<Time>): seq<Event> {
    seq(|ts|, i requires 0 <= i < |ts| => Tick(ts[i]))
  }

  /** What a tick does to the handshake with one peer. */
  function TickOne(m: Manager, ip: Addr, now: Time): Manager
    requires ip in m.pending
  {
    var p := m.pending[ip];
    if Expires(p, now) then
      m.(pending := m.pending - {ip}, index := m.index - {p.localIndex}, expired := m.expired + {p.serial})
    else m.(pending := m.pending[ip := AfterTick(p, now)])
  }

  ghost predicate DroppedSoFar(m: Manager, todo: set<Addr>, i: u32, now: Time) {
    exists ip :: ip in m.pending && ip !in todo && Expires(m.pending[ip], now) && m.pending[ip].localIndex == i
  }

  ghost predicate ExpiredSoFar(m: Manager, todo: set<Addr>, n: nat, now: Time) {
    exists ip :: ip in m.pending && ip !in todo && Expires(m.pending[ip], now) && m.pending[ip].serial == n
  }

  /** `m'` is what a tick makes of `m` when the peers in `todo` are still to be visited. */
  ghost predicate TickedExcept(m: Manager, m': Manager, todo: set<Addr>, now: Time) {
    && (forall ip :: ip in m'.pending <==> ip in m.pending && (ip in todo || !Expires(m.pending[ip], now)))
    && (forall ip :: ip in m'.pending ==>
          m'.pending[ip] == if ip in todo then m.pending[ip] else AfterTick(m.pending[ip], now))
    && (forall i :: i in m'.index <==> i in m.index && !DroppedSoFar(m, todo, i, now))
    && (forall i :: i in m'.index ==> m'.index[i] == m.index[i])
    && m'.started == m.started && m'.answered == m.answered
    && (forall n :: n in m'.expired <==> n in m.expired || ExpiredSoFar(m, todo, n, now))
  }

  lemma TickBegins(m: Manager, now: Time)
    ensures TickedExcept(m, m, m.pending.Keys, now)
  {
  }

  lemma StillPending(m: Manager, m': Manager, todo: set<Addr>, now: Time)
    requires TickedExcept(m, m', todo, now) && todo <= m.pending.Keys
    ensures todo <= m'.pending.Keys
  {
  }

  lemma TickAdvances(m: Manager, m': Manager, todo: set<Addr>, ip: Addr, now: Time)
    requires TickedExcept(m, m', todo, now) && ip in todo && ip in m.pending
    ensures ip in m'.pending && m'.pending[ip] == m.pending[ip]
    ensures TickedExcept(m, TickOne(m', ip, now), todo - {ip}, now)
  {
    var rest := todo - {ip};
    var p := m.pending[ip];
    assert forall i: u32 :: DroppedSoFar(m, rest, i, now) <==>
                              DroppedSoFar(m, todo, i, now) || (Expires(p, now) && p.localIndex == i);
    assert forall n: nat :: ExpiredSoFar(m, rest, n, now) <==>
                              ExpiredSoFar(m, todo, n, now) || (Expires(p, now) && p.serial == n);
  }

  lemma TickEnds(m: Manager, m': Manager, now: Time)
    requires TickedExcept(m, m', {}, now)
    ensures Ticks(m, m', now)
  {
    assert forall i: u32 :: DroppedSoFar(m, {}, i, now) <==> Dropped(m, i, now);
  }
}
