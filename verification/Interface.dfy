/** The daemon's packet paths over its session table, handshakes, registry and firewall. */
module Interface {
  import opened Words
  import opened Net
  import opened Headers
  import opened Crypto
  import opened ReplaySpec
  import opened Hosts
  import opened HandshakeSpec
  import opened Transport
  import opened FirewallSpec
  import opened LighthouseSpec
  import opened InterfaceSpec
  import opened DaemonSpec
  import Runs = HandshakeRuns
  import Fates = QueuedPackets
  import HM = HandshakeManager
  import LH = Lighthouse
  import Firewall
  import IPv4

  class Interface {
    const hostmap: HostMap
    const fw: Firewall.Firewall
    const handshakeMgr: HM.HandshakeManager
    const lighthouse: LH.LightHouse
    const respond: bool  // a hole puncher is wired in and set to respond
    var peerCerts: map<Addr, Cert>
    ghost var udpOut: seq<Outgoing>
    ghost var tunOut: seq<Payload>

    /** Every session that was ever in the table. */
    ghost function Hosts(): set<HostInfo>
      reads hostmap
    {
      hostmap.all
    }

    ghost function Windows(): set<array<bv64>>
      reads hostmap
    {
      set h | h in Hosts() :: h.window
    }

    ghost function Logs(): map<HostInfo, Log>
      reads hostmap, Hosts()
    {
      map h | h in Hosts() :: Log(h.sends, h.arrivals)
    }

    lemma LogOf(h: HostInfo)
      requires h in Hosts()
      ensures h in Logs() && Logs()[h] == Log(h.sends, h.arrivals)
    {
    }

    lemma NotLogged(h: HostInfo)
      requires h !in Hosts()
      ensures h !in Logs()
    {
    }

    ghost function Setting(): Setup
      reads lighthouse`punches
    {
      Setup(handshakeMgr.localCert, fw.rules, lighthouse.punches, respond)
    }

    /** The whole state, on values. */
    ghost function View(): Daemon
      reads this, hostmap, Hosts(), handshakeMgr, handshakeMgr.pending.Values, fw, lighthouse
    {
      Daemon(hostmap.history, Logs(), handshakeMgr.State(), fw.history, lighthouse.State(), peerCerts)
    }

    /** What the session put on the wire is its plaintexts, each sealed once, in order. */
    ghost predicate Logged(h: HostInfo)
      reads this`udpOut, h`sends
    {
      SentBy(udpOut, h) == Sends(h, h.sends, 0)
    }

    /** Every session that was ever in the table is sound and logged, and no two share a window. */
    ghost predicate Valid()
      reads this, hostmap, fw, fw.ct, Hosts(), Windows()
    {
      && hostmap.Valid() && fw.Valid()
      && (forall h :: h in Hosts() ==> h.Valid() && Logged(h))
      && (forall g, h :: g in Hosts() && h in Hosts() && g.window == h.window ==> g == h)
    }

    constructor (rules: Rules, mgr: HM.HandshakeManager, lh: LH.LightHouse, respond: bool)
      ensures Valid() && hostmap.history == [] && udpOut == [] && tunOut == [] && Hosts() == {} && peerCerts == map[]
      ensures fresh(hostmap) && fresh(fw) && fresh(fw.ct) && fw.rules == rules && fw.history == []
      ensures handshakeMgr == mgr && lighthouse == lh && this.respond == respond
    {
      hostmap := new HostMap();
      fw := new Firewall.Firewall(rules);
      handshakeMgr, lighthouse, this.respond, peerCerts := mgr, lh, respond, map[];
      udpOut, tunOut := [], [];
    }

    method AddPeerCert(vpnIP: Addr, c: Cert)
      modifies this`peerCerts
      ensures peerCerts == old(peerCerts)[vpnIP := c]
    {
      peerCerts := peerCerts[vpnIP := c];
    }

    /** Bumps the session's counter first; the header carries it and is sealed in. What goes out is
        the next send of the session's channel. */
    method SendToRemote(host: HostInfo, plaintext: Payload)
      requires host.counter == |host.sends| % U64_SIZE
      modifies this`udpOut, host`counter, host`sends
      ensures host.sends == old(host.sends) + [plaintext] && host.counter == |host.sends| % U64_SIZE
      ensures udpOut == old(udpOut) + [Send(host, host.sends, |old(host.sends)|)]
      ensures host.counter == (old(host.counter) + 1) % 0x1_0000_0000_0000_0000
      ensures var o := udpOut[|old(udpOut)|];
              && o.sender == host && o.to == host.remote
              && o.packet.head[0] == 0x11 && o.packet.head[1] == o.packet.head[2] == o.packet.head[3] == 0
              && (forall k :: 4 <= k < 8 ==> o.packet.head[k] == Digit(host.remoteIndex, 7 - k))
              && (forall k :: 8 <= k < 16 ==> o.packet.head[k] == Digit(host.counter, 15 - k))
              && o.packet.box.Sealed? && o.packet.box.key == host.sendKey && o.packet.box.ad == o.packet.head
              && o.packet.box.plaintext == plaintext && |o.packet.box.nonce| == 12
              && forall k :: 0 <= k < 12 ==> o.packet.box.nonce[k] == if k < 8 then Digit(host.counter, k) else 0
    {
      NextCounter(|host.sends|);
      host.counter := (host.counter + 1) % U64_SIZE;
      host.sends := host.sends + [plaintext];
      var hdr := Header(VERSION, TYPE_MESSAGE, 0, host.remoteIndex, host.counter);
      var head := Bytes(hdr);
      var ct := Encrypt(host.sendKey, host.counter, head, plaintext);
      BytesAt(hdr);
      forall k: nat | k < 12
        ensures CounterNonce(host.counter)[k] == if k < 8 then Digit(host.counter, k) else 0
      {
        NonceBytes(host.counter, k);
      }
      udpOut := udpOut + [Outgoing(host, DataPacket(head, ct), host.remote)];
    }

    method SendInPlace(h: HostInfo, p: Payload)
      requires Valid() && h in Hosts()
      modifies this`udpOut, h`counter, h`sends
      ensures Valid() && h.sends == old(h.sends) + [p] && h.counter == (old(h.counter) + 1) % U64_SIZE
      ensures Logs() == old(Logs())[h := Log(h.sends, h.arrivals)]
      ensures udpOut == old(udpOut) + [Send(h, h.sends, |old(h.sends)|)]
    {
      hide ReplaySpec.After, Represents, HostMap.Valid, Firewall.Firewall.Valid, Send, SentBy, Sends;
      ghost var before, was := udpOut, h.sends;
      NextCounter(|was|);
      SendToRemote(h, p);
      SendsNext(h, was, p, 0);
      forall g | g in Hosts()
        ensures g.Valid() && Logged(g)
      {
        SentByNext(before, udpOut[|before|], g);
        SendIsFrom(h, h.sends, |was|);
      }
    }

    /** One datagram for each packet, in order, under consecutive counters. */
    method Flush(h: HostInfo, pending: seq<Payload>)
      requires Valid() && h in Hosts()
      modifies this`udpOut, h`counter, h`sends
      ensures Valid() && h.sends == old(h.sends) + pending && Logs() == old(Logs())[h := Log(h.sends, h.arrivals)]
      ensures udpOut == old(udpOut) + Sends(h, h.sends, |old(h.sends)|)
    {
      hide Valid, Logs, Send, Sends;
      ghost var n := |h.sends|;
      NoSends(h, h.sends);
      LogOf(h);
      for i := 0 to |pending|
        invariant Valid() && h in Hosts() && h.sends == old(h.sends) + pending[..i]
        invariant udpOut == old(udpOut) + Sends(h, h.sends, n)
        invariant Logs() == old(Logs())[h := Log(h.sends, h.arrivals)]
      {
        SendsNext(h, h.sends, pending[i], n);
        SendInPlace(h, pending[i]);
        assert pending[..i + 1] == pending[..i] + [pending[i]];
      }
      assert pending[..|pending|] == pending;
    }

    /** The session's own datagrams: any two that are fewer than 2^64 sends apart carry different
        nonces under its key, and the nonce is that of the counter in the header. */
    lemma OwnNoncesRepeatExactly(h: HostInfo, i: nat, j: nat)
      requires Valid() && h in Hosts() && i < |SentBy(udpOut, h)| && j < |SentBy(udpOut, h)|
      ensures var a, b := SentBy(udpOut, h)[i].packet, SentBy(udpOut, h)[j].packet;
              && a.box.Sealed? && a.box.key == h.sendKey && b.box.Sealed? && b.box.key == h.sendKey
              && (a.box.nonce == b.box.nonce <==> i % U64_SIZE == j % U64_SIZE)
              && (|h.sends| < U64_SIZE ==> (a.box.nonce == b.box.nonce <==> i == j))
              && Parse(a.head).Parsed? && a.box.nonce == CounterNonce(Parse(a.head).header.counter)
    {
      hide HostMap.Valid, HostInfo.Valid, Firewall.Firewall.Valid, Parse, CounterNonce, ToBytes;
      assert SentBy(udpOut, h) == Sends(h, h.sends, 0);
      assert SentBy(udpOut, h)[i] == Send(h, h.sends, i) && SentBy(udpOut, h)[j] == Send(h, h.sends, j);
      NoncesRepeatExactly(ChannelTo(h), h.sends, i, j);
    }

    /** A session that has not sent or received anything, outside the table. */
    method NewSession(s: Session) returns (h: HostInfo)
      requires Valid()
      ensures Valid() && fresh(h) && fresh(h.window) && Installed(h, s) && h.arrivals == [] && h.sends == []
      ensures h.Valid() && Logged(h) && h !in Hosts() && h.window !in Windows()
    {
      hide HostMap.Valid, HostInfo.Valid, Firewall.Firewall.Valid, Sends;
      h := new HostInfo(s.vpnIP, s.remote, s.index, s.remoteIndex, s.ciphers, s.cert);
      assert forall o :: o in udpOut ==> o.sender != h;
      SentByNobody(udpOut, h);
      NoSends(h, []);
    }

    /** A sound session whose window is its own joins the table. */
    method Install(h: HostInfo)
      requires Valid() && h.Valid() && Logged(h) && h !in Hosts() && h.window !in Windows()
      modifies hostmap
      ensures Valid() && hostmap.history == old(hostmap.history) + [Added(h)]
      ensures Hosts() == old(Hosts()) + {h} && Windows() == old(Windows()) + {h.window}
      ensures Logs() == old(Logs())[h := Log(h.sends, h.arrivals)]
    {
      hide HostInfo.Valid, HostMap.Valid, Firewall.Firewall.Valid, Logged;
      hostmap.Add(h);
    }

    /** Installs a finished session and flushes its queue under counters 1, 2, 3 ... */
    method OnHandshakeComplete(s: Session, pending: seq<Payload>) returns (h: HostInfo)
      requires Valid()
      modifies this`udpOut, this`peerCerts, hostmap
      ensures Valid() && fresh(h) && fresh(h.window) && Installed(h, s)
      ensures Hosts() == old(Hosts()) + {h} && Windows() == old(Windows()) + {h.window}
      ensures hostmap.history == old(hostmap.history) + [Added(h)] && peerCerts == old(peerCerts)[s.vpnIP := s.cert]
      ensures h !in old(Logs()) && h.sends == pending && h.arrivals == []
      ensures Logs() == old(Logs())[h := Log(pending, [])]
      ensures udpOut == old(udpOut) + Sends(h, pending, 0)
    {
      hide HostMap.Valid, HostInfo.Valid, Logged, Firewall.Firewall.Valid, Sends, Logs;
      h := NewSession(s);
      assert h !in Logs() by { NotLogged(h); }
      Install(h);
      peerCerts := peerCerts[h.vpnIP := h.cert];
      Flush(h, pending);
    }

    method Answer(i: Input) returns (r: Result)
      requires Valid() && i.Shake?
      modifies this`udpOut, this`peerCerts, hostmap
      ensures Valid() && fresh(Hosts() - old(Hosts())) && fresh(Windows() - old(Windows()))
      ensures r.Shaken? && InitiationStep(Setting(), old(View()), i, r, View())
      ensures r.installed != null ==>
                var b := i.body.body;
                && b.Body? && r.installed.cert == b.details.cert && r.installed.cert in i.trusted
                && b.mac == Mac(b.details.cert.fingerprint, b.details, b.noise)
      ensures udpOut == old(udpOut) && (r.installed != null ==> r.installed in Hosts() && r.installed.sends == [])
    {
      hide HostMap.Valid, HostInfo.Valid, Logged, Logs, Firewall.Firewall.Valid, Sends, Reply, SessionCiphers, XorBytes;
      hide HM.HandshakeManager.State, ResponderSession, Accepts;
      var reply, done := handshakeMgr.HandleStage0(i.body, i.from, i.trusted, i.index, i.er, i.sendOk);
      r := Shaken(reply, null);
      if done.Some? {
        var h := OnHandshakeComplete(done.value, []);
        NoSends(h, []);
        r := Shaken(reply, h);
      }
    }

    method Finish(i: Input) returns (r: Result, ghost began: nat)
      requires Valid() && handshakeMgr.Valid() && i.Shake?
      modifies this`udpOut, this`peerCerts, hostmap, handshakeMgr
      ensures Valid() && handshakeMgr.Valid() && handshakeMgr.pending.Values <= old(handshakeMgr.pending.Values)
      ensures fresh(Hosts() - old(Hosts())) && fresh(Windows() - old(Windows()))
      ensures r.Shaken? && ResponseStep(old(View()), i, r, View())
      ensures handshakeMgr.events == old(handshakeMgr.events) + [Runs.Answer(i.body, i.trusted)]
      ensures r.installed != null ==>
                var b := i.body.body;
                && b.Body? && r.installed.cert == b.details.cert && r.installed.cert in i.trusted
                && b.mac == Mac(b.details.cert.fingerprint, b.details, b.noise)
      ensures var h := r.installed;
              if h == null then udpOut == old(udpOut)
              else
                && h in Hosts() && udpOut == old(udpOut) + Sends(h, h.sends, 0) && NumberedFromOne(h, h.sends)
                && SinceStart(old(handshakeMgr.states), old(handshakeMgr.events), began,
                              Reached(old(View()).mgr, i.body.remoteIndex), h.sends)
    {
      hide HostMap.Valid, HostInfo.Valid, Logged, Logs, Firewall.Firewall.Valid, Sends, HM.HandshakeManager.State;
      hide HM.HandshakeManager.Valid, AfterStage1, Completion, NumberedFromOne, SinceStart, Runs.QueuedFor;
      ghost var before, was := handshakeMgr.events, handshakeMgr.State();
      handshakeMgr.CurrentState();
      r, began := Shaken(None, null), 0;
      var done, flush := handshakeMgr.HandleStage1(i.body, i.trusted);
      if done.Some? {
        began := handshakeMgr.FlushedSinceStart(before, was, i.body, i.trusted);
        var h := OnHandshakeComplete(done.value, flush);
        FewAreNumbered(h, flush);
        assert SinceStart(old(handshakeMgr.states), before, began, Reached(was, i.body.remoteIndex), flush) by {
          SinceBegan(old(handshakeMgr.states), handshakeMgr.states, before, began, Reached(was, i.body.remoteIndex));
        }
        r := Shaken(None, h);
      }
    }

    /** Handshake packets. An accepted initiation whose reply went out installs a responder session.
        A response that completes a pending handshake installs its session, and sends on it, under
        the counters 1, 2, 3 ..., the last fifty packets queued for the peer since the handshake
        began; `began` is that event of the manager's life. */
    method HandleHandshake(i: Input) returns (r: Result, ghost began: nat)
      requires Valid() && handshakeMgr.Valid() && i.Shake?
      modifies this`udpOut, this`peerCerts, hostmap, handshakeMgr
      ensures Valid() && handshakeMgr.Valid() && handshakeMgr.pending.Values <= old(handshakeMgr.pending.Values)
      ensures fresh(Hosts() - old(Hosts())) && fresh(Windows() - old(Windows()))
      ensures r.Shaken? && ShakeStep(Setting(), old(View()), i, r, View())
      ensures i.subType == 1 ==> handshakeMgr.events == old(handshakeMgr.events) + [Runs.Answer(i.body, i.trusted)]
      ensures var h := r.installed;
              if h == null then udpOut == old(udpOut) else h in Hosts() && udpOut == old(udpOut) + Sends(h, h.sends, 0)
      ensures r.installed != null ==>
                var b := i.body.body;
                && b.Body? && r.installed.cert == b.details.cert && r.installed.cert in i.trusted
                && b.mac == Mac(b.details.cert.fingerprint, b.details, b.noise)
      ensures i.subType == HANDSHAKE_RESPONSE && r.installed != null ==>
                && SinceStart(old(handshakeMgr.states), old(handshakeMgr.events), began,
                              Reached(old(View()).mgr, i.body.remoteIndex), r.installed.sends)
                && NumberedFromOne(r.installed, r.installed.sends)
    {
      r, began := Shaken(None, null), 0;
      if i.subType == HANDSHAKE_INITIATION {
        r := Answer(i);
      } else if i.subType == HANDSHAKE_RESPONSE {
        r, began := Finish(i);
      }
    }

    method Permit(dst: Addr, groups: seq<string>, p: Payload, now: FirewallSpec.Time) returns (ok: bool)
      requires Valid() && IPv4.DstIP(p) == Some(dst)
      modifies fw`history, fw.ct
      ensures var packet := FirewallSpec.Packet(Outbound, dst, groups, IPv4.DstPort(p), IPv4.ProtoOf(p));
              && Valid() && fw.history == old(fw.history) + [Put(packet, now)]
              && (ok <==> Allowed(fw.rules, old(fw.history), packet))
    {
      hide HostMap.Valid, HostInfo.Valid, Logged, Allowed;
      ok := fw.AllowOutbound(dst, groups, IPv4.DstPort(p), IPv4.ProtoOf(p), now);
    }

    /** The first address on record for a peer. */
    ghost function AddressOf(ip: Addr): Option<UdpAddr>
      reads lighthouse`addrStore
    {
      if ip in lighthouse.addrStore && lighthouse.addrStore[ip] != [] then Some(lighthouse.addrStore[ip][0]) else None
    }

    /** Without a session: start or join a handshake and queue, or ask the lighthouses. */
    method Hold(ip: Addr, pkt: array<u8>, w: Draw)
      returns (fate: Fate, first: Option<HandshakeSpec.Packet>, asked: seq<Out>)
      requires handshakeMgr.Valid()
      modifies handshakeMgr, handshakeMgr.pending.Values
      ensures handshakeMgr.Valid() && fresh(handshakeMgr.pending.Values - old(handshakeMgr.pending.Values))
      ensures fate.Lost? || (fate.Held? && JustQueued(handshakeMgr.states, handshakeMgr.events, ip, old(pkt[..])))
      ensures Holds(handshakeMgr.localCert, old(handshakeMgr.State()), peerCerts, lighthouse.State(), ip, w,
                    fate, first, asked)
      ensures fate.Held? <==> ip in old(handshakeMgr.State()).pending
                              || (ip in peerCerts && AddressOf(ip).Some? && w.index.Some? && w.sendOk)
      ensures first.Some? <==> ip !in old(handshakeMgr.State()).pending
                               && ip in peerCerts && AddressOf(ip).Some? && w.index.Some?
      ensures first.Some? ==>
                && ip in handshakeMgr.State().pending && ip in peerCerts && first.value.body.Body?
                && handshakeMgr.State().pending[ip].remoteAddr == AddressOf(ip).value
                && first.value == Stage0(handshakeMgr.localCert,
                                         NewState(handshakeMgr.localCert, peerCerts[ip], w.e), w.index.value)
                && first.value.body.noise.First? && first.value.body.noise.init.rs == peerCerts[ip].publicKey
      ensures ip in peerCerts && AddressOf(ip).None? && ip.V4? ==>
                forall o :: o in asked <==> o.msg == Query(Dotted(ip.bits)) && lighthouse.Known(o.to)
      ensures ip !in peerCerts || AddressOf(ip).Some? ==> asked == []
      ensures handshakeMgr.State() == AfterHold(handshakeMgr.localCert, old(handshakeMgr.State()), peerCerts,
                                                lighthouse.State(), ip, old(pkt[..]), w)
    {
      hide HM.HandshakeManager.Valid, HM.HandshakeManager.State, AfterStart, AfterQueue, Queries, Stage0, NewState;
      hide Fates.Queues;
      first, asked := None, [];
      handshakeMgr.EntryValue(ip);
      var underway := ip in handshakeMgr.pending;
      ghost var m := handshakeMgr.State();
      if ip !in peerCerts {
        handshakeMgr.QueuePacket(ip, pkt);
      } else {
        var addrs := Stored(lighthouse.State(), ip);
        if |addrs| == 0 {
          asked := lighthouse.QueryPeer(ip);
          handshakeMgr.QueuePacket(ip, pkt);
        } else {
          var ok;
          ok, first := handshakeMgr.StartHandshake(ip, addrs[0], peerCerts[ip], w.index, w.e, w.now, w.sendOk);
          StartedIsPending(handshakeMgr.localCert, m, ip, addrs[0], peerCerts[ip], w.index, w.e, w.now);
          if !ok {
            return Lost, first, [];
          }
          handshakeMgr.QueuePacket(ip, pkt);
          return Held, first, [];
        }
      }
      fate := if underway then Held else Lost;
    }

    method HoldInPlace(ip: Addr, pkt: array<u8>, w: Draw)
      returns (fate: Fate, first: Option<HandshakeSpec.Packet>, asked: seq<Out>)
      requires Valid() && handshakeMgr.Valid()
      modifies handshakeMgr, handshakeMgr.pending.Values
      ensures Valid() && handshakeMgr.Valid()
      ensures fate.Lost? || (fate.Held? && JustQueued(handshakeMgr.states, handshakeMgr.events, ip, old(pkt[..])))
      ensures fresh(handshakeMgr.pending.Values - old(handshakeMgr.pending.Values))
      ensures fate.Held? <==> ip in old(handshakeMgr.State()).pending
                              || (ip in peerCerts && AddressOf(ip).Some? && w.index.Some? && w.sendOk)
      ensures var d := old(View());
              && Holds(handshakeMgr.localCert, d.mgr, d.certs, d.lh, ip, w, fate, first, asked)
              && View() == d.(mgr := AfterHold(handshakeMgr.localCert, d.mgr, d.certs, d.lh, ip, old(pkt[..]), w))
    {
      hide HM.HandshakeManager.Valid, HM.HandshakeManager.State, HostMap.Valid, HostInfo.Valid, Logged;
      hide Firewall.Firewall.Valid, AfterHold, Holds;
      fate, first, asked := Hold(ip, pkt, w);
    }

    method SessionFor(ip: Addr) returns (h: HostInfo?)
      requires Valid()
      ensures Valid() && h == FoundByIp(hostmap.history, ip) && (h != null ==> h in Hosts())
    {
      hide HostInfo.Valid, Logged, Firewall.Firewall.Valid;
      FoundIsAdded(hostmap.history, ip, 0);
      h := hostmap.GetByVpnIP(ip);
    }

    /** The outbound path. An allowed packet goes out on the peer's session as its next send; with
        no session it is held for a handshake, or lost. */
    method ConsumeInsidePacket(pkt: array<u8>, w: Draw) returns (r: Result)
      requires Valid() && handshakeMgr.Valid()
      modifies this`udpOut, fw`history, fw.ct, Hosts()`counter, Hosts()`sends
      modifies handshakeMgr, handshakeMgr.pending.Values
      ensures Valid() && handshakeMgr.Valid()
      ensures fresh(handshakeMgr.pending.Values - old(handshakeMgr.pending.Values))
      ensures r.Routed? && TunStep(Setting(), old(View()), old(pkt[..]), w, r, View())
      ensures var p := old(pkt[..]);
              r.fate.Ignored? <==> |p| < 20 || p[0] / 16 != 4
      ensures !r.fate.Ignored? ==>
                var p, ip := old(pkt[..]), IPv4.DstIP(old(pkt[..])).value;
                var h := old(FoundByIp(hostmap.history, IPv4.DstIP(pkt[..]).value));
                var packet := FirewallSpec.Packet(Outbound, ip, if h != null then h.cert.groups else [],
                                                  IPv4.DstPort(p), IPv4.ProtoOf(p));
                && ip.V4? && ip.bits == IPv4.Number(p[16], p[17], p[18], p[19])
                && fw.history == old(fw.history) + [Put(packet, w.now)]
                && (r.fate.Barred? <==> !Allowed(fw.rules, old(fw.history), packet))
                && (r.fate.Forwarded? <==> !r.fate.Barred? && h != null)
                && (r.fate.Held? <==>
                      && !r.fate.Barred? && h == null
                      && (ip in old(handshakeMgr.State()).pending
                          || (ip in peerCerts && AddressOf(ip).Some? && w.index.Some? && w.sendOk)))
      ensures r.fate.Held? ==> JustQueued(handshakeMgr.states, handshakeMgr.events,
                                          IPv4.DstIP(old(pkt[..])).value, old(pkt[..]))
      ensures r.fate.Forwarded? || udpOut == old(udpOut)
      ensures r.fate.Forwarded? ==>
                var h := old(FoundByIp(hostmap.history, IPv4.DstIP(pkt[..]).value));
                udpOut == old(udpOut) + [Send(h, h.sends, |old(h.sends)|)]
    {
      hide Valid, HM.HandshakeManager.Valid, HM.HandshakeManager.State, Logs, Allowed, AfterHold, Holds, Send;
      hide FoundByIp, IPv4.DstIP, IPv4.DstPort, IPv4.ProtoOf;
      var p := pkt[..];
      IPv4.AddressBytes(p);
      var dst := IPv4.DstIP(p);
      if dst.None? {
        return Routed(Ignored, None, []);
      }
      var host := SessionFor(dst.value);
      var groups := if host != null then host.cert.groups else [];
      var ok := Permit(dst.value, groups, p, w.now);
      if !ok {
        return Routed(Barred, None, []);
      }
      if host != null {
        LogOf(host);
        SendInPlace(host, p);
        return Routed(Forwarded, None, []);
      }
      var fate, first, asked := HoldInPlace(dst.value, pkt, w);
      r := Routed(fate, first, asked);
    }

    /** The teardown message removes whatever session stands at the address of the one indexed. */
    method HandleCloseTunnel(remoteIndex: u32)
      requires Valid()
      modifies hostmap
      ensures Valid() && Hosts() == old(Hosts()) && View() == Closed(old(View()), remoteIndex)
      ensures var h := old(FoundByIndex(hostmap.history, remoteIndex));
              if h == null then hostmap.history == old(hostmap.history)
              else
                && FoundByIp(hostmap.history, h.vpnIP) == null
                && (forall ip | ip != h.vpnIP ::
                      FoundByIp(hostmap.history, ip) == FoundByIp(old(hostmap.history), ip))
                && (DistinctIndices(old(hostmap.history)) ==>
                      (FoundByIndex(hostmap.history, h.index) == null <==>
                       FoundByIp(old(hostmap.history), h.vpnIP) == h))
    {
      hide HostMap.Valid, HostInfo.Valid, Logged, Firewall.Firewall.Valid, HM.HandshakeManager.State;
      hide FoundByIp, FoundByIndex, DistinctIndices;
      var host := hostmap.GetByIndex(remoteIndex);
      if host != null {
        AfterClose(hostmap.history, host, remoteIndex);
        hostmap.Remove(host.vpnIP);
      }
    }

    method SenderOf(remoteIndex: u32, from: UdpAddr) returns (sender: Option<Addr>)
      requires Valid()
      ensures Valid() && (sender.Some? ==> ComesFrom(View(), remoteIndex, from, sender.value))
      ensures sender.None? ==> forall ip :: !ComesFrom(View(), remoteIndex, from, ip)
      ensures var h, store := FoundByIndex(hostmap.history, remoteIndex), lighthouse.addrStore;
              if h != null then sender == Some(h.vpnIP)
              else if sender.Some? then sender.value in store && from in store[sender.value]
              else forall ip :: ip in store ==> from !in store[ip]
    {
      hide HostInfo.Valid, Logged, Logs, Firewall.Firewall.Valid, HM.HandshakeManager.State, FoundByIndex;
      var host := hostmap.GetByIndex(remoteIndex);
      if host != null {
        return Some(host.vpnIP);
      }
      sender := lighthouse.VpnIPByAddr(from);
    }

    /** Lighthouse messages; `msg` is `None` when the body does not decode. */
    method HandleLightHouse(remoteIndex: u32, msg: Option<Message>, from: UdpAddr) returns (r: Result)
      requires Valid()
      modifies lighthouse`addrStore, lighthouse`myAddrs
      ensures Valid() && r.Looked? && RegistryStep(Setting(), old(View()), remoteIndex, msg, from, r, View())
      ensures var h, lh := FoundByIndex(hostmap.history, remoteIndex), old(lighthouse.State());
              && (msg.None? ==> lighthouse.State() == lh && r.out == [] && r.holes == [])
              && (msg.Some? && h != null ==>
                    lighthouse.State() == LighthouseSpec.After(lh, msg.value, h.vpnIP)
                    && r.out == Answers(lh, msg.value, h.vpnIP))
              && (msg.Some? && h == null && !(exists ip :: ip in lh.store && from in lh.store[ip]) ==>
                    lighthouse.State() == lh && r.out == [] && r.holes == [])
              && (msg.Some? && h == null && (exists ip :: ip in lh.store && from in lh.store[ip]) ==>
                    exists ip :: ip in lh.store && from in lh.store[ip]
                      && lighthouse.State() == LighthouseSpec.After(lh, msg.value, ip)
                      && r.out == Answers(lh, msg.value, ip))
    {
      hide HostMap.Valid, HostInfo.Valid, Logged, Firewall.Firewall.Valid, HM.HandshakeManager.State, ComesFrom;
      hide LighthouseSpec.After, Answers, Holes, Stored;
      var sender := SenderOf(remoteIndex, from);
      r := Looked([], []);
      if sender.Some? && msg.Some? {
        var out, holes := lighthouse.HandleMessage(msg.value, sender.value);
        r := Looked(out, holes);
      }
    }

    /** The replay check of a session leaves every other session alone. */
    method Check(host: HostInfo, counter: u64) returns (replay: bool)
      requires Valid() && host in Hosts()
      modifies host`windowEnd, host`arrivals, host.window
      ensures Valid() && host.arrivals == old(host.arrivals) + [counter]
      ensures Logs() == old(Logs())[host := Log(host.sends, host.arrivals)]
      ensures replay <==> !Passes(host.arrivals, |old(host.arrivals)|)
    {
      hide ReplaySpec.After, ReplaySpec.Passes, Represents, HostMap.Valid, Firewall.Firewall.Valid, Logged;
      replay := host.CheckReplay(counter);
      forall h | h in Hosts()
        ensures h.Valid() && Logged(h)
      {
        if h != host {
          assert h.window != host.window;
        }
      }
    }

    /** The inner half of the receive path: the firewall's verdict on an opened plaintext. */
    method Judge(p: Payload, groups: seq<string>, now: FirewallSpec.Time) returns (outcome: Outcome)
      requires Valid()
      modifies this`tunOut, fw`history, fw.ct
      ensures Valid() && Opened(outcome) && (outcome.Written? ==> outcome.payload == p)
      ensures tunOut == if outcome.Written? then old(tunOut) + [p] else old(tunOut)
      ensures Judged(fw.rules, old(fw.history), fw.history, groups, p, outcome, now)
      ensures outcome.NotIPv4? <==> |p| < 20 || p[0] / 16 != 4
      ensures !outcome.NotIPv4? ==>
                var src := IPv4.SrcIP(p).value;
                var packet := FirewallSpec.Packet(Inbound, src, groups, IPv4.DstPort(p), IPv4.ProtoOf(p));
                && src.V4? && src.bits == IPv4.Number(p[12], p[13], p[14], p[15])
                && fw.history == old(fw.history) + [Put(packet, now)]
                && (outcome.Written? <==> Allowed(fw.rules, old(fw.history), packet))
    {
      hide HostMap.Valid, HostInfo.Valid, Logged, Allowed;
      IPv4.AddressBytes(p);
      var srcIP := IPv4.SrcIP(p);
      if srcIP.None? {
        return NotIPv4;
      }
      var ok := fw.AllowInbound(srcIP.value, groups, IPv4.DstPort(p), IPv4.ProtoOf(p), now);
      if !ok {
        return Blocked;
      }
      tunOut := tunOut + [p];
      return Written(p);
    }

    method SessionAt(i: u32) returns (h: HostInfo?)
      requires Valid()
      ensures Valid() && h == FoundByIndex(hostmap.history, i)
      ensures h != null ==> h in Hosts() && h.window in Windows()
    {
      hide HostInfo.Valid, Logged, Firewall.Firewall.Valid;
      FoundIsAdded(hostmap.history, NoAddr, i);
      h := hostmap.GetByIndex(i);
    }

    /** The receive path of a data packet. The counter is put to the replay check, and so spent,
        before the box is opened. */
    method HandleMessage(pkt: DataPacket, from: UdpAddr, now: FirewallSpec.Time) returns (r: Result)
      requires Valid() && IsData(pkt)
      modifies this`tunOut, fw`history, fw.ct, Hosts()`windowEnd, Hosts()`arrivals, Windows()
      ensures Valid() && r.Received? && DataStep(Setting(), old(View()), pkt, from, now, r, View())
      ensures tunOut == if r.outcome.Written? then old(tunOut) + [r.outcome.payload] else old(tunOut)
      ensures r.outcome.NoSession? <==> FoundByIndex(hostmap.history, Parse(pkt.head).header.remoteIndex) == null
      ensures r.holes == if r.outcome.NoSession? && respond then [from] else []
      ensures r.outcome.Written? || r.outcome.Blocked? ==>
                var h := FoundByIndex(hostmap.history, Parse(pkt.head).header.remoteIndex);
                h != null && Plain(h.recvKey, pkt).Some? &&
                var p := Plain(h.recvKey, pkt).value;
                IPv4.SrcIP(p).Some? &&
                var packet := FirewallSpec.Packet(Inbound, IPv4.SrcIP(p).value, h.cert.groups, IPv4.DstPort(p),
                                                  IPv4.ProtoOf(p));
                && fw.history == old(fw.history) + [Put(packet, now)]
                && (r.outcome.Written? <==> Allowed(fw.rules, old(fw.history), packet))
    {
      hide Valid, HM.HandshakeManager.State, Logs, FoundByIndex, ReplaySpec.Passes, Judged, Parse, Decrypt;
      var hdr := Parse(pkt.head).header;
      var host := SessionAt(hdr.remoteIndex);
      if host == null {
        return Received(NoSession, if respond then [from] else []);
      }
      LogOf(host);
      var replay := Check(host, hdr.counter);
      if replay {
        return Received(Replayed, []);
      }
      var plain := Decrypt(host.recvKey, hdr.counter, pkt.head, pkt.box);
      if plain.None? {
        return Received(Unopened, []);
      }
      var outcome := Judge(plain.value, host.cert.groups, now);
      r := Received(outcome, []);
    }

    method ReceiveData(pkt: DataPacket, from: UdpAddr, now: FirewallSpec.Time) returns (r: Result)
      requires Valid()
      modifies this`tunOut, fw`history, fw.ct, Hosts()`windowEnd, Hosts()`arrivals, Windows()
      ensures Valid() && DataStep(Setting(), old(View()), pkt, from, now, r, View())
      ensures r.Received? && (r.outcome.Written? ==> r.holes == [])
      ensures tunOut == if r.outcome.Written? then old(tunOut) + [r.outcome.payload] else old(tunOut)
    {
      hide Valid, HM.HandshakeManager.State, FoundByIndex, Judged, Parse, Reported;
      if !IsData(pkt) {
        return Received(NotData, []);
      }
      r := HandleMessage(pkt, from, now);
    }

    method RetryHandshakes(now: HandshakeSpec.Time) returns (r: Result)
      requires Valid() && handshakeMgr.Valid()
      modifies handshakeMgr, handshakeMgr.pending.Values
      ensures Valid() && handshakeMgr.Valid() && r.Resent? && RetryStep(old(View()), now, r, View())
      ensures handshakeMgr.pending.Values <= old(handshakeMgr.pending.Values)
      ensures handshakeMgr.events == old(handshakeMgr.events) + [Runs.Tick(now)]
      ensures var was := old(handshakeMgr.State()).pending;
              && (forall ip :: ip in r.packets <==> ip in was && was[ip].nextRetry <= now && was[ip].attempts < 10)
              && (forall ip :: ip in r.packets ==> r.packets[ip] == was[ip].stage0)
    {
      hide HM.HandshakeManager.Valid, HM.HandshakeManager.State, Ticks, HM.Resent;
      hide HostMap.Valid, HostInfo.Valid, Logged, Firewall.Firewall.Valid;
      var out := handshakeMgr.RetryPending(now);
      r := Resent(out);
    }

    method ExpireConnections(now: FirewallSpec.Time)
      requires Valid()
      modifies fw`history, fw.ct
      ensures Valid() && View() == old(View()).(fw := old(View()).fw + [Sweep(DEFAULTS, now)])
      ensures fw.history == old(fw.history)
                            + [Sweep(Timeouts(300_000_000_000, 30_000_000_000, 10_000_000_000), now)]
    {
      hide HostMap.Valid, HostInfo.Valid, Logged, HM.HandshakeManager.State;
      fw.ExpireWith(DEFAULTS, now);
    }

    /** One datagram, by its kind. */
    method ConsumeOutsidePacket(i: Input) returns (r: Result)
      requires Valid() && handshakeMgr.Valid() && (i.Data? || i.Shake? || i.Registry? || i.Close?)
      modifies this`udpOut, this`tunOut, this`peerCerts, hostmap, fw`history, fw.ct
      modifies lighthouse`addrStore, lighthouse`myAddrs, handshakeMgr
      modifies Hosts()`windowEnd, Hosts()`arrivals, Windows()
      ensures Valid() && handshakeMgr.Valid() && Steps(Setting(), old(View()), i, r, View())
      ensures fresh(Hosts() - old(Hosts())) && fresh(Windows() - old(Windows()))
      ensures handshakeMgr.pending.Values <= old(handshakeMgr.pending.Values) && Setting() == old(Setting())
      ensures r.Received? && r.outcome.Written? ==> r.holes == []
      ensures tunOut == if r.Received? && r.outcome.Written? then old(tunOut) + [r.outcome.payload] else old(tunOut)
      ensures i.Shake? && i.subType == 1 ==>
                handshakeMgr.events == old(handshakeMgr.events) + [Runs.Answer(i.body, i.trusted)]
    {
      hide Valid, HM.HandshakeManager.Valid, HM.HandshakeManager.State, View, Setting;
      hide DataStep, ShakeStep, RegistryStep, Closed, Sends, SinceStart, NumberedFromOne, Answers, LighthouseSpec.After;
      hide FoundByIp, FoundByIndex, DistinctIndices;
      match i
      case Data(pkt, from, now) =>
        r := ReceiveData(pkt, from, now);
      case Shake(_, _, _, _, _, _, _) =>
        ghost var began;
        r, began := HandleHandshake(i);
      case Registry(at, msg, from) =>
        r := HandleLightHouse(at, msg, from);
      case Close(at) =>
        HandleCloseTunnel(at);
        r := Done;
    }

    /** One input of any kind. */
    method Handle(i: Input) returns (r: Result)
      requires Valid() && handshakeMgr.Valid()
      modifies this`udpOut, this`tunOut, this`peerCerts, hostmap, fw`history, fw.ct
      modifies lighthouse`addrStore, lighthouse`myAddrs, handshakeMgr, handshakeMgr.pending.Values
      modifies Hosts()`counter, Hosts()`sends, Hosts()`windowEnd, Hosts()`arrivals, Windows()
      ensures Valid() && handshakeMgr.Valid() && Steps(Setting(), old(View()), i, r, View())
      ensures fresh(Hosts() - old(Hosts())) && fresh(Windows() - old(Windows()))
      ensures fresh(handshakeMgr.pending.Values - old(handshakeMgr.pending.Values)) && Setting() == old(Setting())
      ensures r.Received? && r.outcome.Written? ==> r.holes == []
      ensures tunOut == if r.Received? && r.outcome.Written? then old(tunOut) + [r.outcome.payload] else old(tunOut)
      ensures i.Retry? ==> handshakeMgr.events == old(handshakeMgr.events) + [Runs.Tick(i.now)]
      ensures i.Shake? && i.subType == 1 ==>
                handshakeMgr.events == old(handshakeMgr.events) + [Runs.Answer(i.body, i.trusted)]
      ensures i.Expiry? ==>
                fw.history == old(fw.history)
                              + [Sweep(Timeouts(300_000_000_000, 30_000_000_000, 10_000_000_000), i.now)]
    {
      hide Valid, HM.HandshakeManager.Valid, HM.HandshakeManager.State, View, Setting;
      hide TunStep, DataStep, ShakeStep, RegistryStep, Closed, Ticks, HM.Resent, Allowed, AddressOf, Send;
      hide FoundByIp, JustQueued, IPv4.DstIP, IPv4.DstPort, IPv4.ProtoOf;
      match i
      case FromTun(p, w) =>
        var pkt := new u8[|p|](k requires 0 <= k < |p| => p[k]);
        assert pkt[..] == p;
        r := ConsumeInsidePacket(pkt, w);
      case Retry(now) =>
        r := RetryHandshakes(now);
      case Expiry(now) =>
        ExpireConnections(now);
        r := Done;
      case _ =>
        r := ConsumeOutsidePacket(i);
    }

    /** The daemon's life: over inputs of every kind, in any order, it goes through a life of the
        state machine; `ds` are the states, and `writes` are the inputs that put the plaintexts
        `tunOut` gained on the TUN device, one each and in order. */
    method Run(ins: seq<Input>) returns (rs: seq<Result>, ghost ds: seq<Daemon>, ghost writes: seq<nat>)
      requires Valid() && handshakeMgr.Valid()
      modifies this`udpOut, this`tunOut, this`peerCerts, hostmap, fw`history, fw.ct
      modifies lighthouse`addrStore, lighthouse`myAddrs, handshakeMgr, handshakeMgr.pending.Values
      modifies Hosts()`counter, Hosts()`sends, Hosts()`windowEnd, Hosts()`arrivals, Windows()
      ensures Valid() && handshakeMgr.Valid() && IsLife(Setting(), ds, ins, rs)
      ensures ds[0] == old(View()) && ds[|ins|] == View()
      ensures old(tunOut) <= tunOut && WroteInOrder(rs, writes, tunOut[|old(tunOut)|..])
      ensures |rs| == |ins| && |tunOut| == |old(tunOut)| + |writes|
      ensures forall n: nat :: n < |rs| && rs[n].Received? && rs[n].outcome.Written? ==>
                n in writes && rs[n].outcome.payload in tunOut[|old(tunOut)|..]
    {
      hide Valid, HM.HandshakeManager.Valid, View, Setting, Steps, IsLife, WroteInOrder;
      LifeBegins(Setting(), View());
      WroteNothing();
      rs, ds, writes := [], [View()], [];
      ghost var out: seq<Payload> := [];
      for n := 0 to |ins|
        invariant Valid() && handshakeMgr.Valid() && Setting() == old(Setting()) && |rs| == n
        invariant IsLife(Setting(), ds, ins[..n], rs) && |ds| == n + 1 && ds[0] == old(View()) && ds[n] == View()
        invariant fresh(Hosts() - old(Hosts())) && fresh(Windows() - old(Windows()))
        invariant fresh(handshakeMgr.pending.Values - old(handshakeMgr.pending.Values))
        invariant tunOut == old(tunOut) + out && WroteInOrder(rs, writes, out)
      {
        var r := Handle(ins[n]);
        LifeExtends(Setting(), ds, ins[..n], rs, ins[n], r, View());
        assert ins[..n] + [ins[n]] == ins[..n + 1];
        WroteNext(rs, writes, out, r);
        if r.Received? && r.outcome.Written? {
          writes, out := writes + [n], out + [r.outcome.payload];
        }
        rs, ds := rs + [r], ds + [View()];
      }
      assert ins[..|ins|] == ins;
      assert tunOut[|old(tunOut)|..] == out;
      AllAreWritten(rs, writes, out);
    }
  }
}
