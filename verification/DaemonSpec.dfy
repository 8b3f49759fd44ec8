/** The daemon as a state machine: what each input does to its whole state, and what holds over
    whole lives in which inputs of every kind come in any order. */
module DaemonSpec {
  import opened Words
  import opened Net
  import opened Headers
  import opened Crypto
  import opened Hosts
  import opened HandshakeSpec
  import opened Transport
  import opened FirewallSpec
  import opened LighthouseSpec
  import opened InterfaceSpec
  import HM = HandshakeManager
  import IPv4

  /** Every plaintext a session sent, and every counter it was put, in order. */
  datatype Log = Log(sends: seq<Payload>, arrivals: seq<nat>)

  /** The session table by its history, the log of every session ever in it, the pending
      handshakes, the firewall by its history, the registry, and the known certificates. */
  datatype Daemon = Daemon(table: seq<Op>, logs: map<HostInfo, Log>, mgr: Manager, fw: seq<FirewallSpec.Event>,
                           lh: Lh, certs: map<Addr, Cert>)

  datatype Setup = Setup(local: Cert, rules: Rules, punches: bool, respond: bool)

  datatype Input =
    | FromTun(payload: Payload, draw: Draw)
    | Data(packet: DataPacket, from: UdpAddr, now: FirewallSpec.Time)
    | Shake(subType: u8, body: HandshakeSpec.Packet, from: UdpAddr, trusted: set<Cert>, index: Option<u32>,
            er: Ephemeral, sendOk: bool)
    | Registry(remoteIndex: u32, msg: Option<Message>, from: UdpAddr)
    | Close(remoteIndex: u32)
    | Retry(now: HandshakeSpec.Time)
    | Expiry(now: FirewallSpec.Time)

  /** What comes of an input. `holes` are the addresses that get an empty datagram. */
  datatype Result =
    | Routed(fate: Fate, first: Option<HandshakeSpec.Packet>, asked: seq<Out>)
    | Received(outcome: Outcome, holes: seq<UdpAddr>)
    | Shaken(reply: Option<HandshakeSpec.Packet>, installed: HostInfo?)
    | Looked(out: seq<Out>, holes: seq<UdpAddr>)
    | Resent(packets: map<Addr, HandshakeSpec.Packet>)
    | Done

  // ---------- Steps ----------

  function SentOn(d: Daemon, h: HostInfo, p: Payload): map<HostInfo, Log>
    requires h in d.logs
  {
    d.logs[h := d.logs[h].(sends := d.logs[h].sends + [p])]
  }

  function PutTo(d: Daemon, h: HostInfo, counter: u64): map<HostInfo, Log>
    requires h in d.logs
  {
    d.logs[h := d.logs[h].(arrivals := d.logs[h].arrivals + [counter])]
  }

  ghost predicate TunStep(c: Setup, d: Daemon, p: Payload, w: Draw, r: Result, d': Daemon) {
    && r.Routed?
    && if IPv4.DstIP(p).None? then r == Routed(Ignored, None, []) && d' == d
       else
         var ip := IPv4.DstIP(p).value;
         var h := FoundByIp(d.table, ip);
         var packet := OutboundPacket(p, if h != null then h.cert.groups else []);
         var judged := d.(fw := d.fw + [Put(packet, w.now)]);
         if !Allowed(c.rules, d.fw, packet) then r == Routed(Barred, None, []) && d' == judged
         else if h != null then
           r == Routed(Forwarded, None, []) && h in d.logs && d' == judged.(logs := SentOn(d, h, p))
         else
           && Holds(c.local, d.mgr, d.certs, d.lh, ip, w, r.fate, r.first, r.asked)
           && d' == judged.(mgr := AfterHold(c.local, d.mgr, d.certs, d.lh, ip, p, w))
  }

  ghost predicate DataStep(c: Setup, d: Daemon, pkt: DataPacket, from: UdpAddr, now: FirewallSpec.Time, r: Result,
                           d': Daemon) {
    && r.Received?
    && if !IsData(pkt) then r == Received(NotData, []) && d' == d
       else
         var hdr := Parse(pkt.head).header;
         var h := FoundByIndex(d.table, hdr.remoteIndex);
         if h == null then r == Received(NoSession, if c.respond then [from] else []) && d' == d
         else
           && h in d.logs && r.holes == [] && Reported(h.recvKey, d.logs[h].arrivals, pkt, r.outcome)
           && d' == d.(fw := d'.fw, logs := PutTo(d, h, hdr.counter))
           && if Opened(r.outcome)
              then Judged(c.rules, d.fw, d'.fw, h.cert.groups, Plain(h.recvKey, pkt).value, r.outcome, now)
              else d'.fw == d.fw
  }

  /** Session `s` joins as host `h`, with the flushed packets as its first sends. */
  predicate Joins(d: Daemon, s: Session, flush: seq<Payload>, h: HostInfo?, d': Daemon) {
    && h != null && h !in d.logs && Installed(h, s)
    && d' == d.(table := d.table + [Added(h)], logs := d.logs[h := Log(flush, [])], certs := d.certs[s.vpnIP := s.cert])
  }

  predicate InitiationStep(c: Setup, d: Daemon, i: Input, r: Result, d': Daemon)
    requires i.Shake?
  {
    && r.Shaken?
    && if Accepts(c.local, i.body.body, i.trusted) && i.index.Some?
       then
         && r.reply == Some(Reply(c.local, i.body.body, i.index.value, i.er))
         && if i.sendOk then Joins(d, ResponderSession(i.body.body, i.from, i.index.value, i.er), [], r.installed, d')
            else r.installed == null && d' == d
       else r == Shaken(None, null) && d' == d
  }

  predicate ResponseStep(d: Daemon, i: Input, r: Result, d': Daemon)
    requires i.Shake?
  {
    var at := i.body.remoteIndex;
    var taken := d.(mgr := AfterStage1(d.mgr, at));
    && r.Shaken? && r.reply == None
    && if Reaches(d.mgr, at) && Completion(Reached(d.mgr, at), i.body.body, i.trusted).Some?
       then
         var p := Reached(d.mgr, at);
         Joins(taken, Completion(p, i.body.body, i.trusted).value, p.queue, r.installed, d')
       else r.installed == null && d' == taken
  }

  predicate ShakeStep(c: Setup, d: Daemon, i: Input, r: Result, d': Daemon)
    requires i.Shake?
  {
    if i.subType == HANDSHAKE_INITIATION then InitiationStep(c, d, i, r, d')
    else if i.subType == HANDSHAKE_RESPONSE then ResponseStep(d, i, r, d')
    else r == Shaken(None, null) && d' == d
  }

  /** The sender is the host its index finds in the session table, and only otherwise a node that
      its source address is stored for. */
  ghost predicate ComesFrom(d: Daemon, remoteIndex: u32, from: UdpAddr, sender: Addr) {
    var h := FoundByIndex(d.table, remoteIndex);
    TakenFrom(d.lh, if h == null then None else Some(h.vpnIP), from, sender)
  }

  ghost predicate RegistryStep(c: Setup, d: Daemon, remoteIndex: u32, msg: Option<Message>, from: UdpAddr, r: Result,
                               d': Daemon) {
    || (r == Looked([], []) && d' == d && (msg.None? || forall ip :: !ComesFrom(d, remoteIndex, from, ip)))
    || (&& msg.Some?
        && exists ip :: ComesFrom(d, remoteIndex, from, ip)
             && r == Looked(Answers(d.lh, msg.value, ip), if c.punches then Holes(msg.value) else [])
             && d' == d.(lh := LighthouseSpec.After(d.lh, msg.value, ip)))
  }

  function Closed(d: Daemon, remoteIndex: u32): Daemon {
    var h := FoundByIndex(d.table, remoteIndex);
    if h == null then d else d.(table := d.table + [Removed(h.vpnIP)])
  }

  ghost predicate RetryStep(d: Daemon, now: HandshakeSpec.Time, r: Result, d': Daemon) {
    r.Resent? && d' == d.(mgr := d'.mgr) && Ticks(d.mgr, d'.mgr, now) && HM.Resent(d.mgr, r.packets, now)
  }

  ghost predicate Steps(c: Setup, d: Daemon, i: Input, r: Result, d': Daemon) {
    match i
    case FromTun(p, w) => TunStep(c, d, p, w, r, d')
    case Data(pkt, from, now) => DataStep(c, d, pkt, from, now, r, d')
    case Shake(_, _, _, _, _, _, _) => ShakeStep(c, d, i, r, d')
    case Registry(at, msg, from) => RegistryStep(c, d, at, msg, from, r, d')
    case Close(at) => r == Done && d' == Closed(d, at)
    case Retry(now) => RetryStep(d, now, r, d')
    case Expiry(now) => r == Done && d' == d.(fw := d.fw + [Sweep(DEFAULTS, now)])
  }

  // ---------- Lives ----------

  ghost predicate IsLife(c: Setup, ds: seq<Daemon>, ins: seq<Input>, rs: seq<Result>) {
    && |ds| == |ins| + 1 && |rs| == |ins|
    && forall n :: 0 <= n < |ins| ==> Steps(c, ds[n], ins[n], rs[n], ds[n + 1])
  }

  lemma LifeBegins(c: Setup, d: Daemon)
    ensures IsLife(c, [d], [], [])
  {
  }

  lemma LifeExtends(c: Setup, ds: seq<Daemon>, ins: seq<Input>, rs: seq<Result>, i: Input, r: Result, d': Daemon)
    requires IsLife(c, ds, ins, rs) && |ds| == |ins| + 1 && Steps(c, ds[|ins|], i, r, d')
    ensures IsLife(c, ds + [d'], ins + [i], rs + [r])
  {
    hide Steps;
  }

  lemma StepAt(c: Setup, ds: seq<Daemon>, ins: seq<Input>, rs: seq<Result>, n: nat)
    requires IsLife(c, ds, ins, rs) && n < |ins|
    ensures Steps(c, ds[n], ins[n], rs[n], ds[n + 1])
  {
  }

  /** The input is a data packet for the session that its index finds. */
  predicate Hears(d: Daemon, i: Input, h: HostInfo) {
    i.Data? && IsData(i.packet) && FoundByIndex(d.table, Parse(i.packet.head).header.remoteIndex) == h
  }

  lemma HearsItsOwn(d: Daemon, i: Input, h: HostInfo)
    requires Hears(d, i, h)
    ensures GetsThere(ChannelFrom(h), i.packet)
  {
    FoundIsAdded(d.table, NoAddr, Parse(i.packet.head).header.remoteIndex);
  }

  /** The packets that session `h` heard from input `i` on and before input `n`. */
  ghost function Heard(ds: seq<Daemon>, ins: seq<Input>, h: HostInfo, i: nat, n: nat): (pkts: seq<DataPacket>)
    requires i <= n <= |ins| && |ds| == |ins| + 1
    ensures AllGetThere(ChannelFrom(h), pkts)
    decreases n
  {
    if i == n then []
    else
      Heard(ds, ins, h, i, n - 1) +
      if Hears(ds[n - 1], ins[n - 1], h) then HearsItsOwn(ds[n - 1], ins[n - 1], h); [ins[n - 1].packet] else []
  }

  /** The input is a packet that goes out on the session. */
  predicate Carries(d: Daemon, i: Input, r: Result, h: HostInfo) {
    && i.FromTun? && r.Routed? && r.fate.Forwarded? && IPv4.DstIP(i.payload).Some?
    && FoundByIp(d.table, IPv4.DstIP(i.payload).value) == h
  }

  ghost function Carried(ds: seq<Daemon>, ins: seq<Input>, rs: seq<Result>, h: HostInfo, i: nat, n: nat): seq<Payload>
    requires i <= n <= |ins| && |ds| == |ins| + 1 && |rs| == |ins|
    decreases n
  {
    if i == n then []
    else
      Carried(ds, ins, rs, h, i, n - 1) +
      if Carries(ds[n - 1], ins[n - 1], rs[n - 1], h) then [ins[n - 1].payload] else []
  }

  /** One step adds to a session's log exactly what the session heard and carried. */
  lemma StepLogs(c: Setup, d: Daemon, i: Input, r: Result, d': Daemon, h: HostInfo)
    requires Steps(c, d, i, r, d') && h in d.logs
    ensures h in d'.logs
    ensures d'.logs[h].arrivals
         == d.logs[h].arrivals + if Hears(d, i, h) then [Parse(i.packet.head).header.counter] else []
    ensures d'.logs[h].sends == d.logs[h].sends + if Carries(d, i, r, h) then [i.payload] else []
  {
    hide Parse, Reported, Judged, Allowed, AfterHold, Holds, FoundByIp, FoundByIndex, OutboundPacket, IPv4.DstIP;
    hide Ticks, HM.Resent, Accepts, Completion, AfterStage1, Reply, ResponderSession, ComesFrom;
  }

  /** Over any stretch of a life, a session is put exactly the counters of the packets it heard, and
      sends exactly the packets it carried, in order, whatever else the daemon does. */
  lemma {:induction false} LogsGrow(c: Setup, ds: seq<Daemon>, ins: seq<Input>, rs: seq<Result>, h: HostInfo,
                                    i: nat, n: nat)
    requires IsLife(c, ds, ins, rs) && i <= n <= |ins| && h in ds[i].logs
    ensures h in ds[n].logs
    ensures ds[n].logs[h].arrivals == ds[i].logs[h].arrivals + Counters(ChannelFrom(h), Heard(ds, ins, h, i, n))
    ensures ds[n].logs[h].sends == ds[i].logs[h].sends + Carried(ds, ins, rs, h, i, n)
    decreases n
  {
    hide Steps, Hears, Carries, Parse;
    if i < n {
      LogsGrow(c, ds, ins, rs, h, i, n - 1);
      StepAt(c, ds, ins, rs, n - 1);
      StepLogs(c, ds[n - 1], ins[n - 1], rs[n - 1], ds[n], h);
      HeardNext(ds, ins, h, i, n);
    }
  }

  lemma HeardNext(ds: seq<Daemon>, ins: seq<Input>, h: HostInfo, i: nat, n: nat)
    requires i < n <= |ins| && |ds| == |ins| + 1
    ensures Counters(ChannelFrom(h), Heard(ds, ins, h, i, n))
         == Counters(ChannelFrom(h), Heard(ds, ins, h, i, n - 1))
            + if Hears(ds[n - 1], ins[n - 1], h) then [Parse(ins[n - 1].packet.head).header.counter] else []
  {
    hide Parse, FoundByIndex;
  }

  lemma {:induction false} HeardPrefix(ds: seq<Daemon>, ins: seq<Input>, h: HostInfo, i: nat, m: nat, n: nat)
    requires i <= m <= n <= |ins| && |ds| == |ins| + 1
    ensures Heard(ds, ins, h, i, m) <= Heard(ds, ins, h, i, n)
    decreases n
  {
    hide Hears;
    if m < n {
      HeardPrefix(ds, ins, h, i, m, n - 1);
    }
  }

  lemma HeardAt(ds: seq<Daemon>, ins: seq<Input>, h: HostInfo, i: nat, n: nat, j: nat)
    requires i <= n < j <= |ins| && |ds| == |ins| + 1 && Hears(ds[n], ins[n], h)
    ensures |Heard(ds, ins, h, i, n)| < |Heard(ds, ins, h, i, j)|
    ensures Heard(ds, ins, h, i, j)[|Heard(ds, ins, h, i, n)|] == ins[n].packet
  {
    hide Parse, FoundByIndex;
    HeardPrefix(ds, ins, h, i, n + 1, j);
  }

  lemma ReportedWhenHeard(c: Setup, d: Daemon, i: Input, r: Result, d': Daemon, h: HostInfo)
    requires Steps(c, d, i, r, d') && Hears(d, i, h)
    ensures h in d.logs && r.Received? && Reported(h.recvKey, d.logs[h].arrivals, i.packet, r.outcome)
  {
    hide Parse, Reported, Judged;
  }

  /** Whatever else happens in between, what the daemon makes of a data packet is right about the
      session's channel, counting all that the session heard before: `past` before input `i`, and
      since then everything up to the packet. */
  lemma LifeIsFaithful(c: Setup, ds: seq<Daemon>, ins: seq<Input>, rs: seq<Result>, h: HostInfo, past: seq<DataPacket>,
                       i: nat, n: nat, j: nat)
    requires IsLife(c, ds, ins, rs) && i <= n < j <= |ins| && h in ds[i].logs && Hears(ds[n], ins[n], h)
    requires AllGetThere(ChannelFrom(h), past) && ds[i].logs[h].arrivals == Counters(ChannelFrom(h), past)
    ensures rs[n].Received?
    ensures Faithful(ChannelFrom(h), past + Heard(ds, ins, h, i, j), |past| + |Heard(ds, ins, h, i, n)|, rs[n].outcome)
  {
    hide Steps, Hears, Parse, Reported, Faithful, GetsThere;
    var ch, all, at := ChannelFrom(h), past + Heard(ds, ins, h, i, j), |past| + |Heard(ds, ins, h, i, n)|;
    LogsGrow(c, ds, ins, rs, h, i, n);
    StepAt(c, ds, ins, rs, n);
    ReportedWhenHeard(c, ds[n], ins[n], rs[n], ds[n + 1], h);
    HeardPrefix(ds, ins, h, i, n, j);
    HeardAt(ds, ins, h, i, n, j);
    assert Counters(ch, all)[..at] == ds[n].logs[h].arrivals;
    ReportIsFaithful(ch, all, at, rs[n].outcome);
  }

  /** Input `n` makes session `h` write a plaintext to the TUN device. */
  predicate Writes(ds: seq<Daemon>, ins: seq<Input>, rs: seq<Result>, h: HostInfo, n: nat)
    requires |ds| == |ins| + 1 && |rs| == |ins|
  {
    n < |ins| && Hears(ds[n], ins[n], h) && rs[n].Received? && rs[n].outcome.Written?
  }

  lemma WrittenComes(c: Setup, ds: seq<Daemon>, ins: seq<Input>, rs: seq<Result>, h: HostInfo, i: nat, j: nat,
                     ps: seq<Payload>, n: nat)
    returns (k: nat)
    requires IsLife(c, ds, ins, rs) && i <= n < j <= |ins| && h in ds[i].logs && ds[i].logs[h].arrivals == []
    requires NoForgery(ChannelFrom(h), ps, Heard(ds, ins, h, i, j)) && Writes(ds, ins, rs, h, n)
    ensures Comes(ChannelFrom(h), ps, Heard(ds, ins, h, i, j), |Heard(ds, ins, h, i, n)|, k)
    ensures |Heard(ds, ins, h, i, n)| < |Heard(ds, ins, h, i, j)|
    ensures k < |ps| && ins[n].packet == Sending(ChannelFrom(h), ps, k) && rs[n].outcome.payload == ps[k]
  {
    hide Steps, Hears, Heard, Parse, GetsThere, Delivered, Counter, CounterOf, Sending, NoForgery, LetThrough;
    var ch, all, at := ChannelFrom(h), Heard(ds, ins, h, i, j), |Heard(ds, ins, h, i, n)|;
    assert [] + all == all && Counters(ch, []) == [];
    LifeIsFaithful(c, ds, ins, rs, h, [], i, n, j);
    HeardAt(ds, ins, h, i, n, j);
    k := DeliveredWasSent(ch, ps, all, at, rs[n].outcome.payload);
  }

  /** `writes` are the inputs that wrote `out` to the TUN device, one plaintext each and in order,
      and no other input wrote anything. */
  ghost predicate WroteInOrder(rs: seq<Result>, writes: seq<nat>, out: seq<Payload>) {
    && |writes| == |out|
    && (forall a :: 0 <= a < |out| ==> writes[a] < |rs| && rs[writes[a]] == Received(Written(out[a]), []))
    && (forall a, b :: 0 <= a < b < |out| ==> writes[a] < writes[b])
    && (forall n: nat :: n < |rs| && rs[n].Received? && rs[n].outcome.Written? ==> n in writes)
  }

  lemma WroteNothing()
    ensures WroteInOrder([], [], [])
  {
  }

  lemma WroteNext(rs: seq<Result>, writes: seq<nat>, out: seq<Payload>, r: Result)
    requires WroteInOrder(rs, writes, out)
    requires r.Received? && r.outcome.Written? ==> r.holes == []
    ensures if r.Received? && r.outcome.Written?
            then WroteInOrder(rs + [r], writes + [|rs|], out + [r.outcome.payload])
            else WroteInOrder(rs + [r], writes, out)
  {
    var rs', writes' := rs + [r], writes + [|rs|];
    if r.Received? && r.outcome.Written? {
      assert rs'[|rs|] == Received(Written(r.outcome.payload), []);
      assert writes'[|writes|] == |rs|;
      assert forall n :: n in writes ==> n in writes';
    }
  }

  lemma AllAreWritten(rs: seq<Result>, writes: seq<nat>, out: seq<Payload>)
    requires WroteInOrder(rs, writes, out)
    ensures |writes| == |out|
    ensures forall n: nat :: n < |rs| && rs[n].Received? && rs[n].outcome.Written? ==>
              n in writes && rs[n].outcome.payload in out
  {
    forall n: nat | n < |rs| && rs[n].Received? && rs[n].outcome.Written?
      ensures n in writes && rs[n].outcome.payload in out
    {
      var a :| 0 <= a < |writes| && writes[a] == n;
      assert out[a] == rs[n].outcome.payload;
    }
  }

  /** From the moment a session joins, every plaintext of its that reaches the TUN device was sent to
      it, in the very packet that arrived, and no two of them come of the same send. */
  lemma WrittenOncePerSend(c: Setup, ds: seq<Daemon>, ins: seq<Input>, rs: seq<Result>, h: HostInfo, i: nat,
                           ps: seq<Payload>, writes: seq<nat>, out: seq<Payload>, a: nat, b: nat)
    returns (k: nat, l: nat)
    requires IsLife(c, ds, ins, rs) && i <= |ins| && h in ds[i].logs && ds[i].logs[h].arrivals == []
    requires NoForgery(ChannelFrom(h), ps, Heard(ds, ins, h, i, |ins|))
    requires WroteInOrder(rs, writes, out) && a < b < |out| && i <= writes[a]
    requires Hears(ds[writes[a]], ins[writes[a]], h) && Hears(ds[writes[b]], ins[writes[b]], h)
    ensures k < |ps| && ins[writes[a]].packet == Sending(ChannelFrom(h), ps, k) && out[a] == ps[k]
    ensures l < |ps| && ins[writes[b]].packet == Sending(ChannelFrom(h), ps, l) && out[b] == ps[l]
    ensures k != l
  {
    hide Steps, Hears, Heard, Comes, Sending, NoForgery, AllGetThere;
    var n, m, j := writes[a], writes[b], |ins|;
    var all := Heard(ds, ins, h, i, j);
    k := WrittenComes(c, ds, ins, rs, h, i, j, ps, n);
    l := WrittenComes(c, ds, ins, rs, h, i, j, ps, m);
    HeardAt(ds, ins, h, i, n, m);
    if k == l {
      OneDeliveryPerSend(ChannelFrom(h), ps, all, |Heard(ds, ins, h, i, n)|, |Heard(ds, ins, h, i, m)|, k);
    }
  }

  // ---------- Sessions come and go ----------

  /** A session joins exactly for these inputs: an initiation for this node under a trusted
      certificate, untampered and under the right pre-shared key, whose answer went out; or a
      response to a pending handshake under a trusted certificate, untampered. */
  lemma JoinsExactly(c: Setup, d: Daemon, i: Input, r: Result, d': Daemon)
    requires Steps(c, d, i, r, d') && i.Shake?
    ensures r.Shaken?
    ensures r.installed != null <==>
              var b, at := i.body.body, i.body.remoteIndex;
              && b.Body? && b.details.cert in i.trusted && b.mac == Mac(b.details.cert.fingerprint, b.details, b.noise)
              && ((&& i.subType == 0 && b.noise.First? && b.noise.init.rs == c.local.publicKey
                   && b.noise.init.psk == XorBytes(c.local.fingerprint, b.details.cert.fingerprint)
                   && i.index.Some? && i.sendOk)
                  || (&& i.subType == 1 && at in d.mgr.index && d.mgr.index[at] in d.mgr.pending && b.noise.Second?
                      && b.noise.transcript.first == d.mgr.pending[d.mgr.index[at]].state))
    ensures r.installed != null ==>
              && r.installed in d'.logs && r.installed !in d.logs && r.installed.cert == i.body.body.details.cert
              && d'.certs == d.certs[r.installed.vpnIP := r.installed.cert]
              && FoundByIp(d'.table, r.installed.vpnIP) == r.installed
              && FoundByIndex(d'.table, r.installed.index) == r.installed
    ensures r.installed == null ==> d'.table == d.table && d'.logs == d.logs && d'.certs == d.certs
  {
    hide XorBytes, AfterStage1;
  }

  /** An allowed packet for a peer without a session is held exactly when a handshake is in progress, or
      one can be started, gets an index and its first write succeeds; it is then the newest in the
      peer's queue. Otherwise it is lost. */
  lemma HeldExactly(c: Setup, d: Daemon, p: Payload, w: Draw, r: Result, d': Daemon, ip: Addr)
    requires Steps(c, d, FromTun(p, w), r, d') && IPv4.DstIP(p) == Some(ip) && FoundByIp(d.table, ip) == null
    requires Allowed(c.rules, d.fw, FirewallSpec.Packet(Outbound, ip, [], IPv4.DstPort(p), IPv4.ProtoOf(p)))
    ensures r.Routed? && (r.fate.Held? || r.fate.Lost?)
    ensures r.fate.Held? <==>
              || ip in d.mgr.pending
              || (ip in d.certs && ip in d.lh.store && d.lh.store[ip] != [] && w.index.Some? && w.sendOk)
    ensures r.fate.Held? ==>
              ip in d'.mgr.pending && var q := d'.mgr.pending[ip].queue; q != [] && q[|q| - 1] == p
    ensures r.asked == if ip in d.certs && (ip !in d.lh.store || d.lh.store[ip] == []) then Queries(d.lh, ip) else []
  {
    hide Allowed, IPv4.DstIP, IPv4.DstPort, IPv4.ProtoOf, AfterStart, Queries;
    KeptExactly(c.local, d.mgr, d.certs, d.lh, ip, p, w);
  }

  /** In any life, what is written was allowed: the firewall let an inbound packet with the plaintext's
      source, port and protocol and the session's groups through, at that point of its history. */
  lemma WrittenWasAllowed(c: Setup, ds: seq<Daemon>, ins: seq<Input>, rs: seq<Result>, n: nat)
    requires IsLife(c, ds, ins, rs) && n < |ins| && rs[n].Received? && rs[n].outcome.Written?
    ensures ins[n].Data? && IsData(ins[n].packet)
    ensures var h, p := FoundByIndex(ds[n].table, Parse(ins[n].packet.head).header.remoteIndex), rs[n].outcome.payload;
            && h != null && IPv4.SrcIP(p).Some?
            && var packet := FirewallSpec.Packet(Inbound, IPv4.SrcIP(p).value, h.cert.groups, IPv4.DstPort(p),
                                                 IPv4.ProtoOf(p));
               && Allowed(c.rules, ds[n].fw, packet) && ds[n + 1].fw == ds[n].fw + [Put(packet, ins[n].now)]
  {
    hide Allowed, IPv4.SrcIP, IPv4.DstPort, IPv4.ProtoOf, Parse;
    StepAt(c, ds, ins, rs, n);
  }

  lemma TableNext(c: Setup, d: Daemon, i: Input, r: Result, d': Daemon)
    requires Steps(c, d, i, r, d')
    ensures || d'.table == d.table
            || (i.Shake? && r.Shaken? && r.installed != null && d'.table == d.table + [Added(r.installed)])
            || (exists ip :: d'.table == d.table + [Removed(ip)])
  {
    hide Parse, Reported, Judged, Allowed, AfterHold, Holds, FoundByIp, OutboundPacket, IPv4.DstIP;
    hide Ticks, HM.Resent, Accepts, Completion, AfterStage1, Reply, ResponderSession, ComesFrom;
  }

  lemma CloseFindsNothing(c: Setup, d: Daemon, i: Input, r: Result, d': Daemon)
    requires Steps(c, d, i, r, d') && i.Close? && FoundByIndex(d.table, i.remoteIndex) != null
    ensures FoundByIp(d'.table, FoundByIndex(d.table, i.remoteIndex).vpnIP) == null
  {
  }

  /** After a close that found a session, nothing is found at its address until a session joins
      there, whatever else comes in. */
  lemma {:induction false} ClosedUntilJoined(c: Setup, ds: seq<Daemon>, ins: seq<Input>, rs: seq<Result>, n: nat,
                                             m: nat)
    requires IsLife(c, ds, ins, rs) && n < m <= |ins| && ins[n].Close?
    requires var h := FoundByIndex(ds[n].table, ins[n].remoteIndex);
             h != null && forall k :: n < k < m && rs[k].Shaken? && rs[k].installed != null ==>
               rs[k].installed.vpnIP != h.vpnIP
    ensures FoundByIp(ds[m].table, FoundByIndex(ds[n].table, ins[n].remoteIndex).vpnIP) == null
    decreases m
  {
    hide Steps;
    StepAt(c, ds, ins, rs, m - 1);
    if m == n + 1 {
      CloseFindsNothing(c, ds[n], ins[n], rs[n], ds[m]);
    } else {
      ClosedUntilJoined(c, ds, ins, rs, n, m - 1);
      TableNext(c, ds[m - 1], ins[m - 1], rs[m - 1], ds[m]);
    }
  }
}
