/** Fields of the IPv4 packets that travel through the tunnel. */
module IPv4 {
  import opened Words
  import opened Net
  import opened FirewallSpec

  predicate IsIPv4(pkt: seq<u8>) {
    |pkt| >= 20 && pkt[0] / 16 == 4
  }

  function AddrAt(pkt: seq<u8>, at: nat): Option<Addr>
    requires at + 4 <= 20
  {
    if IsIPv4(pkt) then
      FromBigEndianRoundTrip(pkt[at..at + 4]);
      WordSizes();
      Some(V4(FromBigEndian(pkt[at..at + 4])))
    else None
  }

  function SrcIP(pkt: seq<u8>): Option<Addr> {
    AddrAt(pkt, 12)
  }

  function DstIP(pkt: seq<u8>): Option<Addr> {
    AddrAt(pkt, 16)
  }

  function ProtoOf(pkt: seq<u8>): Proto {
    if |pkt| < 10 then PROTO_ANY else pkt[9]
  }

  /** The destination port of TCP and UDP packets long enough to hold it; zero otherwise. */
  function DstPort(pkt: seq<u8>): Port {
    if |pkt| < 20 then 0
    else
      var ihl := (pkt[0] % 16) * 4;
      if (pkt[9] == PROTO_TCP || pkt[9] == PROTO_UDP) && |pkt| >= ihl + 4
      then
        var hi: nat, lo: nat := pkt[ihl + 2], pkt[ihl + 3];
        256 * hi + lo
      else 0
  }

  function Number(a: u8, b: u8, c: u8, d: u8): nat {
    a as nat * 0x100_0000 + b as nat * 0x1_0000 + c as nat * 0x100 + d
  }

  /** Which bytes the two addresses are: the source is bytes 12 to 15, the destination 16 to 19,
      most significant first; anything shorter than twenty bytes or of another version has none. */
  lemma AddressBytes(pkt: seq<u8>)
    ensures SrcIP(pkt).None? <==> |pkt| < 20 || pkt[0] / 16 != 4
    ensures DstIP(pkt).None? <==> |pkt| < 20 || pkt[0] / 16 != 4
    ensures |pkt| >= 20 && pkt[0] / 16 == 4 ==>
              && SrcIP(pkt).value.V4? && SrcIP(pkt).value.bits == Number(pkt[12], pkt[13], pkt[14], pkt[15])
              && DstIP(pkt).value.V4? && DstIP(pkt).value.bits == Number(pkt[16], pkt[17], pkt[18], pkt[19])
  {
    if |pkt| >= 20 && pkt[0] / 16 == 4 {
      FourBytes(pkt[12..16]);
      FourBytes(pkt[16..20]);
    }
  }

  /** Which byte is the protocol, and which two are the port: those of a TCP or UDP packet, behind a
      header of the length it states, if they are there. */
  lemma PortBytes(pkt: seq<u8>)
    ensures ProtoOf(pkt) == if |pkt| < 10 then 0 else pkt[9]
    ensures var at := if |pkt| == 0 then 0 else pkt[0] % 16 * 4;
            DstPort(pkt) == if |pkt| >= 20 && (pkt[9] == 6 || pkt[9] == 17) && |pkt| >= at + 4
                            then pkt[at + 2] as nat * 0x100 + pkt[at + 3] else 0
  {
  }

  /** A packet put together from its fields: the header length in words, the bytes nobody here
      reads, the protocol, the two addresses, the options, the two ports and the rest. */
  function Assemble(ihl: u8, skipped: seq<u8>, proto: u8, sum: seq<u8>, src: u32, dst: u32, options: seq<u8>,
                    srcPort: seq<u8>, port: Port, rest: seq<u8>): seq<u8>
    requires 5 <= ihl <= 15 && |skipped| == 8 && |sum| == 2 && |options| == (ihl - 5) * 4 && |srcPort| == 2
  {
    [64 + ihl] + skipped + [proto] + sum + BigEndian(4, src) + BigEndian(4, dst) + options + srcPort
    + [port / 256, port % 256] + rest
  }

  /** The fields of such a packet read back, for all of them. */
  lemma FieldsReadBack(ihl: u8, skipped: seq<u8>, proto: u8, sum: seq<u8>, src: u32, dst: u32, options: seq<u8>,
                       srcPort: seq<u8>, port: Port, rest: seq<u8>)
    requires 5 <= ihl <= 15 && |skipped| == 8 && |sum| == 2 && |options| == (ihl - 5) * 4 && |srcPort| == 2
    ensures var pkt := Assemble(ihl, skipped, proto, sum, src, dst, options, srcPort, port, rest);
            && SrcIP(pkt) == Some(V4(src)) && DstIP(pkt) == Some(V4(dst)) && ProtoOf(pkt) == proto
            && DstPort(pkt) == if proto == 6 || proto == 17 then port else 0
  {
    hide BigEndian, FromBigEndian;
    var pkt := Assemble(ihl, skipped, proto, sum, src, dst, options, srcPort, port, rest);
    WordSizes();
    BigEndianRoundTrip(4, src);
    BigEndianRoundTrip(4, dst);
    assert pkt[12..16] == BigEndian(4, src);
    assert pkt[16..20] == BigEndian(4, dst);
    assert pkt[ihl * 4 + 2] == port / 256 && pkt[ihl * 4 + 3] == port % 256;
  }
}

/** What the daemon's packet paths are to do: the fate of every packet from the socket and from
    the TUN device. */
module InterfaceSpec {
  import opened Words
  import opened Net
  import opened Headers
  import opened Crypto
  import opened ReplaySpec
  import opened Hosts
  import opened HandshakeSpec
  import opened Transport
  import opened FirewallSpec
  import opened LighthouseSpec
  import Runs = HandshakeRuns
  import Fates = QueuedPackets
  import IPv4

  // ---------- Inbound ----------

  /** What becomes of a packet from the socket, as far as it is a data packet. */
  datatype Outcome = NotData | NoSession | Replayed | Unopened | NotIPv4 | Blocked | Written(payload: Payload)

  /** The inbound packet that the firewall judges for a plaintext. */
  function InboundPacket(p: Payload, groups: seq<string>): FirewallSpec.Packet
    requires IPv4.SrcIP(p).Some?
  {
    FirewallSpec.Packet(Inbound, IPv4.SrcIP(p).value, groups, IPv4.DstPort(p), IPv4.ProtoOf(p))
  }

  /** The channel on which a session receives. */
  function ChannelFrom(h: HostInfo): Channel {
    Channel(h.recvKey, h.index)
  }

  /** The packet passed the replay check and its box opened. */
  predicate Opened(o: Outcome) {
    o.NotIPv4? || o.Blocked? || o.Written?
  }

  function Plain(key: Key, pkt: DataPacket): Option<Payload>
    requires Parse(pkt.head).Parsed?
  {
    Decrypt(key, Parse(pkt.head).header.counter, pkt.head, pkt.box)
  }

  /** What the outcome says about the packet, for a session with these earlier arrivals. */
  ghost predicate Reported(key: Key, arrivals: seq<nat>, pkt: DataPacket, o: Outcome)
    requires Parse(pkt.head).Parsed?
  {
    var passes := Passes(arrivals + [Parse(pkt.head).header.counter], |arrivals|);
    && (o.Replayed? <==> !passes)
    && (o.Unopened? <==> passes && Plain(key, pkt).None?)
    && (Opened(o) <==> passes && Plain(key, pkt).Some?)
    && (o.Written? ==> Plain(key, pkt) == Some(o.payload))
  }

  /** What the firewall made of an opened plaintext `p`. */
  ghost predicate Judged(rules: Rules, before: seq<FirewallSpec.Event>, after: seq<FirewallSpec.Event>,
                         groups: seq<string>, p: Payload, o: Outcome, now: FirewallSpec.Time) {
    if IPv4.SrcIP(p).None? then o.NotIPv4? && after == before
    else
      && (o.Written? <==> Allowed(rules, before, InboundPacket(p, groups)))
      && (o.Written? || o.Blocked?) && after == before + [Put(InboundPacket(p, groups), now)]
  }

  /** Outcome `o` is right about arrival `j` of a channel. */
  ghost predicate Faithful(ch: Channel, pkts: seq<DataPacket>, j: nat, o: Outcome)
    requires AllGetThere(ch, pkts)
  {
    (Opened(o) <==> LetThrough(ch, pkts, j)) && (o.Written? ==> Delivered(ch, pkts, j, o.payload))
  }

  lemma ReportIsFaithful(ch: Channel, pkts: seq<DataPacket>, n: nat, o: Outcome)
    requires AllGetThere(ch, pkts) && n < |pkts| && Reported(ch.key, Counters(ch, pkts)[..n], pkts[n], o)
    ensures Faithful(ch, pkts, n, o)
  {
    hide Parse, Decrypt, Passes;
    var cs := Counters(ch, pkts);
    assert cs[..n + 1] == cs[..n] + [cs[n]];
    PassesInPrefix(cs, n + 1, n);
  }

  predicate IsData(pkt: DataPacket) {
    Parse(pkt.head).Parsed? && Parse(pkt.head).header.kind == TYPE_MESSAGE
  }

  // ---------- Outbound ----------

  /** What becomes of a packet from the TUN device. */
  datatype Fate = Ignored | Barred | Forwarded | Held | Lost

  function OutboundPacket(p: Payload, groups: seq<string>): FirewallSpec.Packet
    requires IPv4.DstIP(p).Some?
  {
    FirewallSpec.Packet(Outbound, IPv4.DstIP(p).value, groups, IPv4.DstPort(p), IPv4.ProtoOf(p))
  }

  /** A data packet handed to the socket, and the session that sent it. */
  datatype Outgoing = Outgoing(sender: HostInfo, packet: DataPacket, to: UdpAddr)

  /** The channel on which a session sends. */
  function ChannelTo(h: HostInfo): Channel {
    Channel(h.sendKey, h.remoteIndex)
  }

  /** Send number `i` of a session whose plaintexts are `ps`. */
  function Send(h: HostInfo, ps: seq<Payload>, i: nat): Outgoing
    requires i < |ps|
  {
    Outgoing(h, Sending(ChannelTo(h), ps, i), h.remote)
  }

  /** The sends of a session from number `from` on. */
  function Sends(h: HostInfo, ps: seq<Payload>, from: nat): (out: seq<Outgoing>)
    requires from <= |ps|
    ensures |out| == |ps| - from && forall i: nat :: i < |out| ==> out[i] == Send(h, ps, from + i)
  {
    seq(|ps| - from, i requires 0 <= i < |ps| - from => Send(h, ps, from + i))
  }

  function SentBy(out: seq<Outgoing>, h: HostInfo): seq<Outgoing> {
    if out == [] then []
    else
      var n := |out| - 1;
      SentBy(out[..n], h) + if out[n].sender == h then [out[n]] else []
  }

  lemma SentByNext(out: seq<Outgoing>, o: Outgoing, h: HostInfo)
    ensures SentBy(out + [o], h) == SentBy(out, h) + if o.sender == h then [o] else []
  {
    assert (out + [o])[..|out|] == out;
  }

  lemma {:induction false} SentByNobody(out: seq<Outgoing>, h: HostInfo)
    requires forall o :: o in out ==> o.sender != h
    ensures SentBy(out, h) == []
  {
    if out != [] {
      SentByNobody(out[..|out| - 1], h);
    }
  }

  /** One more plaintext is one more send, and changes none before it. */
  lemma SendsNext(h: HostInfo, ps: seq<Payload>, p: Payload, from: nat)
    requires from <= |ps|
    ensures Sends(h, ps + [p], from) == Sends(h, ps, from) + [Send(h, ps + [p], |ps|)]
  {
    hide Seal;
  }

  lemma SendIsFrom(h: HostInfo, ps: seq<Payload>, i: nat)
    requires i < |ps|
    ensures Send(h, ps, i).sender == h
  {
  }

  lemma NoSends(h: HostInfo, ps: seq<Payload>)
    ensures Sends(h, ps, |ps|) == []
  {
  }

  lemma NextCounter(i: nat)
    ensures (i % U64_SIZE + 1) % U64_SIZE == CounterOf(i) == (i + 1) % U64_SIZE
  {
  }

  // ---------- Packets without a session ----------

  /** A handshake with `ip` can be started: the peer's certificate and an address are known. */
  predicate CanStart(certs: map<Addr, Cert>, lh: Lh, ip: Addr) {
    ip in certs && Stored(lh, ip) != []
  }

  /** What the outside world adds to an outbound packet: the random index and the ephemeral key a
      handshake would use, the time, and whether its first write succeeds. */
  datatype Draw = Draw(index: Option<u32>, e: Ephemeral, now: HandshakeSpec.Time, sendOk: bool)

  /** A handshake with `ip` is in progress, or can be started, gets an index, and its first packet
      goes out. */
  predicate CanHold(m: Manager, certs: map<Addr, Cert>, lh: Lh, ip: Addr, w: Draw) {
    ip in m.pending || (CanStart(certs, lh, ip) && w.index.Some? && w.sendOk)
  }

  /** The manager after a packet for `ip` found no session. When starting a handshake fails, the
      packet is not queued, even if the failure was only that of the first write. */
  function AfterHold(local: Cert, m: Manager, certs: map<Addr, Cert>, lh: Lh, ip: Addr, p: Payload, w: Draw): Manager {
    if !CanStart(certs, lh, ip) then AfterQueue(m, ip, p)
    else
      var m' := AfterStart(local, m, ip, Stored(lh, ip)[0], certs[ip], w.index, w.e, w.now);
      if ip in m.pending || (w.index.Some? && w.sendOk) then AfterQueue(m', ip, p) else m'
  }

  /** What is done for the packet: it is held or lost; `first` is the first packet of a new
      handshake, whether or not its write succeeds; `asked` are the queries to the lighthouses. */
  predicate Holds(local: Cert, m: Manager, certs: map<Addr, Cert>, lh: Lh, ip: Addr, w: Draw,
                  fate: Fate, first: Option<HandshakeSpec.Packet>, asked: seq<Out>) {
    && fate == (if CanHold(m, certs, lh, ip, w) then Held else Lost)
    && first == (if CanStart(certs, lh, ip) && Starts(m, ip, w.index)
                 then Some(Stage0(local, NewState(local, certs[ip], w.e), w.index.value)) else None)
    && asked == (if ip in certs && Stored(lh, ip) == [] then Queries(lh, ip) else [])
  }

  /** The packet is the newest in the queue of a pending handshake with `ip`. */
  predicate HeldFor(m: Manager, ip: Addr, p: Payload) {
    ip in m.pending && var q := m.pending[ip].queue; q != [] && q[|q| - 1] == p
  }

  /** The packet is queued exactly when a handshake is in progress or one gets under way. Otherwise
      no queue of any peer changes, and a handshake is left pending all the same exactly when only
      the first write failed; its queue is then empty. */
  lemma KeptExactly(local: Cert, m: Manager, certs: map<Addr, Cert>, lh: Lh, ip: Addr, p: Payload, w: Draw)
    ensures var m' := AfterHold(local, m, certs, lh, ip, p, w);
            && (CanHold(m, certs, lh, ip, w) ==> HeldFor(m', ip, p))
            && (!CanHold(m, certs, lh, ip, w) ==>
                  && (ip in m'.pending <==> CanStart(certs, lh, ip) && w.index.Some?)
                  && (ip in m'.pending ==> m'.pending[ip].queue == [])
                  && m'.pending - {ip} == m.pending - {ip})
            && forall other | other in m.pending && other != ip ::
                 other in m'.pending && m'.pending[other] == m.pending[other]
  {
    hide NewState, Stage0;
  }

  /** The manager's last event queued the packet for a pending handshake. */
  predicate JustQueued(ms: seq<Manager>, evs: seq<Runs.Event>, ip: Addr, p: Payload) {
    evs != [] && Fates.Queues(ms, evs, |evs| - 1) && evs[|evs| - 1] == Runs.Queue(ip, p)
  }

  /** A packet just queued is kept, and stands last in its queue. */
  lemma JustQueuedIsKept(local: Cert, ms: seq<Manager>, evs: seq<Runs.Event>, ip: Addr, p: Payload)
    requires Runs.IsRun(local, ms, evs) && JustQueued(ms, evs, ip, p)
    ensures |ms| == |evs| + 1 && Fates.Queues(ms, evs, |evs| - 1)
    ensures Fates.Meets(ms, evs, |evs| - 1, |evs|, Fates.Kept) && HeldFor(ms[|evs|], ip, p)
  {
    hide Runs.IsRun;
    var q := |evs| - 1;
    Fates.FirstPlace(local, ms, evs, q);
    var queue := ms[|evs|].pending[ip].queue;
    assert queue[|queue| - 1..] == [p] + [];
    assert queue[|queue| - 1] == queue[|queue| - 1..][0];
  }

  lemma StartedIsPending(local: Cert, m: Manager, ip: Addr, addr: UdpAddr, remote: Cert, index: Option<u32>,
                         e: Ephemeral, now: HandshakeSpec.Time)
    ensures ip in AfterStart(local, m, ip, addr, remote, index, e, now).pending <==> ip in m.pending || index.Some?
  {
    hide NewPending;
  }

  /** The failing input: a handshake whose first write fails stays pending, will be resent and may
      complete, but the packet that caused it is in no queue. */
  lemma FailedWriteLosesPacket(local: Cert, remote: Cert, addr: UdpAddr, p: Payload, e: Ephemeral)
    ensures var lh, certs := Lh(map[V4(1) := [addr]], [], false, []), map[V4(1) := remote];
            var m := AfterHold(local, NEW, certs, lh, V4(1), p, Draw(Some(7), e, 0, false));
            V4(1) in m.pending && m.index == map[7 := V4(1)] && !HeldFor(m, V4(1), p)
  {
    var lh, certs := Lh(map[V4(1) := [addr]], [], false, []), map[V4(1) := remote];
    KeptExactly(local, NEW, certs, lh, V4(1), p, Draw(Some(7), e, 0, false));
  }

  // ---------- New sessions ----------

  /** The host stands for the session. */
  predicate Installed(h: HostInfo, s: Session) {
    && h.vpnIP == s.vpnIP && h.remote == s.remote && h.index == s.index && h.remoteIndex == s.remoteIndex
    && h.sendKey == s.ciphers.send && h.recvKey == s.ciphers.recv && h.cert == s.cert
  }

  /** `q` is the last fifty packets queued for the peer of `p` since event `s`, at which `p` was
      started. */
  ghost predicate SinceStart(ms: seq<Manager>, evs: seq<Runs.Event>, s: nat, p: Pending, q: seq<Payload>) {
    && s < |evs| && s < |ms| && Runs.Begins(ms[s], evs[s]) && ms[s].started == p.serial
    && evs[s].ip == p.remoteVpnIP && evs[s].addr == p.remoteAddr
    && q == Runs.LastOf(MAX_PENDING_PACKETS, Runs.QueuedFor(evs[s + 1..], p.remoteVpnIP))
  }

  lemma SinceBegan(ms: seq<Manager>, longer: seq<Manager>, evs: seq<Runs.Event>, s: nat, p: Pending)
    requires s < |evs| && s < |ms| && ms <= longer && Runs.Begins(longer[s], evs[s])
    requires longer[s].started == p.serial && evs[s].ip == p.remoteVpnIP && evs[s].addr == p.remoteAddr
    requires p.queue == Runs.LastOf(MAX_PENDING_PACKETS, Runs.QueuedFor(evs[s + 1..], p.remoteVpnIP))
    ensures SinceStart(ms, evs, s, p, p.queue)
  {
  }

  /** The headers of the sends of `ps` carry the counters 1, 2, 3 ... */
  ghost predicate NumberedFromOne(h: HostInfo, ps: seq<Payload>) {
    forall i: nat :: i < |ps| ==>
      Parse(Send(h, ps, i).packet.head) == Parsed(DataHeader(h.remoteIndex, (i + 1) % U64_SIZE))
      && (i + 1) % U64_SIZE == i + 1
  }

  /** What a completed handshake sends first, spelled out: the last fifty packets queued for its peer
      since the start that drew its index and chose its address, numbered from 1. */
  lemma FirstSends(ms: seq<Manager>, evs: seq<Runs.Event>, s: nat, p: Pending, h: HostInfo, k: nat)
    requires SinceStart(ms, evs, s, p, p.queue) && NumberedFromOne(h, p.queue) && k < |p.queue|
    ensures s < |evs| && evs[s].Start? && evs[s].ip == p.remoteVpnIP && evs[s].addr == p.remoteAddr
    ensures s < |ms| && evs[s].ip !in ms[s].pending && ms[s].started == p.serial
    ensures var queued := Runs.QueuedFor(evs[s + 1..], p.remoteVpnIP);
            p.queue == if |queued| <= 50 then queued else queued[|queued| - 50..]
    ensures Parse(Send(h, p.queue, k).packet.head) == Parsed(Header(1, 1, 0, h.remoteIndex, (k + 1) % U64_SIZE))
    ensures (k + 1) % U64_SIZE == k + 1
  {
    hide Runs.QueuedFor, Parse, Sending;
  }

  lemma FewAreNumbered(h: HostInfo, ps: seq<Payload>)
    requires |ps| <= MAX_PENDING_PACKETS
    ensures NumberedFromOne(h, ps)
  {
    hide Parse, ToBytes;
    forall i: nat | i < |ps|
      ensures Parse(Send(h, ps, i).packet.head) == Parsed(DataHeader(h.remoteIndex, CounterOf(i)))
    {
      SealedHeader(h.remoteIndex, CounterOf(i));
    }
  }
}
