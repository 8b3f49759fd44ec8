/** A whole network of lighthouse nodes over a wire that may lose, delay, duplicate and
    reorder packets: who ends up recorded at which physical address. */
module Discovery {
  import opened Net
  import opened LighthouseSpec

  /** The physical addresses that belong to each node, by its VPN address. */
  type Ownership = map<Addr, set<UdpAddr>>

  function Owned(owns: Ownership, ip: Addr): set<UdpAddr> {
    if ip in owns then owns[ip] else {}
  }

  ghost predicate Disjoint(owns: Ownership) {
    forall u, v, a :: a in Owned(owns, u) && a in Owned(owns, v) ==> u == v
  }

  /** A node: its registry, and the host of the session at local index 0 if there is one.
      Index 0 is what every lighthouse packet carries. */
  datatype Node = Node(lh: Lh, atZero: Option<Addr>)

  datatype Packet = Packet(src: UdpAddr, dst: UdpAddr, msg: Message)

  /** The nodes, and every packet ever sent: a packet may be delivered any number of times, or never. */
  datatype Network = Network(nodes: map<Addr, Node>, wire: set<Packet>)

  datatype Step =
    | Deliver(at: Addr, packet: Packet, sender: Addr, src: UdpAddr)
    | Advertise(at: Addr, src: UdpAddr)
    | Ask(at: Addr, about: Addr, src: UdpAddr)
    | Session(at: Addr, atZero: Option<Addr>)  // sessions come and go

  /** A node sends from an address of its own and is reached at an address of its own. */
  ghost predicate Enabled(owns: Ownership, net: Network, st: Step) {
    && st.at in net.nodes
    && (!st.Session? ==> st.src in Owned(owns, st.at))
    && (st.Deliver? ==>
          && st.packet in net.wire && st.packet.dst in Owned(owns, st.at)
          && TakenFrom(net.nodes[st.at].lh, net.nodes[st.at].atZero, st.packet.src, st.sender))
  }

  function Outgoing(net: Network, st: Step): seq<Out>
    requires st.at in net.nodes
  {
    var lh := net.nodes[st.at].lh;
    match st
    case Deliver(_, p, sender, _) => Answers(lh, p.msg, sender)
    case Advertise(_, _) => Advertisement(lh)
    case Ask(_, about, _) => Queries(lh, about)
    case Session(_, _) => []
  }

  function Packets(out: seq<Out>, src: UdpAddr): set<Packet> {
    set o | o in out :: Packet(src, o.to, o.msg)
  }

  function NextNode(net: Network, st: Step): Node
    requires st.at in net.nodes
  {
    var node := net.nodes[st.at];
    match st
    case Deliver(_, p, sender, _) => node.(lh := After(node.lh, p.msg, sender))
    case Session(_, atZero) => node.(atZero := atZero)
    case _ => node
  }

  function Next(net: Network, st: Step): Network
    requires st.at in net.nodes
  {
    Network(net.nodes[st.at := NextNode(net, st)],
            net.wire + if st.Session? then {} else Packets(Outgoing(net, st), st.src))
  }

  // ---------- The ownership invariant ----------

  ghost predicate AllOwned(owns: Ownership, ip: Addr, addrs: seq<UdpAddr>) {
    forall a :: a in addrs ==> a in Owned(owns, ip)
  }

  ghost predicate RegistryHonest(owns: Ownership, self: Addr, lh: Lh) {
    (forall ip :: AllOwned(owns, ip, Stored(lh, ip))) && AllOwned(owns, self, lh.myAddrs)
  }

  /** What the packet says about an address is true of its owner: an update speaks for the node
      it comes from, a reply for the peer it names, a WhoAmI reply for the node it goes to. */
  ghost predicate PacketHonest(owns: Ownership, p: Packet) {
    match p.msg
    case Update(ps) => forall v :: p.src in Owned(owns, v) ==> AllOwned(owns, v, FromIpPorts(ps))
    case QueryReply(t, ps) => t.Dotted? ==> AllOwned(owns, V4(t.bits), FromIpPorts(ps))
    case WhoAmIReply(Some(a)) =>
      FromIpPort(a).Some? ==> forall v :: p.dst in Owned(owns, v) ==> FromIpPort(a).value in Owned(owns, v)
    case _ => true
  }

  ghost predicate FromSomeNode(owns: Ownership, p: Packet) {
    exists v :: p.src in Owned(owns, v)
  }

  ghost predicate Honest(owns: Ownership, net: Network) {
    && (forall n :: n in net.nodes ==> RegistryHonest(owns, n, net.nodes[n].lh))
    && (forall p :: p in net.wire ==> PacketHonest(owns, p) && FromSomeNode(owns, p))
  }

  /** The one step that goes wrong: a lighthouse holds a session at index 0 with somebody other
      than the node an update comes from, so it files the update's addresses under the wrong peer. */
  ghost predicate Misfiled(owns: Ownership, net: Network, st: Step)
    requires st.at in net.nodes
  {
    var node := net.nodes[st.at];
    && st.Deliver? && st.packet.msg.Update? && node.lh.amLighthouse && FromIpPorts(st.packet.msg.addrs) != []
    && node.atZero.Some? && st.packet.src !in Owned(owns, node.atZero.value)
  }

  /** The reverse lookup finds the true sender, whichever entry the map yields first. */
  lemma LookupFindsOwner(owns: Ownership, net: Network, n: Addr, from: UdpAddr, sender: Addr, owner: Addr)
    requires Disjoint(owns) && Honest(owns, net) && n in net.nodes && net.nodes[n].atZero.None?
    requires from in Owned(owns, owner)
    requires TakenFrom(net.nodes[n].lh, None, from, sender)
    ensures sender == owner
  {
    assert RegistryHonest(owns, n, net.nodes[n].lh);
    assert AllOwned(owns, sender, Stored(net.nodes[n].lh, sender));
  }

  lemma AnswersHonest(owns: Ownership, self: Addr, lh: Lh, msg: Message, sender: Addr, src: UdpAddr)
    requires Disjoint(owns) && RegistryHonest(owns, self, lh)
    ensures forall p :: p in Packets(Answers(lh, msg, sender), src) ==> PacketHonest(owns, p) && p.src == src
  {
    assert AllOwned(owns, sender, Stored(lh, sender));
    match msg
    case Query(t) =>
      if t.Dotted? {
        var addrs := Stored(lh, V4(t.bits));
        assert AllOwned(owns, V4(t.bits), addrs);
        SentAddrsComeBack(addrs);
      }
    case WhoAmI =>
      forall p | p in Packets(Answers(lh, msg, sender), src)
        ensures PacketHonest(owns, p) && p.src == src
      {
        assert p.dst in Stored(lh, sender) && p.dst in Owned(owns, sender);
        assert Stored(lh, sender)[0] in Owned(owns, sender);
      }
    case _ =>
  }

  lemma AdvertisementHonest(owns: Ownership, self: Addr, lh: Lh, src: UdpAddr)
    requires Disjoint(owns) && RegistryHonest(owns, self, lh) && src in Owned(owns, self)
    ensures forall p :: p in Packets(Advertisement(lh), src) ==> PacketHonest(owns, p) && p.src == src
  {
    SentAddrsComeBack(lh.myAddrs);
    SendToAllIsSent(lh, Update(ToIpPorts(lh.myAddrs)), lh.lighthouses);
  }

  lemma QueriesHonest(owns: Ownership, lh: Lh, ip: Addr, src: UdpAddr)
    ensures forall p :: p in Packets(Queries(lh, ip), src) ==> PacketHonest(owns, p) && p.src == src
  {
    SendToAllIsSent(lh, Query(ShowAddr(ip)), lh.lighthouses);
  }

  lemma OutgoingHonest(owns: Ownership, net: Network, st: Step)
    requires Disjoint(owns) && Honest(owns, net) && Enabled(owns, net, st) && !st.Session?
    ensures forall p :: p in Packets(Outgoing(net, st), st.src) ==> PacketHonest(owns, p) && FromSomeNode(owns, p)
  {
    var lh := net.nodes[st.at].lh;
    assert RegistryHonest(owns, st.at, lh);
    match st
    case Deliver(_, p, sender, src) => AnswersHonest(owns, st.at, lh, p.msg, sender, src);
    case Advertise(_, src) => AdvertisementHonest(owns, st.at, lh, src);
    case Ask(_, about, src) => QueriesHonest(owns, lh, about, src);
  }

  /** An update is filed correctly exactly when it is not misfiled. */
  lemma UpdateFiledExactly(owns: Ownership, net: Network, st: Step)
    requires Disjoint(owns) && Honest(owns, net) && Enabled(owns, net, st)
    requires st.Deliver? && st.packet.msg.Update? && net.nodes[st.at].lh.amLighthouse
    ensures AllOwned(owns, st.sender, FromIpPorts(st.packet.msg.addrs)) <==> !Misfiled(owns, net, st)
  {
    var p, node := st.packet, net.nodes[st.at];
    var addrs := FromIpPorts(p.msg.addrs);
    assert PacketHonest(owns, p) && FromSomeNode(owns, p);
    var owner :| p.src in Owned(owns, owner);
    assert AllOwned(owns, owner, addrs);
    if node.atZero.None? {
      LookupFindsOwner(owns, net, st.at, p.src, st.sender, owner);
    } else if addrs != [] && st.sender != owner {
      assert addrs[0] in Owned(owns, owner);
    }
  }

  lemma RegistryStaysHonestExactly(owns: Ownership, net: Network, st: Step)
    requires Disjoint(owns) && Honest(owns, net) && Enabled(owns, net, st)
    ensures RegistryHonest(owns, st.at, NextNode(net, st).lh) <==> !Misfiled(owns, net, st)
  {
    var lh, lh' := net.nodes[st.at].lh, NextNode(net, st).lh;
    assert RegistryHonest(owns, st.at, lh);
    if st.Deliver? {
      var p := st.packet;
      assert PacketHonest(owns, p);
      if p.msg.Update? && lh.amLighthouse {
        UpdateFiledExactly(owns, net, st);
        assert Stored(lh', st.sender) == FromIpPorts(p.msg.addrs);
        assert forall ip :: ip != st.sender ==> Stored(lh', ip) == Stored(lh, ip);
      } else if p.msg.QueryReply? && p.msg.vpnIP.Dotted? {
        var named := V4(p.msg.vpnIP.bits);
        assert Stored(lh', named) == FromIpPorts(p.msg.addrs);
        assert forall ip :: ip != named ==> Stored(lh', ip) == Stored(lh, ip);
      } else {
        assert lh'.store == lh.store;
        assert forall ip :: Stored(lh', ip) == Stored(lh, ip);
        assert forall a :: a in lh'.myAddrs ==> a in lh.myAddrs || a in Owned(owns, st.at);
      }
    }
  }

  /** A step keeps ownership exactly when it does not misfile an update. */
  lemma StepKeepsOwnershipExactly(owns: Ownership, net: Network, st: Step)
    requires Disjoint(owns) && Honest(owns, net) && Enabled(owns, net, st)
    ensures Honest(owns, Next(net, st)) <==> !Misfiled(owns, net, st)
  {
    hide RegistryHonest, PacketHonest, Outgoing, Misfiled, NextNode, Packets;
    RegistryStaysHonestExactly(owns, net, st);
    if !st.Session? {
      OutgoingHonest(owns, net, st);
    }
    var net' := Next(net, st);
    assert net'.nodes[st.at] == NextNode(net, st);
    assert forall n :: n in net'.nodes && n != st.at ==> net'.nodes[n] == net.nodes[n];
  }

  // ---------- Whole runs ----------

  /** Nodes start with correct static entries, their own addresses and an empty wire. */
  ghost predicate Init(owns: Ownership, net: Network) {
    net.wire == {} && forall n :: n in net.nodes ==> RegistryHonest(owns, n, net.nodes[n].lh)
  }

  ghost predicate IsRun(owns: Ownership, nets: seq<Network>, sts: seq<Step>) {
    && |nets| == |sts| + 1 && Init(owns, nets[0])
    && forall i :: 0 <= i < |sts| ==> Enabled(owns, nets[i], sts[i]) && nets[i + 1] == Next(nets[i], sts[i])
  }

  /** Ownership holds in every state of a run exactly when no step of it misfiles an update. */
  lemma OwnershipOverRuns(owns: Ownership, nets: seq<Network>, sts: seq<Step>)
    requires Disjoint(owns) && IsRun(owns, nets, sts)
    ensures (forall i :: 0 <= i < |nets| ==> Honest(owns, nets[i]))
       <==> (forall i :: 0 <= i < |sts| ==> !Misfiled(owns, nets[i], sts[i]))
  {
    hide Misfiled, Honest, Next;
    assert Honest(owns, nets[0]) by { InitHonest(owns, nets[0]); }
    if forall i :: 0 <= i < |sts| ==> !Misfiled(owns, nets[i], sts[i]) {
      for n := 0 to |sts|
        invariant forall i :: 0 <= i <= n ==> Honest(owns, nets[i])
      {
        StepKeepsOwnershipExactly(owns, nets[n], sts[n]);
      }
    }
    if forall i :: 0 <= i < |nets| ==> Honest(owns, nets[i]) {
      forall i | 0 <= i < |sts|
        ensures !Misfiled(owns, nets[i], sts[i])
      {
        StepKeepsOwnershipExactly(owns, nets[i], sts[i]);
        assert Honest(owns, nets[i + 1]);
      }
    }
  }

  lemma InitHonest(owns: Ownership, net: Network)
    requires Init(owns, net)
    ensures Honest(owns, net)
  {
  }

  /** While no node has a session at index 0, ownership holds throughout, and every delivered
      packet is taken to come from the node that owns its source address. */
  lemma NoIndexZeroNoMixUp(owns: Ownership, nets: seq<Network>, sts: seq<Step>, i: nat)
    requires Disjoint(owns) && IsRun(owns, nets, sts)
    requires forall j, n :: 0 <= j < |nets| && n in nets[j].nodes ==> nets[j].nodes[n].atZero.None?
    requires i < |nets|
    ensures Honest(owns, nets[i])
    ensures i < |sts| && sts[i].Deliver? ==> sts[i].packet.src in Owned(owns, sts[i].sender)
  {
    OwnershipOverRuns(owns, nets, sts);
    if i < |sts| && sts[i].Deliver? {
      var p := sts[i].packet;
      assert FromSomeNode(owns, p);
      var owner :| p.src in Owned(owns, owner);
      assert nets[i].nodes[sts[i].at].atZero.None?;
      LookupFindsOwner(owns, nets[i], sts[i].at, p.src, sts[i].sender, owner);
    }
  }

  // ---------- Asking finds ----------

  /** Node `a` asks about `v`; lighthouse `l`, which the query reaches at `atL`, has no session at index
      0, knows `a` at `atA` and nobody else there. Delivering the query and then the answer leaves in
      `a`'s registry, for `v`, exactly what the lighthouse has on record that has an IP. */
  lemma AskingFinds(net: Network, a: Addr, l: Addr, v: Addr, atA: UdpAddr, atL: UdpAddr, sender: Addr)
    requires a in net.nodes && l in net.nodes && a != l && v.V4?
    requires l in net.nodes[a].lh.lighthouses && atL in Stored(net.nodes[a].lh, l)
    requires net.nodes[l].atZero.None? && atA in Stored(net.nodes[l].lh, a)
    requires forall w :: atA in Stored(net.nodes[l].lh, w) ==> w == a
    ensures var ask := Ask(a, v, atA);
            var query := Packet(atA, atL, Query(Dotted(v.bits)));
            var net1 := Next(net, ask);
            var heard := Deliver(l, query, a, atL);
            && query in net1.wire && TakenFrom(net1.nodes[l].lh, net1.nodes[l].atZero, atA, a)
            && l in net1.nodes
            && var net2 := Next(net1, heard);
               var reply := Packet(atL, atA, QueryReply(Dotted(v.bits), ToIpPorts(Stored(net.nodes[l].lh, v))));
               && reply in net2.wire && a in net2.nodes
               && Stored(Next(net2, Deliver(a, reply, sender, atA)).nodes[a].lh, v)
                  == WithIp(Stored(net.nodes[l].lh, v))
  {
    var ask, query := Ask(a, v, atA), Packet(atA, atL, Query(Dotted(v.bits)));
    var net1 := Next(net, ask);
    ToldExactly(net.nodes[a].lh, query.msg, net.nodes[a].lh.lighthouses, Out(query.msg, atL));
    assert Out(query.msg, atL) in Outgoing(net, ask);
    assert query in Packets(Outgoing(net, ask), atA);
    assert net1.nodes[l] == net.nodes[l] && net1.nodes[a] == net.nodes[a];
    var heard := Deliver(l, query, a, atL);
    var reply := Packet(atL, atA, QueryReply(Dotted(v.bits), ToIpPorts(Stored(net.nodes[l].lh, v))));
    var k :| 0 <= k < |Stored(net.nodes[l].lh, a)| && Stored(net.nodes[l].lh, a)[k] == atA;
    assert Outgoing(net1, heard)[k] == Out(reply.msg, atA);
    assert reply in Packets(Outgoing(net1, heard), atL);
    ListRoundTrip(Stored(net.nodes[l].lh, v));
  }

  // ---------- Misfiling happens ----------

  /** Node 1, a lighthouse at `a`, and node 2 at `b`, which advertises to it. */
  function ExampleOwners(a: UdpAddr, b: UdpAddr): Ownership {
    map[V4(1) := {a}, V4(2) := {b}]
  }

  function ExampleNet(a: UdpAddr, b: UdpAddr, atZero: Option<Addr>, wire: set<Packet>): Network {
    Network(map[V4(1) := Node(Lh(map[V4(2) := [b]], [], true, [a]), atZero),
                V4(2) := Node(Lh(map[V4(1) := [a]], [V4(1)], false, [b]), None)], wire)
  }

  function ExampleUpdate(a: UdpAddr, b: UdpAddr): Packet {
    Packet(b, a, Update(ToIpPorts([b])))
  }

  /** The lighthouse gets a session at index 0 with node 3; node 2 advertises; the update arrives. */
  function ExampleSteps(a: UdpAddr, b: UdpAddr): seq<Step> {
    [Session(V4(1), Some(V4(3))), Advertise(V4(2), b), Deliver(V4(1), ExampleUpdate(a, b), V4(3), a)]
  }

  lemma ExampleAdvertises(a: UdpAddr, b: UdpAddr)
    ensures var net, told := ExampleNet(a, b, Some(V4(3)), {}), ExampleNet(a, b, Some(V4(3)), {ExampleUpdate(a, b)});
            V4(2) in net.nodes && Next(net, ExampleSteps(a, b)[1]) == told
  {
    var net, st, update := ExampleNet(a, b, Some(V4(3)), {}), ExampleSteps(a, b)[1], ExampleUpdate(a, b);
    SendToOne(net.nodes[V4(2)].lh, update.msg, V4(1), a);
    assert Outgoing(net, st) == [Out(update.msg, a)];
    assert Packets(Outgoing(net, st), b) == {update};
    assert Next(net, st).nodes == net.nodes;
  }

  lemma ExampleMisfiles(a: UdpAddr, b: UdpAddr)
    requires b.ip.HostIp?
    ensures var net, st := ExampleNet(a, b, Some(V4(3)), {ExampleUpdate(a, b)}), ExampleSteps(a, b)[2];
            && V4(1) in net.nodes && Enabled(ExampleOwners(a, b), net, st) && Misfiled(ExampleOwners(a, b), net, st)
            && Stored(NextNode(net, st).lh, V4(3)) == [b]
  {
    ListRoundTrip([b]);
    OneWithIp(b);
  }

  lemma ExampleIsHonest(a: UdpAddr, b: UdpAddr)
    requires a != b
    ensures Disjoint(ExampleOwners(a, b)) && Init(ExampleOwners(a, b), ExampleNet(a, b, None, {}))
  {
  }

  /** The lighthouse files the address of node 2 under node 3. */
  lemma MisfilingHappens(a: UdpAddr, b: UdpAddr) returns (owns: Ownership, nets: seq<Network>, sts: seq<Step>)
    requires a != b && b.ip.HostIp?
    ensures Disjoint(owns) && IsRun(owns, nets, sts) && |sts| == 3 && Misfiled(owns, nets[2], sts[2])
    ensures b in Owned(owns, V4(2)) && V4(1) in nets[3].nodes && Stored(nets[3].nodes[V4(1)].lh, V4(3)) == [b]
    ensures exists i :: 0 <= i < |nets| && !Honest(owns, nets[i])
  {
    hide Disjoint, Init, Misfiled, Honest, Outgoing, Packets, Stored;
    owns, sts := ExampleOwners(a, b), ExampleSteps(a, b);
    var start, zero := ExampleNet(a, b, None, {}), ExampleNet(a, b, Some(V4(3)), {});
    var told := ExampleNet(a, b, Some(V4(3)), {ExampleUpdate(a, b)});
    ExampleIsHonest(a, b);
    ExampleAdvertises(a, b);
    ExampleMisfiles(a, b);
    assert Next(start, sts[0]) == zero;
    nets := [start, zero, told, Next(told, sts[2])];
    assert Misfiled(owns, nets[2], sts[2]);
    OwnershipOverRuns(owns, nets, sts);
  }

  lemma SendToOne(lh: Lh, msg: Message, ip: Addr, a: UdpAddr)
    requires Stored(lh, ip) == [a]
    ensures SendToAll(lh, msg, [ip]) == [Out(msg, a)]
  {
    assert SendToAll(lh, msg, []) == [];
    assert SendToAll(lh, msg, [ip]) == SendToAll(lh, msg, [ip][..0]) + SendTo(lh, msg, ip);
  }

  lemma OneWithIp(a: UdpAddr)
    requires a.ip.HostIp?
    ensures WithIp([a]) == [a]
  {
    assert WithIp([a]) == WithIp([a][..0]) + [a];
  }
}
