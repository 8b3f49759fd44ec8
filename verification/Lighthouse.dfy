/** What a lighthouse node does with each message, on values. */
module LighthouseSpec {
  import opened Words
  import opened Net

  /** An address as text: it reads back as an address, or it does not parse. */
  datatype Text = Dotted(bits: u32) | Unparsable

  datatype IpPort = IpPort(ip: Text, port: u32)

  datatype Message =
    | Query(vpnIP: Text)
    | QueryReply(vpnIP: Text, addrs: seq<IpPort>)
    | Update(addrs: seq<IpPort>)
    | WhoAmI
    | WhoAmIReply(addr: Option<IpPort>)
    | Punch(addrs: seq<IpPort>)
    | Unset

  function ShowAddr(a: Addr): Text {
    if a.V4? then Dotted(a.bits) else Unparsable
  }

  function ReadAddr(t: Text): Option<Addr> {
    if t.Dotted? then Some(V4(t.bits)) else None
  }

  function ToIpPort(a: UdpAddr): IpPort {
    IpPort(if a.ip.HostIp? then Dotted(a.ip.bits) else Unparsable, a.port)
  }

  function FromIpPort(p: IpPort): Option<UdpAddr> {
    if p.ip.Dotted? then Some(UdpAddr(HostIp(p.ip.bits), p.port)) else None
  }

  function ToIpPorts(addrs: seq<UdpAddr>): (ps: seq<IpPort>) {
    seq(|addrs|, i requires 0 <= i < |addrs| => ToIpPort(addrs[i]))
  }

  /** Entries that do not parse are dropped, the others keep their order. */
  function FromIpPorts(ps: seq<IpPort>): seq<UdpAddr> {
    if ps == [] then []
    else
      var last := FromIpPort(ps[|ps| - 1]);
      FromIpPorts(ps[..|ps| - 1]) + if last.Some? then [last.value] else []
  }

  /** The addresses of a list that have an IP. */
  function WithIp(addrs: seq<UdpAddr>): seq<UdpAddr> {
    if addrs == [] then []
    else WithIp(addrs[..|addrs| - 1]) + if addrs[|addrs| - 1].ip.HostIp? then [addrs[|addrs| - 1]] else []
  }

  /** A list survives the trip over the wire except for the addresses without an IP. */
  lemma {:induction false} ListRoundTrip(addrs: seq<UdpAddr>)
    ensures FromIpPorts(ToIpPorts(addrs)) == WithIp(addrs)
  {
    if addrs != [] {
      var n := |addrs| - 1;
      assert ToIpPorts(addrs)[..n] == ToIpPorts(addrs[..n]);
      ListRoundTrip(addrs[..n]);
    }
  }

  lemma {:induction false} WithIpIsSublist(addrs: seq<UdpAddr>)
    ensures forall a :: a in WithIp(addrs) <==> a in addrs && a.ip.HostIp?
  {
    if addrs != [] {
      WithIpIsSublist(addrs[..|addrs| - 1]);
      assert addrs == addrs[..|addrs| - 1] + [addrs[|addrs| - 1]];
    }
  }

  lemma SentAddrsComeBack(addrs: seq<UdpAddr>)
    ensures forall a :: a in FromIpPorts(ToIpPorts(addrs)) ==> a in addrs
  {
    ListRoundTrip(addrs);
    WithIpIsSublist(addrs);
  }

  // ---------- A node's registry ----------

  datatype Lh = Lh(store: map<Addr, seq<UdpAddr>>, lighthouses: seq<Addr>, amLighthouse: bool, myAddrs: seq<UdpAddr>)

  /** A message handed to the socket for one physical address. */
  datatype Out = Out(msg: Message, to: UdpAddr)

  function Stored(lh: Lh, ip: Addr): seq<UdpAddr> {
    if ip in lh.store then lh.store[ip] else []
  }

  /** One copy to every address on record for the peer. */
  function SendTo(lh: Lh, msg: Message, ip: Addr): seq<Out> {
    seq(|Stored(lh, ip)|, i requires 0 <= i < |Stored(lh, ip)| => Out(msg, Stored(lh, ip)[i]))
  }

  function SendToAll(lh: Lh, msg: Message, ips: seq<Addr>): seq<Out> {
    if ips == [] then [] else SendToAll(lh, msg, ips[..|ips| - 1]) + SendTo(lh, msg, ips[|ips| - 1])
  }

  function FirstOnRecord(lh: Lh, ip: Addr): Option<IpPort> {
    var addrs := Stored(lh, ip);
    if |addrs| > 0 then Some(ToIpPort(addrs[0])) else None
  }

  /** The registry after a message from `from`. */
  function After(lh: Lh, msg: Message, from: Addr): Lh {
    match msg
    case QueryReply(t, ps) =>
      var ip := ReadAddr(t);
      if ip.None? then lh else lh.(store := lh.store[ip.value := FromIpPorts(ps)])
    case Update(ps) =>
      if lh.amLighthouse then lh.(store := lh.store[from := FromIpPorts(ps)]) else lh
    case WhoAmIReply(Some(p)) =>
      var a := FromIpPort(p);
      if a.None? then lh else lh.(myAddrs := [a.value] + lh.myAddrs)
    case _ => lh
  }

  /** What it sends in answer. */
  function Answers(lh: Lh, msg: Message, from: Addr): seq<Out> {
    match msg
    case Query(t) =>
      var ip := ReadAddr(t);
      if ip.None? then [] else SendTo(lh, QueryReply(t, ToIpPorts(Stored(lh, ip.value))), from)
    case WhoAmI => SendTo(lh, WhoAmIReply(FirstOnRecord(lh, from)), from)
    case _ => []
  }

  /** The addresses a punch notification names. */
  function Holes(msg: Message): seq<UdpAddr> {
    if msg.Punch? then FromIpPorts(msg.addrs) else []
  }

  function Advertisement(lh: Lh): seq<Out> {
    SendToAll(lh, Update(ToIpPorts(lh.myAddrs)), lh.lighthouses)
  }

  function Queries(lh: Lh, ip: Addr): seq<Out> {
    SendToAll(lh, Query(ShowAddr(ip)), lh.lighthouses)
  }

  /** Whom a packet is taken to come from: the host of the session at the packet's index when
      there is one, and otherwise any peer on record with the packet's source address. */
  ghost predicate TakenFrom(lh: Lh, atIndex: Option<Addr>, from: UdpAddr, sender: Addr) {
    if atIndex.Some? then sender == atIndex.value else from in Stored(lh, sender)
  }

  /** Every address on record for every one of the peers is told, and nobody else. */
  lemma {:induction false} ToldExactly(lh: Lh, msg: Message, ips: seq<Addr>, o: Out)
    ensures o in SendToAll(lh, msg, ips) <==> o.msg == msg && exists ip :: ip in ips && o.to in Stored(lh, ip)
  {
    if ips != [] {
      var n := |ips| - 1;
      ToldExactly(lh, msg, ips[..n], o);
      assert ips == ips[..n] + [ips[n]];
      var here := SendTo(lh, msg, ips[n]);
      if o.msg == msg && o.to in Stored(lh, ips[n]) {
        var i :| 0 <= i < |Stored(lh, ips[n])| && Stored(lh, ips[n])[i] == o.to;
        assert here[i] == o;
      }
    }
  }

  lemma SendToAllIsSent(lh: Lh, msg: Message, ips: seq<Addr>)
    ensures forall o :: o in SendToAll(lh, msg, ips) ==> o.msg == msg
  {
    forall o | o in SendToAll(lh, msg, ips)
      ensures o.msg == msg
    {
      ToldExactly(lh, msg, ips, o);
    }
  }

  lemma {:induction false} WithIpTwice(addrs: seq<UdpAddr>)
    ensures WithIp(WithIp(addrs)) == WithIp(addrs)
  {
    if addrs != [] {
      var n := |addrs| - 1;
      WithIpTwice(addrs[..n]);
      var kept := WithIp(addrs[..n]);
      if addrs[n].ip.HostIp? {
        assert (kept + [addrs[n]])[..|kept|] == kept;
      } else {
        assert kept + [] == kept;
      }
    }
  }

  /** What a node advertises is what others find: a lighthouse that takes its update answers a
      query about it, to every address on record for the asker, with a reply that leaves exactly
      the advertised addresses in the asker's registry. */
  lemma AdvertisedIsFound(advertiser: Lh, lighthouse: Lh, asker: Lh, v: Addr, w: Addr)
    requires lighthouse.amLighthouse && v.V4?
    ensures var updated := After(lighthouse, Update(ToIpPorts(advertiser.myAddrs)), v);
            var out := Answers(updated, Query(ShowAddr(v)), w);
            && |out| == |Stored(updated, w)|
            && forall i, from :: 0 <= i < |out| ==>
                 && out[i].to == Stored(updated, w)[i]
                 && Stored(After(asker, out[i].msg, from), v) == WithIp(advertiser.myAddrs)
  {
    ListRoundTrip(advertiser.myAddrs);
    ListRoundTrip(WithIp(advertiser.myAddrs));
    WithIpTwice(advertiser.myAddrs);
  }
}

/** The registry as the daemon keeps it, updated in place. */
module Lighthouse {
  import opened Net
  import opened LighthouseSpec

  class LightHouse {
    var addrStore: map<Addr, seq<UdpAddr>>
    const lighthouses: seq<Addr>
    const amLighthouse: bool
    var myAddrs: seq<UdpAddr>
    var punches: bool  // a hole puncher is wired in and set to punch

    function State(): Lh
      reads this
    {
      Lh(addrStore, lighthouses, amLighthouse, myAddrs)
    }

    constructor (amLighthouse: bool, lighthouses: seq<Addr>, myAddrs: seq<UdpAddr>)
      ensures State() == Lh(map[], lighthouses, amLighthouse, myAddrs) && !punches
    {
      addrStore, this.lighthouses, this.amLighthouse, this.myAddrs := map[], lighthouses, amLighthouse, myAddrs;
      punches := false;
    }

    method SetPunchy(punch: bool)
      modifies this`punches
      ensures punches == punch
    {
      punches := punch;
    }

    method AddStaticEntry(vpnIP: Addr, addr: UdpAddr)
      modifies this
      ensures State() == old(State()).(store := old(addrStore)[vpnIP := Stored(old(State()), vpnIP) + [addr]])
    {
      addrStore := addrStore[vpnIP := Stored(State(), vpnIP) + [addr]];
    }

    /** Looks through the store in whatever order the map gives. */
    method VpnIPByAddr(addr: UdpAddr) returns (r: Option<Addr>)
      ensures r.Some? ==> addr in Stored(State(), r.value)
      ensures r.None? ==> forall ip :: addr !in Stored(State(), ip)
      ensures r.Some? ==> r.value in addrStore && addr in addrStore[r.value]
      ensures r.None? ==> forall ip :: ip in addrStore ==> addr !in addrStore[ip]
    {
      var todo := addrStore.Keys;
      while todo != {}
        invariant todo <= addrStore.Keys
        invariant forall ip :: ip in addrStore && ip !in todo ==> addr !in addrStore[ip]
        decreases todo
      {
        var ip :| ip in todo;
        var addrs := addrStore[ip];
        for i := 0 to |addrs|
          invariant addr !in addrs[..i]
        {
          if addrs[i] == addr {
            return Some(ip);
          }
        }
        todo := todo - {ip};
      }
      return None;
    }

    method ToWire(addrs: seq<UdpAddr>) returns (ps: seq<IpPort>)
      ensures ps == ToIpPorts(addrs)
      ensures |ps| == |addrs| && forall i :: 0 <= i < |ps| ==>
                && ps[i].port == addrs[i].port
                && ps[i].ip == if addrs[i].ip.HostIp? then Dotted(addrs[i].ip.bits) else Unparsable
    {
      ps := [];
      for i := 0 to |addrs|
        invariant ps == ToIpPorts(addrs[..i])
      {
        ps := ps + [ToIpPort(addrs[i])];
      }
      assert addrs[..|addrs|] == addrs;
    }

    method FromWire(ps: seq<IpPort>) returns (addrs: seq<UdpAddr>)
      ensures addrs == FromIpPorts(ps)
    {
      addrs := [];
      for i := 0 to |ps|
        invariant addrs == FromIpPorts(ps[..i])
      {
        assert ps[..i + 1][..i] == ps[..i];
        var a := FromIpPort(ps[i]);
        if a.Some? {
          addrs := addrs + [a.value];
        }
      }
      assert ps[..|ps|] == ps;
    }

    method Send(msg: Message, to: Addr) returns (out: seq<Out>)
      ensures out == SendTo(State(), msg, to)
      ensures to !in addrStore ==> out == []
      ensures to in addrStore ==>
                |out| == |addrStore[to]| && forall i :: 0 <= i < |out| ==> out[i] == Out(msg, addrStore[to][i])
    {
      var physAddrs := Stored(State(), to);
      out := [];
      for i := 0 to |physAddrs|
        invariant out == SendTo(State(), msg, to)[..i]
      {
        out := out + [Out(msg, physAddrs[i])];
      }
    }

    /** An address on record for one of the lighthouses. */
    ghost predicate Known(a: UdpAddr)
      reads this`addrStore
    {
      exists ip :: ip in lighthouses && ip in addrStore && a in addrStore[ip]
    }

    method SendEach(msg: Message) returns (out: seq<Out>)
      ensures out == SendToAll(State(), msg, lighthouses)
      ensures forall o :: o in out <==> o.msg == msg && Known(o.to)
    {
      forall o: Out
        ensures o in SendToAll(State(), msg, lighthouses) <==> o.msg == msg && Known(o.to)
      {
        ToldExactly(State(), msg, lighthouses, o);
      }
      out := [];
      for i := 0 to |lighthouses|
        invariant out == SendToAll(State(), msg, lighthouses[..i])
      {
        assert lighthouses[..i + 1][..i] == lighthouses[..i];
        var copies := Send(msg, lighthouses[i]);
        out := out + copies;
      }
      assert lighthouses[..|lighthouses|] == lighthouses;
    }

    method QueryPeer(vpnIP: Addr) returns (out: seq<Out>)
      ensures out == Queries(State(), vpnIP)
      ensures vpnIP.V4? ==> forall o :: o in out <==> o.msg == Query(Dotted(vpnIP.bits)) && Known(o.to)
    {
      out := SendEach(Query(ShowAddr(vpnIP)));
    }

    method Advertise() returns (out: seq<Out>)
      ensures out == Advertisement(State())
      ensures forall o :: o in out <==> o.msg == Update(ToIpPorts(myAddrs)) && Known(o.to)
    {
      var ps := ToWire(myAddrs);
      out := SendEach(Update(ps));
    }

    /** One copy for each address on record for the peer, in order. */
    ghost predicate ToEach(out: seq<Out>, msg: Message, to: Addr)
      reads this`addrStore
    {
      var addrs := if to in addrStore then addrStore[to] else [];
      |out| == |addrs| && forall i :: 0 <= i < |out| ==> out[i] == Out(msg, addrs[i])
    }

    /** `holes` are the addresses that get an empty datagram to open a path. */
    method HandleMessage(msg: Message, from: Addr) returns (out: seq<Out>, holes: seq<UdpAddr>)
      modifies this`addrStore, this`myAddrs
      ensures State() == After(old(State()), msg, from)
      ensures out == Answers(old(State()), msg, from)
      ensures holes == if punches then Holes(msg) else []
      ensures msg.Query? && msg.vpnIP.Dotted? ==>
                var asked := V4(msg.vpnIP.bits);
                var known := if asked in addrStore then addrStore[asked] else [];
                ToEach(out, QueryReply(msg.vpnIP, ToIpPorts(known)), from)
      ensures msg.WhoAmI? && from in addrStore && addrStore[from] != [] ==>
                ToEach(out, WhoAmIReply(Some(ToIpPort(addrStore[from][0]))), from)
      ensures !(msg.Query? && msg.vpnIP.Dotted?) && !msg.WhoAmI? ==> out == []
      ensures addrStore ==
                match msg
                case QueryReply(Dotted(bits), ps) => old(addrStore)[V4(bits) := FromIpPorts(ps)]
                case Update(ps) => if amLighthouse then old(addrStore)[from := FromIpPorts(ps)] else old(addrStore)
                case _ => old(addrStore)
      ensures myAddrs ==
                match msg
                case WhoAmIReply(Some(IpPort(Dotted(bits), port))) => [UdpAddr(HostIp(bits), port)] + old(myAddrs)
                case _ => old(myAddrs)
      ensures holes == if msg.Punch? && punches then FromIpPorts(msg.addrs) else []
    {
      out, holes := [], [];
      match msg {
        case Query(t) =>
          var queried := ReadAddr(t);
          if queried.Some? {
            var ps := ToWire(Stored(State(), queried.value));
            out := Send(QueryReply(t, ps), from);
          }
        case QueryReply(t, ps) =>
          var vpnIP := ReadAddr(t);
          if vpnIP.Some? {
            var addrs := FromWire(ps);
            addrStore := addrStore[vpnIP.value := addrs];
          }
        case Update(ps) =>
          if amLighthouse {
            var addrs := FromWire(ps);
            addrStore := addrStore[from := addrs];
          }
        case WhoAmI =>
          out := Send(WhoAmIReply(FirstOnRecord(State(), from)), from);
        case WhoAmIReply(p) =>
          if p.Some? {
            var a := FromIpPort(p.value);
            if a.Some? {
              myAddrs := [a.value] + myAddrs;
            }
          }
        case Punch(ps) =>
          if punches {
            holes := FromWire(ps);
          }
        case Unset =>
      }
    }
  }
}
