/** Handshakes that happen: a session between two nodes, and one left over by a repeated packet. */
module HandshakeExamples {
  import opened Words
  import opened Net
  import opened Crypto
  import opened HandshakeSpec
  import opened HandshakeRuns
  import opened HandshakeNetwork

  /** What an enabled step other than a tick leads to. */
  function Apply(net: Network, act: Action): Network
    requires act.at < |net.nodes| && (act.Local? ==> !act.ev.Tick?)
  {
    var node := net.nodes[act.at];
    match act
    case Local(at, ev) =>
      var m := match ev
        case Start(ip, addr, remote, index, e, now) => AfterStart(node.cert, node.mgr, ip, addr, remote, index, e, now)
        case Answer(p, _) => AfterStage1(node.mgr, p.remoteIndex)
        case Queue(ip, p) => AfterQueue(node.mgr, ip, p)
        case Tick(_) => node.mgr;
      var node' := Node(node.cert, m, node.initiated + Listed(Installs(node.mgr, ev)), node.responded);
      var starts := if Begins(node.mgr, ev)
                    then net.starts[ev.e := Origin(at, node.mgr.started, ev.index.value, ev.ip, ev.remote,
                                                   NewState(node.cert, ev.remote, ev.e))]
                    else net.starts;
      Network(net.nodes[at := node'], net.wire + Emits(node.cert, node.mgr, ev), starts, net.replies)
    case Respond(at, p, from, _, index, er, _) =>
      if !Responds(node, act) then net
      else
        var node' := node.(responded := node.responded + [ResponderSession(p.body, from, index.value, er)]);
        Network(net.nodes[at := node'], net.wire + {Reply(node.cert, p.body, index.value, er)}, net.starts,
                net.replies[er := Place(at, |node.responded|)])
  }

  lemma ApplyIsNext(net: Network, act: Action)
    requires act.at < |net.nodes| && (act.Local? ==> !act.ev.Tick?)
    ensures Next(net, act, Apply(net, act))
  {
    hide Installs, Emits, Responds, AfterStart, AfterStage1, AfterQueue, ResponderSession, Reply, NewState, Begins;
  }

  /** Two nodes that have done nothing yet. */
  function Two(a: Cert, b: Cert): Network {
    Network([Node(a, NEW, [], []), Node(b, NEW, [], [])], {}, map[], map[])
  }

  /** Node 0 starts a handshake with node 1; its ephemeral key is 1, its index 7. */
  function Starting(b: Cert, addr: UdpAddr): Action {
    Local(0, Start(b.vpnIP, addr, b, Some(7), 1, 0))
  }

  function FirstPacket(a: Cert, b: Cert): Packet {
    Stage0(a, NewState(a, b, 1), 7)
  }

  /** Node 1 answers it, under the given index and ephemeral key. */
  function Responding(a: Cert, b: Cert, from: UdpAddr, index: u32, er: Ephemeral): Action {
    Respond(1, FirstPacket(a, b), from, {a}, Some(index), er, true)
  }

  function ReplyTo(a: Cert, b: Cert, index: u32, er: Ephemeral): Packet {
    Reply(b, FirstPacket(a, b).body, index, er)
  }

  /** Node 0 receives an answer. */
  function Finishing(a: Cert, b: Cert, index: u32, er: Ephemeral): Action {
    Local(0, Answer(ReplyTo(a, b, index, er), {b}))
  }

  function Exchange(a: Cert, b: Cert, er: Ephemeral): Transcript {
    Transcript(NewState(a, b, 1), er)
  }

  /** Node 0 is waiting for an answer. */
  ghost predicate Asking(net: Network, a: Cert, b: Cert) {
    && |net.nodes| == 2 && net.nodes[0].cert == a && net.nodes[1].cert == b
    && FirstPacket(a, b) in net.wire && net.nodes[0].initiated == []
    && var m := net.nodes[0].mgr; Reaches(m, 7) && Reached(m, 7).state == NewState(a, b, 1)
  }

  lemma AfterStarting(a: Cert, b: Cert, addr: UdpAddr)
    ensures var net := Apply(Two(a, b), Starting(b, addr));
            Asking(net, a, b) && net.starts.Keys == {1} && net.replies == map[] && net.nodes[1].responded == []
  {
    hide NewState;
  }

  lemma AfterResponding(net: Network, a: Cert, b: Cert, from: UdpAddr, index: u32, er: Ephemeral)
    requires Asking(net, a, b)
    ensures var net' := Apply(net, Responding(a, b, from, index, er));
            && Asking(net', a, b) && net'.starts == net.starts && net'.replies.Keys == net.replies.Keys + {er}
            && net'.wire == net.wire + {ReplyTo(a, b, index, er)}
            && net'.nodes[1].responded
               == net.nodes[1].responded + [ResponderSession(FirstPacket(a, b).body, from, index, er)]
  {
    hide XorBytes;
    PskIsSymmetric(a.fingerprint, b.fingerprint);
    assert Accepts(b, FirstPacket(a, b).body, {a});
  }

  lemma AfterFinishing(net: Network, a: Cert, b: Cert, index: u32, er: Ephemeral)
    requires Asking(net, a, b)
    ensures var net' := Apply(net, Finishing(a, b, index, er));
            && |net'.nodes| == 2 && |net'.nodes[0].initiated| == 1 && net'.nodes[1] == net.nodes[1]
            && net'.nodes[0].initiated[0].ciphers == SessionCiphers(Exchange(a, b, er), true)
  {
    hide XorBytes;
    assert Installs(net.nodes[0].mgr, Finishing(a, b, index, er).ev).Some?;
  }

  lemma ResponderKeys(a: Cert, b: Cert, from: UdpAddr, index: u32, er: Ephemeral)
    ensures ResponderSession(FirstPacket(a, b).body, from, index, er).ciphers
         == SessionCiphers(Exchange(a, b, er), false)
  {
  }

  /** Three steps install a session at each end: start, respond, answer. */
  lemma SessionHappens(a: Cert, b: Cert, addr: UdpAddr, from: UdpAddr)
    returns (nets: seq<Network>, acts: seq<Action>, s: Session, r: Session)
    ensures IsHistory(nets, acts) && |acts| == 3
    ensures InitiatedAt(nets[3], Place(0, 0), s) && RespondedAt(nets[3], Place(1, 0), r)
    ensures OtherEnd(nets[3], Place(0, 0), s, Place(1, 0), r)
  {
    hide Apply, Next, Starting, Responding, Finishing, Asking, FirstPacket, ReplyTo, ResponderSession, SessionCiphers;
    acts := [Starting(b, addr), Responding(a, b, from, 8, 2), Finishing(a, b, 8, 2)];
    Shapes(a, b, addr, from, 8, 2);
    AfterStarting(a, b, addr);
    var one := Apply(Two(a, b), acts[0]);
    AskingShape(one, a, b);
    AfterResponding(one, a, b, from, 8, 2);
    var two := Apply(one, acts[1]);
    AskingShape(two, a, b);
    AfterFinishing(two, a, b, 8, 2);
    nets := [Two(a, b), one, two, Apply(two, acts[2])];
    ApplyIsNext(nets[0], acts[0]);
    ApplyIsNext(nets[1], acts[1]);
    ApplyIsNext(nets[2], acts[2]);
    s, r := nets[3].nodes[0].initiated[0], nets[3].nodes[1].responded[0];
    ResponderKeys(a, b, from, 8, 2);
    CiphersCross(Exchange(a, b, 2), Exchange(a, b, 2), true, false);
    var pr, q := Agreement(nets, acts, 3, Place(0, 0), s);
    assert RespondedAt(nets[3], Place(1, 0), r);
  }

  /** What the steps are, as far as enabling them goes. */
  lemma Shapes(a: Cert, b: Cert, addr: UdpAddr, from: UdpAddr, index: u32, er: Ephemeral)
    ensures var act := Starting(b, addr); act.Local? && act.at == 0 && act.ev.Start? && act.ev.e == 1
    ensures var act := Responding(a, b, from, index, er);
            act.Respond? && act.at == 1 && act.packet == FirstPacket(a, b) && act.er == er
    ensures var act := Finishing(a, b, index, er);
            act.Local? && act.at == 0 && act.ev.Answer? && act.ev.packet == ReplyTo(a, b, index, er)
  {
  }

  lemma AskingShape(net: Network, a: Cert, b: Cert)
    requires Asking(net, a, b)
    ensures |net.nodes| == 2 && FirstPacket(a, b) in net.wire
  {
  }

  /** One repeated packet: node 1 answers the first packet twice, and node 0 finishes with the
      first answer. The newer session at node 1 is orphaned. */
  lemma OrphanHappens(a: Cert, b: Cert, addr: UdpAddr, from: UdpAddr)
    returns (nets: seq<Network>, acts: seq<Action>, s: Session, r: Session)
    ensures IsHistory(nets, acts) && |acts| == 4
    ensures InitiatedAt(nets[4], Place(0, 0), s) && RespondedAt(nets[4], Place(1, 1), r) && Orphaned(s, r)
    ensures r.vpnIP == a.vpnIP == nets[4].nodes[1].responded[0].vpnIP
  {
    hide Apply, Next, Starting, Responding, Finishing, Asking, FirstPacket, ReplyTo, ResponderSession;
    acts := [Starting(b, addr), Responding(a, b, from, 8, 2), Responding(a, b, from, 9, 3), Finishing(a, b, 8, 2)];
    Shapes(a, b, addr, from, 8, 2);
    Shapes(a, b, addr, from, 9, 3);
    AfterStarting(a, b, addr);
    var one := Apply(Two(a, b), acts[0]);
    AskingShape(one, a, b);
    AfterResponding(one, a, b, from, 8, 2);
    var two := Apply(one, acts[1]);
    AskingShape(two, a, b);
    AfterResponding(two, a, b, from, 9, 3);
    var three := Apply(two, acts[2]);
    AskingShape(three, a, b);
    AfterFinishing(three, a, b, 8, 2);
    nets := [Two(a, b), one, two, three, Apply(three, acts[3])];
    ApplyIsNext(nets[0], acts[0]);
    ApplyIsNext(nets[1], acts[1]);
    ApplyIsNext(nets[2], acts[2]);
    ApplyIsNext(nets[3], acts[3]);
    s, r := nets[4].nodes[0].initiated[0], nets[4].nodes[1].responded[1];
    ResponderKeys(a, b, from, 9, 3);
    SameAddress(a, b, from, 8, 2);
    SameAddress(a, b, from, 9, 3);
  }

  lemma SameAddress(a: Cert, b: Cert, from: UdpAddr, index: u32, er: Ephemeral)
    ensures ResponderSession(FirstPacket(a, b).body, from, index, er).vpnIP == a.vpnIP
  {
  }
}
