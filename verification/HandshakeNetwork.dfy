/** Any number of nodes shaking hands over a wire that may lose, delay, duplicate, reorder and
    misdeliver their packets. The only assumption is that ephemeral keys are fresh: local
    indices may collide freely. */
module HandshakeNetwork {
  import opened Words
  import opened Net
  import opened Crypto
  import opened HandshakeSpec
  import opened HandshakeRuns

  /** A node, with every session it ever installed in each role. */
  datatype Node = Node(cert: Cert, mgr: Manager, initiated: seq<Session>, responded: seq<Session>)

  /** Where an initiator's ephemeral key comes from. */
  datatype Origin = Origin(node: nat, serial: nat, index: u32, ip: Addr, remote: Cert, state: Initiator)

  /** Which responder session a responder's ephemeral key belongs to. */
  datatype Place = Place(node: nat, slot: nat)

  /** The nodes, every packet ever sent, and the history of ephemeral keys. */
  datatype Network = Network(nodes: seq<Node>, wire: set<Packet>, starts: map<Ephemeral, Origin>,
                             replies: map<Ephemeral, Place>)

  datatype Action =
    | Local(at: nat, ev: Event)
    | Respond(at: nat, packet: Packet, from: UdpAddr, trusted: set<Cert>, index: Option<u32>, er: Ephemeral,
              sendOk: bool)

  predicate FreshKey(net: Network, e: Ephemeral) {
    e !in net.starts && e !in net.replies
  }

  predicate Enabled(net: Network, act: Action) {
    && act.at < |net.nodes|
    && match act
       case Local(_, ev) => (ev.Start? ==> FreshKey(net, ev.e)) && (ev.Answer? ==> ev.packet in net.wire)
       case Respond(_, p, _, _, _, er, _) => p in net.wire && FreshKey(net, er)
  }

  // ---------- Steps ----------

  /** The session a local event installs. */
  function Installs(m: Manager, ev: Event): Option<Session> {
    if ev.Answer? && Reaches(m, ev.packet.remoteIndex)
    then Completion(Reached(m, ev.packet.remoteIndex), ev.packet.body, ev.trusted) else None
  }

  function Listed(s: Option<Session>): seq<Session> {
    if s.Some? then [s.value] else []
  }

  /** What a local event puts on the wire: a first packet, or copies of earlier ones. */
  function Emits(local: Cert, m: Manager, ev: Event): set<Packet> {
    if Begins(m, ev) then {Stage0(local, NewState(local, ev.remote, ev.e), ev.index.value)}
    else if ev.Tick? then set ip | ip in m.pending && Resends(m.pending[ip], ev.now) :: m.pending[ip].stage0
    else {}
  }

  predicate Responds(node: Node, act: Action) {
    act.Respond? && Accepts(node.cert, act.packet.body, act.trusted) && act.index.Some? && act.sendOk
  }

  ghost predicate Next(net: Network, act: Action, net': Network)
    requires act.at < |net.nodes|
  {
    var node := net.nodes[act.at];
    match act
    case Local(at, ev) =>
      && |net'.nodes| == |net.nodes|
      && (forall n :: 0 <= n < |net.nodes| && n != at ==> net'.nodes[n] == net.nodes[n])
      && Step(node.cert, node.mgr, ev, net'.nodes[at].mgr)
      && net'.nodes[at].cert == node.cert && net'.nodes[at].responded == node.responded
      && net'.nodes[at].initiated == node.initiated + Listed(Installs(node.mgr, ev))
      && net'.wire == net.wire + Emits(node.cert, node.mgr, ev)
      && net'.starts == (if Begins(node.mgr, ev)
                         then net.starts[ev.e := Origin(at, node.mgr.started, ev.index.value, ev.ip, ev.remote,
                                                        NewState(node.cert, ev.remote, ev.e))]
                         else net.starts)
      && net'.replies == net.replies
    case Respond(at, p, from, _, index, er, _) =>
      if !Responds(node, act) then net' == net
      else net' == Network(
        net.nodes[at := node.(responded := node.responded + [ResponderSession(p.body, from, index.value, er)])],
        net.wire + {Reply(node.cert, p.body, index.value, er)},
        net.starts, net.replies[er := Place(at, |node.responded|)])
  }

  // ---------- The invariant, one thing at a time ----------

  function KeyOf(s: Session): Transcript {
    s.ciphers.send.transcript
  }

  /** The handshake that made this initiator state is on record, at an existing node. */
  ghost predicate Known(net: Network, o: Origin) {
    && o.node < |net.nodes| && o.state.e in net.starts && net.starts[o.state.e] == o
    && o.state == NewState(net.nodes[o.node].cert, o.remote, o.state.e)
  }

  ghost predicate PendingOk(net: Network, n: nat, p: Pending)
    requires n < |net.nodes|
  {
    && p.state.e in net.starts
    && var o := net.starts[p.state.e];
       Known(net, o) && o.node == n && o.serial == p.serial && o.index == p.localIndex && o.state == p.state
       && o.ip == p.remoteVpnIP && p.stage0 == Stage0(net.nodes[n].cert, p.state, p.localIndex)
  }

  /** A responder session was made from a recorded start and is on record itself. */
  ghost predicate RespondedOk(net: Network, b: nat, s: Session, slot: nat)
    requires b < |net.nodes|
  {
    var t := KeyOf(s);
    && s.ciphers == SessionCiphers(t, false) && s.vpnIP == s.cert.vpnIP
    && t.er in net.replies && net.replies[t.er] == Place(b, slot)
    && t.first.e in net.starts
    && var o := net.starts[t.first.e];
       Known(net, o) && o.state == t.first && s.remoteIndex == o.index && s.cert == net.nodes[o.node].cert
       && t.first.rs == net.nodes[b].cert.publicKey
       && t.first.psk == XorBytes(net.nodes[b].cert.fingerprint, s.cert.fingerprint)
  }

  /** Session `s` is the responder session on record for exchange `t`. */
  ghost predicate RespondedFor(net: Network, t: Transcript, s: Session, b: nat) {
    && t.er in net.replies
    && var pl := net.replies[t.er];
       b == pl.node < |net.nodes| && pl.slot < |net.nodes[b].responded| && s == net.nodes[b].responded[pl.slot]
       && s.ciphers == SessionCiphers(t, false)
  }

  ghost predicate Stage0Ok(net: Network, p: Packet) {
    && p.body.Body? && p.body.noise.First? && p.body.noise.init.e in net.starts
    && var o := net.starts[p.body.noise.init.e];
       Known(net, o) && p == Stage0(net.nodes[o.node].cert, o.state, o.index)
  }

  ghost predicate Stage1Ok(net: Network, p: Packet) {
    && p.body.Body? && p.body.noise.Second?
    && exists s, b: nat :: RespondedFor(net, p.body.noise.transcript, s, b)
         && p == Packet(s.remoteIndex, Envelope(Details(net.nodes[b].cert, s.remoteIndex, s.index), p.body.noise))
  }

  /** The two sessions are each other's ends: mirrored indices and crossed keys. */
  predicate Mirrored(i: Session, r: Session) {
    && i.index == r.remoteIndex && i.remoteIndex == r.index
    && i.ciphers.send == r.ciphers.recv && i.ciphers.recv == r.ciphers.send
  }

  /** An initiator session finished a recorded start, and its other end is on record. */
  ghost predicate InitiatedOk(net: Network, a: nat, s: Session)
    requires a < |net.nodes|
  {
    var t := KeyOf(s);
    && s.ciphers == SessionCiphers(t, true)
    && t.first.e in net.starts
    && (var o := net.starts[t.first.e];
        Known(net, o) && o.node == a && o.state == t.first && o.index == s.index && o.ip == s.vpnIP
        && o.serial in net.nodes[a].mgr.answered)
    && exists r, b: nat :: RespondedFor(net, t, r, b) && s.remoteIndex == r.index && s.cert == net.nodes[b].cert
  }

  ghost predicate NodeOk(net: Network, n: nat)
    requires n < |net.nodes|
  {
    var node := net.nodes[n];
    && Inv(node.mgr)
    && (forall ip :: ip in node.mgr.pending ==> PendingOk(net, n, node.mgr.pending[ip]))
    && (forall k: nat :: k < |node.responded| ==> RespondedOk(net, n, node.responded[k], k))
    && (forall k: nat :: k < |node.initiated| ==> InitiatedOk(net, n, node.initiated[k]))
    && (forall j: nat, k: nat :: j < k < |node.initiated| ==>
          KeyOf(node.initiated[j]).first.e != KeyOf(node.initiated[k]).first.e)
  }

  ghost predicate NetOk(net: Network) {
    && (forall n: nat :: n < |net.nodes| ==> NodeOk(net, n))
    && (forall p :: p in net.wire ==> Stage0Ok(net, p) || Stage1Ok(net, p))
  }

  // ---------- History only grows ----------

  ghost predicate Grows(net: Network, net': Network) {
    && |net'.nodes| == |net.nodes|
    && (forall n: nat :: n < |net.nodes| ==>
          && net'.nodes[n].cert == net.nodes[n].cert && net.nodes[n].responded <= net'.nodes[n].responded
          && net.nodes[n].initiated <= net'.nodes[n].initiated
          && net.nodes[n].mgr.answered <= net'.nodes[n].mgr.answered)
    && (forall e :: e in net.starts ==> e in net'.starts && net'.starts[e] == net.starts[e])
    && (forall e :: e in net.replies ==> e in net'.replies && net'.replies[e] == net.replies[e])
  }

  lemma NextGrows(net: Network, act: Action, net': Network)
    requires Enabled(net, act) && Next(net, act, net')
    ensures Grows(net, net')
  {
    hide Installs, Emits, Responds, Step;
    if act.Local? {
      AnsweredGrows(net.nodes[act.at].cert, net.nodes[act.at].mgr, act.ev, net'.nodes[act.at].mgr);
    }
  }

  lemma AnsweredGrows(local: Cert, m: Manager, ev: Event, m': Manager)
    requires Step(local, m, ev, m')
    ensures m.answered <= m'.answered
  {
  }

  lemma KnownStays(net: Network, net': Network, o: Origin)
    requires Grows(net, net') && Known(net, o)
    ensures Known(net', o)
  {
  }

  lemma RespondedForStays(net: Network, net': Network, t: Transcript, s: Session, b: nat)
    requires Grows(net, net') && RespondedFor(net, t, s, b)
    ensures RespondedFor(net', t, s, b)
  {
    assert net.nodes[b].responded <= net'.nodes[b].responded;
  }

  lemma PacketStays(net: Network, net': Network, p: Packet)
    requires Grows(net, net') && (Stage0Ok(net, p) || Stage1Ok(net, p))
    ensures Stage0Ok(net', p) || Stage1Ok(net', p)
  {
    if Stage0Ok(net, p) {
      KnownStays(net, net', net.starts[p.body.noise.init.e]);
    } else {
      var s, b: nat :| RespondedFor(net, p.body.noise.transcript, s, b)
         && p == Packet(s.remoteIndex, Envelope(Details(net.nodes[b].cert, s.remoteIndex, s.index), p.body.noise));
      RespondedForStays(net, net', p.body.noise.transcript, s, b);
    }
  }

  lemma PendingStays(net: Network, net': Network, n: nat, p: Pending)
    requires Grows(net, net') && n < |net.nodes| && PendingOk(net, n, p)
    ensures PendingOk(net', n, p)
  {
  }

  lemma RespondedStays(net: Network, net': Network, b: nat, s: Session, slot: nat)
    requires Grows(net, net') && b < |net.nodes| && RespondedOk(net, b, s, slot)
    ensures RespondedOk(net', b, s, slot)
  {
  }

  lemma InitiatedStays(net: Network, net': Network, a: nat, s: Session)
    requires Grows(net, net') && a < |net.nodes| && InitiatedOk(net, a, s)
    ensures InitiatedOk(net', a, s)
  {
    var t := KeyOf(s);
    var r, b: nat :| RespondedFor(net, t, r, b) && s.remoteIndex == r.index && s.cert == net.nodes[b].cert;
    RespondedForStays(net, net', t, r, b);
    KnownStays(net, net', net.starts[t.first.e]);
  }

  // ---------- What each step adds is in order ----------

  /** Ticks and queued packets leave the identity of a handshake alone. */
  predicate SameHandshake(p: Pending, q: Pending) {
    && p.serial == q.serial && p.state == q.state && p.localIndex == q.localIndex
    && p.remoteVpnIP == q.remoteVpnIP && p.stage0 == q.stage0
  }

  /** The handshake that a start begins. */
  function Beginning(local: Cert, m: Manager, ev: Event): Pending
    requires Begins(m, ev)
  {
    NewPending(local, m.started, ev.ip, ev.addr, ev.remote, ev.index.value, ev.e, ev.now)
  }

  lemma PendingNext(local: Cert, m: Manager, ev: Event, m': Manager, ip: Addr)
    requires Step(local, m, ev, m') && ip in m'.pending
    ensures (ip in m.pending && SameHandshake(m'.pending[ip], m.pending[ip])) ||
            (Begins(m, ev) && m'.pending[ip] == Beginning(local, m, ev))
  {
    hide Delay;
  }

  lemma NewPendingOk(net: Network, act: Action, net': Network)
    requires Enabled(net, act) && Next(net, act, net') && act.Local? && Begins(net.nodes[act.at].mgr, act.ev)
    ensures var node, ev := net.nodes[act.at], act.ev;
            PendingOk(net', act.at, Beginning(node.cert, node.mgr, ev))
  {
    hide Step, Installs, Emits;
  }

  lemma PendingsOk(net: Network, act: Action, net': Network, ip: Addr)
    requires NetOk(net) && Enabled(net, act) && Next(net, act, net') && act.Local?
    requires ip in net'.nodes[act.at].mgr.pending
    ensures PendingOk(net', act.at, net'.nodes[act.at].mgr.pending[ip])
  {
    hide Step, Installs, Emits, PendingOk, NewPending;
    var m, m' := net.nodes[act.at].mgr, net'.nodes[act.at].mgr;
    NextGrows(net, act, net');
    assert NodeOk(net, act.at);
    PendingNext(net.nodes[act.at].cert, m, act.ev, m', ip);
    if ip in m.pending && SameHandshake(m'.pending[ip], m.pending[ip]) {
      PendingStays(net, net', act.at, m.pending[ip]);
      SameIsOk(net', act.at, m.pending[ip], m'.pending[ip]);
    } else {
      NewPendingOk(net, act, net');
    }
  }

  lemma SameIsOk(net: Network, n: nat, p: Pending, q: Pending)
    requires n < |net.nodes| && PendingOk(net, n, p) && SameHandshake(q, p)
    ensures PendingOk(net, n, q)
  {
  }

  /** A packet that completes a handshake is a stage-1 packet on record. */
  lemma InstalledOk(net: Network, act: Action, net': Network)
    requires NetOk(net) && Enabled(net, act) && Next(net, act, net')
    requires act.Local? && Installs(net.nodes[act.at].mgr, act.ev).Some?
    ensures InitiatedOk(net', act.at, Installs(net.nodes[act.at].mgr, act.ev).value)
  {
    hide Emits, Inv, RespondedOk, Known;
    var m, ev := net.nodes[act.at].mgr, act.ev;
    var p, b, s := Reached(m, ev.packet.remoteIndex), ev.packet.body, Installs(m, ev).value;
    NextGrows(net, act, net');
    assert NodeOk(net, act.at);
    assert PendingOk(net, act.at, p);
    assert Stage1Ok(net, ev.packet);
    var r, at: nat :| RespondedFor(net, b.noise.transcript, r, at)
      && ev.packet == Packet(r.remoteIndex, Envelope(Details(net.nodes[at].cert, r.remoteIndex, r.index), b.noise));
    RespondedForStays(net, net', b.noise.transcript, r, at);
    KnownStays(net, net', net.starts[p.state.e]);
  }

  /** It is a different exchange from every one the node finished before. */
  lemma InstalledIsNew(net: Network, act: Action, k: nat)
    requires NetOk(net) && Enabled(net, act) && act.Local? && Installs(net.nodes[act.at].mgr, act.ev).Some?
    requires k < |net.nodes[act.at].initiated|
    ensures var node := net.nodes[act.at];
            KeyOf(node.initiated[k]).first.e != KeyOf(Installs(node.mgr, act.ev).value).first.e
  {
    hide RespondedOk, RespondedFor;
    var m, ev := net.nodes[act.at].mgr, act.ev;
    var p := Reached(m, ev.packet.remoteIndex);
    assert NodeOk(net, act.at);
    assert PendingOk(net, act.at, p) && Live(m, p.serial);
    assert InitiatedOk(net, act.at, net.nodes[act.at].initiated[k]);
  }

  lemma LocalNodeOk(net: Network, act: Action, net': Network)
    requires NetOk(net) && Enabled(net, act) && Next(net, act, net') && act.Local?
    ensures NodeOk(net', act.at)
  {
    hide Step, Inv, Installs, Emits, PendingOk, RespondedOk, InitiatedOk, KeyOf, Begins;
    var node, node' := net.nodes[act.at], net'.nodes[act.at];
    NextGrows(net, act, net');
    assert NodeOk(net, act.at);
    StepKeeps(node.cert, node.mgr, act.ev, node'.mgr);
    forall ip | ip in node'.mgr.pending
      ensures PendingOk(net', act.at, node'.mgr.pending[ip])
    {
      PendingsOk(net, act, net', ip);
    }
    forall k: nat | k < |node'.responded|
      ensures RespondedOk(net', act.at, node'.responded[k], k)
    {
      RespondedStays(net, net', act.at, node.responded[k], k);
    }
    forall k: nat | k < |node'.initiated|
      ensures InitiatedOk(net', act.at, node'.initiated[k])
    {
      if k < |node.initiated| {
        InitiatedStays(net, net', act.at, node.initiated[k]);
      } else {
        InstalledOk(net, act, net');
      }
    }
    forall j: nat, k: nat | j < k < |node'.initiated|
      ensures KeyOf(node'.initiated[j]).first.e != KeyOf(node'.initiated[k]).first.e
    {
      if k == |node.initiated| {
        InstalledIsNew(net, act, j);
      }
    }
  }

  lemma OtherNodeOk(net: Network, act: Action, net': Network, n: nat)
    requires NetOk(net) && Enabled(net, act) && Next(net, act, net') && n < |net.nodes| && net'.nodes[n] == net.nodes[n]
    ensures NodeOk(net', n)
  {
    hide Inv, PendingOk, RespondedOk, InitiatedOk, KeyOf, Next;
    var node := net.nodes[n];
    NextGrows(net, act, net');
    assert NodeOk(net, n);
    forall ip | ip in node.mgr.pending
      ensures PendingOk(net', n, node.mgr.pending[ip])
    {
      PendingStays(net, net', n, node.mgr.pending[ip]);
    }
    forall k: nat | k < |node.responded|
      ensures RespondedOk(net', n, node.responded[k], k)
    {
      RespondedStays(net, net', n, node.responded[k], k);
    }
    forall k: nat | k < |node.initiated|
      ensures InitiatedOk(net', n, node.initiated[k])
    {
      InitiatedStays(net, net', n, node.initiated[k]);
    }
  }

  lemma EmittedOk(net: Network, act: Action, net': Network, p: Packet)
    requires NetOk(net) && Enabled(net, act) && Next(net, act, net') && act.Local?
    requires p in Emits(net.nodes[act.at].cert, net.nodes[act.at].mgr, act.ev)
    ensures Stage0Ok(net', p)
  {
    hide Step, Installs, Inv, RespondedOk, InitiatedOk;
    var m := net.nodes[act.at].mgr;
    NextGrows(net, act, net');
    if Begins(m, act.ev) {
      NewPendingOk(net, act, net');
    } else {
      var ip :| ip in m.pending && p == m.pending[ip].stage0;
      assert NodeOk(net, act.at);
      assert PendingOk(net, act.at, m.pending[ip]);
      KnownStays(net, net', net.starts[m.pending[ip].state.e]);
    }
  }

  lemma RespondedNewOk(net: Network, act: Action, net': Network)
    requires NetOk(net) && Enabled(net, act) && Next(net, act, net') && Responds(net.nodes[act.at], act)
    ensures var node := net.nodes[act.at];
            var s := ResponderSession(act.packet.body, act.from, act.index.value, act.er);
            && RespondedOk(net', act.at, s, |node.responded|)
            && Stage1Ok(net', Reply(node.cert, act.packet.body, act.index.value, act.er))
  {
    hide Inv, RespondedOk, InitiatedOk, PendingOk;
    var node, b := net.nodes[act.at], act.packet.body;
    var s, t := ResponderSession(b, act.from, act.index.value, act.er), ResponderTranscript(b, act.er);
    NextGrows(net, act, net');
    assert Stage0Ok(net, act.packet);
    KnownStays(net, net', net.starts[b.noise.init.e]);
    assert RespondedFor(net', t, s, act.at);
    SessionOnRecord(net', act.at, s, |node.responded|, b);
  }

  lemma SessionOnRecord(net: Network, at: nat, s: Session, slot: nat, b: Body)
    requires at < |net.nodes| && b.Body? && b.noise.First?
    requires s.vpnIP == s.cert.vpnIP
    requires var t := KeyOf(s);
             && t.first == b.noise.init && s.ciphers == SessionCiphers(t, false)
             && t.er in net.replies && net.replies[t.er] == Place(at, slot)
    requires b.noise.init.e in net.starts
    requires var o := net.starts[b.noise.init.e];
             && Known(net, o) && o.state == b.noise.init && s.remoteIndex == o.index
             && s.cert == net.nodes[o.node].cert
    requires var own := net.nodes[at].cert;
             ResponderReads(own.publicKey, XorBytes(own.fingerprint, s.cert.fingerprint), b.noise)
    ensures RespondedOk(net, at, s, slot)
  {
  }

  lemma RespondNodeOk(net: Network, act: Action, net': Network)
    requires NetOk(net) && Enabled(net, act) && Next(net, act, net') && Responds(net.nodes[act.at], act)
    ensures NodeOk(net', act.at)
  {
    hide Inv, PendingOk, RespondedOk, InitiatedOk, KeyOf, Accepts;
    var node, node' := net.nodes[act.at], net'.nodes[act.at];
    NextGrows(net, act, net');
    assert NodeOk(net, act.at);
    forall ip | ip in node'.mgr.pending
      ensures PendingOk(net', act.at, node'.mgr.pending[ip])
    {
      PendingStays(net, net', act.at, node.mgr.pending[ip]);
    }
    forall k: nat | k < |node'.responded|
      ensures RespondedOk(net', act.at, node'.responded[k], k)
    {
      if k < |node.responded| {
        RespondedStays(net, net', act.at, node.responded[k], k);
      } else {
        RespondedNewOk(net, act, net');
      }
    }
    forall k: nat | k < |node'.initiated|
      ensures InitiatedOk(net', act.at, node'.initiated[k])
    {
      InitiatedStays(net, net', act.at, node.initiated[k]);
    }
  }

  /** Every step keeps the whole network in order. */
  lemma StepKeepsNetwork(net: Network, act: Action, net': Network)
    requires NetOk(net) && Enabled(net, act) && Next(net, act, net')
    ensures NetOk(net')
  {
    hide NodeOk, Stage0Ok, Stage1Ok, Step, Installs, Emits, Begins, Responds;
    if act.Respond? && !Responds(net.nodes[act.at], act) {
      assert net' == net;
    } else {
      NextGrows(net, act, net');
      forall n: nat | n < |net'.nodes|
        ensures NodeOk(net', n)
      {
        if n != act.at {
          OtherNodeOk(net, act, net', n);
        } else if act.Local? {
          LocalNodeOk(net, act, net');
        } else {
          RespondNodeOk(net, act, net');
        }
      }
      forall p | p in net'.wire
        ensures Stage0Ok(net', p) || Stage1Ok(net', p)
      {
        if p in net.wire {
          PacketStays(net, net', p);
        } else if act.Local? {
          EmittedOk(net, act, net', p);
        } else {
          RespondedNewOk(net, act, net');
        }
      }
    }
  }

  // ---------- Whole runs ----------

  ghost predicate Init(net: Network) {
    && net.wire == {} && net.starts == map[] && net.replies == map[]
    && forall n | 0 <= n < |net.nodes| ::
         net.nodes[n].mgr == NEW && net.nodes[n].initiated == net.nodes[n].responded == []
  }

  ghost predicate IsHistory(nets: seq<Network>, acts: seq<Action>) {
    && |nets| == |acts| + 1 && Init(nets[0])
    && forall i :: 0 <= i < |acts| ==> Enabled(nets[i], acts[i]) && Next(nets[i], acts[i], nets[i + 1])
  }

  lemma InitOk(net: Network)
    requires Init(net)
    ensures NetOk(net)
  {
    NewInv();
  }

  lemma AlwaysOk(nets: seq<Network>, acts: seq<Action>, i: nat)
    requires IsHistory(nets, acts) && i < |nets|
    ensures NetOk(nets[i])
  {
    hide NetOk, Next, Enabled;
    InitOk(nets[0]);
    for n := 0 to i
      invariant NetOk(nets[n])
    {
      StepKeepsNetwork(nets[n], acts[n], nets[n + 1]);
    }
  }

  /** What a tick adds to the wire: exactly the first packets of the handshakes that are due and have
      attempts left. */
  lemma TickResends(nets: seq<Network>, acts: seq<Action>, i: nat, p: Packet)
    requires IsHistory(nets, acts) && i < |acts| && acts[i].Local? && acts[i].ev.Tick?
    ensures acts[i].at < |nets[i].nodes|
    ensures p in nets[i + 1].wire <==>
              || p in nets[i].wire
              || (var m := nets[i].nodes[acts[i].at].mgr;
                  exists ip :: ip in m.pending && m.pending[ip].nextRetry <= acts[i].ev.now
                    && m.pending[ip].attempts < 10 && m.pending[ip].stage0 == p)
  {
    hide Init, Step;
    var m := nets[i].nodes[acts[i].at].mgr;
    assert Next(nets[i], acts[i], nets[i + 1]);
    if ip :| ip in m.pending && m.pending[ip].nextRetry <= acts[i].ev.now && m.pending[ip].attempts < 10
             && m.pending[ip].stage0 == p {
      assert Resends(m.pending[ip], acts[i].ev.now);
    }
  }

  /** The body's digest does not fit what it comes with. */
  predicate Tampered(b: Body) {
    b.Body? && (b.mac.key != b.details.cert.fingerprint || b.mac.details != b.details || b.mac.noise != b.noise)
  }

  /** Whatever the wire holds, a packet that does not parse, was tampered with, or comes under a
      certificate that is not trusted installs no session anywhere. */
  lemma RefusedInstallsNothing(net: Network, act: Action, net': Network, n: nat)
    requires act.at < |net.nodes| && Next(net, act, net') && n < |net.nodes|
    requires act.Respond? || act.ev.Answer?
    requires var b, trusted := if act.Respond? then act.packet.body else act.ev.packet.body,
                               if act.Respond? then act.trusted else act.ev.trusted;
             b.Malformed? || Tampered(b) || b.details.cert !in trusted
    ensures n < |net'.nodes|
    ensures net'.nodes[n].initiated == net.nodes[n].initiated && net'.nodes[n].responded == net.nodes[n].responded
  {
    hide Step, XorBytes;
    assert net.nodes[act.at].initiated + [] == net.nodes[act.at].initiated;
  }

  /** In every run, a step that gives a node one more session is that node's, and the session's
      certificate was trusted in that step. */
  lemma OnlyTrustedJoin(nets: seq<Network>, acts: seq<Action>, i: nat, n: nat)
    requires IsHistory(nets, acts) && i < |acts| && n < |nets[i].nodes|
    ensures n < |nets[i + 1].nodes|
    ensures var was, now := nets[i].nodes[n].initiated, nets[i + 1].nodes[n].initiated;
            now == was ||
            (&& |now| == |was| + 1 && now[..|was|] == was && acts[i].at == n && acts[i].Local? && acts[i].ev.Answer?
             && now[|was|].cert in acts[i].ev.trusted)
    ensures var was, now := nets[i].nodes[n].responded, nets[i + 1].nodes[n].responded;
            now == was ||
            (&& |now| == |was| + 1 && now[..|was|] == was && acts[i].at == n && acts[i].Respond?
             && now[|was|].cert in acts[i].trusted)
  {
    hide Step, XorBytes, Init;
    var net, act, net' := nets[i], acts[i], nets[i + 1];
    assert Next(net, act, net');
    assert net.nodes[n].initiated + [] == net.nodes[n].initiated;
  }

  /** The responder session at a place. */
  predicate RespondedAt(net: Network, pl: Place, r: Session) {
    pl.node < |net.nodes| && pl.slot < |net.nodes[pl.node].responded| && net.nodes[pl.node].responded[pl.slot] == r
  }

  predicate InitiatedAt(net: Network, pl: Place, s: Session) {
    pl.node < |net.nodes| && pl.slot < |net.nodes[pl.node].initiated| && net.nodes[pl.node].initiated[pl.slot] == s
  }

  /** Responder sessions that share a key are the same session. */
  lemma ResponderKeyIsUnique(net: Network, pl: Place, r: Session, pl': Place, r': Session)
    requires NetOk(net) && RespondedAt(net, pl, r) && RespondedAt(net, pl', r') && KeyOf(r) == KeyOf(r')
    ensures pl == pl' && r == r'
  {
    assert NodeOk(net, pl.node) && NodeOk(net, pl'.node);
    assert RespondedOk(net, pl.node, r, pl.slot) && RespondedOk(net, pl'.node, r', pl'.slot);
  }

  lemma InitiatorKeyIsUnique(net: Network, pl: Place, s: Session, pl': Place, s': Session)
    requires NetOk(net) && InitiatedAt(net, pl, s) && InitiatedAt(net, pl', s') && KeyOf(s) == KeyOf(s')
    ensures pl == pl' && s == s'
  {
    assert NodeOk(net, pl.node) && NodeOk(net, pl'.node);
    assert InitiatedOk(net, pl.node, s) && InitiatedOk(net, pl'.node, s');
  }

  /** Session `r` at `pr` is the other end of the initiator session `s` at `pl`, and no other
      session is: mirrored indices, crossed keys, and each end holds the other's certificate. */
  ghost predicate OtherEnd(net: Network, pl: Place, s: Session, pr: Place, r: Session)
    requires InitiatedAt(net, pl, s)
  {
    && RespondedAt(net, pr, r) && Mirrored(s, r)
    && (forall pr', r' | RespondedAt(net, pr', r') ::
          s.ciphers.send == r'.ciphers.recv || s.ciphers.recv == r'.ciphers.send ==> pr' == pr)
    && s.cert == net.nodes[pr.node].cert && r.cert == net.nodes[pl.node].cert && r.vpnIP == r.cert.vpnIP
  }

  /** The session came of a start at the node for this peer and certificate. */
  ghost predicate AsAskedFor(net: Network, pl: Place, s: Session) {
    && KeyOf(s).first.e in net.starts
    && var o := net.starts[KeyOf(s).first.e];
       && o.node == pl.node && o.ip == s.vpnIP
       && o.remote.fingerprint == s.cert.fingerprint && o.remote.publicKey == s.cert.publicKey
  }

  lemma AgreementIn(net: Network, pl: Place, s: Session) returns (pr: Place, r: Session)
    requires NetOk(net) && InitiatedAt(net, pl, s)
    ensures OtherEnd(net, pl, s, pr, r) && AsAskedFor(net, pl, s)
  {
    var t := KeyOf(s);
    assert NodeOk(net, pl.node);
    assert InitiatedOk(net, pl.node, s);
    var q, b: nat :| RespondedFor(net, t, q, b) && s.remoteIndex == q.index && s.cert == net.nodes[b].cert;
    r, pr := q, net.replies[t.er];
    assert NodeOk(net, b);
    assert RespondedOk(net, b, r, pr.slot);
    forall pr', r' |
      RespondedAt(net, pr', r') && (s.ciphers.send == r'.ciphers.recv || s.ciphers.recv == r'.ciphers.send)
      ensures pr' == pr
    {
      assert NodeOk(net, pr'.node);
      assert RespondedOk(net, pr'.node, r', pr'.slot);
      ResponderKeyIsUnique(net, pr, r, pr', r');
    }
    IntendedPeer(net.nodes[pl.node].cert, net.nodes[b].cert, net.starts[t.first.e].remote);
  }

  /** Every session an initiator installs has exactly one responder session at its other end,
      with mirrored indices and crossed keys, however often stage-0 was sent or delivered. The
      two ends hold each other's certificates, and the responder is the peer the initiator
      asked for: it has the fingerprint and the public key of the certificate used at the start. */
  lemma Agreement(nets: seq<Network>, acts: seq<Action>, i: nat, pl: Place, s: Session)
    returns (pr: Place, r: Session)
    requires IsHistory(nets, acts) && i < |nets| && InitiatedAt(nets[i], pl, s)
    ensures OtherEnd(nets[i], pl, s, pr, r) && AsAskedFor(nets[i], pl, s)
    ensures RespondedAt(nets[i], pr, r) && s.index == r.remoteIndex && s.remoteIndex == r.index
    ensures s.ciphers.send == r.ciphers.recv && s.ciphers.recv == r.ciphers.send
    ensures s.cert == nets[i].nodes[pr.node].cert && r.cert == nets[i].nodes[pl.node].cert
    ensures KeyOf(s).first.e in nets[i].starts
    ensures var o := nets[i].starts[KeyOf(s).first.e];
            && o.node == pl.node && o.ip == s.vpnIP
            && o.remote.fingerprint == s.cert.fingerprint && o.remote.publicKey == s.cert.publicKey
  {
    AlwaysOk(nets, acts, i);
    pr, r := AgreementIn(nets[i], pl, s);
  }

  /** The responder's side of agreement, whether or not the initiator ever finishes: a responder
      session came of a recorded start, at the node whose certificate it holds and with that start's
      index, and the start was meant for this responder. */
  lemma ResponderAgreement(nets: seq<Network>, acts: seq<Action>, i: nat, pr: Place, r: Session)
    requires IsHistory(nets, acts) && i < |nets| && RespondedAt(nets[i], pr, r)
    ensures KeyOf(r).first.e in nets[i].starts
    ensures var o, own := nets[i].starts[KeyOf(r).first.e], nets[i].nodes[pr.node].cert;
            && o.node < |nets[i].nodes| && r.cert == nets[i].nodes[o.node].cert && r.vpnIP == r.cert.vpnIP
            && r.remoteIndex == o.index
            && o.remote.fingerprint == own.fingerprint && o.remote.publicKey == own.publicKey
  {
    var net, t := nets[i], KeyOf(r);
    AlwaysOk(nets, acts, i);
    assert NodeOk(net, pr.node);
    assert RespondedOk(net, pr.node, r, pr.slot);
    IntendedPeer(r.cert, net.nodes[pr.node].cert, net.starts[t.first.e].remote);
  }

  /** The responder session answers the same start as the initiator session, but is not its end. */
  predicate Orphaned(s: Session, r: Session) {
    KeyOf(r).first.e == KeyOf(s).first.e && KeyOf(r) != KeyOf(s)
  }

  lemma OrphanHasNoEnd(net: Network, pl: Place, s: Session, pr: Place, r: Session, pl': Place, s': Session)
    requires NetOk(net) && InitiatedAt(net, pl, s) && RespondedAt(net, pr, r) && Orphaned(s, r)
    requires InitiatedAt(net, pl', s')
    ensures s'.ciphers.recv != r.ciphers.send && s'.ciphers.send != r.ciphers.recv
  {
    hide SessionCiphers, Known, RespondedFor;
    assert NodeOk(net, pl.node) && NodeOk(net, pl'.node) && NodeOk(net, pr.node);
    assert InitiatedOk(net, pl.node, s) && InitiatedOk(net, pl'.node, s') && RespondedOk(net, pr.node, r, pr.slot);
    CiphersCross(KeyOf(s'), KeyOf(r), true, false);
  }

  /** Every copy of a stage-0 packet makes a responder session. Once the initiator has finished
      with one of them, no initiator session ever holds the keys of another, in any later state. */
  lemma OrphansStayOrphans(nets: seq<Network>, acts: seq<Action>, i: nat, j: nat, pl: Place, s: Session,
                           pr: Place, r: Session, pl': Place, s': Session)
    requires IsHistory(nets, acts) && i <= j < |nets| && InitiatedAt(nets[i], pl, s)
    requires RespondedAt(nets[j], pr, r) && Orphaned(s, r) && InitiatedAt(nets[j], pl', s')
    ensures s'.ciphers.recv != r.ciphers.send && s'.ciphers.send != r.ciphers.recv
  {
    hide NetOk, IsHistory, Orphaned, KeyOf, RespondedAt;
    AlwaysOk(nets, acts, j);
    StaysInitiated(nets, acts, i, j, pl, s);
    OrphanHasNoEnd(nets[j], pl, s, pr, r, pl', s');
  }

  lemma {:induction false} StaysInitiated(nets: seq<Network>, acts: seq<Action>, i: nat, j: nat, pl: Place, s: Session)
    requires IsHistory(nets, acts) && i <= j < |nets| && InitiatedAt(nets[i], pl, s)
    ensures InitiatedAt(nets[j], pl, s)
    decreases j
  {
    hide Next, Enabled, Init;
    if i < j {
      StaysInitiated(nets, acts, i, j - 1, pl, s);
      NextGrows(nets[j - 1], acts[j - 1], nets[j]);
      assert nets[j - 1].nodes[pl.node].initiated <= nets[j].nodes[pl.node].initiated;
    }
  }

  /** Equal pre-shared keys over a common certificate mean equal peers. */
  lemma IntendedPeer(a: Cert, b: Cert, remote: Cert)
    requires XorBytes(b.fingerprint, a.fingerprint) == XorBytes(a.fingerprint, remote.fingerprint)
    ensures remote.fingerprint == b.fingerprint
  {
    PskIsSymmetric(b.fingerprint, a.fingerprint);
    PskDeterminesPeer(a.fingerprint, b.fingerprint, remote.fingerprint);
  }

  datatype Role = AsInitiator | AsResponder

  predicate InstalledAt(net: Network, role: Role, pl: Place, s: Session) {
    if role.AsInitiator? then InitiatedAt(net, pl, s) else RespondedAt(net, pl, s)
  }

  lemma SendKeysAreUniqueIn(net: Network, role: Role, pl: Place, s: Session, role': Role, pl': Place, s': Session)
    requires NetOk(net) && InstalledAt(net, role, pl, s) && InstalledAt(net, role', pl', s')
    requires s.ciphers.send == s'.ciphers.send
    ensures role == role' && pl == pl'
  {
    hide NetOk, SessionCiphers, InitiatedAt, RespondedAt;
    CiphersOfRole(net, role, pl, s);
    CiphersOfRole(net, role', pl', s');
    CiphersCross(KeyOf(s), KeyOf(s'), role.AsInitiator?, role'.AsInitiator?);
    if role.AsInitiator? && role'.AsInitiator? {
      InitiatorKeyIsUnique(net, pl, s, pl', s');
    } else if role.AsResponder? && role'.AsResponder? {
      ResponderKeyIsUnique(net, pl, s, pl', s');
    }
  }

  /** No two sessions anywhere in the network ever seal with the same key. */
  lemma SendKeysAreUnique(nets: seq<Network>, acts: seq<Action>, i: nat,
                          role: Role, pl: Place, s: Session, role': Role, pl': Place, s': Session)
    requires IsHistory(nets, acts) && i < |nets|
    requires InstalledAt(nets[i], role, pl, s) && InstalledAt(nets[i], role', pl', s')
    requires s.ciphers.send == s'.ciphers.send
    ensures role == role' && pl == pl'
  {
    AlwaysOk(nets, acts, i);
    SendKeysAreUniqueIn(nets[i], role, pl, s, role', pl', s');
  }

  lemma CiphersOfRole(net: Network, role: Role, pl: Place, s: Session)
    requires NetOk(net) && InstalledAt(net, role, pl, s)
    ensures s.ciphers == SessionCiphers(KeyOf(s), role.AsInitiator?)
  {
    assert NodeOk(net, pl.node);
    if role.AsInitiator? {
      assert InitiatedOk(net, pl.node, s);
    } else {
      assert RespondedOk(net, pl.node, s, pl.slot);
    }
  }

  /** A stage-1 packet that reaches the handshake it answers, from a trusted responder, always
      completes it. */
  lemma AnswerCompletes(nets: seq<Network>, acts: seq<Action>, i: nat, a: nat, p: Packet, trusted: set<Cert>)
    requires IsHistory(nets, acts) && i < |nets| && p in nets[i].wire && a < |nets[i].nodes|
    requires p.body.Body? && p.body.noise.Second? && p.body.details.cert in trusted
    requires var m := nets[i].nodes[a].mgr;
             Reaches(m, p.remoteIndex) && Reached(m, p.remoteIndex).state.e == p.body.noise.transcript.first.e
    ensures Completion(Reached(nets[i].nodes[a].mgr, p.remoteIndex), p.body, trusted).Some?
  {
    var net, t := nets[i], p.body.noise.transcript;
    AlwaysOk(nets, acts, i);
    assert NodeOk(net, a);
    assert PendingOk(net, a, Reached(net.nodes[a].mgr, p.remoteIndex));
    assert Stage1Ok(net, p);
    var s, b: nat :| RespondedFor(net, t, s, b)
      && p == Packet(s.remoteIndex, Envelope(Details(net.nodes[b].cert, s.remoteIndex, s.index), p.body.noise));
    assert NodeOk(net, b);
    assert RespondedOk(net, b, s, net.replies[t.er].slot);
  }
}
