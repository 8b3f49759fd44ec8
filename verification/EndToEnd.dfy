/** Handshakes and tunnels together: a world in which nodes shake hands, seal data packets on the
    sessions they installed, and receive whatever the network makes of them. */
module EndToEnd {
  import opened Words
  import opened Crypto
  import opened HandshakeSpec
  import opened HandshakeNetwork
  import opened Transport
  import opened ReplaySpec

  /** One end of a tunnel: a session some node installed. */
  datatype End = End(role: Role, place: Place)

  /** The network; every plaintext each session sent, and every box it sealed; every data packet
      that got as far as a session. */
  datatype World = World(net: Network, sent: map<End, seq<Payload>>, sealed: set<Ciphertext>,
                         arrived: map<End, seq<DataPacket>>)

  predicate IsEnd(net: Network, e: End) {
    && e.place.node < |net.nodes|
    && var node := net.nodes[e.place.node];
       e.place.slot < if e.role.AsInitiator? then |node.initiated| else |node.responded|
  }

  function SessionOf(net: Network, e: End): Session
    requires IsEnd(net, e)
  {
    var node := net.nodes[e.place.node];
    if e.role.AsInitiator? then node.initiated[e.place.slot] else node.responded[e.place.slot]
  }

  function SentOn(w: World, e: End): seq<Payload> {
    if e in w.sent then w.sent[e] else []
  }

  function ArrivedAt(w: World, e: End): seq<DataPacket> {
    if e in w.arrived then w.arrived[e] else []
  }

  /** The direction of a tunnel in which session `s` sends. */
  function SendingSide(s: Session): Channel {
    Channel(s.ciphers.send, s.remoteIndex)
  }

  /** The direction in which it receives. */
  function ReceivingSide(s: Session): Channel {
    Channel(s.ciphers.recv, s.index)
  }

  /** Two ends of one tunnel see the same channel from either side. */
  lemma MirroredEndsShareChannels(i: Session, r: Session)
    ensures Mirrored(i, r) <==> SendingSide(i) == ReceivingSide(r) && SendingSide(r) == ReceivingSide(i)
  {
  }

  // ---------- Steps ----------

  datatype Move = Shake(act: Action) | Send(from: End, plaintext: Payload) | Arrive(at: End, packet: DataPacket)

  /** What the network can put in a packet: a box that was sealed, bytes that are no box, or a box
      under a key that no installed session holds. */
  ghost predicate CanCarry(w: World, box: Ciphertext) {
    || box in w.sealed
    || box.Noise?
    || forall e | IsEnd(w.net, e) ::
         var s := SessionOf(w.net, e); s.ciphers.send != box.key && s.ciphers.recv != box.key
  }

  /** Packets may be lost, repeated, delayed, misdirected, and given any header. */
  ghost predicate CanMove(w: World, move: Move) {
    match move
    case Shake(act) => Enabled(w.net, act)
    case Send(from, _) => IsEnd(w.net, from)
    case Arrive(at, pkt) =>
      IsEnd(w.net, at) && GetsThere(ReceivingSide(SessionOf(w.net, at)), pkt) && CanCarry(w, pkt.box)
  }

  /** The packet for the next plaintext on a session. */
  function NextSend(w: World, from: End, p: Payload): DataPacket
    requires IsEnd(w.net, from)
  {
    Sending(SendingSide(SessionOf(w.net, from)), SentOn(w, from) + [p], |SentOn(w, from)|)
  }

  ghost predicate Moves(w: World, move: Move, w': World)
    requires CanMove(w, move)
  {
    match move
    case Shake(act) => w' == w.(net := w'.net) && Next(w.net, act, w'.net)
    case Send(from, p) =>
      w' == w.(sent := w.sent[from := SentOn(w, from) + [p]], sealed := w.sealed + {NextSend(w, from, p).box})
    case Arrive(at, pkt) => w' == w.(arrived := w.arrived[at := ArrivedAt(w, at) + [pkt]])
  }

  // ---------- What every step keeps ----------

  /** The box is send number `i` of the session at `e`. */
  predicate IsSend(w: World, box: Ciphertext, e: End, i: nat) {
    IsEnd(w.net, e) && i < |SentOn(w, e)| && box == Sending(SendingSide(SessionOf(w.net, e)), SentOn(w, e), i).box
  }

  /** Every sealed box is a send of some session. */
  ghost predicate SealedOk(w: World) {
    forall box :: box in w.sealed ==> exists e, i: nat :: IsSend(w, box, e, i)
  }

  /** What arrived under the session's key had been sealed. */
  ghost predicate EndOk(w: World, e: End, pkts: seq<DataPacket>) {
    && IsEnd(w.net, e)
    && var r := SessionOf(w.net, e);
       && AllGetThere(ReceivingSide(r), pkts)
       && forall j :: 0 <= j < |pkts| && pkts[j].box.Sealed? && pkts[j].box.key == r.ciphers.recv ==>
            pkts[j].box in w.sealed
  }

  ghost predicate ArrivedOk(w: World) {
    forall e :: e in w.arrived ==> EndOk(w, e, w.arrived[e])
  }

  ghost predicate WorldOk(w: World) {
    NetOk(w.net) && SealedOk(w) && ArrivedOk(w)
  }

  lemma EndStays(net: Network, net': Network, e: End)
    requires Grows(net, net') && IsEnd(net, e)
    ensures IsEnd(net', e) && SessionOf(net', e) == SessionOf(net, e)
  {
    var n := e.place.node;
    assert net.nodes[n].responded <= net'.nodes[n].responded && net.nodes[n].initiated <= net'.nodes[n].initiated;
  }

  lemma ShakeKeeps(w: World, act: Action, w': World)
    requires WorldOk(w) && Enabled(w.net, act) && Next(w.net, act, w'.net) && w' == w.(net := w'.net)
    ensures WorldOk(w')
  {
    hide NetOk, Next, Enabled, Grows, IsEnd, SessionOf, AllGetThere, Sending;
    StepKeepsNetwork(w.net, act, w'.net);
    NextGrows(w.net, act, w'.net);
    forall box | box in w'.sealed
      ensures exists e, i: nat :: IsSend(w', box, e, i)
    {
      var e, i: nat :| IsSend(w, box, e, i);
      EndStays(w.net, w'.net, e);
      assert IsSend(w', box, e, i);
    }
    forall e | e in w'.arrived
      ensures EndOk(w', e, w'.arrived[e])
    {
      assert EndOk(w, e, w.arrived[e]);
      EndStays(w.net, w'.net, e);
    }
  }

  lemma SendKeeps(w: World, from: End, p: Payload, w': World)
    requires WorldOk(w) && IsEnd(w.net, from) && Moves(w, Send(from, p), w')
    ensures WorldOk(w')
  {
    hide NetOk, IsEnd, SessionOf, AllGetThere, Seal;
    forall box | box in w'.sealed
      ensures exists e, i: nat :: IsSend(w', box, e, i)
    {
      if box in w.sealed {
        var e, i: nat :| IsSend(w, box, e, i);
        assert IsSend(w', box, e, i);
      } else {
        assert IsSend(w', box, from, |SentOn(w, from)|);
      }
    }
    forall e | e in w'.arrived
      ensures EndOk(w', e, w'.arrived[e])
    {
      assert EndOk(w, e, w.arrived[e]);
    }
  }

  lemma ArriveKeeps(w: World, at: End, pkt: DataPacket, w': World)
    requires WorldOk(w) && CanMove(w, Arrive(at, pkt)) && Moves(w, Arrive(at, pkt), w')
    ensures WorldOk(w')
  {
    hide NetOk, IsEnd, SessionOf, GetsThere, Sending;
    forall box | box in w'.sealed
      ensures exists e, i: nat :: IsSend(w', box, e, i)
    {
      var e, i: nat :| IsSend(w, box, e, i);
      assert IsSend(w', box, e, i);
    }
    forall e | e in w'.arrived
      ensures EndOk(w', e, w'.arrived[e])
    {
      assert e in w.arrived ==> EndOk(w, e, w.arrived[e]);
    }
  }

  /** Every step keeps the world in order. */
  lemma MoveKeeps(w: World, move: Move, w': World)
    requires WorldOk(w) && CanMove(w, move) && Moves(w, move, w')
    ensures WorldOk(w')
  {
    hide WorldOk, Next, Enabled;
    match move
    case Shake(act) => ShakeKeeps(w, act, w');
    case Send(from, p) => SendKeeps(w, from, p, w');
    case Arrive(at, pkt) => ArriveKeeps(w, at, pkt, w');
  }

  // ---------- Whole lives ----------

  ghost predicate IsLife(ws: seq<World>, moves: seq<Move>) {
    && |ws| == |moves| + 1 && Init(ws[0].net) && ws[0].sent == map[] && ws[0].sealed == {} && ws[0].arrived == map[]
    && forall i :: 0 <= i < |moves| ==> CanMove(ws[i], moves[i]) && Moves(ws[i], moves[i], ws[i + 1])
  }

  lemma WorldAlwaysOk(ws: seq<World>, moves: seq<Move>, n: nat)
    requires IsLife(ws, moves) && n < |ws|
    ensures WorldOk(ws[n])
  {
    hide NetOk, Init, CanMove, Moves;
    InitOk(ws[0].net);
    for k := 0 to n
      invariant WorldOk(ws[k])
    {
      assert CanMove(ws[k], moves[k]) && Moves(ws[k], moves[k], ws[k + 1]);
      MoveKeeps(ws[k], moves[k], ws[k + 1]);
    }
  }

  lemma EndIsInstalled(net: Network, e: End)
    requires IsEnd(net, e)
    ensures InstalledAt(net, e.role, e.place, SessionOf(net, e))
  {
  }

  /** Anywhere and at any time, over all sessions ever installed and fewer than 2^64 sends on each,
      no two sends are sealed under the same key and nonce. */
  lemma NoNonceReuseAnywhere(ws: seq<World>, moves: seq<Move>, n: nat,
                             a: Ciphertext, e: End, i: nat, b: Ciphertext, f: End, j: nat)
    requires IsLife(ws, moves) && n < |ws| && IsSend(ws[n], a, e, i) && IsSend(ws[n], b, f, j)
    requires |SentOn(ws[n], e)| < U64_SIZE && |SentOn(ws[n], f)| < U64_SIZE
    requires a.key == b.key && a.nonce == b.nonce
    ensures e == f && i == j
  {
    hide IsLife, SessionOf, IsEnd, SentOn, NetOk, InstalledAt, CounterNonce, CounterOf;
    var net := ws[n].net;
    WorldAlwaysOk(ws, moves, n);
    EndIsInstalled(net, e);
    EndIsInstalled(net, f);
    SendKeysAreUniqueIn(net, e.role, e.place, SessionOf(net, e), f.role, f.place, SessionOf(net, f));
    NonceDeterminesCounter(CounterOf(i), CounterOf(j));
    NoWrap(i);
    NoWrap(j);
  }

  /** On a direction between two installed ends, nothing but what the sender sealed ever arrives
      under the channel's key. */
  lemma NobodyForges(ws: seq<World>, moves: seq<Move>, n: nat, from: End, to: End)
    requires IsLife(ws, moves) && n < |ws| && IsEnd(ws[n].net, from) && IsEnd(ws[n].net, to)
    requires SendingSide(SessionOf(ws[n].net, from)) == ReceivingSide(SessionOf(ws[n].net, to))
    ensures var ch := ReceivingSide(SessionOf(ws[n].net, to));
            AllGetThere(ch, ArrivedAt(ws[n], to)) && NoForgery(ch, SentOn(ws[n], from), ArrivedAt(ws[n], to))
  {
    hide IsLife, SessionOf, IsEnd, SentOn, NetOk, InstalledAt, GetsThere, CounterNonce;
    var w, net := ws[n], ws[n].net;
    var ps, pkts, ch := SentOn(w, from), ArrivedAt(w, to), ReceivingSide(SessionOf(net, to));
    WorldAlwaysOk(ws, moves, n);
    assert to in w.arrived ==> EndOk(w, to, w.arrived[to]);
    forall j | 0 <= j < |pkts| && pkts[j].box.Sealed? && pkts[j].box.key == ch.key
      ensures exists i: nat :: i < |ps| && pkts[j].box == Sending(ch, ps, i).box
    {
      var e, i: nat :| IsSend(w, pkts[j].box, e, i);
      EndIsInstalled(net, e);
      EndIsInstalled(net, from);
      SendKeysAreUniqueIn(net, e.role, e.place, SessionOf(net, e), from.role, from.place, SessionOf(net, from));
      assert i < |ps| && pkts[j].box == Sending(ch, ps, i).box;
    }
  }

  /** From handshake to delivery: an initiator's session has one other end in the whole network,
      and in either direction between the two, whatever the network does to the packets, what is
      delivered was sent by the other end, unchanged and at most once per send. */
  lemma TunnelIsSafe(ws: seq<World>, moves: seq<Move>, n: nat, pl: Place, s: Session, fromInitiator: bool)
    returns (pr: Place, r: Session, origin: map<nat, nat>)
    requires IsLife(ws, moves) && n < |ws| && InitiatedAt(ws[n].net, pl, s)
    ensures OtherEnd(ws[n].net, pl, s, pr, r) && AsAskedFor(ws[n].net, pl, s)
    ensures var i, o := End(AsInitiator, pl), End(AsResponder, pr);
            var from, to, ch := if fromInitiator then i else o, if fromInitiator then o else i,
                                ReceivingSide(if fromInitiator then r else s);
            var ps, pkts := SentOn(ws[n], from), ArrivedAt(ws[n], to);
            && AllGetThere(ch, pkts)
            && (forall j: nat :: j in origin <==> LetThrough(ch, pkts, j))
            && (forall j: nat :: j in origin ==> Comes(ch, ps, pkts, j, origin[j]))
            && (forall j, k :: j in origin && k in origin && origin[j] == origin[k] ==> j == k)
  {
    hide IsLife, NetOk, LetThrough, Comes, AllGetThere, NoForgery, SentOn, ArrivedAt, AsAskedFor, SealedOk, ArrivedOk;
    var w := ws[n];
    WorldAlwaysOk(ws, moves, n);
    pr, r := AgreementIn(w.net, pl, s);
    MirroredEndsShareChannels(s, r);
    var i, o := End(AsInitiator, pl), End(AsResponder, pr);
    if fromInitiator {
      NobodyForges(ws, moves, n, i, o);
      origin := DeliveryIsSafe(ReceivingSide(r), SentOn(w, i), ArrivedAt(w, o));
    } else {
      NobodyForges(ws, moves, n, o, i);
      origin := DeliveryIsSafe(ReceivingSide(s), SentOn(w, o), ArrivedAt(w, i));
    }
  }

  /** Delivery happens: what a session has just sealed may arrive at the other end at once, and is
      delivered there exactly when its counter, or one 4096 or more above, has not been taken. */
  lemma SentCanBeDelivered(ws: seq<World>, moves: seq<Move>, n: nat, from: End, to: End, p: Payload,
                           w': World, w'': World)
    requires IsLife(ws, moves) && n < |ws| && IsEnd(ws[n].net, from) && IsEnd(ws[n].net, to)
    requires SendingSide(SessionOf(ws[n].net, from)) == ReceivingSide(SessionOf(ws[n].net, to))
    requires Moves(ws[n], Send(from, p), w')
    ensures CanMove(w', Arrive(to, NextSend(ws[n], from, p)))
    ensures Moves(w', Arrive(to, NextSend(ws[n], from, p)), w'') ==>
              var ch, past, now := ReceivingSide(SessionOf(ws[n].net, to)), ArrivedAt(ws[n], to), ArrivedAt(w'', to);
              && AllGetThere(ch, past) && AllGetThere(ch, now)
              && (Delivered(ch, now, |past|, p) <==>
                  !PassedAtOrBeyond(Counters(ch, past), CounterOf(|SentOn(ws[n], from)|)))
  {
    hide IsLife, NetOk, SessionOf, IsEnd, Sending, Passes, PassedAtOrBeyond, CounterOf, Delivered, GetsThere;
    var ch, past, ps := ReceivingSide(SessionOf(ws[n].net, to)), ArrivedAt(ws[n], to), SentOn(ws[n], from) + [p];
    var pkt := NextSend(ws[n], from, p);
    WorldAlwaysOk(ws, moves, n);
    assert to in ws[n].arrived ==> EndOk(ws[n], to, ws[n].arrived[to]);
    SendGetsThere(ch, ps, |ps| - 1);
    if Moves(w', Arrive(to, pkt), w'') {
      var now := past + [pkt];
      assert Counters(ch, now)[..|past|] == Counters(ch, past);
      GenuineDeliveredExactly(ch, ps, now, |past|, |ps| - 1);
    }
  }

  /** What an orphaned responder session sends is never opened, at whatever end it arrives. */
  lemma OrphanIsNeverHeard(ws: seq<World>, moves: seq<Move>, n: nat, pl: Place, s: Session, pr: Place, r: Session,
                           i: nat, to: End, pkt: DataPacket)
    requires IsLife(ws, moves) && n < |ws|
    requires InitiatedAt(ws[n].net, pl, s) && RespondedAt(ws[n].net, pr, r) && Orphaned(s, r)
    requires IsSend(ws[n], pkt.box, End(AsResponder, pr), i)
    requires IsEnd(ws[n].net, to) && GetsThere(ReceivingSide(SessionOf(ws[n].net, to)), pkt)
    ensures Open(ReceivingSide(SessionOf(ws[n].net, to)), pkt).None?
  {
    hide IsLife, NetOk, Orphaned, GetsThere, CounterNonce, SealedOk, ArrivedOk, SentOn;
    var net, heard := ws[n].net, SessionOf(ws[n].net, to);
    WorldAlwaysOk(ws, moves, n);
    if to.role.AsInitiator? {
      OrphanHasNoEnd(net, pl, s, pr, r, to.place, heard);
    } else {
      CiphersOfRole(net, AsResponder, pr, r);
      CiphersOfRole(net, AsResponder, to.place, heard);
    }
  }
}
