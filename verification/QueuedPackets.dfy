/** What becomes of a packet that was queued for a pending handshake, over whole runs. */
module QueuedPackets {
  import opened Net
  import opened Crypto
  import opened HandshakeSpec
  import opened HandshakeRuns

  /** The handshake `serial` is pending with `ip`. */
  predicate Has(m: Manager, ip: Addr, serial: nat) {
    ip in m.pending && m.pending[ip].serial == serial
  }

  /** Event `q` queues a packet for a pending handshake. */
  predicate Queues(ms: seq<Manager>, evs: seq<Event>, q: nat) {
    |ms| == |evs| + 1 && q < |evs| && evs[q].Queue? && evs[q].ip in ms[q].pending
  }

  /** The handshake that the packet of event `q` waits for. */
  function WaitsFor(ms: seq<Manager>, evs: seq<Event>, q: nat): nat
    requires Queues(ms, evs, q)
  {
    ms[q].pending[evs[q].ip].serial
  }

  /** What was queued for the same peer after event `q` and before event `n`. */
  function Later(evs: seq<Event>, q: nat, n: nat): seq<Payload>
    requires q < n <= |evs| && evs[q].Queue?
  {
    QueuedFor(evs[q + 1..n], evs[q].ip)
  }

  /** The packet is still among the fifty newest before event `n`. */
  predicate InTime(evs: seq<Event>, q: nat, n: nat)
    requires q < n <= |evs| && evs[q].Queue?
  {
    |Later(evs, q, n)| < MAX_PENDING_PACKETS
  }

  /** The answer at hand installs a session. */
  predicate Completes(m: Manager, ev: Event) {
    && ev.Answer? && Reaches(m, ev.packet.remoteIndex)
    && Completion(Reached(m, ev.packet.remoteIndex), ev.packet.body, ev.trusted).Some?
  }

  /** Where the packet ends up, and at which event. */
  datatype PacketFate = Kept | Sent(at: nat) | Refused(at: nat) | TimedOut(at: nat) | PushedOut(at: nat)

  /** The packet of event `q` has met this fate before event `n`: it is still waiting; or a
      completing answer took its handshake, an answer that does not hold up did, or the retries ran
      out, all while it was among the fifty newest; or the fiftieth packet after it was queued. */
  ghost predicate Meets(ms: seq<Manager>, evs: seq<Event>, q: nat, n: nat, fate: PacketFate)
    requires Queues(ms, evs, q) && q < n <= |evs|
  {
    var ip, k := evs[q].ip, WaitsFor(ms, evs, q);
    if fate.Kept? then Has(ms[n], ip, k) && InTime(evs, q, n)
    else
      && q < fate.at < n
      && var m, ev := ms[fate.at], evs[fate.at];
         match fate
         case Sent(a) => Takes(m, ev, k) && Completes(m, ev) && InTime(evs, q, a)
         case Refused(a) => Takes(m, ev, k) && !Completes(m, ev) && InTime(evs, q, a)
         case TimedOut(a) => ev.Tick? && Has(m, ip, k) && Expires(m.pending[ip], ev.now) && InTime(evs, q, a)
         case PushedOut(a) =>
           Has(m, ip, k) && ev.Queue? && ev.ip == ip && |Later(evs, q, a)| + 1 == MAX_PENDING_PACKETS
  }

  // ---------- One step ----------

  lemma LaterNext(evs: seq<Event>, q: nat, n: nat)
    requires q < n < |evs| && evs[q].Queue?
    ensures Later(evs, q, n + 1)
         == Later(evs, q, n) + if evs[n].Queue? && evs[n].ip == evs[q].ip then [evs[n].payload] else []
  {
    assert evs[q + 1..n + 1][..n - q - 1] == evs[q + 1..n];
  }

  /** A pending handshake stays, unless it is answered or expires. */
  lemma HasNext(local: Cert, m: Manager, ev: Event, m': Manager, ip: Addr, serial: nat)
    requires Inv(m) && Step(local, m, ev, m') && Has(m, ip, serial)
    ensures Has(m', ip, serial) <==> !Takes(m, ev, serial) && !(ev.Tick? && Expires(m.pending[ip], ev.now))
  {
    hide Delay;
  }

  /** A handshake that has begun does not come back. */
  lemma HadBefore(local: Cert, m: Manager, ev: Event, m': Manager, ip: Addr, serial: nat)
    requires Step(local, m, ev, m') && Has(m', ip, serial) && serial < m.started
    ensures Has(m, ip, serial) && m.started <= m'.started
  {
    hide Delay;
  }

  /** The queue, seen from a packet `p` with `after` queued behind it. */
  ghost predicate Behind(queue: seq<Payload>, p: Payload, after: seq<Payload>) {
    if |after| < MAX_PENDING_PACKETS
    then |after| < |queue| <= MAX_PENDING_PACKETS && queue[|queue| - 1 - |after|..] == [p] + after
    else queue == LastOf(MAX_PENDING_PACKETS, after)
  }

  lemma BehindNext(queue: seq<Payload>, p: Payload, after: seq<Payload>, next: Payload)
    requires Behind(queue, p, after) && |queue| <= MAX_PENDING_PACKETS
    ensures Behind(Enqueue(queue, next), p, after + [next])
  {
    var queue', n, l := Enqueue(queue, next), |queue|, |after|;
    if l + 1 < MAX_PENDING_PACKETS {
      assert queue'[|queue'| - 2 - l..] == queue[n - 1 - l..] + [next];
    } else if l + 1 == MAX_PENDING_PACKETS {
      assert queue[n - 1 - l..] == [p] + after;
      assert queue == [p] + after;
    }
  }

  lemma QueueNext(local: Cert, m: Manager, ev: Event, m': Manager, ip: Addr, serial: nat)
    requires Step(local, m, ev, m') && Has(m, ip, serial) && Has(m', ip, serial)
    requires serial < m.started
    ensures m'.pending[ip].queue
         == if ev.Queue? && ev.ip == ip then Enqueue(m.pending[ip].queue, ev.payload) else m.pending[ip].queue
  {
    hide Delay;
  }

  /** As long as its handshake is pending, a packet stands in the queue before exactly what was
      queued after it, and it is gone from the queue exactly when that is fifty or more. */
  lemma {:induction false} PlaceInQueue(local: Cert, ms: seq<Manager>, evs: seq<Event>, q: nat, n: nat)
    requires IsRun(local, ms, evs) && Queues(ms, evs, q) && q < n <= |evs|
    requires Has(ms[n], evs[q].ip, WaitsFor(ms, evs, q))
    ensures Behind(ms[n].pending[evs[q].ip].queue, evs[q].payload, Later(evs, q, n))
    ensures |ms[n].pending[evs[q].ip].queue| <= MAX_PENDING_PACKETS
    ensures WaitsFor(ms, evs, q) < ms[n - 1].started
    decreases n
  {
    hide IsRun, Step, Behind, Later, Inv;
    var ip, k := evs[q].ip, WaitsFor(ms, evs, q);
    StepOf(local, ms, evs, n - 1);
    if n == q + 1 {
      FirstPlace(local, ms, evs, q);
    } else {
      BegunBefore(local, ms, evs, q, n - 1);
      HadBefore(local, ms[n - 1], evs[n - 1], ms[n], ip, k);
      PlaceInQueue(local, ms, evs, q, n - 1);
      QueueNext(local, ms[n - 1], evs[n - 1], ms[n], ip, k);
      LaterNext(evs, q, n - 1);
      if evs[n - 1].Queue? && evs[n - 1].ip == ip {
        BehindNext(ms[n - 1].pending[ip].queue, evs[q].payload, Later(evs, q, n - 1), evs[n - 1].payload);
      } else {
        assert Later(evs, q, n - 1) + [] == Later(evs, q, n - 1);
      }
    }
  }

  lemma StepOf(local: Cert, ms: seq<Manager>, evs: seq<Event>, n: nat)
    requires IsRun(local, ms, evs) && n < |evs|
    ensures Step(local, ms[n], evs[n], ms[n + 1])
  {
  }

  lemma FirstPlace(local: Cert, ms: seq<Manager>, evs: seq<Event>, q: nat)
    requires IsRun(local, ms, evs) && Queues(ms, evs, q)
    ensures var ip := evs[q].ip;
            && Has(ms[q + 1], ip, WaitsFor(ms, evs, q)) && Later(evs, q, q + 1) == []
            && Behind(ms[q + 1].pending[ip].queue, evs[q].payload, [])
            && |ms[q + 1].pending[ip].queue| <= MAX_PENDING_PACKETS
            && WaitsFor(ms, evs, q) < ms[q].started
  {
    hide IsRun;
    var ip := evs[q].ip;
    StepOf(local, ms, evs, q);
    AlwaysConsistent(local, ms, evs);
    RunLength(local, ms, evs);
    assert Inv(ms[q]) && Live(ms[q], ms[q].pending[ip].serial);
    assert evs[q + 1..q + 1] == [];
    QueuesAreShort(local, ms, evs, q);
  }

  lemma {:induction false} QueuesAreShort(local: Cert, ms: seq<Manager>, evs: seq<Event>, n: nat)
    requires IsRun(local, ms, evs) && n < |ms|
    ensures forall ip :: ip in ms[n].pending ==> |ms[n].pending[ip].queue| <= MAX_PENDING_PACKETS
  {
    hide Delay;
    if n > 0 {
      QueuesAreShort(local, ms, evs, n - 1);
      StepOf(local, ms, evs, n - 1);
    }
  }

  lemma {:induction false} BegunBefore(local: Cert, ms: seq<Manager>, evs: seq<Event>, q: nat, n: nat)
    requires IsRun(local, ms, evs) && Queues(ms, evs, q) && q <= n <= |evs|
    ensures WaitsFor(ms, evs, q) < ms[n].started
    decreases n
  {
    if n == q {
      FirstPlace(local, ms, evs, q);
    } else {
      BegunBefore(local, ms, evs, q, n - 1);
      StepOf(local, ms, evs, n - 1);
    }
  }

  // ---------- Every packet meets exactly one fate ----------

  lemma KeptNext(local: Cert, ms: seq<Manager>, evs: seq<Event>, q: nat, n: nat) returns (fate: PacketFate)
    requires IsRun(local, ms, evs) && Queues(ms, evs, q) && q < n < |evs| && Meets(ms, evs, q, n, Kept)
    ensures Meets(ms, evs, q, n + 1, fate)
  {
    hide IsRun, Step, Inv, Later, Expires, Completes;
    var ip, k, m, ev := evs[q].ip, WaitsFor(ms, evs, q), ms[n], evs[n];
    StepOf(local, ms, evs, n);
    AlwaysConsistent(local, ms, evs);
    RunLength(local, ms, evs);
    HasNext(local, m, ev, ms[n + 1], ip, k);
    LaterNext(evs, q, n);
    fate := if Takes(m, ev, k) then (if Completes(m, ev) then Sent(n) else Refused(n))
            else if ev.Tick? && Expires(m.pending[ip], ev.now) then TimedOut(n)
            else if ev.Queue? && ev.ip == ip && |Later(evs, q, n)| + 1 == MAX_PENDING_PACKETS then PushedOut(n)
            else Kept;
  }

  /** A packet that meets a fate at some event is not kept at any later one, nor meets another. */
  lemma NoneAfter(local: Cert, ms: seq<Manager>, evs: seq<Event>, q: nat, n: nat, fate: PacketFate, b: nat)
    requires IsRun(local, ms, evs) && Queues(ms, evs, q) && q < n <= |evs| && Meets(ms, evs, q, n, fate) && !fate.Kept?
    requires fate.at < b <= n
    ensures fate.PushedOut? ==> !InTime(evs, q, b)
    ensures !fate.PushedOut? ==> !Live(ms[b], WaitsFor(ms, evs, q))
  {
    hide IsRun, Step, Later, Completes;
    var a, k := fate.at, WaitsFor(ms, evs, q);
    AlwaysConsistent(local, ms, evs);
    RunLength(local, ms, evs);
    StepOf(local, ms, evs, a);
    LaterNext(evs, q, a);
    if fate.PushedOut? {
      LaterGrows(evs, q, a + 1, b);
    } else {
      EndedThere(local, ms[a], evs[a], ms[a + 1], evs[q].ip, k);
      GoneForGood(local, ms, evs, a + 1, b);
      assert Inv(ms[b]);
    }
  }

  lemma EndedThere(local: Cert, m: Manager, ev: Event, m': Manager, ip: Addr, serial: nat)
    requires Step(local, m, ev, m')
    requires Takes(m, ev, serial) || (ev.Tick? && Has(m, ip, serial) && Expires(m.pending[ip], ev.now))
    ensures serial in m'.answered || serial in m'.expired
  {
    hide Delay;
  }

  lemma {:induction false} LaterGrows(evs: seq<Event>, q: nat, a: nat, b: nat)
    requires q < a <= b <= |evs| && evs[q].Queue?
    ensures |Later(evs, q, a)| <= |Later(evs, q, b)|
    decreases b
  {
    hide Later;
    if a < b {
      LaterGrows(evs, q, a, b - 1);
      LaterNext(evs, q, b - 1);
    }
  }

  lemma StillThere(ms: seq<Manager>, evs: seq<Event>, q: nat, n: nat, fate: PacketFate)
    requires Queues(ms, evs, q) && q < n <= |evs| && Meets(ms, evs, q, n, fate)
    ensures var at := if fate.Kept? then n else fate.at;
            q < at && Live(ms[at], WaitsFor(ms, evs, q)) && InTime(evs, q, at)
  {
    hide Later, Completes;
  }

  lemma FatesAgree(local: Cert, ms: seq<Manager>, evs: seq<Event>, q: nat, n: nat, f: PacketFate, g: PacketFate)
    requires IsRun(local, ms, evs) && Queues(ms, evs, q) && q < n <= |evs|
    requires Meets(ms, evs, q, n, f) && Meets(ms, evs, q, n, g)
    ensures f == g
  {
    hide IsRun, Later, Completes, Live, InTime;
    StillThere(ms, evs, q, n, f);
    StillThere(ms, evs, q, n, g);
    var a, b := if f.Kept? then n else f.at, if g.Kept? then n else g.at;
    if a < b {
      NoneAfter(local, ms, evs, q, n, f, b);
    } else if b < a {
      NoneAfter(local, ms, evs, q, n, g, a);
    }
  }

  /** At any later time, a packet queued for a pending handshake has met exactly one fate. */
  lemma ExactlyOneFate(local: Cert, ms: seq<Manager>, evs: seq<Event>, q: nat, n: nat) returns (fate: PacketFate)
    requires IsRun(local, ms, evs) && Queues(ms, evs, q) && q < n <= |evs|
    ensures Meets(ms, evs, q, n, fate) && forall other :: Meets(ms, evs, q, n, other) ==> other == fate
  {
    hide IsRun;
    fate := Kept;
    FirstPlace(local, ms, evs, q);
    for i := q + 1 to n
      invariant Meets(ms, evs, q, i, fate)
    {
      if fate.Kept? {
        fate := KeptNext(local, ms, evs, q, i);
      }
    }
    forall other | Meets(ms, evs, q, n, other)
      ensures other == fate
    {
      FatesAgree(local, ms, evs, q, n, other, fate);
    }
  }

  /** A completing answer flushes the packet, in its place, exactly when the packet's fate is to be
      sent; otherwise fifty packets queued after it are all that goes out. */
  lemma FlushedExactly(local: Cert, ms: seq<Manager>, evs: seq<Event>, q: nat, a: nat)
    requires IsRun(local, ms, evs) && Queues(ms, evs, q) && q < a < |evs|
    requires Takes(ms[a], evs[a], WaitsFor(ms, evs, q)) && Completes(ms[a], evs[a])
    ensures var flush, after := Reached(ms[a], evs[a].packet.remoteIndex).queue, Later(evs, q, a);
            if Meets(ms, evs, q, a + 1, Sent(a))
            then |after| < |flush| && flush[|flush| - 1 - |after|..] == [evs[q].payload] + after
            else flush == LastOf(MAX_PENDING_PACKETS, after) && |after| >= MAX_PENDING_PACKETS
  {
    hide IsRun, Later;
    var ip, k := evs[q].ip, WaitsFor(ms, evs, q);
    AlwaysConsistent(local, ms, evs);
    RunLength(local, ms, evs);
    StaysAtAddress(local, ms, evs, q, a);
    PlaceInQueue(local, ms, evs, q, a);
    assert Inv(ms[a]);
  }

  /** A live handshake is still under the address it had. */
  lemma {:induction false} StaysAtAddress(local: Cert, ms: seq<Manager>, evs: seq<Event>, q: nat, n: nat)
    requires IsRun(local, ms, evs) && Queues(ms, evs, q) && q <= n <= |evs| && Live(ms[n], WaitsFor(ms, evs, q))
    ensures Has(ms[n], evs[q].ip, WaitsFor(ms, evs, q))
    decreases n
  {
    hide IsRun, Step, Inv;
    var k := WaitsFor(ms, evs, q);
    var ip :| ip in ms[n].pending && ms[n].pending[ip].serial == k;
    AlwaysConsistent(local, ms, evs);
    RunLength(local, ms, evs);
    if n == q {
      SamePlace(ms[q], ip, evs[q].ip);
    } else {
      BegunBefore(local, ms, evs, q, n - 1);
      StepOf(local, ms, evs, n - 1);
      HadBefore(local, ms[n - 1], evs[n - 1], ms[n], ip, k);
      StaysAtAddress(local, ms, evs, q, n - 1);
      SamePlace(ms[n - 1], ip, evs[q].ip);
    }
  }

  lemma SamePlace(m: Manager, a: Addr, b: Addr)
    requires Inv(m) && a in m.pending && b in m.pending && m.pending[a].serial == m.pending[b].serial
    ensures a == b
  {
  }

  /** A refusal happens: a stage-1 packet that does not even parse takes the handshake out of both
      tables, and the packet that waited for it is gone. */
  lemma RefusalHappens(local: Cert, remote: Cert, addr: UdpAddr, e: Ephemeral, p: Payload)
    returns (ms: seq<Manager>, evs: seq<Event>)
    ensures IsRun(local, ms, evs) && |evs| == 3 && Queues(ms, evs, 1) && evs[1].payload == p
    ensures Meets(ms, evs, 1, 2, Kept) && evs[2] == Answer(Packet(7, Malformed), {}) && Meets(ms, evs, 1, 3, Refused(2))
    ensures ms[3].pending == map[] && ms[3].index == map[]
  {
    hide NewState, Stage0;
    evs := [Start(V4(1), addr, remote, Some(7), e, 0), Queue(V4(1), p), Answer(Packet(7, Malformed), {})];
    var one := AfterStart(local, NEW, V4(1), addr, remote, Some(7), e, 0);
    var two := AfterQueue(one, V4(1), p);
    ms := [NEW, one, two, AfterStage1(two, 7)];
    assert evs[2..2] == [];
    assert Reaches(two, 7) && two.index[7] == V4(1);
  }
}
