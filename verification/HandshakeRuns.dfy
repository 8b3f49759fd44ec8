/** Everything a manager can go through: starts, stage-1 packets, queued packets and ticks in
    any interleaving. */
module HandshakeRuns {
  import opened Words
  import opened Net
  import opened Crypto
  import opened HandshakeSpec

  datatype Event =
    | Start(ip: Addr, addr: UdpAddr, remote: Cert, index: Option<u32>, e: Ephemeral, now: Time)
    | Answer(packet: Packet, trusted: set<Cert>)
    | Queue(ip: Addr, payload: Payload)
    | Tick(now: Time)

  ghost predicate Step(local: Cert, m: Manager, ev: Event, m': Manager) {
    match ev
    case Start(ip, addr, remote, index, e, now) => m' == AfterStart(local, m, ip, addr, remote, index, e, now)
    case Answer(p, _) => m' == AfterStage1(m, p.remoteIndex)
    case Queue(ip, payload) => m' == AfterQueue(m, ip, payload)
    case Tick(now) => Ticks(m, m', now)
  }

  ghost predicate IsRun(local: Cert, ms: seq<Manager>, evs: seq<Event>) {
    && |ms| == |evs| + 1 && ms[0] == NEW
    && forall i :: 0 <= i < |evs| ==> Step(local, ms[i], evs[i], ms[i + 1])
  }

  lemma RunLength(local: Cert, ms: seq<Manager>, evs: seq<Event>)
    requires IsRun(local, ms, evs)
    ensures |ms| == |evs| + 1
  {
  }

  /** Event `ev` puts a new handshake in the tables of `m`. */
  predicate Begins(m: Manager, ev: Event) {
    ev.Start? && Starts(m, ev.ip, ev.index)
  }

  lemma StepKeeps(local: Cert, m: Manager, ev: Event, m': Manager)
    requires Inv(m) && Step(local, m, ev, m')
    ensures Inv(m')
    ensures Bijective(m) ==> (Bijective(m') <==> (Begins(m, ev) ==> ev.index.value !in m.index))
  {
    hide Inv, Bijective;
    match ev
    case Start(ip, addr, remote, index, e, now) =>
      StartKeeps(local, m, ip, addr, remote, index, e, now);
      if Bijective(m) && Begins(m, ev) {
        StartKeepsBijectionExactly(local, m, ip, addr, remote, index, e, now);
      }
    case Answer(p, _) => Stage1Keeps(m, p.remoteIndex);
    case Queue(ip, payload) => QueueKeeps(m, ip, payload);
    case Tick(now) => TickKeeps(m, m', now);
  }

  /** Whatever the interleaving and whatever the indices, index entries lead to live handshakes
      under their own address, and no handshake is lost or counted twice. */
  lemma AlwaysConsistent(local: Cert, ms: seq<Manager>, evs: seq<Event>)
    requires IsRun(local, ms, evs)
    ensures forall i :: 0 <= i < |ms| ==> Inv(ms[i])
  {
    hide Inv, Bijective, Step;
    NewInv();
    for n := 0 to |evs|
      invariant forall i :: 0 <= i <= n ==> Inv(ms[i])
    {
      StepKeeps(local, ms[n], evs[n], ms[n + 1]);
    }
  }

  /** The two tables stay in bijection exactly when no start draws an index in use. */
  lemma BijectionExactly(local: Cert, ms: seq<Manager>, evs: seq<Event>)
    requires IsRun(local, ms, evs)
    ensures (forall i :: 0 <= i < |ms| ==> Bijective(ms[i]))
       <==> (forall i :: 0 <= i < |evs| && Begins(ms[i], evs[i]) ==> evs[i].index.value !in ms[i].index)
  {
    hide Inv, Bijective, Step;
    AlwaysConsistent(local, ms, evs);
    NewInv();
    if forall i :: 0 <= i < |evs| && Begins(ms[i], evs[i]) ==> evs[i].index.value !in ms[i].index {
      for n := 0 to |evs|
        invariant forall i :: 0 <= i <= n ==> Bijective(ms[i])
      {
        StepKeeps(local, ms[n], evs[n], ms[n + 1]);
      }
    }
    if forall i :: 0 <= i < |ms| ==> Bijective(ms[i]) {
      forall i | 0 <= i < |evs| && Begins(ms[i], evs[i])
        ensures evs[i].index.value !in ms[i].index
      {
        assert Bijective(ms[i]) && Bijective(ms[i + 1]);
        StepKeeps(local, ms[i], evs[i], ms[i + 1]);
      }
    }
  }

  /** The handshake event `ev` takes out of `m` as answered. */
  predicate Takes(m: Manager, ev: Event, serial: nat) {
    ev.Answer? && Reaches(m, ev.packet.remoteIndex) && Reached(m, ev.packet.remoteIndex).serial == serial
  }

  lemma {:induction false} GoneForGood(local: Cert, ms: seq<Manager>, evs: seq<Event>, i: nat, j: nat)
    requires IsRun(local, ms, evs) && i <= j < |ms|
    ensures ms[i].answered <= ms[j].answered && ms[i].expired <= ms[j].expired
    decreases j
  {
    if i < j {
      GoneForGood(local, ms, evs, i, j - 1);
      assert Step(local, ms[j - 1], evs[j - 1], ms[j]);
    }
  }

  /** A handshake is answered at most once, and never once it has expired. */
  lemma AnsweredAtMostOnce(local: Cert, ms: seq<Manager>, evs: seq<Event>, i: nat, j: nat, serial: nat)
    requires IsRun(local, ms, evs) && i <= j < |evs| && Takes(ms[j], evs[j], serial)
    ensures serial !in ms[i].expired
    ensures i < j ==> !Takes(ms[i], evs[i], serial)
  {
    AlwaysConsistent(local, ms, evs);
    assert Live(ms[j], serial);
    GoneForGood(local, ms, evs, i, j);
    if i < j {
      GoneForGood(local, ms, evs, i + 1, j);
      assert Step(local, ms[i], evs[i], ms[i + 1]);
    }
  }

  // ---------- The retry timer of one handshake ----------

  datatype Timer = Timer(attempts: nat, nextRetry: Time)

  datatype Fate = Waiting(timer: Timer) | Gone(at: Time, attempts: nat)

  function TimerTick(f: Fate, now: Time): Fate {
    if f.Gone? || now < f.timer.nextRetry then f
    else if f.timer.attempts >= MAX_ATTEMPTS then Gone(now, f.timer.attempts)
    else Waiting(Timer(f.timer.attempts + 1, now + Delay(f.timer.attempts + 1)))
  }

  function RunTimer(t: Timer, ts: seq<Time>): Fate {
    if ts == [] then Waiting(t) else TimerTick(RunTimer(t, ts[..|ts| - 1]), ts[|ts| - 1])
  }

  function Latest(from: Time, ts: seq<Time>): Time {
    if ts == [] then from else ts[|ts| - 1]
  }

  /** The ticks follow `from` and each other at most `gap` apart. */
  ghost predicate Regular(from: Time, ts: seq<Time>, gap: Time) {
    forall i :: 0 <= i < |ts| ==> Latest(from, ts[..i]) <= ts[i] <= Latest(from, ts[..i]) + gap
  }

  /** When the given attempt gives up, counted from the start, if every tick is punctual. */
  function Schedule(attempt: nat): Time {
    if attempt <= 1 then RETRY_BASE else Schedule(attempt - 1) + Delay(attempt)
  }

  const LIFETIME: Time := 180_500 * MILLISECOND

  lemma Delays()
    ensures Delay(2) == 2_000 * MILLISECOND && Delay(3) == 4_000 * MILLISECOND && Delay(4) == 8_000 * MILLISECOND
    ensures Delay(5) == 16_000 * MILLISECOND
    ensures forall a: nat :: a >= 6 ==> Delay(a) == RETRY_MAX
    ensures forall a: nat :: a >= 1 ==> Delay(a) > 0
  {
    assert Pow2(1) == 2 && Pow2(2) == 4 && Pow2(3) == 8;
    assert Pow2(4) == 16 && Pow2(5) == 32 && Pow2(6) == 64;
    forall a: nat | a >= 1
      ensures Delay(a) > 0
    {
      if a < 6 {
        assert a == 1 || a == 2 || a == 3 || a == 4 || a == 5;
      }
    }
  }

  lemma ScheduleEnds()
    ensures Schedule(MAX_ATTEMPTS) == LIFETIME
  {
    Delays();
    assert Schedule(1) == 500 * MILLISECOND;
    assert Schedule(3) == 6_500 * MILLISECOND;
    assert Schedule(5) == 30_500 * MILLISECOND;
    assert Schedule(7) == 90_500 * MILLISECOND;
    assert Schedule(9) == 150_500 * MILLISECOND;
  }

  /** While it waits, the timer runs late by less than one gap for each attempt made. */
  ghost predicate OnSchedule(from: Time, ts: seq<Time>, gap: Time, f: Fate) {
    match f
    case Waiting(t) =>
      && 1 <= t.attempts <= MAX_ATTEMPTS && Latest(from, ts) < t.nextRetry
      && Schedule(t.attempts) <= t.nextRetry - from <= Schedule(t.attempts) + (t.attempts - 1) * gap
    case Gone(at, attempts) =>
      attempts == MAX_ATTEMPTS && LIFETIME <= at - from <= LIFETIME + MAX_ATTEMPTS * gap
  }

  lemma {:induction false} TimerOnSchedule(from: Time, ts: seq<Time>, gap: Time)
    requires gap >= 0 && Regular(from, ts, gap)
    ensures OnSchedule(from, ts, gap, RunTimer(Timer(1, from + RETRY_BASE), ts))
  {
    if ts != [] {
      var n := |ts| - 1;
      var past, now := ts[..n], ts[n];
      assert forall i :: 0 <= i < n ==> past[..i] == ts[..i];
      TimerOnSchedule(from, past, gap);
      var f := RunTimer(Timer(1, from + RETRY_BASE), past);
      TickOnSchedule(from, ts, gap, f, now);
    }
  }

  lemma TickOnSchedule(from: Time, ts: seq<Time>, gap: Time, f: Fate, now: Time)
    requires gap >= 0 && ts != [] && now == ts[|ts| - 1] && now <= Latest(from, ts[..|ts| - 1]) + gap
    requires OnSchedule(from, ts[..|ts| - 1], gap, f)
    ensures OnSchedule(from, ts, gap, TimerTick(f, now))
  {
    hide Schedule, Delay;
    Delays();
    ScheduleEnds();
    if f.Waiting? && f.timer.attempts < MAX_ATTEMPTS {
      var a := f.timer.attempts;
      ScheduleNext(a);
      assert a * gap == (a - 1) * gap + gap;
    }
  }

  lemma ScheduleNext(a: nat)
    requires 1 <= a
    ensures Schedule(a + 1) == Schedule(a) + Delay(a + 1)
  {
  }

  /** A regular clock gives up on a handshake no earlier than 180.5 s and no later than ten
      gaps after that, at the tenth attempt; while it has not, the time is not yet up. */
  lemma RetryBound(from: Time, ts: seq<Time>, gap: Time)
    requires gap >= 0 && Regular(from, ts, gap)
    ensures match RunTimer(Timer(1, from + RETRY_BASE), ts)
            case Gone(at, attempts) =>
              attempts == MAX_ATTEMPTS && LIFETIME <= at - from <= LIFETIME + MAX_ATTEMPTS * gap
            case Waiting(t) => t.attempts <= MAX_ATTEMPTS && Latest(from, ts) - from < LIFETIME + MAX_ATTEMPTS * gap
  {
    hide Schedule, Delay, RunTimer, Latest;
    TimerOnSchedule(from, ts, gap);
    ScheduleEnds();
    var f := RunTimer(Timer(1, from + RETRY_BASE), ts);
    if f.Waiting? {
      var a := f.timer.attempts;
      ScheduleGrows(a);
      assert (a - 1) * gap <= MAX_ATTEMPTS * gap by { MulMonotone(a - 1, MAX_ATTEMPTS, gap); }
    }
  }

  lemma MulMonotone(a: int, b: int, c: int)
    requires a <= b && 0 <= c
    ensures a * c <= b * c
  {
  }

  lemma {:induction false} ScheduleGrows(a: nat)
    requires 1 <= a <= MAX_ATTEMPTS
    ensures Schedule(a) <= Schedule(MAX_ATTEMPTS)
    decreases MAX_ATTEMPTS - a
  {
    if a < MAX_ATTEMPTS {
      ScheduleGrows(a + 1);
      ScheduleNext(a);
      Delays();
    }
  }

  // ---------- A handshake that nobody answers ----------

  function TickTimes(evs: seq<Event>): seq<Time> {
    if evs == [] then []
    else TickTimes(evs[..|evs| - 1]) + if evs[|evs| - 1].Tick? then [evs[|evs| - 1].now] else []
  }

  function QueuedFor(evs: seq<Event>, ip: Addr): seq<Payload> {
    if evs == [] then []
    else
      var last := evs[|evs| - 1];
      QueuedFor(evs[..|evs| - 1], ip) + if last.Queue? && last.ip == ip then [last.payload] else []
  }

  /** The last `n` of a sequence, or all of it. */
  function LastOf(n: nat, ps: seq<Payload>): seq<Payload> {
    if |ps| <= n then ps else ps[|ps| - n..]
  }

  /** Stage-0 packets sent for handshake `serial` before event `n`, counting the one at its start. */
  function SendCount(ms: seq<Manager>, evs: seq<Event>, s: nat, n: nat, ip: Addr, serial: nat): nat
    requires s < n < |ms| && |ms| == |evs| + 1
    decreases n
  {
    if n == s + 1 then 1
    else
      var m, ev := ms[n - 1], evs[n - 1];
      SendCount(ms, evs, s, n - 1, ip, serial) +
      if ev.Tick? && ip in m.pending && m.pending[ip].serial == serial && Resends(m.pending[ip], ev.now) then 1 else 0
  }

  /** No stage-1 packet reaches the handshake between its start at event `s` and event `n`. */
  ghost predicate Unanswered(ms: seq<Manager>, evs: seq<Event>, s: nat, n: nat, serial: nat)
    requires n <= |evs| && |ms| == |evs| + 1
  {
    forall j :: s < j < n ==> !Takes(ms[j], evs[j], serial)
  }

  /** The state of a handshake, by its timer: still pending with that timer and the last fifty
      packets queued for its peer, or expired after ten sends. */
  ghost predicate Follows(m: Manager, ip: Addr, serial: nat, fate: Fate, queued: seq<Payload>, sends: nat) {
    match fate
    case Waiting(t) =>
      && ip in m.pending && m.pending[ip].serial == serial
      && m.pending[ip].attempts == t.attempts == sends && m.pending[ip].nextRetry == t.nextRetry
      && m.pending[ip].queue == LastOf(MAX_PENDING_PACKETS, queued)
    case Gone(_, attempts) => serial in m.expired && sends == attempts
  }

  lemma EnqueueKeepsLast(ps: seq<Payload>, p: Payload)
    ensures Enqueue(LastOf(MAX_PENDING_PACKETS, ps), p) == LastOf(MAX_PENDING_PACKETS, ps + [p])
  {
  }

  lemma StepFollows(local: Cert, m: Manager, ev: Event, m': Manager, ip: Addr, serial: nat, fate: Fate,
                    queued: seq<Payload>, sends: nat)
    requires Inv(m) && Step(local, m, ev, m') && !Takes(m, ev, serial)
    requires Follows(m, ip, serial, fate, queued, sends)
    ensures var live := ip in m.pending && m.pending[ip].serial == serial;
            var resent := ev.Tick? && live && Resends(m.pending[ip], ev.now);
            Follows(m', ip, serial, if ev.Tick? then TimerTick(fate, ev.now) else fate,
                    if ev.Queue? && ev.ip == ip then queued + [ev.payload] else queued,
                    if resent then sends + 1 else sends)
  {
    hide Delay;
    if fate.Gone? {
      assert ip in m.pending && m.pending[ip].serial == serial ==> Live(m, serial);
    } else if ev.Queue? {
      EnqueueKeepsLast(queued, ev.payload);
    }
  }

  /** In the middle of everything else a manager does, a handshake nobody answers follows its
      timer alone: it makes the timer's sends, keeps the last fifty packets queued for its peer
      since the start, and is gone from both tables exactly when the timer says so. */
  lemma {:induction false} UnansweredFollowsTimer(local: Cert, ms: seq<Manager>, evs: seq<Event>, s: nat, n: nat)
    requires IsRun(local, ms, evs) && s < n <= |evs| && Begins(ms[s], evs[s])
    requires Unanswered(ms, evs, s, n, ms[s].started)
    ensures Follows(ms[n], evs[s].ip, ms[s].started,
                    RunTimer(Timer(1, evs[s].now + RETRY_BASE), TickTimes(evs[s + 1..n])),
                    QueuedFor(evs[s + 1..n], evs[s].ip), SendCount(ms, evs, s, n, evs[s].ip, ms[s].started))
    decreases n
  {
    hide Delay, Follows, Inv, Step, RunTimer, TickTimes, QueuedFor, Takes;
    var ip, serial := evs[s].ip, ms[s].started;
    var first := Timer(1, evs[s].now + RETRY_BASE);
    assert Step(local, ms[n - 1], evs[n - 1], ms[n]);
    if n == s + 1 {
      assert evs[s + 1..n] == [];
      NothingYet(first, ip);
      StartFollows(local, ms[s], evs[s], ms[n]);
    } else {
      UnansweredFollowsTimer(local, ms, evs, s, n - 1);
      AlwaysConsistent(local, ms, evs);
      var past, last := evs[s + 1..n - 1], evs[n - 1];
      assert evs[s + 1..n] == past + [last];
      OneMore(first, past, last, ip);
      StepFollows(local, ms[n - 1], last, ms[n], ip, serial, RunTimer(first, TickTimes(past)), QueuedFor(past, ip),
                  SendCount(ms, evs, s, n - 1, ip, serial));
    }
  }

  lemma NothingYet(t: Timer, ip: Addr)
    ensures RunTimer(t, TickTimes([])) == Waiting(t) && QueuedFor([], ip) == []
  {
  }

  lemma OneMore(t: Timer, evs: seq<Event>, ev: Event, ip: Addr)
    ensures RunTimer(t, TickTimes(evs + [ev]))
         == if ev.Tick? then TimerTick(RunTimer(t, TickTimes(evs)), ev.now) else RunTimer(t, TickTimes(evs))
    ensures QueuedFor(evs + [ev], ip)
         == if ev.Queue? && ev.ip == ip then QueuedFor(evs, ip) + [ev.payload] else QueuedFor(evs, ip)
  {
    hide Delay, TimerTick;
    assert (evs + [ev])[..|evs|] == evs;
    var ts := TickTimes(evs);
    assert ts + [] == ts;
    if ev.Tick? {
      assert (ts + [ev.now])[..|ts|] == ts;
    }
  }

  lemma StartFollows(local: Cert, m: Manager, ev: Event, m': Manager)
    requires Begins(m, ev) && Step(local, m, ev, m')
    ensures Follows(m', ev.ip, m.started, Waiting(Timer(1, ev.now + RETRY_BASE)), [], 1)
  {
  }

  /** No address and no index leads to an expired handshake. */
  lemma NotLiveNotIndexed(m: Manager, serial: nat)
    requires Inv(m) && serial in m.expired
    ensures forall ip :: ip in m.pending ==> m.pending[ip].serial != serial
    ensures forall i | i in m.index && m.index[i] in m.pending :: m.pending[m.index[i]].serial != serial
  {
    assert !Live(m, serial);
  }

  /** With ticks at most `gap` apart, an unanswered handshake sends stage-0 exactly ten times
      and leaves both tables no earlier than 180.5 s and no later than 180.5 s plus ten gaps
      after its start; until then it is still there. */
  lemma UnansweredExpires(local: Cert, ms: seq<Manager>, evs: seq<Event>, s: nat, n: nat, gap: Time)
    requires IsRun(local, ms, evs) && s < n <= |evs| && Begins(ms[s], evs[s])
    requires Unanswered(ms, evs, s, n, ms[s].started)
    requires gap >= 0 && Regular(evs[s].now, TickTimes(evs[s + 1..n]), gap)
    ensures var serial, elapsed := ms[s].started, Latest(evs[s].now, TickTimes(evs[s + 1..n])) - evs[s].now;
            var sends := SendCount(ms, evs, s, n, evs[s].ip, serial);
            && (serial in ms[n].expired ==> sends == MAX_ATTEMPTS && elapsed >= LIFETIME)
            && (serial in ms[n].expired ==> forall ip :: ip in ms[n].pending ==> ms[n].pending[ip].serial != serial)
            && (serial in ms[n].expired ==>
                  forall i | i in ms[n].index && ms[n].index[i] in ms[n].pending ::
                    ms[n].pending[ms[n].index[i]].serial != serial)
            && (serial !in ms[n].expired ==> Live(ms[n], serial) && elapsed < LIFETIME + MAX_ATTEMPTS * gap)
  {
    hide Delay, Schedule, RunTimer, Step, TickTimes, QueuedFor, SendCount, Latest, Regular, Takes;
    var ts := TickTimes(evs[s + 1..n]);
    UnansweredFollowsTimer(local, ms, evs, s, n);
    AlwaysConsistent(local, ms, evs);
    RetryBound(evs[s].now, ts, gap);
    GoneInThePast(Timer(1, evs[s].now + RETRY_BASE), evs[s].now, ts, gap);
    if ms[s].started !in ms[n].expired {
      assert evs[s].ip in ms[n].pending;
    } else {
      NotLiveNotIndexed(ms[n], ms[s].started);
    }
  }

  lemma {:induction false} GoneInThePast(t: Timer, from: Time, ts: seq<Time>, gap: Time)
    requires Regular(from, ts, gap)
    ensures RunTimer(t, ts).Gone? ==> RunTimer(t, ts).at <= Latest(from, ts)
  {
    if ts != [] {
      var n := |ts| - 1;
      assert forall i :: 0 <= i < n ==> ts[..n][..i] == ts[..i];
      GoneInThePast(t, from, ts[..n], gap);
    }
  }

  /** The packet that answers a handshake flushes exactly the last fifty packets queued for its
      peer since the start, in order. */
  lemma AnswerFlushesLastFifty(local: Cert, ms: seq<Manager>, evs: seq<Event>, s: nat, n: nat)
    requires IsRun(local, ms, evs) && s < n < |evs| && Begins(ms[s], evs[s]) && Takes(ms[n], evs[n], ms[s].started)
    ensures Reached(ms[n], evs[n].packet.remoteIndex).queue
         == LastOf(MAX_PENDING_PACKETS, QueuedFor(evs[s + 1..n], evs[s].ip))
  {
    hide Delay, RunTimer, Step, TickTimes, QueuedFor, SendCount;
    forall j | s < j < n
      ensures !Takes(ms[j], evs[j], ms[s].started)
    {
      AnsweredAtMostOnce(local, ms, evs, j, n, ms[s].started);
    }
    UnansweredFollowsTimer(local, ms, evs, s, n);
    AlwaysConsistent(local, ms, evs);
    assert Live(ms[n], ms[s].started);
  }

  /** Every pending handshake was put there by a start for its peer. */
  lemma {:induction false} PendingWasStarted(local: Cert, ms: seq<Manager>, evs: seq<Event>, n: nat, ip: Addr)
    returns (s: nat)
    requires IsRun(local, ms, evs) && n < |ms| && ip in ms[n].pending
    ensures s < n && Begins(ms[s], evs[s]) && evs[s].ip == ip && ms[s].started == ms[n].pending[ip].serial
    ensures evs[s].addr == ms[n].pending[ip].remoteAddr && evs[s].index == Some(ms[n].pending[ip].localIndex)
    decreases n
  {
    hide Delay;
    var m, ev := ms[n - 1], evs[n - 1];
    assert Step(local, m, ev, ms[n]);
    if Begins(m, ev) && ev.ip == ip {
      s := n - 1;
    } else {
      s := PendingWasStarted(local, ms, evs, n - 1, ip);
    }
  }

  /** A run goes on with one more step. */
  lemma RunExtends(local: Cert, ms: seq<Manager>, evs: seq<Event>, ev: Event, m': Manager)
    requires IsRun(local, ms, evs) && Step(local, ms[|evs|], ev, m')
    ensures IsRun(local, ms + [m'], evs + [ev])
  {
    hide Step;
  }

  /** A collision happens: two starts that draw the same index leave the first handshake out of
      reach of its answer. */
  lemma CollisionHappens(local: Cert, remote: Cert, addr: UdpAddr, e: Ephemeral, f: Ephemeral)
    returns (ms: seq<Manager>, evs: seq<Event>)
    ensures IsRun(local, ms, evs) && |evs| == 2 && !Bijective(ms[2])
    ensures V4(1) in ms[2].pending && ms[2].pending[V4(1)].localIndex == 7 && ms[2].index == map[7 := V4(2)]
  {
    hide NewState, Stage0;
    evs := [Start(V4(1), addr, remote, Some(7), e, 0), Start(V4(2), addr, remote, Some(7), f, 0)];
    var one := AfterStart(local, NEW, V4(1), addr, remote, Some(7), e, 0);
    ms := [NEW, one, AfterStart(local, one, V4(2), addr, remote, Some(7), f, 0)];
    assert ms[2].pending[V4(1)].localIndex == 7 && ms[2].index[7] == V4(2);
  }
}
