/** Rules, connection tracking, and what a whole run of the firewall allows. */
module FirewallSpec {
  import opened Words
  import opened Net

  type Proto = u8
  type Port = p: nat | p < 0x1_0000
  type Time = int  // nanoseconds

  const PROTO_ANY: Proto := 0
  const PROTO_TCP: Proto := 6
  const PROTO_UDP: Proto := 17

  const SECOND: Time := 1_000_000_000

  // ---------- Rules ----------

  /** An address range; `NoPrefix` is the zero value, which contains nothing. */
  datatype Prefix = NoPrefix | Prefix(base: u32, hostBits: nat)

  /** `v` without its low `n` bits. */
  function Above(v: nat, n: nat): nat {
    if n == 0 then v else Above(v / 2, n - 1)
  }

  predicate Contains(p: Prefix, ip: Addr) {
    p.Prefix? && ip.V4? && Above(p.base, p.hostBits) == Above(ip.bits, p.hostBits)
  }

  /** Bit `k` of `v`. */
  function Bit(v: nat, k: nat): nat {
    if k == 0 then v % 2 else Bit(v / 2, k - 1)
  }

  lemma {:induction false} SameBitsSameNumber(v: nat, w: nat, n: nat)
    requires v < Pow2(n) && w < Pow2(n) && forall k: nat :: k < n ==> Bit(v, k) == Bit(w, k)
    ensures v == w
  {
    if n > 0 {
      forall k: nat | k < n - 1
        ensures Bit(v / 2, k) == Bit(w / 2, k)
      {
        var k' := k + 1;
        assert Bit(v, k') == Bit(w, k');
      }
      SameBitsSameNumber(v / 2, w / 2, n - 1);
      assert Bit(v, 0) == Bit(w, 0);
    }
  }

  lemma {:induction false} BitAbove(v: nat, n: nat, k: nat)
    ensures Bit(Above(v, n), k) == Bit(v, n + k)
  {
    if n > 0 {
      BitAbove(v / 2, n - 1, k);
    }
  }

  lemma {:induction false} AboveIsSmall(v: nat, n: nat, m: nat)
    requires v < Pow2(n + m)
    ensures Above(v, n) < Pow2(m)
  {
    if n > 0 {
      AboveIsSmall(v / 2, n - 1, m);
    }
  }

  lemma SameAboveSameBits(v: nat, w: nat, n: nat, k: nat)
    requires Above(v, n) == Above(w, n) && n <= k
    ensures Bit(v, k) == Bit(w, k)
  {
    hide Bit, Above;
    BitAbove(v, n, k - n);
    BitAbove(w, n, k - n);
  }

  lemma SameBitsSameAbove(v: u32, w: u32, n: nat)
    requires n <= 32 && forall k: nat :: n <= k < 32 ==> Bit(v, k) == Bit(w, k)
    ensures Above(v, n) == Above(w, n)
  {
    hide Bit, Above, Pow2;
    Powers();
    AboveIsSmall(v, n, 32 - n);
    AboveIsSmall(w, n, 32 - n);
    forall k: nat | k < 32 - n
      ensures Bit(Above(v, n), k) == Bit(Above(w, n), k)
    {
      var k' := n + k;
      assert Bit(v, k') == Bit(w, k');
      BitAbove(v, n, k);
      BitAbove(w, n, k);
    }
    SameBitsSameNumber(Above(v, n), Above(w, n), 32 - n);
  }

  ghost predicate SameBitsFrom(v: nat, w: nat, n: nat) {
    forall k: nat :: n <= k < 32 ==> Bit(v, k) == Bit(w, k)
  }

  /** A range contains exactly the addresses that agree with its base above the host bits. */
  lemma ContainsExactly(base: u32, hostBits: nat, a: u32)
    requires hostBits <= 32
    ensures Contains(Prefix(base, hostBits), V4(a)) <==> SameBitsFrom(base, a, hostBits)
    ensures !Contains(NoPrefix, V4(a)) && !Contains(Prefix(base, hostBits), NoAddr)
  {
    hide Above;
    if Contains(Prefix(base, hostBits), V4(a)) {
      forall k: nat | hostBits <= k < 32
        ensures Bit(base, k) == Bit(a, k)
      {
        SameAboveSameBits(base, a, hostBits, k);
      }
    }
    if SameBitsFrom(base, a, hostBits) {
      SameBitsSameAbove(base, a, hostBits);
    }
  }

  lemma Powers()
    ensures Pow2(8) == 0x100 && Pow2(16) == 0x1_0000 && Pow2(24) == 0x100_0000 && Pow2(32) == 0x1_0000_0000
  {
    assert Pow2(2) == 4 && Pow2(4) == 16 && Pow2(6) == 64;
    assert Pow2(10) == 0x400 && Pow2(12) == 0x1000 && Pow2(14) == 0x4000;
    assert Pow2(18) == 0x4_0000 && Pow2(20) == 0x10_0000 && Pow2(22) == 0x40_0000;
    assert Pow2(26) == 0x400_0000 && Pow2(28) == 0x1000_0000 && Pow2(30) == 0x4000_0000;
  }

  datatype Rule = Rule(port: Port, portAny: bool, proto: Proto, group: string, groupAny: bool, cidr: Prefix,
                       cidrAny: bool)

  datatype Direction = Inbound | Outbound

  /** A packet as the firewall sees it: the remote end, its groups, the port and the protocol. */
  datatype Packet = Packet(dir: Direction, remote: Addr, groups: seq<string>, port: Port, proto: Proto)

  predicate Matches(r: Rule, p: Packet) {
    && (r.proto == PROTO_ANY || r.proto == p.proto)
    && (r.portAny || r.port == p.port)
    && (r.groupAny || r.group in p.groups)
    && (r.cidrAny || Contains(r.cidr, p.remote))
  }

  datatype Rules = Rules(inbound: seq<Rule>, outbound: seq<Rule>)

  function For(rules: Rules, dir: Direction): seq<Rule> {
    if dir.Inbound? then rules.inbound else rules.outbound
  }

  /** Some rule of the packet's own direction matches it. */
  ghost predicate RuleAllows(rules: Rules, p: Packet) {
    exists r :: r in For(rules, p.dir) && Matches(r, p)
  }

  // ---------- Tracked connections ----------

  datatype ConnKey = ConnKey(srcIP: Addr, dstIP: Addr, srcPort: Port, dstPort: Port, proto: Proto)

  function Reversed(k: ConnKey): ConnKey {
    ConnKey(k.dstIP, k.srcIP, k.dstPort, k.srcPort, k.proto)
  }

  function KeyOf(p: Packet): ConnKey {
    ConnKey(NoAddr, p.remote, 0, p.port, p.proto)
  }

  datatype Timeouts = Timeouts(tcp: Time, udp: Time, other: Time)

  const DEFAULTS := Timeouts(300 * SECOND, 30 * SECOND, 10 * SECOND)

  function Ttl(ts: Timeouts, proto: Proto): Time {
    if proto == PROTO_TCP then ts.tcp else if proto == PROTO_UDP then ts.udp else ts.other
  }

  // ---------- Runs ----------

  /** What happens to a firewall: a packet is put to it, or its table is swept. */
  datatype Event = Put(packet: Packet, now: Time) | Sweep(timeouts: Timeouts, now: Time)

  /** Event `i` is a rule-matched packet for key `k`. */
  ghost predicate MatchAt(rules: Rules, es: seq<Event>, i: nat, k: ConnKey) {
    i < |es| && es[i].Put? && KeyOf(es[i].packet) == k && RuleAllows(rules, es[i].packet)
  }

  /** Event `e` is a sweep that removes an entry of protocol `proto` made at time `made`. */
  predicate Removes(e: Event, made: Time, proto: Proto) {
    e.Sweep? && e.now - made >= Ttl(e.timeouts, proto)
  }

  /** No sweep among events `i+1 .. n-1` removes an entry made by event `i`. */
  ghost predicate Unswept(es: seq<Event>, i: nat, n: nat, proto: Proto)
    requires i < n <= |es|
  {
    forall j: nat :: i < j < n ==> !Removes(es[j], es[i].now, proto)
  }

  /** The entry for `k` was made by event `i` and is still there after the first `n` events:
      the packet matched a rule, no entry was there before it, and no sweep has removed it. */
  ghost predicate Live(rules: Rules, es: seq<Event>, i: nat, n: nat, k: ConnKey)
    requires n <= |es|
    decreases n
  {
    && i < n && MatchAt(rules, es, i, k) && Unswept(es, i, n, k.proto)
    && forall h: nat :: h < i ==> !Live(rules, es, h, i, k)
  }

  /** Some rule-matched packet's entry for `k` is still there after the first `n` events. */
  ghost predicate Established(rules: Rules, es: seq<Event>, n: nat, k: ConnKey)
    requires n <= |es|
  {
    exists i: nat :: Live(rules, es, i, n, k)
  }

  /** The verdict on packet `p` after the events `es`. */
  ghost predicate Allowed(rules: Rules, es: seq<Event>, p: Packet) {
    RuleAllows(rules, p) || Established(rules, es, |es|, KeyOf(p))
  }

  lemma {:induction false} LiveInLonger(rules: Rules, es: seq<Event>, more: seq<Event>, i: nat, n: nat, k: ConnKey)
    requires n <= |es|
    ensures Live(rules, es + more, i, n, k) == Live(rules, es, i, n, k)
    decreases n
  {
    if i < n {
      assert (es + more)[..n] == es[..n];
      assert forall j: nat :: j < n ==> (es + more)[j] == es[j];
      forall h: nat | h < i
        ensures Live(rules, es + more, h, i, k) == Live(rules, es, h, i, k)
      {
        LiveInLonger(rules, es, more, h, i, k);
      }
    }
  }

  lemma LiveInRange(rules: Rules, es: seq<Event>, i: nat, n: nat, k: ConnKey)
    requires n <= |es| && Live(rules, es, i, n, k)
    ensures i < n && MatchAt(rules, es, i, k)
  {
  }

  lemma LiveEarlier(rules: Rules, es: seq<Event>, i: nat, m: nat, n: nat, k: ConnKey)
    requires i < m <= n <= |es| && Live(rules, es, i, n, k)
    ensures Live(rules, es, i, m, k)
  {
  }

  /** A key has at most one live entry. */
  lemma LiveIsUnique(rules: Rules, es: seq<Event>, i: nat, j: nat, n: nat, k: ConnKey)
    requires n <= |es| && Live(rules, es, i, n, k) && Live(rules, es, j, n, k)
    ensures i == j
  {
    if i < j {
      LiveEarlier(rules, es, i, j, n, k);
    } else if j < i {
      LiveEarlier(rules, es, j, i, n, k);
    }
  }

  // ---------- The table of a run ----------

  type Table = map<ConnKey, Time>

  /** The table holds exactly the live entries, each stamped with the time of the packet that
      made it. */
  ghost predicate Reflects(rules: Rules, es: seq<Event>, t: Table) {
    && (forall k :: k in t <==> Established(rules, es, |es|, k))
    && (forall k, i: nat :: Live(rules, es, i, |es|, k) ==> k in t && t[k] == es[i].now)
  }

  lemma PutNext(rules: Rules, es: seq<Event>, e: Event, i: nat, k: ConnKey)
    requires e.Put?
    ensures var n := |es|;
            Live(rules, es + [e], i, n + 1, k) <==>
              Live(rules, es, i, n, k) ||
              (i == n && KeyOf(e.packet) == k && RuleAllows(rules, e.packet) && !Established(rules, es, n, k))
  {
    var n, es' := |es|, es + [e];
    if i < n {
      LiveInLonger(rules, es, [e], i, n, k);
      assert forall j: nat :: j < n ==> es'[j] == es[j];
    } else if i == n {
      forall h: nat | h < n
        ensures Live(rules, es', h, n, k) == Live(rules, es, h, n, k)
      {
        LiveInLonger(rules, es, [e], h, n, k);
      }
    }
  }

  lemma SweepNext(rules: Rules, es: seq<Event>, e: Event, i: nat, k: ConnKey)
    requires e.Sweep?
    ensures Live(rules, es + [e], i, |es| + 1, k) <==>
            Live(rules, es, i, |es|, k) && e.now - es[i].now < Ttl(e.timeouts, k.proto)
  {
    var n, es' := |es|, es + [e];
    if i < n {
      LiveInLonger(rules, es, [e], i, n, k);
      assert forall j: nat :: j < n ==> es'[j] == es[j];
      assert es'[n] == e;
    }
  }

  lemma ReflectsEmpty(rules: Rules)
    ensures Reflects(rules, [], map[])
  {
  }

  /** A packet leaves the table alone unless it matches a rule and has no entry yet. */
  lemma ReflectsPut(rules: Rules, es: seq<Event>, t: Table, p: Packet, now: Time)
    requires Reflects(rules, es, t)
    ensures var t' := if KeyOf(p) !in t && RuleAllows(rules, p) then t[KeyOf(p) := now] else t;
            Reflects(rules, es + [Put(p, now)], t')
  {
    hide Live, RuleAllows;
    var e, n := Put(p, now), |es|;
    var es' := es + [e];
    var t' := if KeyOf(p) !in t && RuleAllows(rules, p) then t[KeyOf(p) := now] else t;
    forall k
      ensures k in t' <==> Established(rules, es', n + 1, k)
    {
      if i: nat :| Live(rules, es, i, n, k) {
        PutNext(rules, es, e, i, k);
        assert Live(rules, es', i, n + 1, k);
      }
      PutNext(rules, es, e, n, k);
      if i: nat :| Live(rules, es', i, |es'|, k) {
        PutNext(rules, es, e, i, k);
      }
    }
    forall k, i: nat | Live(rules, es', i, n + 1, k)
      ensures i < |es'| && k in t' && t'[k] == es'[i].now
    {
      PutNext(rules, es, e, i, k);
      LiveInRange(rules, es', i, n + 1, k);
      if Live(rules, es, i, n, k) {
        LiveInRange(rules, es, i, n, k);
      }
    }
  }

  lemma ReflectsSweep(rules: Rules, es: seq<Event>, t: Table, t': Table, ts: Timeouts, now: Time)
    requires Reflects(rules, es, t)
    requires forall k :: k in t' <==> k in t && now - t[k] < Ttl(ts, k.proto)
    requires forall k :: k in t' ==> t'[k] == t[k]
    ensures Reflects(rules, es + [Sweep(ts, now)], t')
  {
    var e, n := Sweep(ts, now), |es|;
    var es' := es + [e];
    forall k
      ensures k in t' <==> Established(rules, es', n + 1, k)
    {
      if i: nat :| Live(rules, es, i, n, k) {
        SweepNext(rules, es, e, i, k);
      }
      if i: nat :| Live(rules, es', i, |es'|, k) {
        SweepNext(rules, es, e, i, k);
      }
    }
    forall k, i: nat | Live(rules, es', i, n + 1, k)
      ensures k in t' && t'[k] == es'[i].now
    {
      SweepNext(rules, es, e, i, k);
    }
  }

  // ---------- How long an entry can last ----------

  ghost predicate ClockRuns(es: seq<Event>) {
    forall i: nat, j: nat :: i < j < |es| ==> es[i].now <= es[j].now
  }

  /** Every stretch of `gap` in the run sees a sweep with the default timeouts. */
  ghost predicate SweptEvery(es: seq<Event>, gap: Time) {
    forall t: Time, n: nat :: n < |es| && es[0].now <= t && t + gap < es[n].now ==> SweptWithin(es, t, gap)
  }

  ghost predicate SweptWithin(es: seq<Event>, from: Time, gap: Time) {
    exists j: nat :: j < |es| && es[j].Sweep? && es[j].timeouts == DEFAULTS && from <= es[j].now <= from + gap
  }

  /** A packet allowed without a rule of its own direction comes at most the protocol's timeout
      plus one sweep gap after the rule-matched packet that opened its entry, however much
      traffic the entry has carried since. */
  lemma EstablishedTimeBound(rules: Rules, es: seq<Event>, n: nat, gap: Time)
    requires n < |es| && es[n].Put? && ClockRuns(es) && SweptEvery(es, gap)
    requires Allowed(rules, es[..n], es[n].packet) && !RuleAllows(rules, es[n].packet)
    ensures exists i: nat :: i < n && MatchAt(rules, es, i, KeyOf(es[n].packet))
                             && es[n].now - es[i].now <= Ttl(DEFAULTS, es[n].packet.proto) + gap
  {
    var k, ttl := KeyOf(es[n].packet), Ttl(DEFAULTS, es[n].packet.proto);
    var i: nat :| Live(rules, es[..n], i, n, k);
    assert es[..n] + es[n..] == es;
    LiveInLonger(rules, es[..n], es[n..], i, n, k);
    assert MatchAt(rules, es, i, k);
    var t := es[i].now + ttl;
    assert !SweptWithin(es, t, gap) || es[n].now <= t + gap by {
      if j: nat :| j < |es| && es[j].Sweep? && es[j].timeouts == DEFAULTS && t <= es[j].now <= t + gap {
        assert i < j && Removes(es[j], es[i].now, k.proto);
      }
    }
  }

  // ---------- Independence from rule order ----------

  /** The same rules in each direction, in any order and with any repetition. */
  ghost predicate SameRules(a: Rules, b: Rules) {
    forall dir, r :: r in For(a, dir) <==> r in For(b, dir)
  }

  lemma {:induction false} SameLive(a: Rules, b: Rules, es: seq<Event>, i: nat, n: nat, k: ConnKey)
    requires SameRules(a, b) && n <= |es|
    ensures Live(a, es, i, n, k) == Live(b, es, i, n, k)
    decreases n
  {
    if i < n {
      forall h: nat | h < i
        ensures Live(a, es, h, i, k) == Live(b, es, h, i, k)
      {
        SameLive(a, b, es, h, i, k);
      }
      if es[i].Put? {
        SameRuleVerdict(a, b, es[i].packet);
      }
    }
  }

  lemma SameRuleVerdict(a: Rules, b: Rules, p: Packet)
    requires SameRules(a, b)
    ensures RuleAllows(a, p) == RuleAllows(b, p)
  {
  }

  /** Firewalls with the same rules agree on every verdict and hold equal tables, after any run. */
  lemma RuleOrderIsIrrelevant(a: Rules, b: Rules, es: seq<Event>, ta: Table, tb: Table, p: Packet)
    requires SameRules(a, b) && Reflects(a, es, ta) && Reflects(b, es, tb)
    ensures Allowed(a, es, p) == Allowed(b, es, p) && ta == tb
  {
    SameRuleVerdict(a, b, p);
    forall k
      ensures Established(a, es, |es|, k) == Established(b, es, |es|, k)
      ensures k in ta ==> k in tb && ta[k] == tb[k]
    {
      forall i: nat
        ensures Live(a, es, i, |es|, k) == Live(b, es, i, |es|, k)
      {
        SameLive(a, b, es, i, |es|, k);
      }
    }
  }

  /** After one packet that a rule let through, a packet that no rule lets through passes exactly
      when it has the same remote address, port and protocol, whatever its direction. */
  lemma RepliesPassExactly(rules: Rules, q: Packet, t: Time, p: Packet)
    requires RuleAllows(rules, q) && !RuleAllows(rules, p)
    ensures Allowed(rules, [Put(q, t)], p) <==> p.remote == q.remote && p.port == q.port && p.proto == q.proto
  {
    var es := [Put(q, t)];
    if KeyOf(p) == KeyOf(q) {
      assert Live(rules, es, 0, 1, KeyOf(p));
    }
  }

  /** Established traffic does not keep a connection open: the first reply is let in, yet after a
      sweep thirty seconds past the opening packet replies are refused, however recent the last. */
  lemma RepliesDoNotRefresh(ip: Addr, port: Port) returns (rules: Rules, es: seq<Event>, reply: Packet)
    ensures reply == Packet(Inbound, ip, [], port, PROTO_UDP) && |es| == 3 && es[1] == Put(reply, 29 * SECOND)
    ensures es[2] == Sweep(DEFAULTS, 30 * SECOND)
    ensures Allowed(rules, es[..1], reply) && !Allowed(rules, es, reply)
  {
    var any := Rule(0, true, PROTO_ANY, "", true, NoPrefix, true);
    rules, reply := Rules([], [any]), Packet(Inbound, ip, [], port, PROTO_UDP);
    var opening := reply.(dir := Outbound);
    es := [Put(opening, 0), Put(reply, 29 * SECOND), Sweep(DEFAULTS, 30 * SECOND)];
    assert Matches(any, opening) && RuleAllows(rules, opening);
    assert Live(rules, es[..1], 0, 1, KeyOf(reply));
    forall i: nat
      ensures !Live(rules, es, i, 3, KeyOf(reply))
    {
      assert Removes(es[2], es[0].now, PROTO_UDP);
    }
  }
}

/** The firewall itself: a connection table updated in place, and the two rule scans. */
module Firewall {
  import opened Net
  import opened FirewallSpec

  class Conntrack {
    var seen: map<ConnKey, Time>

    constructor ()
      ensures seen == map[]
    {
      seen := map[];
    }

    method Track(k: ConnKey, now: Time)
      modifies this
      ensures seen == old(seen)[k := now]
    {
      seen := seen[k := now];
    }

    method IsEstablished(k: ConnKey) returns (yes: bool)
      ensures yes <==> k in seen || Reversed(k) in seen
    {
      if k in seen {
        return true;
      }
      return Reversed(k) in seen;
    }

    /** Visits the entries in whatever order the map gives them and deletes the stale ones. */
    method Expire(ts: Timeouts, now: Time)
      modifies this
      ensures forall k :: k in seen <==>
                k in old(seen)
                && now - old(seen)[k] < if k.proto == 6 then ts.tcp else if k.proto == 17 then ts.udp else ts.other
      ensures forall k :: k in seen ==> seen[k] == old(seen)[k]
    {
      var todo := seen.Keys;
      while todo != {}
        invariant todo <= seen.Keys <= old(seen.Keys)
        invariant forall k :: k in seen ==> seen[k] == old(seen)[k]
        invariant forall k :: k in old(seen) && k !in todo ==> (k in seen <==> now - old(seen)[k] < Ttl(ts, k.proto))
        decreases todo
      {
        var k :| k in todo;
        var last := seen[k];
        var ttl := Ttl(ts, k.proto);
        if now - last >= ttl {
          seen := seen - {k};
        }
        todo := todo - {k};
      }
    }
  }

  /** One rule against one packet, with the search through the remote end's groups. */
  method MatchRule(r: Rule, p: Packet) returns (ok: bool)
    ensures ok <==> Matches(r, p)
    ensures ok <==>
              && (r.proto == 0 || r.proto == p.proto) && (r.portAny || r.port == p.port)
              && (r.groupAny || r.group in p.groups) && (r.cidrAny || Contains(r.cidr, p.remote))
  {
    if r.proto != PROTO_ANY && r.proto != p.proto {
      return false;
    }
    if !r.portAny && r.port != p.port {
      return false;
    }
    if !r.groupAny {
      var found, i := false, 0;
      while i < |p.groups|
        invariant 0 <= i <= |p.groups|
        invariant !found && r.group !in p.groups[..i]
      {
        if p.groups[i] == r.group {
          found := true;
          break;
        }
        i := i + 1;
      }
      if !found {
        return false;
      }
    }
    if !r.cidrAny && !Contains(r.cidr, p.remote) {
      return false;
    }
    return true;
  }

  /** Only the zero source address and port ever enter the table. */
  predicate ZeroSource(k: ConnKey) {
    k.srcIP == NoAddr && k.srcPort == 0
  }

  /** With such a table the reversed lookup never changes an answer. */
  lemma ReversedLookupIsIdle(t: Table, p: Packet)
    requires forall k :: k in t ==> ZeroSource(k)
    ensures KeyOf(p) in t || Reversed(KeyOf(p)) in t <==> KeyOf(p) in t
  {
    var k := KeyOf(p);
    if Reversed(k) in t {
      assert ZeroSource(Reversed(k));
    }
  }

  class Firewall {
    const rules: Rules
    const ct: Conntrack
    ghost var history: seq<Event>

    /** The table is exactly what the history says, and its keys have the firewall's shape. */
    ghost predicate Valid()
      reads this, ct
    {
      Reflects(rules, history, ct.seen) && forall k :: k in ct.seen ==> ZeroSource(k)
    }

    constructor (rules: Rules)
      ensures Valid() && history == [] && this.rules == rules && fresh(ct)
    {
      this.rules, history := rules, [];
      ct := new Conntrack();
      new;
      ReflectsEmpty(rules);
    }

    /** Both directions follow this scan: an established packet passes without touching the
        table, and otherwise the first matching rule opens an entry. */
    method Scan(p: Packet, now: Time) returns (ok: bool)
      requires Valid()
      modifies this`history, ct
      ensures Valid() && history == old(history) + [Put(p, now)]
      ensures ok <==> Allowed(rules, old(history), p)
    {
      hide Reflects, Matches;
      var k := KeyOf(p);
      ReflectsPut(rules, history, ct.seen, p, now);
      ReversedLookupIsIdle(ct.seen, p);
      TableIsEstablished(rules, history, ct.seen, k);
      history := history + [Put(p, now)];
      var established := ct.IsEstablished(k);
      if established {
        return true;
      }
      var rs := For(rules, p.dir);
      for i := 0 to |rs|
        invariant forall j :: 0 <= j < i ==> !Matches(rs[j], p)
        invariant ct.seen == old(ct.seen) && history == old(history) + [Put(p, now)]
      {
        var hit := MatchRule(rs[i], p);
        if hit {
          assert RuleAllows(rules, p);
          ct.Track(k, now);
          return true;
        }
      }
      return false;
    }

    method AllowInbound(srcIP: Addr, groups: seq<string>, port: Port, proto: Proto, now: Time) returns (ok: bool)
      requires Valid()
      modifies this`history, ct
      ensures Valid() && history == old(history) + [Put(Packet(Inbound, srcIP, groups, port, proto), now)]
      ensures ok <==> Allowed(rules, old(history), Packet(Inbound, srcIP, groups, port, proto))
      ensures (exists r | r in rules.inbound ::
                   && (r.proto == 0 || r.proto == proto) && (r.portAny || r.port == port)
                   && (r.groupAny || r.group in groups) && (r.cidrAny || Contains(r.cidr, srcIP))) ==> ok
      ensures old(history) == [] && ok ==>
                (exists r | r in rules.inbound ::
                   && (r.proto == 0 || r.proto == proto) && (r.portAny || r.port == port)
                   && (r.groupAny || r.group in groups) && (r.cidrAny || Contains(r.cidr, srcIP)))
    {
      var p := Packet(Inbound, srcIP, groups, port, proto);
      assert forall r :: r in rules.inbound && Matches(r, p) ==> r in For(rules, p.dir);
      ok := Scan(p, now);
    }

    method AllowOutbound(dstIP: Addr, groups: seq<string>, port: Port, proto: Proto, now: Time) returns (ok: bool)
      requires Valid()
      modifies this`history, ct
      ensures Valid() && history == old(history) + [Put(Packet(Outbound, dstIP, groups, port, proto), now)]
      ensures ok <==> Allowed(rules, old(history), Packet(Outbound, dstIP, groups, port, proto))
      ensures (exists r | r in rules.outbound ::
                   && (r.proto == 0 || r.proto == proto) && (r.portAny || r.port == port)
                   && (r.groupAny || r.group in groups) && (r.cidrAny || Contains(r.cidr, dstIP))) ==> ok
      ensures old(history) == [] && ok ==>
                (exists r | r in rules.outbound ::
                   && (r.proto == 0 || r.proto == proto) && (r.portAny || r.port == port)
                   && (r.groupAny || r.group in groups) && (r.cidrAny || Contains(r.cidr, dstIP)))
    {
      var p := Packet(Outbound, dstIP, groups, port, proto);
      assert forall r :: r in rules.outbound && Matches(r, p) ==> r in For(rules, p.dir);
      ok := Scan(p, now);
    }

    method ExpireWith(ts: Timeouts, now: Time)
      requires Valid()
      modifies this`history, ct
      ensures Valid() && history == old(history) + [Sweep(ts, now)]
      ensures forall k :: k in ct.seen <==>
                k in old(ct.seen)
                && now - old(ct.seen)[k] < if k.proto == 6 then ts.tcp else if k.proto == 17 then ts.udp else ts.other
    {
      ghost var before := ct.seen;
      ct.Expire(ts, now);
      ReflectsSweep(rules, history, before, ct.seen, ts, now);
      history := history + [Sweep(ts, now)];
    }

    /** One sweep with the default timeouts for every tick of the expiry ticker. */
    method RunExpiry(ticks: seq<Time>)
      requires Valid()
      modifies this`history, ct
      ensures Valid()
      ensures history == old(history) + seq(|ticks|, i requires 0 <= i < |ticks| =>
                Sweep(Timeouts(300_000_000_000, 30_000_000_000, 10_000_000_000), ticks[i]))
    {
      for i := 0 to |ticks|
        invariant Valid()
        invariant history == old(history) + seq(i, j requires 0 <= j < i => Sweep(DEFAULTS, ticks[j]))
      {
        ExpireWith(DEFAULTS, ticks[i]);
      }
    }
  }

  lemma TableIsEstablished(rules: Rules, es: seq<Event>, t: Table, k: ConnKey)
    requires Reflects(rules, es, t)
    ensures k in t <==> Established(rules, es, |es|, k)
  {
  }
}
