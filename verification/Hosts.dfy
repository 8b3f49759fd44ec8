/** Per-peer sessions and the table that finds them. */
module Hosts {
  import opened Words
  import opened Net
  import opened Crypto
  import opened ReplayBits
  import opened ReplaySpec

  /** The bitmap stands for the accepted counters: bit `p` is the counter `p` below the top. */
  ghost predicate Represents(w: Window, s: Seen) {
    && (forall c :: c in s.accepted ==> c <= s.top)
    && (forall p: nat :: p < SLOTS ==> (Marked(w, p) <==> p <= s.top && s.top - p in s.accepted))
  }

  /** Moving the window up to a new highest counter and marking it. */
  lemma Advance(w: Window, moved: Window, w': Window, s: Seen, c: nat)
    requires Represents(w, s) && s.top < c
    requires ShiftedBy(w, moved, c - s.top)
    requires w' == moved[0 := WithBit(moved[0], BitAmount(0))]
    ensures !Replayed(s, c) && Represents(w', Observe(s, c))
  {
    hide Marked, WithBit, BitAmount;
    var diff := c - s.top;
    forall p: nat | p < SLOTS
      ensures Marked(w', p) <==> p <= c && c - p in Observe(s, c).accepted
    {
      MarkOne(moved, w', 0, p);
      assert Marked(moved, p) <==> diff <= p && Marked(w, p - diff);
      assert diff <= p ==> s.top - (p - diff) == c - p;
    }
  }

  /** Marking a counter that falls inside the window. */
  lemma Fill(w: Window, w': Window, s: Seen, c: nat)
    requires Represents(w, s) && c <= s.top < c + SLOTS
    requires !Marked(w, s.top - c)
    requires var p := s.top - c; w' == w[p / 64 := WithBit(w[p / 64], BitAmount(p))]
    ensures !Replayed(s, c) && Represents(w', Observe(s, c))
  {
    hide Marked, WithBit, BitAmount;
    forall q: nat | q < SLOTS
      ensures Marked(w', q) <==> q <= s.top && s.top - q in Observe(s, c).accepted
    {
      MarkOne(w, w', s.top - c, q);
    }
  }

  lemma AfterNext(cs: seq<nat>, c: nat)
    ensures After(cs + [c]) == Observe(After(cs), c)
    ensures Passes(cs + [c], |cs|) == !Replayed(After(cs), c)
  {
    assert (cs + [c])[..|cs|] == cs;
  }

  lemma NothingMarked(w: Window)
    requires forall i: nat :: i < WORDS ==> w[i] == 0
    ensures Represents(w, FRESH)
  {
    hide Marked;
    AllShiftedOut(w, w, SLOTS);
  }

  class HostInfo {
    const vpnIP: Addr
    const remote: UdpAddr
    const index: u32
    const remoteIndex: u32
    const sendKey: Key
    const recvKey: Key
    const cert: Cert
    var counter: u64
    ghost var sends: seq<Payload>  // every plaintext ever sent on the session, in order
    var windowEnd: u64
    const window: array<bv64>
    ghost var arrivals: seq<nat>  // every counter ever put to CheckReplay, in order

    ghost predicate Valid()
      reads this, window
    {
      && window.Length == WORDS && windowEnd == After(arrivals).top && Represents(window[..], After(arrivals))
      && counter == |sends| % U64_SIZE
    }

    constructor (vpnIP: Addr, remote: UdpAddr, index: u32, remoteIndex: u32, ciphers: CipherPair, cert: Cert)
      ensures Valid() && fresh(window) && arrivals == [] && sends == [] && counter == 0
      ensures this.vpnIP == vpnIP && this.remote == remote && this.index == index && this.remoteIndex == remoteIndex
      ensures sendKey == ciphers.send && recvKey == ciphers.recv && this.cert == cert
    {
      this.vpnIP, this.remote, this.index, this.remoteIndex := vpnIP, remote, index, remoteIndex;
      sendKey, recvKey, this.cert := ciphers.send, ciphers.recv, cert;
      counter, sends, windowEnd, arrivals := 0, [], 0, [];
      window := new bv64[WORDS](_ => 0);
      new;
      NothingMarked(window[..]);
    }

    /** True when the counter must be turned away; otherwise the counter is marked. Over the
        whole life of a session a counter is turned away exactly when it passed before or a
        counter at least 4096 higher did. */
    method CheckReplay(c: u64) returns (replay: bool)
      requires Valid()
      modifies this`windowEnd, this`arrivals, window
      ensures Valid() && arrivals == old(arrivals) + [c]
      ensures replay == !Passes(arrivals, |old(arrivals)|)
      ensures replay <==> PassedAtOrBeyond(old(arrivals), c)
      ensures replay <==> exists j: nat :: j < |old(arrivals)| && Passes(old(arrivals), j)
                            && (old(arrivals)[j] == c || old(arrivals)[j] >= c + 4096)
    {
      hide Marked, WithBit, BitAmount, IsSet, ShiftedBy, After, Passes;
      ghost var before: Window, past := window[..], After(arrivals);
      TurnedAwayExactly(arrivals, c);
      AfterNext(arrivals, c);
      arrivals := arrivals + [c];
      var end := windowEnd;
      if c > end {
        var diff := c - end;
        if diff >= SLOTS {
          forall i | 0 <= i < WORDS { window[i] := 0; }
          AllShiftedOut(before, window[..], diff);
        } else {
          ShiftWindow(window, diff);
        }
        ghost var moved: Window := window[..];
        windowEnd := c;
        window[0] := WithBit(window[0], BitAmount(0));
        Advance(before, moved, window[..], past, c);
        return false;
      }
      if end - c >= SLOTS {
        return true;
      }
      var pos := end - c;
      var word := pos / 64;
      var bit := BitAmount(pos);
      MarkedReads(before, pos);
      if IsSet(window[word], bit) {
        return true;
      }
      window[word] := WithBit(window[word], bit);
      Fill(before, window[..], past, c);
      return false;
    }
  }

  // ---------- The host table ----------

  datatype Op = Added(host: HostInfo) | Removed(ip: Addr)

  /** The host last added at `ip`, unless it was removed since. */
  function FoundByIp(ops: seq<Op>, ip: Addr): HostInfo? {
    if ops == [] then null
    else match ops[|ops| - 1]
      case Added(h) => if h.vpnIP == ip then h else FoundByIp(ops[..|ops| - 1], ip)
      case Removed(r) => if r == ip then null else FoundByIp(ops[..|ops| - 1], ip)
  }

  /** The host last added under `i`, unless a later removal hit an address whose current host
      had that index. */
  function FoundByIndex(ops: seq<Op>, i: u32): HostInfo? {
    if ops == [] then null
    else
      var past := ops[..|ops| - 1];
      match ops[|ops| - 1]
      case Added(h) => if h.index == i then h else FoundByIndex(past, i)
      case Removed(r) =>
        var h := FoundByIp(past, r);
        if h != null && h.index == i then null else FoundByIndex(past, i)
  }

  /** Every host ever added. */
  ghost function AddedIn(ops: seq<Op>): set<HostInfo> {
    set op | op in ops && op.Added? :: op.host
  }

  lemma AddedInNext(ops: seq<Op>, op: Op)
    ensures AddedIn(ops + [op]) == AddedIn(ops) + if op.Added? then {op.host} else {}
  {
    assert forall o :: o in ops + [op] <==> o in ops || o == op;
    if op.Added? {
      assert op in ops + [op];
    }
  }

  /** What is found was added. */
  lemma {:induction false} FoundIsAdded(ops: seq<Op>, ip: Addr, i: u32)
    ensures var h := FoundByIp(ops, ip); h != null ==> h in AddedIn(ops) && h.vpnIP == ip
    ensures var h := FoundByIndex(ops, i); h != null ==> h in AddedIn(ops) && h.index == i
  {
    if ops != [] {
      var n := |ops| - 1;
      FoundIsAdded(ops[..n], ip, i);
      assert ops == ops[..n] + [ops[n]];
      AddedInNext(ops[..n], ops[n]);
    }
  }

  /** Operation `k` is the last word on address `ip`: it added `h` there, and nothing after it
      added or removed at that address. */
  ghost predicate LastAtIp(ops: seq<Op>, k: nat, ip: Addr, h: HostInfo) {
    && k < |ops| && ops[k] == Added(h) && h.vpnIP == ip
    && forall j: nat :: k < j < |ops| ==> if ops[j].Added? then ops[j].host.vpnIP != ip else ops[j].ip != ip
  }

  /** Operation `j` removes whatever is found under index `i`. */
  predicate Unindexes(ops: seq<Op>, j: nat, i: u32)
    requires j < |ops|
  {
    ops[j].Removed? && var h := FoundByIp(ops[..j], ops[j].ip); h != null && h.index == i
  }

  /** Operation `k` is the last word on index `i`. */
  ghost predicate LastAtIndex(ops: seq<Op>, k: nat, i: u32, h: HostInfo) {
    && k < |ops| && ops[k] == Added(h) && h.index == i
    && forall j: nat :: k < j < |ops| ==> !Unindexes(ops, j, i) && (ops[j].Added? ==> ops[j].host.index != i)
  }

  lemma {:induction false} ByIpExactly(ops: seq<Op>, ip: Addr, h: HostInfo)
    ensures FoundByIp(ops, ip) == h <==> exists k: nat :: LastAtIp(ops, k, ip, h)
  {
    if ops != [] {
      var n := |ops| - 1;
      var past := ops[..n];
      ByIpExactly(past, ip, h);
      if FoundByIp(ops, ip) == h {
        if ops[n].Added? && ops[n].host.vpnIP == ip {
          assert LastAtIp(ops, n, ip, h);
        } else {
          var k: nat :| LastAtIp(past, k, ip, h);
          assert LastAtIp(ops, k, ip, h);
        }
      }
      if k: nat :| LastAtIp(ops, k, ip, h) {
        if k < n {
          assert LastAtIp(past, k, ip, h);
        }
      }
    }
  }

  lemma {:induction false} ByIndexExactly(ops: seq<Op>, i: u32, h: HostInfo)
    ensures FoundByIndex(ops, i) == h <==> exists k: nat :: LastAtIndex(ops, k, i, h)
  {
    if ops != [] {
      var n := |ops| - 1;
      var past := ops[..n];
      ByIndexExactly(past, i, h);
      assert forall j: nat :: j < n ==> past[..j] == ops[..j];
      assert forall j: nat :: j < n ==> Unindexes(past, j, i) == Unindexes(ops, j, i);
      if FoundByIndex(ops, i) == h {
        if ops[n].Added? && ops[n].host.index == i {
          assert LastAtIndex(ops, n, i, h);
        } else {
          var k: nat :| LastAtIndex(past, k, i, h);
          assert LastAtIndex(ops, k, i, h);
        }
      }
      if k: nat :| LastAtIndex(ops, k, i, h) {
        if k < n {
          assert LastAtIndex(past, k, i, h);
        }
      }
    }
  }

  /** No two different hosts were ever added under the same index. */
  ghost predicate DistinctIndices(ops: seq<Op>) {
    forall a: nat, b: nat | a < |ops| && b < |ops| && ops[a].Added? && ops[b].Added? ::
      ops[a].host.index == ops[b].host.index ==> ops[a].host == ops[b].host
  }

  lemma {:induction false} FoundWasAdded(ops: seq<Op>, ip: Addr)
    ensures var h := FoundByIp(ops, ip); h != null ==> h.vpnIP == ip && exists k: nat :: k < |ops| && ops[k] == Added(h)
  {
    var h := FoundByIp(ops, ip);
    if h != null {
      ByIpExactly(ops, ip, h);
    }
  }

  /** With distinct indices, a host found by address is also found by its own index. */
  lemma {:induction false} FoundBothWays(ops: seq<Op>, ip: Addr)
    requires DistinctIndices(ops)
    ensures var h := FoundByIp(ops, ip); h != null ==> FoundByIndex(ops, h.index) == h
  {
    var h := FoundByIp(ops, ip);
    if ops != [] && h != null {
      var n := |ops| - 1;
      var past := ops[..n];
      FoundWasAdded(ops, ip);
      FoundBothWays(past, ip);
      if ops[n].Removed? {
        var gone := FoundByIp(past, ops[n].ip);
        if gone != null {
          FoundWasAdded(past, ops[n].ip);
        }
      }
    }
  }

  /** A host that another one has replaced at its address. */
  predicate Superseded(ops: seq<Op>, h: HostInfo) {
    FoundByIp(ops, h.vpnIP) != h
  }

  /** A superseded session is never cleaned up: with distinct indices it stays reachable by its
      index whatever is added or removed later, as long as it is not itself added again. */
  lemma {:induction false} SupersededStaysReachable(ops: seq<Op>, more: seq<Op>, h: HostInfo)
    requires DistinctIndices(ops + more)
    requires FoundByIndex(ops, h.index) == h && Superseded(ops, h) && Added(h) !in more
    ensures FoundByIndex(ops + more, h.index) == h && Superseded(ops + more, h)
  {
    if more == [] {
      assert ops + more == ops;
    } else {
      var n := |more| - 1;
      var all := ops + more;
      assert all[..|all| - 1] == ops + more[..n];
      SupersededStaysReachable(ops, more[..n], h);
      ByIndexExactly(ops, h.index, h);
      var k: nat :| LastAtIndex(ops, k, h.index, h);
      assert all[k] == Added(h) && all[|all| - 1] == more[n];
      if more[n].Removed? && FoundByIp(ops + more[..n], more[n].ip) != null {
        FoundWasAdded(ops + more[..n], more[n].ip);
        var gone := FoundByIp(ops + more[..n], more[n].ip);
        var g: nat :| g < |ops + more[..n]| && (ops + more[..n])[g] == Added(gone);
        assert all[g] == Added(gone);
      }
    }
  }

  /** Closing a tunnel through a session's own index takes that session down exactly when it has
      not been superseded. */
  lemma CloseReachesOwnExactly(ops: seq<Op>, h: HostInfo)
    requires DistinctIndices(ops) && FoundByIndex(ops, h.index) == h
    ensures var ops' := ops + [Removed(h.vpnIP)]; FoundByIndex(ops', h.index) == null <==> !Superseded(ops, h)
  {
    var more := [Removed(h.vpnIP)];
    assert (ops + more)[..|ops|] == ops;
    if Superseded(ops, h) {
      SupersededStaysReachable(ops, more, h);
    }
  }

  /** What a removal at a session's address leaves to be found. */
  lemma AfterClose(ops: seq<Op>, h: HostInfo, i: u32)
    requires FoundByIndex(ops, i) == h
    ensures var ops' := ops + [Removed(h.vpnIP)];
            && FoundByIp(ops', h.vpnIP) == null
            && (forall ip :: ip != h.vpnIP ==> FoundByIp(ops', ip) == FoundByIp(ops, ip))
            && (DistinctIndices(ops) ==> (FoundByIndex(ops', h.index) == null <==> FoundByIp(ops, h.vpnIP) == h))
  {
    hide DistinctIndices;
    assert (ops + [Removed(h.vpnIP)])[..|ops|] == ops;
    FoundIsAdded(ops, NoAddr, i);
    if DistinctIndices(ops) {
      CloseReachesOwnExactly(ops, h);
    }
  }

  /** Closing a tunnel through the index of a superseded session takes down the session that
      replaced it, and leaves the superseded one reachable. */
  lemma ClosingOldIndexDropsCurrent(ops: seq<Op>, stale: HostInfo, current: HostInfo)
    requires DistinctIndices(ops) && FoundByIndex(ops, stale.index) == stale
    requires FoundByIp(ops, stale.vpnIP) == current && current != stale
    ensures var ops' := ops + [Removed(stale.vpnIP)];
            FoundByIp(ops', stale.vpnIP) == null && FoundByIndex(ops', current.index) == null
            && FoundByIndex(ops', stale.index) == stale
  {
    var more := [Removed(stale.vpnIP)];
    assert (ops + more)[..|ops|] == ops;
    SupersededStaysReachable(ops, more, stale);
  }

  class HostMap {
    var byVpnIP: map<Addr, HostInfo>
    var byIndex: map<u32, HostInfo>
    ghost var history: seq<Op>
    ghost var all: set<HostInfo>  // every host ever added

    ghost predicate Valid()
      reads this
    {
      && all == AddedIn(history)
      && (forall ip :: (if ip in byVpnIP then byVpnIP[ip] else null) == FoundByIp(history, ip))
      && (forall i: u32 :: (if i in byIndex then byIndex[i] else null) == FoundByIndex(history, i))
    }

    constructor ()
      ensures Valid() && history == [] && all == {} && byVpnIP == map[] && byIndex == map[]
    {
      byVpnIP, byIndex, history, all := map[], map[], [], {};
    }

    method Add(h: HostInfo)
      requires Valid()
      modifies this
      ensures Valid() && history == old(history) + [Added(h)] && all == old(all) + {h}
      ensures byVpnIP == old(byVpnIP)[h.vpnIP := h] && byIndex == old(byIndex)[h.index := h]
    {
      byVpnIP := byVpnIP[h.vpnIP := h];
      byIndex := byIndex[h.index := h];
      AddedInNext(history, Added(h));
      history, all := history + [Added(h)], all + {h};
      assert history[..|history| - 1] == old(history);
    }

    method GetByVpnIP(ip: Addr) returns (h: HostInfo?)
      requires Valid()
      ensures h == FoundByIp(history, ip)
    {
      h := if ip in byVpnIP then byVpnIP[ip] else null;
    }

    method GetByIndex(i: u32) returns (h: HostInfo?)
      requires Valid()
      ensures h == FoundByIndex(history, i)
    {
      h := if i in byIndex then byIndex[i] else null;
    }

    method Remove(ip: Addr)
      requires Valid()
      modifies this
      ensures Valid() && history == old(history) + [Removed(ip)] && all == old(all)
      ensures byVpnIP == old(byVpnIP) - {ip}
      ensures byIndex == if ip in old(byVpnIP) then old(byIndex) - {old(byVpnIP)[ip].index} else old(byIndex)
    {
      if ip in byVpnIP {
        byIndex := byIndex - {byVpnIP[ip].index};
      }
      byVpnIP := byVpnIP - {ip};
      AddedInNext(history, Removed(ip));
      history := history + [Removed(ip)];
      assert history[..|history| - 1] == old(history);
    }
  }

  /** A leak happens: a second handshake with the same peer, then a close through the index of the
      first session. The first session is still found; the second is not. */
  method RehandshakeLeaks(ip: Addr, remote: UdpAddr, ciphers: CipherPair, cert: Cert)
    returns (table: HostMap, stale: HostInfo, current: HostInfo)
    ensures table.Valid() && table.history == [Added(stale), Added(current), Removed(ip)]
    ensures stale.vpnIP == current.vpnIP == ip && stale.index == 7 && current.index == 8
    ensures FoundByIndex(table.history, 7) == stale
    ensures FoundByIp(table.history, ip) == null && FoundByIndex(table.history, 8) == null
  {
    table := new HostMap();
    stale := new HostInfo(ip, remote, 7, 70, ciphers, cert);
    current := new HostInfo(ip, remote, 8, 80, ciphers, cert);
    table.Add(stale);
    table.Add(current);
    table.Remove(ip);
  }
}
