/** What replay detection means: a set of accepted counters and the highest of them.
    The bitmap of `ReplayBits` is only a fast form of this. */
module ReplaySpec {
  import opened ReplayBits

  datatype Seen = Seen(accepted: set<nat>, top: nat)

  const FRESH := Seen({}, 0)

  /** A counter is turned away if it was accepted before or is 4096 or more behind. */
  predicate Replayed(s: Seen, c: nat) {
    c in s.accepted || c + SLOTS <= s.top
  }

  function Observe(s: Seen, c: nat): Seen {
    if Replayed(s, c) then s else Seen(s.accepted + {c}, if s.top < c then c else s.top)
  }

  /** The state after a whole sequence of arrivals on a new session. */
  function After(cs: seq<nat>): Seen {
    if cs == [] then FRESH else Observe(After(cs[..|cs| - 1]), cs[|cs| - 1])
  }

  /** Arrival `i` of `cs` passes the replay check. */
  predicate Passes(cs: seq<nat>, i: nat)
    requires i < |cs|
  {
    !Replayed(After(cs[..i]), cs[i])
  }

  lemma PassesInPrefix(cs: seq<nat>, n: nat, i: nat)
    requires i < n <= |cs|
    ensures Passes(cs[..n], i) == Passes(cs, i)
  {
    assert cs[..n][..i] == cs[..i];
  }

  /** The state is exactly the history: the counters that passed, and their maximum. */
  lemma {:induction false} AfterIsHistory(cs: seq<nat>)
    ensures forall c :: c in After(cs).accepted <==> exists i: nat :: i < |cs| && Passes(cs, i) && cs[i] == c
    ensures forall c :: c in After(cs).accepted ==> c <= After(cs).top
    ensures After(cs).top == 0 || After(cs).top in After(cs).accepted
  {
    if cs != [] {
      var n := |cs| - 1;
      AfterIsHistory(cs[..n]);
      forall c
        ensures c in After(cs).accepted <==> exists i: nat :: i < |cs| && Passes(cs, i) && cs[i] == c
      {
        if c in After(cs).accepted {
          if c in After(cs[..n]).accepted {
            var i: nat :| i < n && Passes(cs[..n], i) && cs[..n][i] == c;
            PassesInPrefix(cs, n, i);
          } else {
            assert Passes(cs, n);
          }
        }
        if i: nat :| i < |cs| && Passes(cs, i) && cs[i] == c {
          if i < n {
            PassesInPrefix(cs, n, i);
            assert cs[..n][i] == c;
          }
        }
      }
    }
  }

  /** Among the arrivals that passed is `c` itself, or one at least 4096 higher. */
  ghost predicate PassedAtOrBeyond(cs: seq<nat>, c: nat) {
    exists i: nat :: i < |cs| && Passes(cs, i) && (cs[i] == c || c + SLOTS <= cs[i])
  }

  /** A counter is turned away exactly when it already passed, or some counter at least
      4096 higher already passed. */
  lemma TurnedAwayExactly(cs: seq<nat>, c: nat)
    ensures Replayed(After(cs), c) <==> PassedAtOrBeyond(cs, c)
  {
    AfterIsHistory(cs);
    hide After, Passes;
    var s := After(cs);
    if Replayed(s, c) {
      var d := if c in s.accepted then c else s.top;
      assert d in s.accepted;
      var i: nat :| i < |cs| && Passes(cs, i) && cs[i] == d;
    }
    if i: nat :| i < |cs| && Passes(cs, i) && (cs[i] == c || c + SLOTS <= cs[i]) {
      assert cs[i] in s.accepted;
    }
  }

  lemma NeverTwice(cs: seq<nat>, i: nat, j: nat)
    requires i < j < |cs| && Passes(cs, i) && Passes(cs, j)
    ensures cs[i] != cs[j]
  {
    PassesInPrefix(cs, j, i);
    TurnedAwayExactly(cs[..j], cs[j]);
    assert cs[..j][i] == cs[i];
  }

  /** No arrival trails an earlier one by 4096 or more. */
  ghost predicate WithinWindow(cs: seq<nat>) {
    forall i: nat, j: nat :: i < j < |cs| ==> cs[i] < cs[j] + SLOTS
  }

  /** With bounded reordering, the first copy of every counter passes and no other copy does. */
  lemma FirstCopiesPass(cs: seq<nat>, j: nat)
    requires WithinWindow(cs) && j < |cs|
    ensures Passes(cs, j) <==> cs[j] !in cs[..j]
    decreases j
  {
    var earlier := cs[..j];
    TurnedAwayExactly(earlier, cs[j]);
    if cs[j] in earlier {
      var i: nat :| i < j && earlier[i] == cs[j] && cs[j] !in cs[..i] by {
        FirstOccurrence(cs, cs[j], j);
      }
      FirstCopiesPass(cs, i);
      PassesInPrefix(cs, j, i);
    }
  }

  lemma FirstOccurrence(cs: seq<nat>, c: nat, n: nat)
    requires n <= |cs| && c in cs[..n]
    ensures exists i: nat :: i < n && cs[i] == c && c !in cs[..i]
  {
    var i: nat :| i < n && cs[i] == c;
    if c in cs[..i] {
      FirstOccurrence(cs, c, i);
    }
  }

  ghost predicate Distinct(cs: seq<nat>) {
    forall i: nat, j: nat :: i < j < |cs| ==> cs[i] != cs[j]
  }

  /** Distinct counters all pass exactly when the reordering stays below 4096. */
  lemma AllPassExactly(cs: seq<nat>)
    requires Distinct(cs)
    ensures (forall j: nat :: j < |cs| ==> Passes(cs, j)) <==> WithinWindow(cs)
  {
    if WithinWindow(cs) {
      forall j: nat | j < |cs|
        ensures Passes(cs, j)
      {
        FirstCopiesPass(cs, j);
      }
    }
    if forall j: nat :: j < |cs| ==> Passes(cs, j) {
      forall i: nat, j: nat | i < j < |cs|
        ensures cs[i] < cs[j] + SLOTS
      {
        assert Passes(cs, i) && Passes(cs, j);
        PassesInPrefix(cs, j, i);
        TurnedAwayExactly(cs[..j], cs[j]);
        assert cs[..j][i] == cs[i];
      }
    }
  }
}
