/** The 4096-slot replay bitmap of a session, kept as 64 words of 64 bits, and the
    in-place shift that advances it. */
module ReplayBits {

  const WORDS := 64
  const SLOTS := 4096

  type Window = w: seq<bv64> | |w| == WORDS witness seq(WORDS, _ => 0)

  predicate TestBit(w: bv64, b: bv6) {
    (w >> b) & 1 == 1
  }

  /** Bit `p` of the whole bitmap, counting from bit 0 of word 0. */
  predicate Marked(w: Window, p: nat)
    requires p < SLOTS
  {
    TestBit(w[p / 64], (p % 64) as bv6)
  }

  /** `w'` is `w` moved up by `n` positions: zeros enter at the bottom and whatever
      passes position 4095 is lost. */
  ghost predicate ShiftedBy(w: Window, w': Window, n: nat) {
    forall p: nat :: p < SLOTS ==> (Marked(w', p) <==> n <= p && Marked(w, p - n))
  }

  // ---------- Positions: word `i`, bit `b` ----------

  function Position(i: nat, b: bv6): nat {
    64 * i + (b as nat)
  }

  lemma PositionOf(p: nat)
    ensures Position(p / 64, (p % 64) as bv6) == p
  {
    hide Position;
    PositionUnfold(p / 64, (p % 64) as bv6);
    IndexValue(p % 64);
  }

  lemma IndexValue(n: nat)
    requires n < 64
    ensures (n as bv6) as nat == n
  {
  }

  lemma PositionParts(i: nat, b: bv6)
    ensures Position(i, b) / 64 == i && (Position(i, b) % 64) as bv6 == b
  {
    assert (b as nat) < 64;
    assert (b as nat) as bv6 == b;
  }

  lemma MarkedAt(w: Window, i: nat, b: bv6)
    requires i < WORDS
    ensures Position(i, b) < SLOTS && (Marked(w, Position(i, b)) <==> TestBit(w[i], b))
  {
    hide TestBit;
    PositionParts(i, b);
  }

  lemma PositionInWord(i: nat, b: bv6, s: bv6)
    requires s <= b
    ensures Position(i, b - s) == Position(i, b) - (s as nat)
  {
  }

  lemma PositionInWordBelow(i: nat, b: bv6, s: bv6)
    requires b < s && 0 < i
    ensures Position(i - 1, b - s) == Position(i, b) - (s as nat)
  {
    hide Position;
    IndexWraps(b, s);
    PositionUnfold(i - 1, b - s);
    PositionUnfold(i, b);
  }

  lemma PositionUnfold(i: nat, b: bv6)
    ensures Position(i, b) == 64 * i + (b as nat)
  {
  }

  lemma IndexWraps(b: bv6, s: bv6)
    requires b < s
    ensures (b - s) as nat == 64 + (b as nat) - (s as nat)
  {
  }

  lemma PositionUnderflow(b: bv6, s: bv6)
    requires b < s
    ensures Position(0, b) < s as nat
  {
  }

  // ---------- Bits of one shifted word; the ranges of `s` keep each query small ----------

  lemma LeftShiftBelow(x: bv64, s: bv6, b: bv6)
    requires b < s
    ensures !TestBit(x << s, b)
  {
  }

  lemma LeftShiftUpTo16(x: bv64, s: bv6, b: bv6)
    requires s <= b && s < 16
    ensures TestBit(x << s, b) <==> TestBit(x, b - s)
  {
  }

  lemma LeftShiftUpTo32(x: bv64, s: bv6, b: bv6)
    requires s <= b && 16 <= s < 32
    ensures TestBit(x << s, b) <==> TestBit(x, b - s)
  {
  }

  lemma LeftShiftUpTo64(x: bv64, s: bv6, b: bv6)
    requires s <= b && 32 <= s
    ensures TestBit(x << s, b) <==> TestBit(x, b - s)
  {
  }

  lemma LeftShift(x: bv64, s: bv6, b: bv6)
    ensures TestBit(x << s, b) <==> s <= b && TestBit(x, b - s)
  {
    if b < s {
      LeftShiftBelow(x, s, b);
    } else if s < 16 {
      LeftShiftUpTo16(x, s, b);
    } else if s < 32 {
      LeftShiftUpTo32(x, s, b);
    } else {
      LeftShiftUpTo64(x, s, b);
    }
  }

  lemma CarryAbove(y: bv64, s: bv6, b: bv6)
    requires 0 < s <= b
    ensures !TestBit(y >> (64 - (s as bv64)), b)
  {
  }

  lemma CarryUpTo32(y: bv64, s: bv6, b: bv6)
    requires b < s < 32
    ensures TestBit(y >> (64 - (s as bv64)), b) <==> TestBit(y, b - s)
  {
  }

  lemma CarryUpTo48(y: bv64, s: bv6, b: bv6)
    requires b < s && 32 <= s < 48
    ensures TestBit(y >> (64 - (s as bv64)), b) <==> TestBit(y, b - s)
  {
  }

  lemma CarryUpTo64(y: bv64, s: bv6, b: bv6)
    requires b < s && 48 <= s
    ensures TestBit(y >> (64 - (s as bv64)), b) <==> TestBit(y, b - s)
  {
  }

  /** The bits that leave the top of a word enter the bottom of the next one. */
  lemma Carry(y: bv64, s: bv6, b: bv6)
    requires 0 < s
    ensures TestBit(y >> (64 - (s as bv64)), b) <==> b < s && TestBit(y, b - s)
  {
    if s <= b {
      CarryAbove(y, s, b);
    } else if s < 32 {
      CarryUpTo32(y, s, b);
    } else if s < 48 {
      CarryUpTo48(y, s, b);
    } else {
      CarryUpTo64(y, s, b);
    }
  }

  lemma OrBit(x: bv64, y: bv64, b: bv6)
    ensures TestBit(x | y, b) <==> TestBit(x, b) || TestBit(y, b)
  {
  }

  predicate IsSet(x: bv64, b: bv6) {
    x & (1 << b) != 0
  }

  function WithBit(x: bv64, b: bv6): bv64 {
    x | (1 << b)
  }

  lemma IsSetTests(x: bv64, b: bv6)
    ensures IsSet(x, b) <==> TestBit(x, b)
  {
  }

  lemma WithBitSets(x: bv64, b: bv6, c: bv6)
    ensures TestBit(WithBit(x, b), c) <==> b == c || TestBit(x, c)
  {
  }

  lemma ZeroBit(b: bv6)
    ensures !TestBit(0, b)
  {
  }

  // ---------- The two phases of the shift ----------

  /** Word `i` after every word moved up by `k` places. */
  function MovedWord(w: Window, k: nat, i: nat): bv64
    requires i < WORDS
  {
    if i < k then 0 else w[i - k]
  }

  /** Word `i` after a shift by fewer than 64 bits, with the carry from the word below. */
  function CarriedWord(w: Window, s: bv6, i: nat): bv64
    requires 0 < s && i < WORDS
  {
    if i == 0 then ShiftUp(w[0], s) else ShiftIn(w[i], w[i - 1], s)
  }

  function ShiftUp(x: bv64, s: bv6): bv64 {
    x << s
  }

  function ShiftIn(x: bv64, below: bv64, s: bv6): bv64
    requires 0 < s
  {
    (x << s) | (below >> (64 - (s as bv64)))
  }

  lemma WordPhase(w: Window, w': Window, k: nat)
    requires forall i: nat :: i < WORDS ==> w'[i] == MovedWord(w, k, i)
    ensures ShiftedBy(w, w', 64 * k)
  {
    hide TestBit;
    forall p: nat | p < SLOTS
      ensures Marked(w', p) <==> 64 * k <= p && Marked(w, p - 64 * k)
    {
      assert w'[p / 64] == MovedWord(w, k, p / 64);
      if p / 64 < k {
        ZeroBit((p % 64) as bv6);
      } else {
        assert (p - 64 * k) / 64 == p / 64 - k && (p - 64 * k) % 64 == p % 64;
      }
    }
  }

  lemma ShiftUpBit(x: bv64, s: bv6, b: bv6)
    ensures TestBit(ShiftUp(x, s), b) <==> s <= b && TestBit(x, b - s)
  {
    hide TestBit;
    LeftShift(x, s, b);
  }

  lemma MergedBit(x: bv64, below: bv64, s: bv6, b: bv6)
    requires 0 < s
    ensures TestBit((x << s) | (below >> (64 - (s as bv64))), b)
       <==> (s <= b && TestBit(x, b - s)) || (b < s && TestBit(below, b - s))
  {
    LeftShift(x, s, b);
    Carry(below, s, b);
    OrBit(x << s, below >> (64 - (s as bv64)), b);
  }

  lemma ShiftInBit(x: bv64, below: bv64, s: bv6, b: bv6)
    requires 0 < s
    ensures TestBit(ShiftIn(x, below, s), b)
       <==> (s <= b && TestBit(x, b - s)) || (b < s && TestBit(below, b - s))
  {
    hide TestBit;
    MergedBit(x, below, s, b);
  }

  lemma CarriedBit(w: Window, s: bv6, i: nat, b: bv6)
    requires 0 < s && i < WORDS
    ensures s <= b ==> (TestBit(CarriedWord(w, s, i), b) <==> TestBit(w[i], b - s))
    ensures b < s ==> (TestBit(CarriedWord(w, s, i), b) <==> 0 < i && TestBit(w[i - 1], b - s))
  {
    hide TestBit, ShiftIn, ShiftUp;
    if i == 0 {
      ShiftUpBit(w[0], s, b);
    } else {
      ShiftInBit(w[i], w[i - 1], s, b);
    }
  }

  /** Bit `b` of carried word `i` comes from `s` positions further down the bitmap. */
  lemma CarriedMark(w: Window, s: bv6, i: nat, b: bv6)
    requires 0 < s && i < WORDS
    ensures TestBit(CarriedWord(w, s, i), b)
       <==> (s as nat) <= Position(i, b) < SLOTS + (s as nat) && Marked(w, Position(i, b) - (s as nat))
  {
    hide TestBit, Marked, Position, CarriedWord;
    CarriedBit(w, s, i, b);
    if s <= b {
      PositionInWord(i, b, s);
      MarkedAt(w, i, b - s);
    } else if 0 < i {
      PositionInWordBelow(i, b, s);
      MarkedAt(w, i - 1, b - s);
    } else {
      PositionUnderflow(b, s);
    }
  }

  lemma BitPhase(w: Window, w': Window, s: bv6)
    requires 0 < s
    requires forall i: nat :: i < WORDS ==> w'[i] == CarriedWord(w, s, i)
    ensures ShiftedBy(w, w', s as nat)
  {
    hide TestBit, CarriedWord, Position;
    forall p: nat | p < SLOTS
      ensures Marked(w', p) <==> (s as nat) <= p && Marked(w, p - (s as nat))
    {
      PositionOf(p);
      CarriedMark(w, s, p / 64, (p % 64) as bv6);
    }
  }

  lemma ShiftsAdd(w: Window, mid: Window, w': Window, m: nat, n: nat)
    requires ShiftedBy(w, mid, m) && ShiftedBy(mid, w', n)
    ensures ShiftedBy(w, w', m + n)
  {
    forall p: nat | p < SLOTS
      ensures Marked(w', p) <==> m + n <= p && Marked(w, p - (m + n))
    {
      if n <= p {
        assert Marked(mid, p - n) <==> m <= p - n && Marked(w, p - n - m);
        assert p - n - m == p - (m + n);
      }
    }
  }

  // ---------- Reading and setting one position ----------

  function BitAmount(n: nat): bv6 {
    (n % 64) as bv6
  }

  lemma MarkedReads(w: Window, p: nat)
    requires p < SLOTS
    ensures Marked(w, p) <==> IsSet(w[p / 64], BitAmount(p))
  {
    hide TestBit, IsSet;
    IsSetTests(w[p / 64], BitAmount(p));
  }

  lemma {:induction false} MarkOne(w: Window, w': Window, p: nat, q: nat)
    requires p < SLOTS && q < SLOTS
    requires w' == w[p / 64 := WithBit(w[p / 64], BitAmount(p))]
    ensures Marked(w', q) <==> q == p || Marked(w, q)
  {
    hide TestBit, WithBit, Position;
    var b, c := (p % 64) as bv6, (q % 64) as bv6;
    PositionOf(p);
    PositionOf(q);
    WithBitSets(w[p / 64], b, c);
  }

  // ---------- Words are their bits ----------

  lemma XorBit(x: bv64, y: bv64, b: bv6)
    ensures TestBit(x ^ y, b) <==> TestBit(x, b) != TestBit(y, b)
  {
  }

  lemma NextBitZero(z: bv64, b: bv6)
    requires 0 < b && z >> b == 0 && !TestBit(z, b - 1)
    ensures z >> (b - 1) == 0
  {
  }

  lemma {:induction false} NoBitsAbove(z: bv64, b: bv6)
    requires forall c: bv6 :: !TestBit(z, c)
    ensures z >> b == 0
    decreases 63 - b
  {
    if b == 63 {
      assert !TestBit(z, 63);
    } else {
      hide TestBit;
      NoBitsAbove(z, b + 1);
      NextBitZero(z, b + 1);
    }
  }

  lemma XorZero(x: bv64, y: bv64)
    requires (x ^ y) >> (0 as bv6) == 0
    ensures x == y
  {
  }

  lemma SameBits(x: bv64, y: bv64)
    requires forall c: bv6 :: TestBit(x, c) <==> TestBit(y, c)
    ensures x == y
  {
    hide TestBit;
    var z := x ^ y;
    forall c: bv6
      ensures !TestBit(z, c)
    {
      XorBit(x, y, c);
    }
    NoBitsAbove(z, 0);
    XorZero(x, y);
  }

  /** A shift by `n` has one result, so equal amounts of shifting give equal bitmaps. */
  lemma ShiftIsDetermined(w: Window, u: Window, v: Window, n: nat)
    requires ShiftedBy(w, u, n) && ShiftedBy(w, v, n)
    ensures u == v
  {
    hide TestBit, Marked, Position;
    forall i: nat | i < WORDS
      ensures u[i] == v[i]
    {
      forall b: bv6
        ensures TestBit(u[i], b) <==> TestBit(v[i], b)
      {
        MarkedAt(u, i, b);
        MarkedAt(v, i, b);
      }
      SameBits(u[i], v[i]);
    }
  }

  /** Shifting by `m` and then by `n` gives the very bitmap that shifting by `m + n` gives. */
  lemma ShiftTwice(w: Window, mid: Window, twice: Window, once: Window, m: nat, n: nat)
    requires ShiftedBy(w, mid, m) && ShiftedBy(mid, twice, n) && ShiftedBy(w, once, m + n)
    ensures twice == once
  {
    ShiftsAdd(w, mid, twice, m, n);
    ShiftIsDetermined(w, twice, once, m + n);
  }

  // ---------- The in-place shift ----------

  lemma AllShiftedOut(w: Window, w': Window, n: nat)
    requires SLOTS <= n
    requires forall i: nat :: i < WORDS ==> w'[i] == 0
    ensures ShiftedBy(w, w', n)
  {
    forall p: nat | p < SLOTS
      ensures !Marked(w', p)
    {
      ZeroBit((p % 64) as bv6);
    }
  }

  ghost predicate Carried(w: Window, w': Window, s: bv6) {
    if s == 0 then w' == w else forall i: nat :: i < WORDS ==> w'[i] == CarriedWord(w, s, i)
  }

  lemma BothPhases(w: Window, moved: Window, w': Window, n: nat)
    requires forall i: nat :: i < WORDS ==> moved[i] == MovedWord(w, n / 64, i)
    requires Carried(moved, w', BitAmount(n))
    ensures ShiftedBy(w, w', n)
  {
    hide TestBit, Marked, Position, CarriedWord;
    var s := (n % 64) as bv6;
    IndexValue(n % 64);
    WordPhase(w, moved, n / 64);
    if 0 < s {
      BitPhase(moved, w', s);
      ShiftsAdd(w, moved, w', 64 * (n / 64), s as nat);
    }
  }

  /** Whole words, from the top down so that no word is overwritten before it is read. */
  method MoveWords(w: array<bv64>, wordShift: nat)
    requires w.Length == WORDS
    modifies w
    ensures forall i: nat :: i < WORDS ==> w[i] == MovedWord(old(w[..]), wordShift, i)
  {
    var i := WORDS - 1;
    while i >= 0
      invariant -1 <= i < WORDS
      invariant forall k: nat :: i < k < WORDS ==> w[k] == MovedWord(old(w[..]), wordShift, k)
      invariant forall k: nat :: k <= i ==> w[k] == old(w[..])[k]
    {
      var src := i - wordShift;
      if src < 0 {
        w[i] := 0;
      } else {
        w[i] := w[src];
      }
      i := i - 1;
    }
  }

  /** Bits within words, again from the top down; the bottom word takes no carry. */
  method CarryBits(w: array<bv64>, bitShift: bv6)
    requires w.Length == WORDS && 0 < bitShift
    modifies w
    ensures forall i: nat :: i < WORDS ==> w[i] == CarriedWord(old(w[..]), bitShift, i)
  {
    hide ShiftIn, ShiftUp;
    var i := WORDS - 1;
    while i > 0
      invariant 0 <= i < WORDS
      invariant forall k: nat :: i < k < WORDS ==> w[k] == CarriedWord(old(w[..]), bitShift, k)
      invariant forall k: nat :: k <= i ==> w[k] == old(w[..])[k]
    {
      w[i] := ShiftIn(w[i], w[i - 1], bitShift);
      i := i - 1;
    }
    w[0] := ShiftUp(w[0], bitShift);
  }

  method ShiftWindow(w: array<bv64>, n: nat)
    requires w.Length == WORDS
    modifies w
    ensures ShiftedBy(old(w[..]), w[..], n)
  {
    hide TestBit, Marked, Position, BitAmount, ShiftedBy, CarriedWord, MovedWord;
    var wordShift := n / 64;
    var bitShift := BitAmount(n);
    if wordShift >= WORDS {
      forall i | 0 <= i < WORDS { w[i] := 0; }
      AllShiftedOut(old(w[..]), w[..], n);
      return;
    }
    MoveWords(w, wordShift);
    ghost var moved: Window := w[..];
    if bitShift > 0 {
      CarryBits(w, bitShift);
    }
    BothPhases(old(w[..]), moved, w[..], n);
  }
}
