/** The overwrite-oldest ring buffer, refined to a log of everything pushed. */
module RingBuffers {

  // ---------------------------------------------------------------- bit arithmetic

  function Pow2(k: nat): (p: nat)
    ensures p > 0
  {
    if k == 0 then 1 else 2 * Pow2(k - 1)
  }

  /** bits.Len64: the number of binary digits. */
  function BitLen(n: nat): nat {
    if n == 0 then 0 else 1 + BitLen(n / 2)
  }

  /** The bitwise and, digit by digit. */
  function And(a: nat, b: nat): nat {
    if a == 0 || b == 0 then 0 else 2 * And(a / 2, b / 2) + if a % 2 == 1 && b % 2 == 1 then 1 else 0
  }

  lemma {:induction false} BitLenBounds(n: nat)
    ensures n < Pow2(BitLen(n))
    ensures n > 0 ==> BitLen(n) > 0 && Pow2(BitLen(n) - 1) <= n
  {
    if n > 0 {
      BitLenBounds(n / 2);
    }
  }

  lemma {:induction false} AndOdd(a: nat, m: nat)
    requires a > 0
    ensures And(a, 2 * m + 1) == 2 * And(a / 2, m) + a % 2
  {
    assert (2 * m + 1) / 2 == m && (2 * m + 1) % 2 == 1;
  }

  /** A mask of k ones keeps the remainder modulo 2^k. */
  lemma {:induction false} MaskIsMod(a: nat, k: nat)
    ensures And(a, Pow2(k) - 1) == a % Pow2(k)
  {
    if a > 0 && k > 0 {
      MaskIsMod(a / 2, k - 1);
      MaskStep(a, Pow2(k - 1));
    } else if a == 0 {
      ModUnique(0, Pow2(k), 0, 0);
    }
  }

  lemma {:induction false} MaskStep(a: nat, p: nat)
    requires a > 0 && p > 0 && And(a / 2, p - 1) == a / 2 % p
    ensures And(a, 2 * p - 1) == a % (2 * p)
  {
    hide And;
    AndOdd(a, p - 1);
    HalveMod(a, p);
  }

  lemma {:induction false} HalveMod(a: nat, p: nat)
    requires p > 0
    ensures a % (2 * p) == 2 * (a / 2 % p) + a % 2
  {
    var q, r := a / 2 / p, a / 2 % p;
    assert a / 2 == p * q + r;
    assert a == 2 * (a / 2) + a % 2;
    assert a == (2 * p) * q + (2 * r + a % 2);
    ModUnique(a, 2 * p, q, 2 * r + a % 2);
  }

  lemma {:induction false} ModUnique(a: nat, d: nat, q: nat, r: nat)
    requires r < d && a == d * q + r
    ensures a % d == r && a / d == q
  {
    var k := a / d - q;
    assert a == d * (a / d) + a % d;
    assert d * k == r - a % d;
    Multiple(d, k);
  }

  lemma {:induction false} Multiple(d: nat, k: int)
    ensures k >= 1 ==> d * k >= d
    ensures k <= -1 ==> d * k + d <= 0
  {
    if k >= 1 {
      assert d * (k - 1) >= 0;
    } else if k <= -1 {
      assert d * (-1 - k) >= 0;
    }
  }

  lemma {:induction false} Pow2Monotone(j: nat, k: nat)
    requires j <= k
    ensures Pow2(j) <= Pow2(k)
  {
    if j < k {
      Pow2Monotone(j, k - 1);
    }
  }

  /** The rounded-up capacity is the least power of two that is at least max(1, capacity). */
  lemma {:induction false} CapacityLeast(capacity: int, j: nat)
    requires Pow2(j) >= capacity && Pow2(j) >= 1
    ensures RoundedUp(capacity) <= Pow2(j)
    ensures RoundedUp(capacity) >= capacity && RoundedUp(capacity) >= 1
  {
    var n := (if capacity < 1 then 1 else capacity) - 1;
    BitLenBounds(n);
    if n > 0 && j < BitLen(n) {
      Pow2Monotone(j, BitLen(n) - 1);
    } else {
      Pow2Monotone(BitLen(n), j);
    }
  }

  function RoundedUp(capacity: int): nat {
    Pow2(BitLen((if capacity < 1 then 1 else capacity) - 1))
  }

  // ---------------------------------------------------------------- arithmetic of the write counter

  const WORD: nat := 0x1_0000_0000_0000_0000

  lemma {:induction false} WordIsPow2()
    ensures Pow2(64) == WORD
  {
    hide Pow2;
    Pow2Of8();
    Pow2Add(8, 8);
    Pow2Add(16, 16);
    Pow2Add(32, 32);
  }

  lemma {:induction false} Pow2Of8()
    ensures Pow2(8) == 256
  {
    assert Pow2(4) == 16;
  }

  lemma {:induction false} Pow2Add(j: nat, k: nat)
    ensures Pow2(j + k) == Pow2(j) * Pow2(k)
  {
    if j > 0 {
      Pow2Add(j - 1, k);
      assert Pow2(j + k) == 2 * (Pow2(j - 1) * Pow2(k));
    }
  }

  lemma {:induction false} ModMultiple(p: nat, k: nat, x: nat)
    requires p > 0
    ensures (p * k + x) % p == x % p
  {
    var y, r := x / p, x % p;
    assert x == p * y + r;
    assert p * k + x == p * (k + y) + r;
    ModUnique(p * k + x, p, k + y, r);
  }

  /** With word = p * m, dropping whole words does not change the remainder modulo p. */
  lemma {:induction false} DropWords(word: nat, p: nat, m: nat, q: nat, x: nat)
    requires p > 0 && word == p * m
    ensures (word * q + x) % p == x % p
  {
    assert word * q == p * (m * q);
    ModMultiple(p, m * q, x);
  }

  lemma {:induction false} WordFactor(k: nat) returns (m: nat)
    requires k <= 64
    ensures WORD == Pow2(k) * m
  {
    hide Pow2;
    m := Pow2(64 - k);
    WordIsPow2();
    Pow2Add(k, 64 - k);
  }

  lemma {:induction false} Division(n: nat, word: nat)
    requires word > 0
    ensures n == word * (n / word) + n % word
  {
  }

  /** The mask sees no difference between the counter and its value modulo 2^64. */
  lemma {:induction false} WrapKeepsMask(n: nat, k: nat)
    requires k <= 64
    ensures n % WORD % Pow2(k) == n % Pow2(k)
  {
    hide Pow2;
    var m := WordFactor(k);
    Division(n, WORD);
    DropWords(WORD, Pow2(k), m, n / WORD, n % WORD);
  }

  lemma {:induction false} WrapStep(n: nat)
    ensures (n % WORD + 1) % WORD == (n + 1) % WORD
  {
  }

  function Min(a: nat, b: nat): nat {
    if a < b then a else b
  }

  /** The last n elements. */
  function Last<T>(s: seq<T>, n: nat): seq<T>
    requires n <= |s|
  {
    s[|s| - n..]
  }

  /** Two positions less than p apart share a slot only if they are equal. */
  lemma {:induction false} SlotsDistinct(a: nat, b: nat, p: nat)
    requires p > 0 && a <= b < a + p && a % p == b % p
    ensures a == b
  {
    var x, y := a / p, b / p;
    assert a == p * x + a % p && b == p * y + b % p;
    assert p * (y - x) == b - a;
    Multiple(p, y - x);
  }

  // ---------------------------------------------------------------- the buffer

  class RingBuffer<T(0)> {
    const events: array<T>
    const mask: nat
    var written: nat
    /** Everything ever pushed. */
    ghost var log: seq<T>
    ghost const bits: nat

    /** Slot i mod capacity holds push number i, for the last `capacity` pushes. The counter is a uint64. */
    ghost predicate Valid()
      reads this, events
    {
      && bits <= 63 && events.Length == Pow2(bits) && mask == Pow2(bits) - 1
      && written == |log| % WORD
      && forall i :: 0 <= i < |log| && i + events.Length >= |log| ==> events[i % events.Length] == log[i]
    }

    /** NewRingBuffer; capacity is an int. */
    constructor (capacity: int)
      requires capacity < Pow2(63)
      ensures Valid() && log == [] && fresh(events)
      ensures events.Length == RoundedUp(capacity)
    {
      var n := (if capacity < 1 then 1 else capacity) - 1;
      BitLenBounds(n);
      if n > 0 && BitLen(n) > 63 {
        Pow2Monotone(63, BitLen(n) - 1);
      }
      bits := BitLen(n);
      events := new T[Pow2(BitLen(n))];
      mask := Pow2(BitLen(n)) - 1;
      written := 0;
      log := [];
    }

    lemma {:induction false} Slot(i: nat)
      requires Valid()
      ensures And(i, mask) == i % events.Length
    {
      MaskIsMod(i, bits);
    }

    /** Overwrites the oldest event when full. */
    method Push(event: T)
      requires Valid()
      modifies this, events
      ensures Valid() && log == old(log) + [event]
    {
      Slot(written);
      WrapKeepsMask(|log|, bits);
      WrapStep(|log|);
      var slot := And(written, mask);
      ghost var n := |log|;
      assert slot == n % events.Length;
      events[slot] := event;
      written := (written + 1) % WORD;
      log := log + [event];
      forall i | 0 <= i < |log| && i + events.Length >= |log| ensures events[i % events.Length] == log[i] {
        if i < n && i % events.Length == n % events.Length {
          SlotsDistinct(i, n, events.Length);
        }
      }
    }

    function LenLocked(): nat
      reads this, events
    {
      if written > events.Length then events.Length else written
    }

    method Len() returns (n: nat)
      requires Valid()
      ensures n == Min(|log| % WORD, events.Length)
    {
      n := LenLocked();
    }

    /** How many events were overwritten; with Len it accounts for every push. */
    method Dropped() returns (n: nat)
      requires Valid()
      ensures n + Min(|log| % WORD, events.Length) == |log| % WORD
    {
      n := written - LenLocked();
    }

    /** A copy of the retained events, oldest first: the last ones of everything pushed. */
    method Snapshot() returns (out: seq<T>)
      requires Valid()
      ensures Min(|log| % WORD, events.Length) <= |log|
      ensures out == Last(log, Min(|log| % WORD, events.Length))
    {
      var n := LenLocked();
      WrapAtMost(|log|);
      out := [];
      var start := written - n;
      ghost var first := |log| - n;
      for i := 0 to n
        invariant out == log[first..first + i]
      {
        Slot(start + i);
        SamePosition(|log|, n, i, bits);
        assert (start + i) % events.Length == (first + i) % events.Length;
        var slot := And(start + i, mask);
        assert slot == (first + i) % events.Length;
        assert log[first..first + i + 1] == log[first..first + i] + [log[first + i]];
        out := out + [events[slot]];
      }
    }
  }

  lemma {:induction false} WrapAtMost(n: nat)
    ensures n % WORD <= n
  {
  }

  /** Positions counted from the wrapped counter fall on the slots of the positions counted from the log. */
  lemma {:induction false} SamePosition(total: nat, n: nat, i: nat, k: nat)
    requires k <= 64 && n <= total % WORD && i < n
    ensures n <= total && (total % WORD - n + i) % Pow2(k) == (total - n + i) % Pow2(k)
  {
    hide Pow2;
    WrapAtMost(total);
    var m := WordFactor(k);
    Division(total, WORD);
    DropWords(WORD, Pow2(k), m, total / WORD, total % WORD - n + i);
  }

  /** 2^64 pushes leave any buffer empty. */
  lemma {:induction false} WrapLosesAll<T(0)>(b: RingBuffer<T>)
    requires b.Valid() && |b.log| == WORD
    ensures b.LenLocked() == 0 && Last(b.log, b.LenLocked()) == []
    ensures Min(|b.log|, b.events.Length) > 0
  {
    WordWraps();
  }

  lemma {:induction false} WordWraps()
    ensures WORD % WORD == 0
  {
  }

  /** The buffer holds the last min(pushes, capacity) events exactly when its counter has not just wrapped. */
  lemma {:induction false} KeepsAllItCan<T(0)>(b: RingBuffer<T>)
    requires b.Valid()
    ensures b.LenLocked() == Min(|b.log|, b.events.Length) <==> |b.log| < WORD || |b.log| % WORD >= b.events.Length
  {
    hide Pow2;
    WordIsPow2();
    Pow2Monotone(b.bits, 64);
    WrapAtMost(|b.log|);
    WrapBelow(|b.log|);
  }

  lemma {:induction false} WrapBelow(n: nat)
    ensures n < WORD ==> n % WORD == n
    ensures n >= WORD ==> n % WORD < n
  {
  }
}
