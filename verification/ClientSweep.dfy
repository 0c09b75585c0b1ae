/**
 The sweep over the other X clients that a display makes before it closes
 its own connection (daemon/scdm-display.c).
 */
module ClientSweep {

  import opened Basics

  /** What the server announced when the connection was set up. */
  datatype Setup = Setup(resourceIdBase: nat, resourceIdMask: nat)

  /** The protocol leaves the three top bits of a 32-bit resource id unused. */
  const ID_BITS: nat := 0x1FFF_FFFF

  function And(x: nat, y: nat): nat {
    if x == 0 || y == 0 then 0
    else 2 * And(x / 2, y / 2) + (if x % 2 == 1 && y % 2 == 1 then 1 else 0)
  }

  /** x with the bits of y cleared. */
  function AndNot(x: nat, y: nat): nat {
    if x == 0 then 0
    else 2 * AndNot(x / 2, y / 2) + (if x % 2 == 1 && y % 2 == 0 then 1 else 0)
  }

  function HighestClient(mask: nat): nat {
    AndNot(ID_BITS, mask)
  }

  /**
   The id that stands for a whole client: every bit the client may choose is
   zero, and so are the unused bits.
   */
  predicate IsClient(c: nat, mask: nat) {
    c <= ID_BITS && And(c, mask) == 0
  }

  /** All ones below some bit and zeros from there on. */
  predicate LowBits(m: nat) {
    m == 0 || (m % 2 == 1 && LowBits(m / 2))
  }

  function LowestZero(m: nat): nat {
    if m % 2 == 0 then 1 else 2 * LowestZero(m / 2)
  }

  /** The ids the loop reaches. */
  predicate Reached(c: nat, mask: nat) {
    c <= HighestClient(mask) && c % (mask + 1) == 0
  }

  ghost predicate Increasing(s: seq<nat>) {
    forall i, j :: 0 <= i < j < |s| ==> s[i] < s[j]
  }

  class Connection {
    var setup: Option<Setup>
    /** The clients the server was told to kill, in order. */
    var killed: seq<nat>

    /**
     words is the number of values an XID has: 2^32, or 2^64 where the X
     headers make it a long.
     */
    method Disconnect(words: nat)
      requires words >= U32
      requires setup.Some? ==> setup.value.resourceIdMask < U32 - 1
      modifies this
      ensures setup == None
      ensures old(setup) == None ==> killed == old(killed)
      ensures old(setup).Some? ==>
                var mask, base := old(setup).value.resourceIdMask, old(setup).value.resourceIdBase;
                && |old(killed)| <= |killed| && killed[..|old(killed)|] == old(killed)
                && Increasing(killed[|old(killed)|..])
                && forall c: nat :: c in killed[|old(killed)|..] <==> Reached(c, mask) && c != base
    {
      if setup == None {
        return;
      }
      var kills := Sweep(words, setup.value);
      assert (killed + kills)[|killed|..] == kills;
      killed := killed + kills;
      setup := None;
    }
  }

  /** Addition of unsigned words. */
  function Plus(a: nat, b: nat, words: nat): (r: nat)
    requires words > 0
    ensures a + b < words ==> r == a + b
  {
    (a + b) % words
  }

  /** The loop itself, which stops for every mask but all ones. */
  method Sweep(words: nat, setup: Setup) returns (kills: seq<nat>)
    requires words >= U32
    requires setup.resourceIdMask < U32 - 1
    ensures Increasing(kills)
    ensures forall c: nat :: c in kills <==> Reached(c, setup.resourceIdMask) && c != setup.resourceIdBase
  {
    hide HighestClient, Reached, Due, Plus;
    var mask := setup.resourceIdMask;
    var highest := HighestClient(mask);
    HighestWithin(mask);
    var increment := (mask + 1) % U32;
    var client := 0;
    ZeroIsDue(mask);
    kills := [];
    while client <= highest
      invariant Due(client, mask)
      invariant forall i :: 0 <= i < |kills| ==> kills[i] < client
      invariant Increasing(kills)
      invariant forall c: nat :: c in kills <==> c < client && Reached(c, mask) && c != setup.resourceIdBase
      decreases if client <= highest then highest + 1 - client else 0
    {
      StepReaches(client, mask);
      if client != setup.resourceIdBase {
        kills := kills + [client];
      }
      client := Plus(client, increment, words);
    }
    PastHighest(mask);
  }

  predicate Due(client: nat, mask: nat) {
    client % (mask + 1) == 0
  }

  lemma ZeroIsDue(mask: nat)
    ensures Due(0, mask)
  {
    Residue(0, 0, mask + 1);
  }

  lemma StepReaches(client: nat, mask: nat)
    requires Due(client, mask) && client <= HighestClient(mask) && mask < U32 - 1
    ensures Reached(client, mask) && client + (mask + 1) < U32
    ensures Due(client + mask + 1, mask)
    ensures forall c: nat :: client < c < client + mask + 1 ==> !Reached(c, mask)
  {
    HighestWithin(mask);
    NoWrap(client, mask + 1);
    NextMultiple(client, mask + 1);
  }

  lemma PastHighest(mask: nat)
    ensures forall c: nat :: Reached(c, mask) ==> c <= HighestClient(mask)
  {
  }

  lemma NoWrap(client: nat, increment: nat)
    requires client <= ID_BITS && 0 < increment < U32 && client % increment == 0
    ensures client + increment < U32
  {
    if client < increment {
      Residue(client, 0, increment);
    }
  }

  lemma NextMultiple(c: nat, n: nat)
    requires n > 0 && c % n == 0
    ensures (c + n) % n == 0
    ensures forall d: nat :: c < d < c + n ==> d % n != 0
  {
    forall d: nat | c < d < c + n
      ensures d % n != 0
    {
      assert d == (d - c) + n * (c / n);
      Residue(d - c, c / n, n);
    }
    assert c + n == 0 + n * (c / n + 1);
    Residue(0, c / n + 1, n);
  }

  lemma Residue(r: nat, q: nat, n: nat)
    requires r < n
    ensures (r + n * q) % n == r
  {
    var x := r + n * q;
    var d := x / n - q;
    assert n * d == r - x % n;
    FarMultiple(n, d);
  }

  lemma FarMultiple(n: nat, d: int)
    ensures d >= 1 ==> n * d >= n
    ensures d <= -1 ==> n * d <= 0 - n
  {
  }

  lemma {:induction false} AndNotWithin(x: nat, m: nat)
    ensures AndNot(x, m) <= x
  {
    if x != 0 {
      AndNotWithin(x / 2, m / 2);
    }
  }

  lemma HighestWithin(mask: nat)
    ensures HighestClient(mask) <= ID_BITS
  {
    AndNotWithin(ID_BITS, mask);
  }

  /** Below a low-bits bound nothing that avoids m exceeds the bound without m. */
  lemma {:induction false} AvoidingStaysBelow(c: nat, x: nat, m: nat)
    requires LowBits(x) && c <= x && And(c, m) == 0
    ensures c <= AndNot(x, m)
  {
    if x != 0 && m != 0 && c != 0 {
      AvoidingStaysBelow(c / 2, x / 2, m / 2);
    } else if x != 0 && m == 0 {
      AndNotNothing(x);
    }
  }

  lemma {:induction false} AndNotNothing(x: nat)
    ensures AndNot(x, 0) == x
  {
    if x != 0 {
      AndNotNothing(x / 2);
    }
  }

  lemma HalveMultiple(c: nat, n: nat)
    requires n > 0
    ensures c % (2 * n) == 0 <==> c % 2 == 0 && (c / 2) % n == 0
  {
    var q := c / (2 * n);
    assert c == (2 * n) * q + c % (2 * n);
    assert (2 * n) * q == 2 * (n * q);
    var r := c % (2 * n);
    assert c / 2 == n * q + r / 2 && c % 2 == r % 2;
    Residue(r / 2, q, n);
  }

  /** Avoiding a low-bits mask is being a multiple of the mask plus one. */
  lemma {:induction false} AvoidingIsDividing(c: nat, m: nat)
    requires LowBits(m)
    ensures And(c, m) == 0 <==> c % (m + 1) == 0
  {
    if m != 0 {
      AvoidingIsDividing(c / 2, m / 2);
      assert m + 1 == 2 * (m / 2 + 1);
      HalveMultiple(c, m / 2 + 1);
      if c == 0 {
        Residue(0, 0, m + 1);
      }
    }
  }

  lemma {:induction false} LowestZeroIsFree(m: nat)
    ensures 1 <= LowestZero(m) <= m + 1
    ensures LowestZero(m) == m + 1 <==> LowBits(m)
    ensures And(LowestZero(m), m) == 0
  {
    if m % 2 == 1 {
      LowestZeroIsFree(m / 2);
    } else if m != 0 {
      assert And(1 / 2, m / 2) == 0;
    }
  }

  lemma {:induction false} LowestZeroInside(x: nat, m: nat)
    requires LowBits(x) && AndNot(x, m) != 0
    ensures LowestZero(m) <= x
  {
    if m % 2 == 1 {
      LowestZeroInside(x / 2, m / 2);
    }
  }

  lemma {:induction false} OneMoreBit(m: nat)
    requires LowBits(m)
    ensures LowBits(2 * m + 1)
  {
    assert (2 * m + 1) / 2 == m;
  }

  lemma ThreeMoreBits(m: nat)
    requires LowBits(m)
    ensures LowBits(8 * m + 7)
  {
    hide LowBits;
    OneMoreBit(m);
    OneMoreBit(2 * m + 1);
    OneMoreBit(4 * m + 3);
  }

  lemma IdBitsAreLow()
    ensures LowBits(ID_BITS)
  {
    ThreeMoreBits(3);
    ThreeMoreBits(0x1F);
    ThreeMoreBits(0xFF);
    ThreeMoreBits(0x7FF);
    ThreeMoreBits(0x3FFF);
    ThreeMoreBits(0x1_FFFF);
    ThreeMoreBits(0xF_FFFF);
    ThreeMoreBits(0x7F_FFFF);
    ThreeMoreBits(0x3FF_FFFF);
  }

  lemma ReachedIsClient(c: nat, mask: nat)
    requires LowBits(mask)
    ensures Reached(c, mask) <==> IsClient(c, mask)
  {
    hide LowBits, And, AndNot;
    IdBitsAreLow();
    AvoidingIsDividing(c, mask);
    HighestWithin(mask);
    if IsClient(c, mask) {
      AvoidingStaysBelow(c, ID_BITS, mask);
    }
  }

  lemma NothingAvoids(m: nat)
    ensures And(0, m) == 0
  {
  }

  /**
   The loop reaches exactly the clients just when the mask is a run of low
   bits, or leaves no bit to tell two clients apart.
   */
  lemma SweepExactIff(mask: nat)
    ensures (forall c: nat :: Reached(c, mask) <==> IsClient(c, mask))
            <==> LowBits(mask) || HighestClient(mask) == 0
  {
    hide LowBits, And, AndNot, LowestZero;
    IdBitsAreLow();
    HighestWithin(mask);
    if LowBits(mask) {
      forall c: nat ensures Reached(c, mask) <==> IsClient(c, mask) {
        ReachedIsClient(c, mask);
      }
    } else if HighestClient(mask) == 0 {
      forall c: nat ensures Reached(c, mask) <==> IsClient(c, mask) {
        if IsClient(c, mask) {
          AvoidingStaysBelow(c, ID_BITS, mask);
        }
        NothingAvoids(mask);
        Residue(0, 0, mask + 1);
      }
    } else {
      var z := LowestZero(mask);
      LowestZeroIsFree(mask);
      LowestZeroInside(ID_BITS, mask);
      Residue(z, 0, mask + 1);
      assert IsClient(z, mask) && !Reached(z, mask);
    }
  }

  /**
   A mask of all ones makes the increment wrap to zero: the loop stands still
   on client 0, which is within its bound.
   */
  lemma AllOnesNeverAdvances(words: nat, client: nat)
    requires words >= U32 && client < words
    ensures var increment := (U32 - 1 + 1) % U32; Plus(client, increment, words) == client
    ensures HighestClient(U32 - 1) == 0
  {
    hide LowBits, AndNot;
    IdBitsAreLow();
    ThreeMoreBits(ID_BITS);
    NothingOutside(ID_BITS, U32 - 1);
  }

  lemma {:induction false} NothingOutside(x: nat, m: nat)
    requires LowBits(m) && x <= m
    ensures AndNot(x, m) == 0
  {
    if x != 0 {
      NothingOutside(x / 2, m / 2);
    }
  }
}
