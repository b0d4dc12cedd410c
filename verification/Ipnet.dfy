/** IPv4 networks on 32-bit words (pkg/util/ip/ipnet.go): the meaning of the mask and shift code as
    blocks of addresses, the textual forms, and the tiling of the address space by Next. */
module Ipnet {
  type IP4 = bv32

  /** Go's uint on a 64-bit platform. */
  type Uint = x: nat | x < 0x1_0000_0000_0000_0000

  datatype IP4Net = IP4Net(ip: IP4, prefixLen: Uint)

  const ONES: bv32 := 0xFFFF_FFFF

  // The word operations have names so that proofs can go by their laws.

  function Sum(x: bv32, y: bv32): bv32 {
    x + y
  }

  function Meet(x: bv32, m: bv32): bv32 {
    x & m
  }

  function Dbl(x: bv32): bv32 {
    x << 1
  }

  function Half(x: bv32): bv32 {
    x >> 1
  }

  /** x shifted left by k, one bit at a time; ShlIsShift says that this is the machine's shift. */
  function Shl(x: bv32, k: nat): bv32 {
    if k == 0 then x else Dbl(Shl(x, k - 1))
  }

  /** x and y agree on the bits of the mask. */
  predicate Agree(m: bv32, x: bv32, y: bv32) {
    Meet(x, m) == Meet(y, m)
  }

  /** 32 - p as an unsigned number. */
  function HostBits(p: Uint): Uint {
    if p <= 32 then 32 - p else 0x1_0000_0000_0000_0000 + 32 - p
  }

  function Mask(n: IP4Net): bv32 {
    Shl(ONES, HostBits(n.prefixLen))
  }

  function Network(n: IP4Net): IP4Net {
    IP4Net(Meet(n.ip, Mask(n)), n.prefixLen)
  }

  function Next(n: IP4Net): IP4Net {
    IP4Net(Sum(n.ip, Shl(1, HostBits(n.prefixLen))), n.prefixLen)
  }

  predicate Contains(n: IP4Net, ip: IP4) {
    Agree(Mask(n), n.ip, ip)
  }

  predicate Overlaps(n: IP4Net, other: IP4Net) {
    Agree(if n.prefixLen < other.prefixLen then Mask(n) else Mask(other), n.ip, other.ip)
  }

  // ---------- Shifts ----------

  /** Go's x << k. */
  function Shift(x: bv32, k: nat): bv32 {
    if k >= 32 then 0 else x << k
  }

  /** Shl is the machine's shift; nothing is left once k reaches the width. */
  lemma {:induction false} ShlIsShift(x: bv32, k: nat)
    ensures Shl(x, k) == Shift(x, k)
  {
    hide Shift, Dbl;
    if k == 0 {
      NoShift(x);
    } else {
      ShlIsShift(x, k - 1);
      ShiftStep(x, k - 1);
    }
  }

  lemma NoShift(x: bv32)
    ensures Shift(x, 0) == x
  {
  }

  lemma ShiftStep(x: bv32, k: nat)
    ensures Shift(x, k + 1) == Dbl(Shift(x, k))
  {
    if k < 8 {
      ShiftStepBelow8(x, k);
    } else if k < 16 {
      ShiftStepBelow16(x, k);
    } else if k < 24 {
      ShiftStepBelow24(x, k);
    } else if k < 31 {
      ShiftStepBelow31(x, k);
    }
  }

  lemma ConstantShifts0(x: bv32)
    ensures x << 1 == (x << 0) << 1
    ensures x << 2 == (x << 1) << 1
    ensures x << 3 == (x << 2) << 1
    ensures x << 4 == (x << 3) << 1
    ensures x << 5 == (x << 4) << 1
    ensures x << 6 == (x << 5) << 1
    ensures x << 7 == (x << 6) << 1
    ensures x << 8 == (x << 7) << 1
  {
  }

  lemma ShiftStepBelow8(x: bv32, k: nat)
    requires k < 8
    ensures x << (k + 1) == (x << k) << 1
  {
    ConstantShifts0(x);
    if k == 0 {} else if k == 1 {} else if k == 2 {} else if k == 3 {}
    else if k == 4 {} else if k == 5 {} else if k == 6 {} else {}
  }

  lemma ConstantShifts8(x: bv32)
    ensures x << 9 == (x << 8) << 1
    ensures x << 10 == (x << 9) << 1
    ensures x << 11 == (x << 10) << 1
    ensures x << 12 == (x << 11) << 1
    ensures x << 13 == (x << 12) << 1
    ensures x << 14 == (x << 13) << 1
    ensures x << 15 == (x << 14) << 1
    ensures x << 16 == (x << 15) << 1
  {
  }

  lemma ShiftStepBelow16(x: bv32, k: nat)
    requires 8 <= k < 16
    ensures x << (k + 1) == (x << k) << 1
  {
    ConstantShifts8(x);
    if k == 8 {} else if k == 9 {} else if k == 10 {} else if k == 11 {}
    else if k == 12 {} else if k == 13 {} else if k == 14 {} else {}
  }

  lemma ConstantShifts16(x: bv32)
    ensures x << 17 == (x << 16) << 1
    ensures x << 18 == (x << 17) << 1
    ensures x << 19 == (x << 18) << 1
    ensures x << 20 == (x << 19) << 1
    ensures x << 21 == (x << 20) << 1
    ensures x << 22 == (x << 21) << 1
    ensures x << 23 == (x << 22) << 1
    ensures x << 24 == (x << 23) << 1
  {
  }

  lemma ShiftStepBelow24(x: bv32, k: nat)
    requires 16 <= k < 24
    ensures x << (k + 1) == (x << k) << 1
  {
    ConstantShifts16(x);
    if k == 16 {} else if k == 17 {} else if k == 18 {} else if k == 19 {}
    else if k == 20 {} else if k == 21 {} else if k == 22 {} else {}
  }

  lemma ConstantShifts24(x: bv32)
    ensures x << 25 == (x << 24) << 1
    ensures x << 26 == (x << 25) << 1
    ensures x << 27 == (x << 26) << 1
    ensures x << 28 == (x << 27) << 1
    ensures x << 29 == (x << 28) << 1
    ensures x << 30 == (x << 29) << 1
    ensures x << 31 == (x << 30) << 1
  {
  }

  lemma ShiftStepBelow31(x: bv32, k: nat)
    requires 24 <= k < 31
    ensures x << (k + 1) == (x << k) << 1
  {
    ConstantShifts24(x);
    if k == 24 {} else if k == 25 {} else if k == 26 {} else if k == 27 {}
    else if k == 28 {} else if k == 29 {} else {}
  }

  lemma {:induction false} ShlAdd(x: bv32, y: bv32, k: nat)
    ensures Shl(Sum(x, y), k) == Sum(Shl(x, k), Shl(y, k))
  {
    hide Dbl, Sum;
    if k > 0 {
      ShlAdd(x, y, k - 1);
      DoubleSum(Shl(x, k - 1), Shl(y, k - 1));
    }
  }

  lemma DoubleSum(a: bv32, b: bv32)
    ensures Dbl(Sum(a, b)) == Sum(Dbl(a), Dbl(b))
  {
    hide Sum, Dbl;
    Twice(Sum(a, b));
    Twice(a);
    Twice(b);
    SumLaws(a, b, Sum(a, b));
    SumLaws(b, a, b);
    SumCommutes(a, b);
    SumLaws(a, b, b);
    SumLaws(a, a, Sum(b, b));
  }

  lemma {:induction false} ShlShl(x: bv32, j: nat, k: nat)
    ensures Shl(Shl(x, j), k) == Shl(x, j + k)
  {
    hide Dbl;
    if k > 0 {
      ShlShl(x, j, k - 1);
    }
  }

  /** The shorter mask is part of the longer one. */
  lemma {:induction false} MasksNest(j: nat, k: nat)
    requires j <= k
    ensures Meet(Shl(ONES, k), Shl(ONES, j)) == Shl(ONES, k)
    ensures Meet(Dbl(Shl(ONES, k)), Shl(ONES, k)) == Dbl(Shl(ONES, k))
    decreases k
  {
    if k > j {
      MasksNest(j, k - 1);
    } else if k > 0 {
      MasksNest(k - 1, k - 1);
    }
  }

  // ---------- Blocks ----------

  /** a agrees with b under mask m, b having no other bits. */
  predicate InBlock(m: bv32, b: bv32, a: bv32) {
    Meet(a, m) == b
  }

  predicate Clear(m: bv32, x: bv32) {
    x & m == 0
  }

  predicate AtMost(x: bv32, y: bv32) {
    x <= y
  }

  /** b with every bit outside the mask set. */
  function Last(m: bv32, b: bv32): bv32 {
    b | !m
  }

  predicate InRange(m: bv32, b: bv32, a: bv32) {
    AtMost(b, a) && AtMost(a, Last(m, b))
  }

  predicate TopSet(m: bv32) {
    m & 0x8000_0000 != 0
  }

  predicate Even(x: bv32) {
    x & 1 == 0
  }

  predicate Small(x: bv32) {
    x < 0x8000_0000
  }

  function OddDbl(x: bv32): bv32 {
    (x << 1) | 1
  }

  /** A mask with fewer than 32 host bits has its top bit set; one with 32 is empty. */
  lemma TopOfMask(k: nat)
    requires k <= 32
    ensures if k < 32 then TopSet(Shl(ONES, k)) else Shl(ONES, k) == 0
  {
    ShlIsShift(ONES, k);
    hide Shl;
    if k < 4 {} else if k < 8 {} else if k < 12 {} else if k < 16 {}
    else if k < 20 {} else if k < 24 {} else if k < 28 {} else {}
  }

  /** The order is antisymmetric: words of k bits, halved until nothing is left. */
  lemma {:induction false} SameWord(k: nat, b: bv32, a: bv32)
    requires Clear(Shl(ONES, k), b) && Clear(Shl(ONES, k), a)
    requires AtMost(b, a) && AtMost(a, b)
    ensures a == b
  {
    hide Dbl, Half, Clear, AtMost;
    if k == 0 {
      ClearIsZero(a);
      ClearIsZero(b);
    } else {
      HalveClear(Shl(ONES, k - 1), a);
      HalveClear(Shl(ONES, k - 1), b);
      HalveOrder(a, b);
      HalveOrder(b, a);
      SameWord(k - 1, Half(b), Half(a));
      SameHalves(b, a);
    }
  }

  lemma ClearIsZero(x: bv32)
    requires Clear(ONES, x)
    ensures x == 0
  {
  }

  lemma HalveClear(m: bv32, x: bv32)
    requires Clear(Dbl(m), x)
    ensures Clear(m, Half(x))
  {
  }

  lemma HalveOrder(x: bv32, y: bv32)
    requires AtMost(x, y)
    ensures AtMost(Half(x), Half(y))
  {
  }

  lemma SameHalves(b: bv32, a: bv32)
    requires AtMost(b, a) && AtMost(a, b) && Half(a) == Half(b)
    ensures a == b
  {
  }

  lemma EmptyMask(x: bv32)
    ensures Clear(Shl(ONES, 32), x)
  {
    TopOfMask(32);
    hide Shl;
  }

  /** The words that agree with b under the mask of k host bits are those from b up to b with all its
      host bits set. */
  lemma {:induction false} BlockIsRange(k: nat, b: bv32, a: bv32)
    requires k <= 32 && InBlock(Shl(ONES, k), b, b)
    ensures InBlock(Shl(ONES, k), b, a) <==> InRange(Shl(ONES, k), b, a)
  {
    hide Dbl, Half, InBlock, TopSet, AtMost, Last, Even, Small, OddDbl;
    if k == 0 {
      AllOnes(b, a);
      if AtMost(b, a) && AtMost(a, b) {
        EmptyMask(a);
        EmptyMask(b);
        SameWord(32, b, a);
      }
    } else {
      var m := Shl(ONES, k - 1);
      TopOfMask(k - 1);
      HalveBlock(m, b, b);
      HalveBlock(m, b, a);
      BlockIsRange(k - 1, Half(b), Half(a));
      EvenBase(m, b);
      LowEnd(b, a);
      LastDoubles(m, b);
      LastIsSmall(m, b);
      HighEnd(Last(m, Half(b)), a);
    }
  }

  lemma AllOnes(b: bv32, a: bv32)
    ensures InBlock(ONES, b, a) <==> a == b
    ensures Last(ONES, b) == b && AtMost(b, b)
  {
  }

  lemma HalveBlock(m: bv32, b: bv32, a: bv32)
    requires InBlock(Dbl(m), b, b)
    ensures InBlock(Dbl(m), b, a) <==> InBlock(m, Half(b), Half(a))
  {
    hide *;
    if InBlock(Dbl(m), b, a) {
      HalvesAgree(m, b, a);
    } else if InBlock(m, Half(b), Half(a)) {
      DoublesAgree(m, b, a);
    }
  }

  lemma HalvesAgree(m: bv32, b: bv32, a: bv32)
    requires InBlock(Dbl(m), b, b) && InBlock(Dbl(m), b, a)
    ensures InBlock(m, Half(b), Half(a))
  {
  }

  lemma DoublesAgree(m: bv32, b: bv32, a: bv32)
    requires InBlock(Dbl(m), b, b) && InBlock(m, Half(b), Half(a))
    ensures InBlock(Dbl(m), b, a)
  {
  }

  lemma EvenBase(m: bv32, b: bv32)
    requires InBlock(Dbl(m), b, b)
    ensures Even(b)
  {
  }

  lemma LowEnd(b: bv32, a: bv32)
    requires Even(b)
    ensures AtMost(b, a) <==> AtMost(Half(b), Half(a))
  {
    hide *;
    if AtMost(b, a) {
      HalveOrder(b, a);
    } else if AtMost(Half(b), Half(a)) {
      DoubleOrder(b, a);
    }
  }

  lemma DoubleOrder(b: bv32, a: bv32)
    requires Even(b) && AtMost(Half(b), Half(a))
    ensures AtMost(b, a)
  {
  }

  lemma LastDoubles(m: bv32, b: bv32)
    requires Even(b)
    ensures Last(Dbl(m), b) == OddDbl(Last(m, Half(b)))
  {
  }

  lemma LastIsSmall(m: bv32, b: bv32)
    requires TopSet(m)
    ensures Small(Last(m, Half(b)))
  {
  }

  lemma HighEnd(c: bv32, a: bv32)
    requires Small(c)
    ensures AtMost(a, OddDbl(c)) <==> AtMost(Half(a), c)
  {
    hide *;
    if AtMost(a, OddDbl(c)) {
      HalveHigh(c, a);
    } else if AtMost(Half(a), c) {
      DoubleHigh(c, a);
    }
  }

  lemma HalveHigh(c: bv32, a: bv32)
    requires Small(c) && AtMost(a, OddDbl(c))
    ensures AtMost(Half(a), c)
  {
  }

  lemma DoubleHigh(c: bv32, a: bv32)
    requires Small(c) && AtMost(Half(a), c)
    ensures AtMost(a, OddDbl(c))
  {
  }

  function Host(m: bv32): bv32 {
    !m
  }

  function Pred(x: bv32): bv32 {
    x - 1
  }

  /** The last address of a block is its network address plus 2^k - 1. */
  lemma LastBySize(k: nat, b: bv32)
    requires InBlock(Shl(ONES, k), b, b)
    ensures Last(Shl(ONES, k), b) == Sum(b, Pred(Shl(1, k)))
  {
    hide *;
    HostPart(k);
    AddHost(Shl(ONES, k), b);
  }

  lemma {:induction false} HostPart(k: nat)
    ensures Host(Shl(ONES, k)) == Pred(Shl(1, k))
  {
    hide Dbl, Host, Pred;
    if k == 0 {
      NoHostPart();
    } else {
      HostPart(k - 1);
      DoubleHostPart(Shl(ONES, k - 1), Shl(1, k - 1));
    }
  }

  lemma NoHostPart()
    ensures Host(ONES) == Pred(1)
  {
  }

  lemma DoubleHostPart(m: bv32, t: bv32)
    requires Host(m) == Pred(t)
    ensures Host(Dbl(m)) == Pred(Dbl(t))
  {
    assert t == !m + 1;
  }

  lemma AddHost(m: bv32, b: bv32)
    requires InBlock(m, b, b)
    ensures Last(m, b) == Sum(b, Host(m))
  {
  }

  /** Contains: the addresses from the network address up to 2^(32-p) - 1 beyond it. */
  lemma ContainsIsInterval(n: IP4Net, a: IP4)
    requires n.prefixLen <= 32
    ensures Contains(n, a) <==>
              AtMost(Network(n).ip, a) && AtMost(a, Sum(Network(n).ip, Pred(Shl(1, 32 - n.prefixLen))))
  {
    hide Shl, Sum, Pred, Meet, AtMost, Last;
    MeetTwice(n.ip, Mask(n));
    BlockIsRange(HostBits(n.prefixLen), Network(n).ip, a);
    LastBySize(HostBits(n.prefixLen), Network(n).ip);
  }

  lemma MeetTwice(x: bv32, m: bv32)
    ensures Meet(Meet(x, m), m) == Meet(x, m)
  {
  }

  /** Network is idempotent and the network holds the same addresses. */
  lemma NetworkKeepsBlock(n: IP4Net, a: IP4)
    ensures Network(Network(n)) == Network(n)
    ensures Contains(Network(n), a) <==> Contains(n, a)
  {
    hide Shl, Meet;
    MeetTwice(n.ip, Mask(n));
  }

  lemma CoarserAgreement(less: bv32, more: bv32, x: bv32, y: bv32)
    requires Meet(less, more) == less && Agree(more, x, y)
    ensures Agree(less, x, y)
  {
  }

  /** Blocks are laminar: with an address in common, the one with the shorter prefix includes the other. */
  lemma Includes(outer: IP4Net, inner: IP4Net, a: IP4, b: IP4)
    requires outer.prefixLen <= inner.prefixLen <= 32
    requires Contains(outer, a) && Contains(inner, a) && Contains(inner, b)
    ensures Contains(outer, b)
  {
    hide Shl, Meet;
    MasksNest(HostBits(inner.prefixLen), HostBits(outer.prefixLen));
    CoarserAgreement(Mask(outer), Mask(inner), inner.ip, a);
    CoarserAgreement(Mask(outer), Mask(inner), inner.ip, b);
  }

  /** Overlaps says whether some address is in both blocks. */
  lemma OverlapsMeans(m: IP4Net, n: IP4Net)
    requires m.prefixLen <= 32 && n.prefixLen <= 32
    ensures Overlaps(m, n) <==> exists a :: Contains(m, a) && Contains(n, a)
  {
    hide Shl, Meet;
    if Overlaps(m, n) {
      var a := if m.prefixLen < n.prefixLen then n.ip else m.ip;
      assert Contains(m, a) && Contains(n, a);
    }
    if a :| Contains(m, a) && Contains(n, a) {
      if m.prefixLen < n.prefixLen {
        Includes(m, n, a, n.ip);
      } else {
        Includes(n, m, a, m.ip);
      }
    }
  }

  // ---------- Tiling ----------

  /** The word that counts k steps of one. */
  function Count(k: nat): bv32 {
    if k == 0 then 0 else Sum(Count(k - 1), 1)
  }

  function Pow2(k: nat): (r: nat)
    ensures r > 0
  {
    if k == 0 then 1 else 2 * Pow2(k - 1)
  }

  /** Next applied k times. */
  function Iterate(n: IP4Net, k: nat): IP4Net {
    if k == 0 then n else Next(Iterate(n, k - 1))
  }

  lemma SumCommutes(x: bv32, y: bv32)
    ensures Sum(x, y) == Sum(y, x)
  {
  }

  lemma SumLaws(x: bv32, y: bv32, z: bv32)
    ensures Sum(Sum(x, y), z) == Sum(x, Sum(y, z))
    ensures Sum(x, 0) == x && Sum(0, x) == x
  {
  }

  lemma {:induction false} IterateMeans(n: IP4Net, k: nat)
    requires n.prefixLen <= 32
    ensures Iterate(n, k) == IP4Net(Sum(n.ip, Shl(Count(k), 32 - n.prefixLen)), n.prefixLen)
  {
    hide Sum, Shl, Count;
    var s := 32 - n.prefixLen;
    if k == 0 {
      CountStarts(s);
      SumLaws(n.ip, 0, 0);
    } else {
      IterateMeans(n, k - 1);
      CountStep(k);
      ShlAdd(Count(k - 1), 1, s);
      NextAdds(Iterate(n, k - 1));
      SumLaws(n.ip, Shl(Count(k - 1), s), Shl(1, s));
    }
  }

  lemma {:induction false} ShlZero(k: nat)
    ensures Shl(0, k) == 0
  {
    if k > 0 {
      ShlZero(k - 1);
    }
  }

  lemma CountStarts(s: nat)
    ensures Shl(Count(0), s) == 0
  {
    ShlZero(s);
  }

  lemma CountStep(k: nat)
    requires k > 0
    ensures Count(k) == Sum(Count(k - 1), 1)
  {
  }

  lemma NextAdds(n: IP4Net)
    requires n.prefixLen <= 32
    ensures Next(n) == IP4Net(Sum(n.ip, Shl(1, 32 - n.prefixLen)), n.prefixLen)
  {
    hide Shl, Sum;
  }

  lemma {:induction false} CountAdds(i: nat, j: nat)
    ensures Count(i + j) == Sum(Count(i), Count(j))
  {
    hide Sum;
    if j == 0 {
      SumLaws(Count(i), 0, 0);
    } else {
      CountAdds(i, j - 1);
      SumLaws(Count(i), Count(j - 1), 1);
    }
  }

  lemma Twice(x: bv32)
    ensures Sum(x, x) == Dbl(x)
  {
  }

  lemma {:induction false} CountOfPow2(t: nat)
    ensures Count(Pow2(t)) == Shl(1, t)
  {
    hide Sum, Dbl;
    if t == 0 {
      CountOne();
    } else {
      CountOfPow2(t - 1);
      CountAdds(Pow2(t - 1), Pow2(t - 1));
      Twice(Shl(1, t - 1));
    }
  }

  lemma CountOne()
    ensures Count(1) == 1
  {
    assert Count(0) == 0;
  }

  /** 2^p steps lead back to the start. */
  lemma IterateReturns(n: IP4Net)
    requires n.prefixLen <= 32
    ensures Iterate(n, Pow2(n.prefixLen)) == n
  {
    hide Sum, Shl, Count, Iterate, Pow2;
    var p, s := n.prefixLen, 32 - n.prefixLen;
    IterateMeans(n, Pow2(p));
    CountOfPow2(p);
    ShlShl(1, p, s);
    NothingLeft(1);
    SumLaws(n.ip, 0, 0);
  }

  lemma NothingLeft(x: bv32)
    ensures Shl(x, 32) == 0
  {
    ShlIsShift(x, 32);
    hide Shl;
  }

  // Every address is visited.

  /** The number that q, a word of t bits, stands for. */
  function Number(q: bv32, t: nat): nat {
    if t == 0 then 0 else 2 * Number(Half(q), t - 1) + if Even(q) then 0 else 1
  }

  lemma {:induction false} CountOfNumber(q: bv32, t: nat)
    requires Clear(Shl(ONES, t), q)
    ensures Number(q, t) < Pow2(t) && Count(Number(q, t)) == q
    decreases t
  {
    hide Sum, Dbl, Half, Even, Clear, Count;
    if t == 0 {
      ClearIsZero(q);
      CountZero();
    } else {
      HalveClear(Shl(ONES, t - 1), q);
      CountOfNumber(Half(q), t - 1);
      var h := Number(Half(q), t - 1);
      CountAdds(h, h);
      Twice(Half(q));
      Rejoin(q);
      if !Even(q) {
        CountStep(2 * h + 1);
      }
    }
  }

  lemma CountZero()
    ensures Count(0) == 0
  {
  }

  lemma Rejoin(q: bv32)
    ensures q == if Even(q) then Dbl(Half(q)) else Sum(Dbl(Half(q)), 1)
  {
    if Even(q) {
      RejoinEven(q);
    } else {
      RejoinOdd(q);
    }
  }

  lemma RejoinEven(q: bv32)
    requires Even(q)
    ensures q == Dbl(Half(q))
  {
  }

  lemma RejoinOdd(q: bv32)
    requires !Even(q)
    ensures q == Sum(Dbl(Half(q)), 1)
  {
    assert (q >> 1) << 1 == q & 0xFFFF_FFFE;
    assert (q & 0xFFFF_FFFE) + 1 == (q & 0xFFFF_FFFE) | 1;
  }

  /** A word of s + t bits whose low s bits are clear is some word of t bits, shifted. */
  lemma {:induction false} Unshift(d: bv32, s: nat, t: nat) returns (q: bv32)
    requires InBlock(Shl(ONES, s), d, d) && Clear(Shl(ONES, s + t), d)
    ensures Shl(q, s) == d && Clear(Shl(ONES, t), q)
    decreases s
  {
    hide Dbl, Half, Even, Clear, InBlock;
    if s == 0 {
      q := d;
    } else {
      var m := Shl(ONES, s - 1);
      HalveBlock(m, d, d);
      HalveClear(Shl(ONES, s + t - 1), d);
      EvenBase(m, d);
      RejoinEven(d);
      q := Unshift(Half(d), s - 1, t);
    }
  }

  lemma FullBlock(x: bv32)
    ensures InBlock(ONES, x, x)
  {
  }

  lemma DoubleInBlock(m: bv32, x: bv32)
    requires InBlock(m, x, x)
    ensures InBlock(Dbl(m), Dbl(x), Dbl(x))
  {
  }

  /** Every address lies in one of the 2^p blocks: how many steps lead from n to its block. */
  lemma IterateCovers(n: IP4Net, a: IP4) returns (k: nat)
    requires n.prefixLen <= 32 && Network(n) == n
    ensures k < Pow2(n.prefixLen) && Contains(Iterate(n, k), a)
  {
    hide Sum, Shl, Meet, Count, Number, Clear, Iterate, Pow2;
    var p, s := n.prefixLen, 32 - n.prefixLen;
    var base := Meet(a, Mask(n));
    MeetTwice(a, Mask(n));
    EmptyMask(n.ip);
    EmptyMask(base);
    var u := Unshift(n.ip, s, p);
    var v := Unshift(base, s, p);
    CountOfNumber(u, p);
    CountOfNumber(v, p);
    var i, j := Number(u, p), Number(v, p);
    k := if i <= j then j - i else Pow2(p) + j - i;
    IterateMeans(n, k);
    CountAdds(i, k);
    ShlAdd(u, Count(k), s);
    assert Iterate(n, k).ip == Shl(Count(i + k), s);
    if i > j {
      CountAdds(Pow2(p), j);
      ShlAdd(Count(Pow2(p)), v, s);
      CountOfPow2(p);
      ShlShl(1, p, s);
      NothingLeft(1);
      SumLaws(base, 0, 0);
    }
    assert Iterate(n, k) == IP4Net(base, p);
  }

  // No address is visited twice.

  predicate Odd(k: nat) {
    k % 2 == 1
  }

  lemma {:induction false} CountParity(k: nat)
    ensures Even(Count(k)) <==> !Odd(k)
  {
    hide Sum, Even;
    if k == 0 {
      ZeroIsEven();
    } else {
      CountParity(k - 1);
      PlusOneParity(Count(k - 1));
    }
  }

  lemma ZeroIsEven()
    ensures Even(0)
  {
  }

  lemma PlusOneParity(x: bv32)
    ensures Even(Sum(x, 1)) <==> !Even(x)
  {
  }

  /** Shifting an odd word by s < 32 leaves something. */
  lemma OddSurvives(x: bv32, s: nat)
    requires s < 32 && !Even(x)
    ensures Shl(x, s) != 0
  {
    hide Shl, Even;
    BitOfOdd(x, s);
    TopBit(s);
    NonZeroMeet(Shl(x, s), Shl(1, s));
  }

  lemma NonZeroMeet(x: bv32, y: bv32)
    requires Meet(x, y) == y && y != 0
    ensures x != 0
  {
  }

  lemma {:induction false} BitOfOdd(x: bv32, s: nat)
    requires !Even(x)
    ensures Meet(Shl(x, s), Shl(1, s)) == Shl(1, s)
  {
    if s > 0 {
      BitOfOdd(x, s - 1);
    }
  }

  lemma TopBit(s: nat)
    requires s < 32
    ensures Shl(1, s) != 0
  {
    ShlIsShift(1, s);
    hide Shl;
    if s < 4 {} else if s < 8 {} else if s < 12 {} else if s < 16 {}
    else if s < 20 {} else if s < 24 {} else if s < 28 {} else {}
  }

  /** A count of steps that vanishes when shifted by 32 - p is zero or at least 2^p. */
  lemma {:induction false} VanishingCount(m: nat, p: nat)
    requires p <= 32 && Shl(Count(m), 32 - p) == 0
    ensures m == 0 || m >= Pow2(p)
  {
    hide Sum, Dbl, Even, Shl, Count;
    if p > 0 {
      CountParity(m);
      if Odd(m) {
        OddSurvives(Count(m), 32 - p);
      } else {
        var h := m / 2;
        CountAdds(h, h);
        Twice(Count(h));
        ShlOnce(Count(h), 32 - p);
        VanishingCount(h, p - 1);
      }
    }
  }

  lemma ShlOnce(x: bv32, s: nat)
    ensures Shl(Dbl(x), s) == Shl(x, s + 1)
  {
    hide Dbl;
    ShlShl(x, 1, s);
    assert Shl(x, 1) == Dbl(Shl(x, 0));
  }

  /** Two of the 2^p blocks have no address in common. */
  lemma IterateDisjoint(n: IP4Net, i: nat, j: nat, a: IP4)
    requires n.prefixLen <= 32 && Network(n) == n
    requires i < j < Pow2(n.prefixLen)
    ensures !(Contains(Iterate(n, i), a) && Contains(Iterate(n, j), a))
  {
    hide Sum, Shl, Count, Iterate, Pow2, InBlock;
    var p, s := n.prefixLen, 32 - n.prefixLen;
    if Contains(Iterate(n, i), a) && Contains(Iterate(n, j), a) {
      IterateAligned(n, i);
      IterateAligned(n, j);
      assert Iterate(n, i).ip == Iterate(n, j).ip;
      IterateMeans(n, i);
      IterateMeans(n, j);
      CountAdds(i, j - i);
      ShlAdd(Count(i), Count(j - i), s);
      SumLaws(n.ip, Shl(Count(i), s), Shl(Count(j - i), s));
      Cancel(Sum(n.ip, Shl(Count(i), s)), Shl(Count(j - i), s));
      VanishingCount(j - i, p);
      assert false;
    }
  }

  lemma Cancel(x: bv32, y: bv32)
    requires Sum(x, y) == x
    ensures y == 0
  {
    assert (x + y) - x == y;
  }

  /** Every block that Next visits from a network address begins at its network address. */
  lemma {:induction false} IterateAligned(n: IP4Net, k: nat)
    requires n.prefixLen <= 32 && Network(n) == n
    ensures Iterate(n, k).prefixLen == n.prefixLen && Network(Iterate(n, k)) == Iterate(n, k)
  {
    hide Shl, Sum;
    if k > 0 {
      var m := Iterate(n, k - 1);
      IterateAligned(n, k - 1);
      AlignedSum(32 - n.prefixLen, m.ip);
      NextAdds(m);
    }
  }

  /** Adding a whole block to an aligned address keeps it aligned. */
  lemma {:induction false} AlignedSum(s: nat, b: bv32)
    requires InBlock(Shl(ONES, s), b, b)
    ensures InBlock(Shl(ONES, s), Sum(b, Shl(1, s)), Sum(b, Shl(1, s)))
  {
    hide Dbl, Half, Even, InBlock, Sum;
    if s == 0 {
      FullBlock(Sum(b, 1));
    } else {
      var m := Shl(ONES, s - 1);
      HalveBlock(m, b, b);
      AlignedSum(s - 1, Half(b));
      EvenBase(m, b);
      RejoinEven(b);
      DoubleSum(Half(b), Shl(1, s - 1));
      DoubleInBlock(m, Sum(Half(b), Shl(1, s - 1)));
    }
  }

  /** One of the first `steps` blocks that Next visits from n holds a. */
  ghost predicate Visited(n: IP4Net, steps: nat, a: IP4) {
    exists k :: 0 <= k < steps && Contains(Iterate(n, k), a)
  }

  /** From a network address, 2^p applications of Next return to it, and the blocks visited on the way
      are pairwise disjoint and cover all addresses. */
  lemma Tiling(n: IP4Net)
    requires n.prefixLen <= 32 && Network(n) == n
    ensures Iterate(n, Pow2(n.prefixLen)) == n
    ensures forall a: IP4 :: Visited(n, Pow2(n.prefixLen), a)
    ensures forall i, j, a: IP4 :: 0 <= i < j < Pow2(n.prefixLen) ==>
              !(Contains(Iterate(n, i), a) && Contains(Iterate(n, j), a))
  {
    hide Iterate, Pow2, Contains, Network;
    IterateReturns(n);
    forall a: IP4
      ensures Visited(n, Pow2(n.prefixLen), a)
    {
      var k := IterateCovers(n, a);
    }
    forall i, j, a: IP4 | 0 <= i < j < Pow2(n.prefixLen)
      ensures !(Contains(Iterate(n, i), a) && Contains(Iterate(n, j), a))
    {
      IterateDisjoint(n, i, j, a);
    }
  }
}
