/** Compound string ids: the owning carrier in the upper 10 of 64 bits, the carrier's own id in
    the lower 54. */
module GlobalId {
  import opened Bytes

  const WORD_BITS: nat := 64
  const LOCAL_BITS: nat := 54
  const MAX_CARRIERS: nat := 1024

  /** Bitwise or and and of machine words, bit by bit from the lowest. */
  function Or(a: nat, b: nat): nat
    decreases a + b
  {
    if a == 0 && b == 0 then 0
    else (if a % 2 == 1 || b % 2 == 1 then 1 else 0) + 2 * Or(a / 2, b / 2)
  }

  function And(a: nat, b: nat): nat
    decreases a + b
  {
    if a == 0 || b == 0 then 0
    else (if a % 2 == 1 && b % 2 == 1 then 1 else 0) + 2 * And(a / 2, b / 2)
  }

  function ShiftLeft(a: nat, n: nat): nat { a * Pow2(n) % Pow2(WORD_BITS) }

  function Divide(a: nat, m: nat): nat
    requires m > 0
  {
    a / m
  }

  function ShiftRight(a: nat, n: nat): nat { Divide(a, Pow2(n)) }

  function MakeGlobal(owner: nat, local: nat): nat { Or(ShiftLeft(owner, LOCAL_BITS), local) }

  function GetOwner(id: nat): nat { ShiftRight(id, LOCAL_BITS) }

  function GetLocal(id: nat): nat { And(ShiftRight(Pow2(WORD_BITS) - 1, 10), id) }

  lemma {:induction false} PowSum(m: nat, n: nat)
    ensures Pow2(m + n) == Pow2(m) * Pow2(n)
    decreases n
  {
    if n > 0 {
      PowSum(m, n - 1);
      assert Pow2(m) * Pow2(n) == 2 * (Pow2(m) * Pow2(n - 1));
    }
  }

  /** Disjoint bits: or is addition. */
  lemma {:induction false} OrDisjoint(a: nat, b: nat, n: nat)
    requires b < Pow2(n)
    ensures Or(a * Pow2(n), b) == a * Pow2(n) + b
    decreases n
  {
    if n == 0 {
      OrZero(a);
      assert a * 1 == a;
    } else {
      var h := a * Pow2(n - 1);
      assert a * Pow2(n) == 2 * h;
      OrDisjoint(a, b / 2, n - 1);
      if h > 0 || b > 0 {
        assert Or(2 * h, b) == b % 2 + 2 * Or(h, b / 2);
      }
    }
  }

  lemma {:induction false} OrZero(a: nat)
    ensures Or(a, 0) == a
  {
    if a > 0 {
      OrZero(a / 2);
    }
  }

  /** The lowest n bits are the remainder. */
  lemma {:induction false} AndMask(n: nat, a: nat)
    ensures And(Pow2(n) - 1, a) == a % Pow2(n)
    decreases n
  {
    if n > 0 {
      AndMask(n - 1, a / 2);
      SplitModulo(a, 2, Pow2(n - 1));
      assert (Pow2(n) - 1) / 2 == Pow2(n - 1) - 1 && (Pow2(n) - 1) % 2 == 1;
    }
  }

  lemma Ten()
    ensures Pow2(10) == MAX_CARRIERS
  {
    assert Pow2(5) == 32;
  }

  lemma MaskIs()
    ensures ShiftRight(Pow2(WORD_BITS) - 1, 10) == Pow2(LOCAL_BITS) - 1 && Pow2(10) == MAX_CARRIERS
    ensures Pow2(WORD_BITS) == Pow2(LOCAL_BITS) * MAX_CARRIERS
  {
    hide Pow2;
    Ten();
    PowSum(LOCAL_BITS, 10);
    assert (Pow2(LOCAL_BITS) - 1) * MAX_CARRIERS + MAX_CARRIERS == Pow2(LOCAL_BITS) * MAX_CARRIERS;
    Quotient(Pow2(WORD_BITS) - 1, Pow2(10), Pow2(LOCAL_BITS) - 1, Pow2(10) - 1);
  }

  /** What an id says about its parts always fits 10 and 54 bits. */
  lemma PartsFit(id: nat)
    requires id < Pow2(WORD_BITS)
    ensures GetOwner(id) < MAX_CARRIERS && GetLocal(id) < Pow2(LOCAL_BITS)
  {
    hide Pow2, And;
    MaskIs();
    AndMask(LOCAL_BITS, id);
    var m := Pow2(LOCAL_BITS);
    var d := id / m - MAX_CARRIERS;
    assert m * d < 0 by {
      assert m * d == m * (id / m) - m * MAX_CARRIERS;
    }
    Multiples(m, d);
  }

  /** Parts that fit lie side by side. */
  lemma SideBySide(owner: nat, local: nat)
    requires owner < MAX_CARRIERS && local < Pow2(LOCAL_BITS)
    ensures MakeGlobal(owner, local) == owner * Pow2(LOCAL_BITS) + local
  {
    hide Pow2, Or;
    MaskIs();
    var m := Pow2(LOCAL_BITS);
    Room(owner, m, MAX_CARRIERS);
    NoWrap(owner * m, Pow2(WORD_BITS));
    OrDisjoint(owner, local, LOCAL_BITS);
  }

  /** An id in numbers: 1024 times 2^54 values, the owner above. */
  lemma InNumbers(owner: nat, local: nat)
    requires owner < 1024 && local < 0x40_0000_0000_0000
    ensures MakeGlobal(owner, local) == owner * 0x40_0000_0000_0000 + local
    ensures GetOwner(MakeGlobal(owner, local)) == owner && GetLocal(MakeGlobal(owner, local)) == local
  {
    hide Pow2, MakeGlobal, GetOwner, GetLocal;
    LocalRange();
    SideBySide(owner, local);
    FittingPartsBack(owner, local);
  }

  lemma LocalRange()
    ensures Pow2(LOCAL_BITS) == 0x40_0000_0000_0000
  {
    hide Pow2;
    Ten();
    Four();
    PowSum(10, 10);
    PowSum(20, 20);
    PowSum(40, 10);
    PowSum(50, 4);
  }

  lemma Four()
    ensures Pow2(4) == 16
  {
  }

  lemma Room(a: nat, m: nat, k: nat)
    requires a < k
    ensures a * m + m <= m * k
  {
    assert m * k == m * (k - a - 1) + m * a + m;
  }

  lemma NoWrap(v: nat, m: nat)
    requires v < m
    ensures v % m == v
  {
  }

  lemma FittingPartsBack(owner: nat, local: nat)
    requires owner < MAX_CARRIERS && local < Pow2(LOCAL_BITS)
    ensures GetOwner(MakeGlobal(owner, local)) == owner && GetLocal(MakeGlobal(owner, local)) == local
  {
    hide Pow2, And, MakeGlobal;
    SideBySide(owner, local);
    MaskIs();
    var m := Pow2(LOCAL_BITS);
    Quotient(owner * m + local, m, owner, local);
    AndMask(LOCAL_BITS, owner * m + local);
  }

  /** An id gives its parts back exactly when they fit: at most 1024 carriers, 54 bits each. */
  lemma PartsBack(owner: nat, local: nat)
    requires owner < Pow2(WORD_BITS) && local < Pow2(WORD_BITS)
    ensures MakeGlobal(owner, local) < Pow2(WORD_BITS)
    ensures GetOwner(MakeGlobal(owner, local)) == owner && GetLocal(MakeGlobal(owner, local)) == local
            <==> owner < MAX_CARRIERS && local < Pow2(LOCAL_BITS)
  {
    hide Pow2, Or, GetOwner, GetLocal;
    OrFits(ShiftLeft(owner, LOCAL_BITS), local, WORD_BITS);
    if owner < MAX_CARRIERS && local < Pow2(LOCAL_BITS) {
      FittingPartsBack(owner, local);
    } else {
      PartsFit(MakeGlobal(owner, local));
    }
  }

  lemma {:induction false} OrFits(a: nat, b: nat, n: nat)
    requires a < Pow2(n) && b < Pow2(n)
    ensures Or(a, b) < Pow2(n)
    decreases n
  {
    if n > 0 {
      OrFits(a / 2, b / 2, n - 1);
    }
  }

  /** Different parts give different ids. */
  lemma Distinct(owner: nat, local: nat, owner': nat, local': nat)
    requires owner < MAX_CARRIERS && owner' < MAX_CARRIERS && local < Pow2(LOCAL_BITS) && local' < Pow2(LOCAL_BITS)
    ensures MakeGlobal(owner, local) == MakeGlobal(owner', local') ==> owner == owner' && local == local'
  {
    hide Pow2, MakeGlobal, GetOwner, GetLocal;
    FittingPartsBack(owner, local);
    FittingPartsBack(owner', local');
  }

  /** An id is made of its parts. */
  lemma PartsMake(id: nat)
    requires id < Pow2(WORD_BITS)
    ensures MakeGlobal(GetOwner(id), GetLocal(id)) == id
  {
    hide Pow2, And, MakeGlobal;
    PartsFit(id);
    SideBySide(GetOwner(id), GetLocal(id));
    MaskIs();
    AndMask(LOCAL_BITS, id);
  }
}
