/** The base_uint class: an unsigned big integer in an array of limbs. */
module BaseUint {
  // Every operator is tied to the operation on integers it stands for, modulo the number of values
  // the array can hold.

  import opened Arithmetic
  import opened Bits
  import opened Limbs
  import opened LimbShifts

  class base_uint {
    const pn: array<uint32>

    // Zero, with a given number of limbs.
    constructor (width: nat)
      ensures fresh(pn) && pn.Length == width && Num() == 0
    {
      pn := new uint32[width](i => 0);
      new;
      ValZero(pn[..], width);
    }

    constructor Copy(b: base_uint)
      ensures fresh(pn) && pn[..] == b.pn[..]
    {
      pn := new uint32[b.pn.Length];
      new;
      Assign(b);
    }

    constructor From64(width: nat, b: uint64)
      requires width >= 2
      ensures fresh(pn) && pn.Length == width && Num() == b
    {
      pn := new uint32[width];
      new;
      Assign64(b);
    }

    ghost function Num(): (r: nat)
      reads pn
    {
      Val(pn[..], pn.Length)
    }

    // The number of values, 2^BITS.
    ghost function Modulus(): (r: nat) {
      Pow(pn.Length)
    }

    method Assign(b: base_uint)
      requires b.pn.Length == pn.Length
      modifies pn
      ensures pn[..] == old(b.pn[..])
    {
      for i := 0 to pn.Length
        invariant forall k :: 0 <= k < i ==> pn[k] == old(b.pn[k])
        invariant forall k :: i <= k < pn.Length ==> b.pn[k] == old(b.pn[k])
      {
        pn[i] := b.pn[i];
      }
    }

    method Assign64(b: uint64)
      requires pn.Length >= 2
      modifies pn
      ensures Num() == b
    {
      pn[0] := b % BASE;
      pn[1] := b / BASE;
      for i := 2 to pn.Length
        invariant pn[0] == b % BASE && pn[1] == b / BASE
        invariant forall k :: 2 <= k < i ==> pn[k] == 0
      {
        pn[i] := 0;
      }
      Val64(pn[..]);
    }

    method Complement() returns (ret: base_uint)
      ensures fresh(ret) && fresh(ret.pn) && ret.pn.Length == pn.Length
      ensures ret.Num() == Modulus() - 1 - Num()
    {
      ret := new base_uint(pn.Length);
      for i := 0 to pn.Length
        invariant forall k :: 0 <= k < i ==> ret.pn[k] == BASE - 1 - pn[k]
      {
        ret.pn[i] := BASE - 1 - pn[i];
      }
      ComplementVal(pn[..], ret.pn[..], pn.Length);
    }

    method Increment()
      requires pn.Length > 0
      modifies pn
      ensures Num() == (old(Num()) + 1) % Modulus()
    {
      ghost var before := pn[..];
      var i := 0;
      pn[i] := (pn[i] + 1) % BASE;
      CarryStep(pn[..], i, before[i] as nat + 1);
      while pn[i] == 0 && i < pn.Length - 1
        invariant 0 <= i < pn.Length && pn[i] == (before[i] + 1) % BASE
        invariant forall k :: i < k < pn.Length ==> pn[k] == before[k]
        invariant Val(pn[..], i + 1) + (before[i] + 1) / BASE * Pow(i + 1) == Val(before, i + 1) + 1
        decreases pn.Length - i
      {
        ghost var low := pn[..];
        i := i + 1;
        pn[i] := (pn[i] + 1) % BASE;
        ValFrame(low, pn[..], i);
        CarryStep(pn[..], i, before[i] as nat + 1);
        Distribute(before[i], 1, Pow(i));
      }
      SumModulo(before, pn[..], i + 1, 1, (before[i] + 1) / BASE);
    }

    method Decrement()
      requires pn.Length > 0
      modifies pn
      ensures Num() == (old(Num()) - 1) % Modulus()
    {
      ghost var before := pn[..];
      var i := 0;
      pn[i] := OneLess(pn[i]);
      ghost var carry := if before[i] == 0 then -1 else 0;
      while pn[i] == BASE - 1 && i < pn.Length - 1
        invariant 0 <= i < pn.Length && pn[i] == OneLess(before[i])
        invariant carry == if before[i] == 0 then -1 else 0
        invariant forall k :: i < k < pn.Length ==> pn[k] == before[k]
        invariant Val(pn[..], i + 1) + carry * Pow(i + 1) == Val(before, i + 1) - 1
        decreases pn.Length - i
      {
        ghost var low := pn[..];
        i := i + 1;
        pn[i] := OneLess(pn[i]);
        carry := if before[i] == 0 then -1 else 0;
        BorrowStep(before, low, pn[..], i, carry);
      }
      SumModulo(before, pn[..], i + 1, -1, carry);
    }

    method Negate() returns (ret: base_uint)
      requires pn.Length > 0
      ensures fresh(ret) && fresh(ret.pn) && ret.pn.Length == pn.Length
      ensures ret.Num() == (Modulus() - Num()) % Modulus()
    {
      ret := Complement();
      ret.Increment();
    }

    method AddAssign(b: base_uint)
      requires b.pn.Length == pn.Length
      modifies pn
      ensures Num() == (old(Num()) + old(b.Num())) % Modulus()
    {
      ghost var va, vb := pn[..], b.pn[..];
      var carry: uint64 := 0;
      for i := 0 to pn.Length
        invariant forall k :: i <= k < pn.Length ==> pn[k] == va[k] && b.pn[k] == vb[k]
        invariant carry <= 1 && Val(pn[..], i) + carry * Pow(i) == Val(va, i) + Val(vb, i)
      {
        var n: uint64 := carry + pn[i] + b.pn[i];
        AddTerms(carry, va[i], vb[i], Val(va, i), Val(vb, i), Val(pn[..], i), Pow(i));
        ghost var low := pn[..];
        pn[i] := n % BASE;
        carry := n / BASE;
        ValFrame(low, pn[..], i);
        CarryStep(pn[..], i, n);
      }
      ValBound(pn[..], pn.Length);
      DivisionIs(Val(va, pn.Length) + Val(vb, pn.Length), Modulus(), carry, Num());
    }

    method SubAssign(b: base_uint)
      requires b.pn.Length == pn.Length > 0
      modifies pn
      ensures Num() == (old(Num()) - old(b.Num())) % Modulus()
    {
      ghost var x: int, y: int, m := Num(), b.Num(), Modulus();
      var negated := b.Negate();
      AddAssign(negated);
      SameRemainder(x - y, x + (m - y) % m, (m - y) / m - 1, m);
    }

    // The limb and the carry of one 64-bit accumulation.
    static method MultiplyAdd(x: uint32, y: uint32, carry: uint32, limb: uint32) returns (lo: uint32, hi: uint32)
      ensures lo + hi * BASE == carry + limb + x * y
    {
      Products(x, y, carry, limb);
      var n: uint64 := carry + limb + x * y;
      lo, hi := n % BASE, n / BASE;
    }

    method MulAssign32(b32: uint32)
      modifies pn
      ensures Num() == (b32 * old(Num())) % Modulus()
    {
      ghost var va := pn[..];
      var carry: uint32 := 0;
      for i := 0 to pn.Length
        invariant forall k :: i <= k < pn.Length ==> pn[k] == va[k]
        invariant Val(pn[..], i) + carry * Pow(i) == b32 * Val(va, i)
      {
        ghost var low, had := pn[..], carry;
        pn[i], carry := MultiplyAdd(b32, pn[i], carry, 0);
        ScaleStep(low, pn[..], b32, va, i, had, carry);
      }
      ValBound(pn[..], pn.Length);
      DivisionIs(b32 * Val(va, pn.Length), Modulus(), carry, Num());
    }

    // One row of schoolbook multiplication: adds x times b, j limbs up, and drops the carry at the top.
    method MulRow(x: uint32, b: base_uint, j: nat, ghost vb: seq<uint32>) returns (ghost dropped: nat)
      requires j < pn.Length == b.pn.Length && b.pn[..] == vb
      requires b.pn == pn ==> Val(vb, pn.Length) == 0
      modifies pn
      ensures b.pn[..] == vb
      ensures Num() + dropped * Modulus() == old(Num()) + x * Val(vb, pn.Length - j) * Pow(j)
    {
      ghost var before := pn[..];
      ValZero(vb, pn.Length);
      var carry: uint32 := 0;
      for i := 0 to pn.Length - j
        invariant b.pn[..] == vb && (b.pn == pn ==> carry == 0)
        invariant forall k :: i + j <= k < pn.Length ==> pn[k] == before[k]
        invariant Val(pn[..], i + j) + carry * Pow(i + j) == Val(before, i + j) + x * Val(vb, i) * Pow(j)
      {
        ghost var low, had := pn[..], carry;
        pn[i + j], carry := MultiplyAdd(x, b.pn[i], carry, pn[i + j]);
        RowStep(before, low, pn[..], x, vb, i, j, had, carry);
      }
      dropped := carry;
    }

    // Truncated product. The receiver is cleared first, which wipes out b too when b is the receiver.
    method MulAssign(b: base_uint)
      requires b.pn.Length == pn.Length >= 2
      modifies pn
      ensures Num() == if b.pn == pn then 0 else (old(Num()) * old(b.Num())) % Modulus()
    {
      var a := new base_uint.Copy(this);
      ghost var va := pn[..];
      Assign64(0);
      ghost var vb := b.pn[..];
      ghost var quotient: nat := 0;
      for j := 0 to pn.Length
        invariant b.pn[..] == vb && a.pn[..] == va
        invariant Num() + quotient * Modulus() == Val(va, j) * Val(vb, pn.Length)
      {
        ghost var sum: nat := Num();
        ghost var dropped := MulRow(a.pn[j], b, j, vb);
        quotient := ColumnStep(sum, Num(), quotient, dropped, va, vb, j, pn.Length);
      }
      ValBound(pn[..], pn.Length);
      DivisionIs(Val(va, pn.Length) * Val(vb, pn.Length), Modulus(), quotient, Num());
    }

    // -1, 0 or 1, as this number is below, equal to or above the other.
    method CompareTo(b: base_uint) returns (r: int)
      requires b.pn.Length == pn.Length
      ensures r == if Num() < b.Num() then -1 else if Num() > b.Num() then 1 else 0
    {
      for i := pn.Length downto 0
        invariant forall k :: i <= k < pn.Length ==> pn[k] == b.pn[k]
      {
        if pn[i] < b.pn[i] {
          ValOrder(pn[..], b.pn[..], i, pn.Length);
          return -1;
        }
        if pn[i] > b.pn[i] {
          ValOrder(b.pn[..], pn[..], i, pn.Length);
          return 1;
        }
      }
      ValFrame(pn[..], b.pn[..], pn.Length);
      return 0;
    }

    method EqualTo(b: uint64) returns (r: bool)
      requires pn.Length >= 2
      ensures r <==> Num() == b
    {
      for i := pn.Length downto 2
        invariant forall k :: i <= k < pn.Length ==> pn[k] == 0
      {
        if pn[i] != 0 {
          AtLeast64(pn[..], i);
          return false;
        }
      }
      Val64(pn[..]);
      return pn[1] == b / BASE && pn[0] == b % BASE;
    }

    method GetLow64() returns (r: uint64)
      requires pn.Length >= 2
      ensures r == Num() % 0x1_0000_0000_0000_0000
    {
      Low64(pn[..]);
      return pn[0] + BASE * pn[1];
    }

    method ShlLimbs(a: base_uint, k: nat, s: nat)
      requires a.pn.Length == pn.Length && a.pn != pn && s < 32 && forall m :: 0 <= m < pn.Length ==> pn[m] == 0
      modifies pn
      ensures forall m :: 0 <= m < pn.Length ==> pn[m] == ShlLimb(a.pn[..], k, s, m)
    {
      ghost var va := a.pn[..];
      for i := 0 to pn.Length
        invariant forall m :: 0 <= m < i + k && m < pn.Length ==> pn[m] == ShlLimb(va, k, s, m)
        invariant i + k < pn.Length ==> pn[i + k] == if i == 0 then 0 else Shl(va[i - 1], s) / BASE
        invariant forall m :: i + k < m < pn.Length ==> pn[m] == 0
      {
        LimbShl(a.pn[i], s);
        if i + k + 1 < pn.Length && s != 0 {
          pn[i + k + 1] := Or(pn[i + k + 1], Shr(a.pn[i], 32 - s));
        }
        if i + k < pn.Length {
          if i > 0 {
            LimbShl(va[i - 1], s);
          }
          ShlGrows(s);
          OrLimb(pn[i + k], a.pn[i], s);
          pn[i + k] := Or(pn[i + k], Shl(a.pn[i], s) % BASE);
          assert pn[i + k] == ShlLimb(va, k, s, i + k);
        }
      }
    }

    method ShrLimbs(a: base_uint, k: nat, s: nat)
      requires a.pn.Length == pn.Length && a.pn != pn && s < 32 && forall m :: 0 <= m < pn.Length ==> pn[m] == 0
      modifies pn
      ensures forall m :: 0 <= m < pn.Length ==> pn[m] == ShrLimb(a.pn[..], k, s, m)
    {
      ghost var va := a.pn[..];
      for i := 0 to pn.Length
        invariant forall m :: 0 <= m < i - k - 1 ==> pn[m] == ShrLimb(va, k, s, m)
        invariant i - k - 1 >= 0 ==> pn[i - k - 1] == Shr(va[i - 1], s)
        invariant forall m :: 0 <= m < pn.Length && m >= i - k ==> pn[m] == 0
      {
        ShrSmall(a.pn[i], s);
        if i - k - 1 >= 0 && s != 0 {
          ShrSmall(va[i - 1], s);
          OrLimb(pn[i - k - 1], a.pn[i], 32 - s);
          pn[i - k - 1] := Or(pn[i - k - 1], Shl(a.pn[i], 32 - s) % BASE);
        }
        if i - k >= 0 {
          pn[i - k] := Or(pn[i - k], Shr(a.pn[i], s));
        }
      }
    }

    method SetZero()
      modifies pn
      ensures forall m :: 0 <= m < pn.Length ==> pn[m] == 0
    {
      for i := 0 to pn.Length
        invariant forall m :: 0 <= m < i ==> pn[m] == 0
      {
        pn[i] := 0;
      }
    }

    method ShlAssign(shift: nat)
      modifies pn
      ensures Num() == Shl(old(Num()), shift) % Modulus()
    {
      var a := new base_uint.Copy(this);
      SetZero();
      ShlLimbs(a, shift / 32, shift % 32);
      ShlIsShift(a.pn[..], pn[..], shift / 32, shift % 32);
    }

    method ShrAssign(shift: nat)
      modifies pn
      ensures Num() == Shr(old(Num()), shift)
    {
      var a := new base_uint.Copy(this);
      SetZero();
      ShrLimbs(a, shift / 32, shift % 32);
      ShrIsShift(a.pn[..], pn[..], shift / 32, shift % 32);
    }

    // The position of the highest one bit plus one, or zero.
    method Bits() returns (r: nat)
      ensures IsBitLength(Num(), r)
    {
      for pos := pn.Length downto 0
        invariant forall k :: pos <= k < pn.Length ==> pn[k] == 0
      {
        if pn[pos] != 0 {
          Powers();
          var bits := 31;
          while bits > 0
            invariant 0 <= bits <= 31 && pn[pos] < Shl(1, bits + 1)
          {
            AndTopBit(pn[pos], bits);
            if And(pn[pos], Shl(1, bits)) != 0 {
              BitLengthAt(pn[..], pos, bits);
              return 32 * pos + bits + 1;
            }
            bits := bits - 1;
          }
          BitLengthAt(pn[..], pos, 0);
          return 32 * pos + 1;
        }
      }
      ValZero(pn[..], pn.Length);
      return 0;
    }

    // One round of division: takes the shifted divisor out of the rest if it fits, and sets a bit.
    method TakeOut(num: base_uint, div: base_uint, shift: nat)
      requires num.pn.Length == div.pn.Length == pn.Length > 0 && shift < 32 * pn.Length
      requires pn != num.pn && pn != div.pn && num.pn != div.pn
      requires Clear(pn[..], shift + 1)
      modifies pn, num.pn
      ensures Clear(pn[..], shift)
      ensures if old(num.Num()) >= div.Num()
        then Num() == old(Num()) + Shl(1, shift) && num.Num() == old(num.Num()) - div.Num()
        else Num() == old(Num()) && num.Num() == old(num.Num())
    {
      SetBit(pn[..], shift, shift / 32, shift % 32);
      var order := num.CompareTo(div);
      if order >= 0 {
        ValBound(num.pn[..], pn.Length);
        DivisionIs(num.Num() - div.Num(), Modulus(), 0, num.Num() - div.Num());
        num.SubAssign(div);
        pn[shift / 32] := Or(pn[shift / 32], Shl(1, shift % 32));
      }
    }

    // The rounds of a division of n by d, from an aligned divisor down.
    method Divide(num: base_uint, div: base_uint, start: nat, ghost n: nat, ghost d: nat)
      requires num.pn.Length == div.pn.Length == pn.Length > 0 && start < 32 * pn.Length
      requires pn != num.pn && pn != div.pn && num.pn != div.pn
      requires Num() == 0 && num.Num() == n < Shl(d, start + 1) && div.Num() == Shl(d, start)
      modifies pn, num.pn, div.pn
      ensures num.Num() < d && num.Num() + Num() * d == n
    {
      ClearZero(pn[..], start + 1);
      var shift: int := start;
      ghost var q: nat, rest: nat := 0, n;
      while shift >= 0
        invariant -1 <= shift < 32 * pn.Length && Clear(pn[..], shift + 1)
        invariant num.Num() == rest < Shl(d, shift + 1) && Num() == q && rest + q * d == n
        invariant shift >= 0 ==> div.Num() == Shl(d, shift)
      {
        DivStep(d, shift, rest, q, n);
        TakeOut(num, div, shift);
        q, rest := Num(), num.Num();
        div.ShrAssign(1);
        shift := shift - 1;
      }
    }

    // Division once the lengths are known: aligns the divisor's top bit with the number's first.
    method DivideAligned(num: base_uint, div: base_uint, numBits: nat, divBits: nat)
      requires num.pn.Length == div.pn.Length == pn.Length > 0 && 0 < divBits <= numBits <= 32 * pn.Length
      requires pn != num.pn && pn != div.pn && num.pn != div.pn
      requires Num() == 0 && IsBitLength(num.Num(), numBits) && IsBitLength(div.Num(), divBits)
      modifies pn, num.pn, div.pn
      ensures old(div.Num()) > 0 && Num() == old(num.Num()) / old(div.Num())
    {
      ghost var n: nat, d: nat := num.Num(), div.Num();
      var shift := numBits - divBits;
      Aligned(n, d, numBits, divBits, shift, pn.Length);
      div.ShlAssign(shift);
      Divide(num, div, shift, n, d);
      DivisionIs(n, d, Num(), num.Num());
    }

    // Floor division by shift and subtract; a zero divisor throws, after the receiver was cleared.
    method DivAssign(b: base_uint) returns (ok: bool)
      requires b.pn.Length == pn.Length >= 2
      modifies pn
      ensures ok <==> old(b.Num()) != 0
      ensures Num() == if ok then old(Num()) / old(b.Num()) else 0
    {
      var div := new base_uint.Copy(b);
      var num := new base_uint.Copy(this);
      Assign64(0);
      var numBits := num.Bits();
      var divBits := div.Bits();
      BitLengthFits(num.pn[..], numBits);
      if divBits == 0 {
        return false;
      }
      ok := true;
      if divBits > numBits {
        Shorter(num.Num(), div.Num(), numBits, divBits);
        return;
      }
      DivideAligned(num, div, numBits, divBits);
    }
  }
}
