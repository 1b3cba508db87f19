/** The active-CPU bitmask of an address space, as the set of CPUs that it stands for. */
module CpuMask {
  import opened Bits

  const MAX_SHOOTDOWN_CPUS: nat := 64

  /** The CPUs in a mask. */
  function Cpus(mask: nat): set<nat> {
    BitSet(mask, MAX_SHOOTDOWN_CPUS)
  }

  function CpuBit(cpu: nat): nat {
    Pow2(cpu % MAX_SHOOTDOWN_CPUS)
  }

  lemma CpuBitFits(cpu: nat)
    ensures CpuBit(cpu) < Pow2(MAX_SHOOTDOWN_CPUS)
  {
    Pow2Monotone(cpu % MAX_SHOOTDOWN_CPUS, MAX_SHOOTDOWN_CPUS - 1);
  }

  /** `mask & !(1 << cpu)`. */
  function Without(mask: nat, cpu: nat): nat {
    CpuBitFits(cpu);
    And(mask, NotBits(CpuBit(cpu), MAX_SHOOTDOWN_CPUS))
  }

  /** Clearing a bit of a mask removes that CPU; it is also how `remote_targets` excludes the caller. */
  lemma WithoutRemoves(mask: nat, cpu: nat)
    ensures Cpus(Without(mask, cpu)) == Cpus(mask) - {cpu % MAX_SHOOTDOWN_CPUS}
  {
    CpuBitFits(cpu);
    forall i: nat | i < MAX_SHOOTDOWN_CPUS
      ensures Bit(Without(mask, cpu), i) <==> Bit(mask, i) && i != cpu % MAX_SHOOTDOWN_CPUS
    {
      BitOfAnd(mask, NotBits(CpuBit(cpu), MAX_SHOOTDOWN_CPUS), i);
      BitOfNot(CpuBit(cpu), MAX_SHOOTDOWN_CPUS, i);
      BitOfPow2(cpu % MAX_SHOOTDOWN_CPUS, i);
    }
  }

  lemma WithAdds(mask: nat, cpu: nat)
    ensures Cpus(Or(mask, CpuBit(cpu))) == Cpus(mask) + {cpu % MAX_SHOOTDOWN_CPUS}
  {
    forall i: nat | i < MAX_SHOOTDOWN_CPUS
      ensures Bit(Or(mask, CpuBit(cpu)), i) <==> Bit(mask, i) || i == cpu % MAX_SHOOTDOWN_CPUS
    {
      BitOfOr(mask, CpuBit(cpu), i);
      BitOfPow2(cpu % MAX_SHOOTDOWN_CPUS, i);
    }
  }

  lemma WithoutFits(mask: nat, cpu: nat)
    requires mask < Pow2(MAX_SHOOTDOWN_CPUS)
    ensures Without(mask, cpu) < Pow2(MAX_SHOOTDOWN_CPUS)
  {
    CpuBitFits(cpu);
    AndBound(mask, NotBits(CpuBit(cpu), MAX_SHOOTDOWN_CPUS));
  }

  lemma CountIsSize(mask: nat, n: nat, cpus: set<nat>)
    requires mask < Pow2(n) && n == MAX_SHOOTDOWN_CPUS && Cpus(mask) == cpus
    ensures CountOnes(mask) == |cpus|
  {
    CountOnesIsSize(mask, n);
  }

  /** `remaining` starts at the number of remote targets. */
  lemma RemainingCountsTargets(mask: nat, self: nat)
    requires mask < Pow2(MAX_SHOOTDOWN_CPUS) && self < MAX_SHOOTDOWN_CPUS
    ensures CountOnes(Without(mask, self)) == |Cpus(mask) - {self}|
  {
    WithoutRemoves(mask, self);
    WithoutFits(mask, self);
    CountIsSize(Without(mask, self), MAX_SHOOTDOWN_CPUS, Cpus(mask) - {self});
  }

  class ActiveCpuMask {
    var bits: nat

    constructor ()
      ensures Cpus(bits) == {}
    {
      bits := 0;
      new;
      forall i: nat ensures !Bit(0, i) { BitOfZero(i); }
    }

    method MarkActive(cpu: nat)
      modifies this
      ensures Cpus(bits) == old(Cpus(bits)) + {cpu % MAX_SHOOTDOWN_CPUS}
    {
      WithAdds(bits, cpu);
      bits := Or(bits, CpuBit(cpu));
    }

    method MarkInactive(cpu: nat)
      modifies this
      ensures Cpus(bits) == old(Cpus(bits)) - {cpu % MAX_SHOOTDOWN_CPUS}
    {
      WithoutRemoves(bits, cpu);
      bits := Without(bits, cpu);
    }
  }
}
