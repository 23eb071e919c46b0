/** Garbage-collection flags packed eight to a byte, proved against a plain sequence of flags. */
module BitFlags {

  /** The bit 1 << k of a byte. */
  function Mask(k: nat): bv8
    requires k < 8
  {
    match k
    case 0 => 0x01 case 1 => 0x02 case 2 => 0x04 case 3 => 0x08
    case 4 => 0x10 case 5 => 0x20 case 6 => 0x40 case _ => 0x80
  }

  lemma MaskIsShift(k: nat)
    requires k < 8
    ensures Mask(k) == (1 as bv8) << k
  {
  }

  predicate HasBit(b: bv8, k: nat)
    requires k < 8
  {
    b & Mask(k) != 0
  }

  lemma SetBit(b: bv8, k: nat, j: nat)
    requires k < 8 && j < 8
    ensures HasBit(b | Mask(k), j) <==> j == k || HasBit(b, j)
  {
  }

  lemma ClearBit(b: bv8, k: nat, j: nat)
    requires k < 8 && j < 8
    ensures HasBit(b & !Mask(k), j) <==> j != k && HasBit(b, j)
  {
  }

  lemma FullByte(j: nat)
    requires j < 8
    ensures HasBit(0xff, j)
  {
  }

  class BitPackedAtomicFlags {
    var mem: array<bv8>
    /** The flags as the user sees them. */
    ghost var bits: seq<bool>

    ghost predicate Valid()
      reads this, mem
    {
      && mem.Length == (|bits| + 7) / 8
      && forall s :: 0 <= s < |bits| ==> bits[s] == HasBit(mem[s / 8], s % 8)
    }

    /** All flags start as collectable. */
    constructor (size: nat)
      ensures Valid() && fresh(mem)
      ensures |bits| == size && forall s :: 0 <= s < size ==> bits[s]
    {
      mem := new bv8[(size + 7) / 8](i => 0xff);
      bits := seq(size, s => true);
      new;
      forall s | 0 <= s < size
        ensures HasBit(mem[s / 8], s % 8)
      {
        FullByte(s % 8);
      }
    }

    method BitSet(s: nat)
      requires Valid() && s < |bits|
      modifies this`bits, mem
      ensures Valid() && bits == old(bits)[s := true]
    {
      forall j | 0 <= j < 8 { SetBit(mem[s / 8], s % 8, j); }
      mem[s / 8] := mem[s / 8] | Mask(s % 8);
      bits := bits[s := true];
    }

    method BitUnset(s: nat)
      requires Valid() && s < |bits|
      modifies this`bits, mem
      ensures Valid() && bits == old(bits)[s := false]
    {
      forall j | 0 <= j < 8 { ClearBit(mem[s / 8], s % 8, j); }
      mem[s / 8] := mem[s / 8] & !Mask(s % 8);
      bits := bits[s := false];
    }

    method BitIsSet(s: nat) returns (r: bool)
      requires Valid() && s < |bits|
      ensures r == bits[s]
    {
      r := HasBit(mem[s / 8], s % 8);
    }
  }
}
