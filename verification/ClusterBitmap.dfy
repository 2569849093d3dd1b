/** The slot bitmaps of src/cluster.c: 16384 bits, least significant bit first. */
module ClusterBitmap {

  const CLUSTER_SLOTS: nat := 16384

  type Slot = j: nat | j < CLUSTER_SLOTS

  type Bitmap = b: seq<bv8> | |b| == CLUSTER_SLOTS / 8
    witness seq(CLUSTER_SLOTS / 8, _ => 0)

  function Mask(bit: nat): bv8
    requires bit < 8
  {
    (1 as bv8) << bit
  }

  predicate TestBit(b: Bitmap, pos: Slot) {
    b[pos / 8] & Mask(pos % 8) != 0
  }

  function SetBit(b: Bitmap, pos: Slot): Bitmap {
    b[pos / 8 := b[pos / 8] | Mask(pos % 8)]
  }

  function ClearBit(b: Bitmap, pos: Slot): Bitmap {
    b[pos / 8 := b[pos / 8] & !Mask(pos % 8)]
  }

  const EMPTY: Bitmap := seq(CLUSTER_SLOTS / 8, _ => 0)

  /** The positions of the one bits. */
  ghost function Bits(b: Bitmap): set<nat> {
    set j: nat | j < CLUSTER_SLOTS && TestBit(b, j)
  }

  lemma MaskSet(x: bv8, i: nat, j: nat)
    requires i < 8 && j < 8
    ensures (x | Mask(i)) & Mask(j) != 0 <==> i == j || x & Mask(j) != 0
  {
    assert Mask(0) == 1 && Mask(1) == 2 && Mask(2) == 4 && Mask(3) == 8;
    assert Mask(4) == 16 && Mask(5) == 32 && Mask(6) == 64 && Mask(7) == 128;
  }

  lemma MaskClear(x: bv8, i: nat, j: nat)
    requires i < 8 && j < 8
    ensures (x & !Mask(i)) & Mask(j) != 0 <==> i != j && x & Mask(j) != 0
  {
    assert Mask(0) == 1 && Mask(1) == 2 && Mask(2) == 4 && Mask(3) == 8;
    assert Mask(4) == 16 && Mask(5) == 32 && Mask(6) == 64 && Mask(7) == 128;
  }

  lemma TestAfterSet(b: Bitmap, pos: Slot, j: Slot)
    ensures TestBit(SetBit(b, pos), j) <==> j == pos || TestBit(b, j)
  {
    if j / 8 == pos / 8 {
      MaskSet(b[pos / 8], pos % 8, j % 8);
    }
  }

  lemma TestAfterClear(b: Bitmap, pos: Slot, j: Slot)
    ensures TestBit(ClearBit(b, pos), j) <==> j != pos && TestBit(b, j)
  {
    if j / 8 == pos / 8 {
      MaskClear(b[pos / 8], pos % 8, j % 8);
    }
  }

  lemma SetBitAdds(b: Bitmap, pos: Slot)
    ensures Bits(SetBit(b, pos)) == Bits(b) + {pos}
  {
    forall j: Slot ensures j in Bits(SetBit(b, pos)) <==> j in Bits(b) + {pos} {
      TestAfterSet(b, pos, j);
    }
  }

  lemma ClearBitRemoves(b: Bitmap, pos: Slot)
    ensures Bits(ClearBit(b, pos)) == Bits(b) - {pos}
  {
    forall j: Slot ensures j in Bits(ClearBit(b, pos)) <==> j in Bits(b) - {pos} {
      TestAfterClear(b, pos, j);
    }
  }

  lemma EmptyHasNoBits()
    ensures Bits(EMPTY) == {}
  {}
}
