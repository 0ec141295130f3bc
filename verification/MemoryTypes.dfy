/** Memory types and the records of what is mapped where. */
module MemoryTypes {
  datatype MemoryType = MemoryType(read: bool, write: bool, execute: bool, user: bool, cacheDisable: bool, ps2mb: bool,
    ps1gb: bool)

  // A `memory_mapping`: where it starts, how long it is and what it permits.
  datatype Item = Item(addr: nat, length: nat, kind: MemoryType) {
    predicate Covers(v: nat) { Within(addr, length, v) }
  }

  // The level of table whose entries map pages of this type.
  function PageLevel(kind: MemoryType): (level: nat)
    ensures 1 <= level <= 3
  {
    if kind.ps1gb then 3 else if kind.ps2mb then 2 else 1
  }

  const WORD := 0x1_0000_0000_0000_0000

  // A 64-bit value read as signed.
  function Signed(x: nat): int
    requires x < WORD
  {
    if x < WORD / 2 then x else x - WORD
  }

  function Min(a: int, b: int): int { if a < b then a else b }

  function Max(a: int, b: int): int { if a < b then b else a }

  // How far the two ranges reach into each other; not positive when they are apart.
  function Reach(start1: nat, len1: nat, start2: nat, len2: nat): int {
    Min(start1 + len1, start2 + len2) - Max(start1, start2)
  }

  // `memory_areas_overlap`, on 64-bit words.
  predicate AreasOverlap(start1: nat, len1: nat, start2: nat, len2: nat) {
    Signed((Min((start1 + len1) % WORD, (start2 + len2) % WORD) - Max(start1, start2)) % WORD) > 0
  }

  ghost predicate Intersect(start1: nat, len1: nat, start2: nat, len2: nat) {
    exists v :: Within(start1, len1, v) && Within(start2, len2, v)
  }

  predicate Within(start: nat, len: nat, v: nat) {
    start <= v < start + len
  }

  lemma IntersectByReach(start1: nat, len1: nat, start2: nat, len2: nat)
    ensures Intersect(start1, len1, start2, len2) <==> Reach(start1, len1, start2, len2) > 0
  {
    if Reach(start1, len1, start2, len2) > 0 {
      var v: nat := Max(start1, start2);
      assert Within(start1, len1, v) && Within(start2, len2, v);
    }
  }

  /** The signed-difference test is right about ranges that do not wrap exactly when
      they overlap by less than, and lie apart by at most, half the address space. */
  lemma OverlapExactly(start1: nat, len1: nat, start2: nat, len2: nat)
    requires start1 + len1 < WORD && start2 + len2 < WORD
    ensures (AreasOverlap(start1, len1, start2, len2) <==> Intersect(start1, len1, start2, len2))
      <==> -(WORD / 2) <= Reach(start1, len1, start2, len2) < WORD / 2
  {
    var d := Reach(start1, len1, start2, len2);
    hide *;
    IntersectByReach(start1, len1, start2, len2);
    OverlapByReach(start1, len1, start2, len2);
    SignedReach(d);
  }

  lemma OverlapByReach(start1: nat, len1: nat, start2: nat, len2: nat)
    requires start1 + len1 < WORD && start2 + len2 < WORD
    ensures -WORD < Reach(start1, len1, start2, len2) < WORD
    ensures AreasOverlap(start1, len1, start2, len2) <==> Signed(Reach(start1, len1, start2, len2) % WORD) > 0
  {
    assert (start1 + len1) % WORD == start1 + len1 && (start2 + len2) % WORD == start2 + len2;
    hide Signed;
  }

  lemma SignedReach(d: int)
    requires -WORD < d < WORD
    ensures (Signed(d % WORD) > 0 <==> d > 0) <==> -(WORD / 2) <= d < WORD / 2
  {
    if d < 0 {
      assert d % WORD == d + WORD;
    } else {
      assert d % WORD == d;
    }
  }
}
