/** A page of the memory-backed device as the driver keeps it: a 4096-byte buffer and a
    bitmap with a bit for each sector, the highest two bits being FREE and LOCK. */
module NullBlkPage {
  type Bytes = seq<bv8>

  const FREE_BIT: nat := 8
  const LOCK_BIT: nat := 9

  predicate BlockStep(step: nat) { step == 1 || step == 2 || step == 4 || step == 8 }

  /** Bit b is the first sector of a block. */
  predicate BlockBit(step: nat, b: nat)
    requires BlockStep(step)
  {
    b < 8 && b % step == 0
  }

  lemma BlocksApart(step: nat, a: nat, b: nat)
    requires BlockStep(step) && BlockBit(step, a) && BlockBit(step, b) && a < b
    ensures a + step <= b
  {}

  lemma BlockFits(step: nat, a: nat)
    requires BlockStep(step) && BlockBit(step, a)
    ensures a + step <= 8
  {}

  lemma NextBlock(step: nat, a: nat)
    requires BlockStep(step) && BlockBit(step, a)
    ensures a + step == 8 || BlockBit(step, a + step)
  {}

  /** A buffer of which n bytes from `at` on have been replaced. */
  ghost predicate Splice(now: Bytes, was: Bytes, at: nat, n: nat, got: Bytes) {
    at + n <= |was| && |now| == |was| && now == was[..at] + got + was[at + n..]
  }

  lemma SpliceAt(now: Bytes, was: Bytes, at: nat, n: nat, got: Bytes)
    requires Splice(now, was, at, n, got)
    ensures |now| == |was| && at + n <= |now| && now[at..at + n] == got
    ensures forall i :: 0 <= i < |now| && !(at <= i < at + n) ==> now[i] == was[i]
  {
    assert |got| == n;
  }

  /** memcpy */
  method Memcpy(dest: array<bv8>, at: nat, src: array<bv8>, from: nat, n: nat)
    requires dest != src && at + n <= dest.Length && from + n <= src.Length
    modifies dest
    ensures Splice(dest[..], old(dest[..]), at, n, src[from..from + n])
  {
    forall j | at <= j < at + n {
      dest[j] := src[from + (j - at)];
    }
    assert dest[at..at + n] == src[from..from + n];
    assert dest[..] == dest[..at] + dest[at..at + n] + dest[at + n..];
  }

  /** memset to 0 */
  method FillZeros(dest: array<bv8>, at: nat, n: nat)
    requires at + n <= dest.Length
    modifies dest
    ensures Splice(dest[..], old(dest[..]), at, n, seq(n, _ => 0))
  {
    forall j | at <= j < at + n {
      dest[j] := 0;
    }
    assert dest[at..at + n] == seq(n, _ => 0);
    assert dest[..] == dest[..at] + dest[at..at + n] + dest[at + n..];
  }

  // ---------------------------------------------------------------- the contents of a page

  ghost predicate Shape(bytes: seq<bv8>, bits: seq<bool>, step: nat) {
    && |bytes| == 4096 && |bits| == 10 && BlockStep(step)
    && (forall b: nat :: b < 8 && bits[b] ==> BlockBit(step, b))
  }

  /** The blocks whose bit is set, with their bytes. */
  ghost function Contents(bytes: seq<bv8>, bits: seq<bool>, step: nat): (m: map<nat, Bytes>)
    requires Shape(bytes, bits, step)
  {
    map b: nat | b < 8 && bits[b] :: BlockFits(step, b); bytes[b * 512..(b + step) * 512]
  }

  lemma ContentsClear(bytes: seq<bv8>, bits: seq<bool>, step: nat, b: nat)
    requires Shape(bytes, bits, step) && b < 8
    ensures Shape(bytes, bits[b := false], step)
    ensures Contents(bytes, bits[b := false], step) == Contents(bytes, bits, step) - {b}
  {
    hide BlockBit;
  }

  /** Only the bits below FREE matter. */
  lemma ContentsFlag(bytes: seq<bv8>, bits: seq<bool>, step: nat, b: nat, on: bool)
    requires Shape(bytes, bits, step) && 8 <= b < 10
    ensures Shape(bytes, bits[b := on], step) && Contents(bytes, bits[b := on], step) == Contents(bytes, bits, step)
  {
    hide BlockBit;
  }

  lemma ContentsPut(bytes: seq<bv8>, bytes': seq<bv8>, bits: seq<bool>, step: nat, b: nat)
    requires Shape(bytes, bits, step) && BlockBit(step, b) && |bytes'| == 4096
    requires forall i :: 0 <= i < 4096 && !(b * 512 <= i < (b + step) * 512) ==> bytes'[i] == bytes[i]
    ensures b + step <= 8 && Shape(bytes', bits[b := true], step)
    ensures Contents(bytes', bits[b := true], step) == Contents(bytes, bits, step)[b := bytes'[b * 512..(b + step) * 512]]
  {
    hide BlockBit;
    BlockFits(step, b);
    var m, m' := Contents(bytes, bits, step), Contents(bytes', bits[b := true], step);
    forall a: nat | a < 8 && bits[a] && a != b ensures a in m && a in m' && m'[a] == m[a] {
      BlockFits(step, a);
      if a < b {
        BlocksApart(step, a, b);
      } else {
        BlocksApart(step, b, a);
      }
    }
  }

  function Below(m: map<nat, Bytes>, n: nat): map<nat, Bytes> { map b | b in m && b < n :: m[b] }

  lemma BlockZero(step: nat)
    requires BlockStep(step)
    ensures BlockBit(step, 0)
  {}

  /** One turn of the copy loop. */
  lemma SourceBlock(bytes: seq<bv8>, bits: seq<bool>, step: nat, i: nat)
    requires Shape(bytes, bits, step) && BlockBit(step, i)
    ensures i + step <= 8 && (i + step == 8 || BlockBit(step, i + step)) && i < i + step
    ensures var m := Contents(bytes, bits, step);
      Below(m, i + step) == if bits[i] then Below(m, i)[i := bytes[i * 512..(i + step) * 512]] else Below(m, i)
  {
    hide BlockBit;
    BlockFits(step, i);
    NextBlock(step, i);
    forall b: nat | b < 8 && bits[b] && i < b ensures i + step <= b {
      BlocksApart(step, i, b);
    }
  }

  lemma UpdateSum(a: map<nat, Bytes>, b: map<nat, Bytes>, i: nat, x: Bytes)
    ensures (a + b)[i := x] == a + b[i := x]
  {}

  lemma AllBelow(bytes: seq<bv8>, bits: seq<bool>, step: nat)
    requires Shape(bytes, bits, step)
    ensures Below(Contents(bytes, bits, step), 8) == Contents(bytes, bits, step)
    ensures Below(Contents(bytes, bits, step), 0) == map[]
  {}

  class Page {
    var index: nat
    const bytes: array<bv8>
    const bitmap: array<bool>

    constructor (step: nat)
      requires BlockStep(step)
      ensures fresh(bytes) && fresh(bitmap) && Ok(step)
      ensures Blocks(step) == map[] && !bitmap[FREE_BIT] && !bitmap[LOCK_BIT]
    {
      index := 0;
      bytes := new bv8[4096];
      bitmap := new bool[10](_ => false);
    }

    ghost predicate Ok(step: nat)
      reads bitmap, bytes
    {
      && bytes.Length == 4096 && bitmap.Length == 10 && BlockStep(step)
      && Shape(bytes[..], bitmap[..], step)
    }

    ghost function Blocks(step: nat): map<nat, Bytes>
      reads bytes, bitmap
      requires Ok(step)
    {
      Contents(bytes[..], bitmap[..], step)
    }

    /** null_page_empty */
    method Empty(ghost step: nat) returns (empty: bool)
      requires Ok(step)
      ensures empty <==> Blocks(step) == map[]
    {
      hide BlockBit;
      var i := 0;
      while i < 8 && !bitmap[i]
        invariant 0 <= i <= 8
        invariant forall b :: 0 <= b < i ==> !bitmap[b]
      {
        i := i + 1;
      }
      empty := i == 8;
      if i < 8 {
        assert bitmap[..][i];
        assert i in Blocks(step);
      }
    }

    method ClearBit(ghost step: nat, b: nat)
      requires Ok(step) && b < 8
      modifies bitmap
      ensures Ok(step) && Blocks(step) == old(Blocks(step)) - {b}
      ensures bitmap[FREE_BIT] == old(bitmap[FREE_BIT]) && bitmap[LOCK_BIT] == old(bitmap[LOCK_BIT])
    {
      hide Contents, Shape;
      ContentsClear(bytes[..], bitmap[..], step, b);
      bitmap[b] := false;
      assert bitmap[..] == old(bitmap[..])[b := false];
    }

    /** __set_bit, __clear_bit of LOCK and FREE. */
    method SetFlag(ghost step: nat, b: nat, on: bool)
      requires Ok(step) && (b == FREE_BIT || b == LOCK_BIT)
      modifies bitmap
      ensures Ok(step) && Blocks(step) == old(Blocks(step)) && bitmap[b] == on
      ensures b == LOCK_BIT ==> bitmap[FREE_BIT] == old(bitmap[FREE_BIT])
      ensures b == FREE_BIT ==> bitmap[LOCK_BIT] == old(bitmap[LOCK_BIT])
    {
      hide Contents, Shape;
      ContentsFlag(bytes[..], bitmap[..], step, b, on);
      bitmap[b] := on;
      assert bitmap[..] == old(bitmap[..])[b := on];
    }

    /** null_free_page: a LOCKed page is only marked. */
    method Free(ghost step: nat) returns (released: bool)
      requires Ok(step)
      modifies bitmap
      ensures Ok(step) && Blocks(step) == old(Blocks(step)) && bitmap[FREE_BIT]
      ensures bitmap[LOCK_BIT] == old(bitmap[LOCK_BIT]) && released == !bitmap[LOCK_BIT]
    {
      SetFlag(step, FREE_BIT, true);
      released := !bitmap[LOCK_BIT];
    }

    /** memcpy of one block from a buffer, and its bit. */
    method PutBlock(step: nat, b: nat, src: array<bv8>, at: nat)
      requires Ok(step) && BlockBit(step, b)
      requires src != bytes && at + step * 512 <= src.Length
      modifies bytes, bitmap
      ensures Ok(step) && Blocks(step) == old(Blocks(step))[b := src[at..at + step * 512]]
      ensures bitmap[FREE_BIT] == old(bitmap[FREE_BIT]) && bitmap[LOCK_BIT] == old(bitmap[LOCK_BIT])
    {
      hide Contents, Shape, BlockBit, Splice;
      BlockFits(step, b);
      var base, n := b * 512, step * 512;
      Memcpy(bytes, base, src, at, n);
      SpliceAt(bytes[..], old(bytes[..]), base, n, src[at..at + n]);
      ContentsPut(old(bytes[..]), bytes[..], old(bitmap[..]), step, b);
      bitmap[b] := true;
      assert bitmap[..] == old(bitmap[..])[b := true];
      assert (b + step) * 512 == base + n;
    }

    /** The copy loop of null_flush_cache_page: every block of src whose bit is set. */
    method CopyBlocks(step: nat, src: Page)
      requires Ok(step) && src.Ok(step) && src.bytes != bytes && src.bitmap != bitmap
      modifies bytes, bitmap
      ensures Ok(step) && Blocks(step) == old(Blocks(step)) + src.Blocks(step)
      ensures bitmap[FREE_BIT] == old(bitmap[FREE_BIT]) && bitmap[LOCK_BIT] == old(bitmap[LOCK_BIT])
    {
      hide BlockBit, Shape, Contents, Below;
      var i := 0;
      ghost var mine, theirs := Blocks(step), src.Blocks(step);
      BlockZero(step);
      AllBelow(src.bytes[..], src.bitmap[..], step);
      assert mine == mine + map[];
      while i < 8
        invariant 0 <= i <= 8 && (i == 8 || BlockBit(step, i))
        invariant Ok(step) && src.Blocks(step) == theirs && Blocks(step) == mine + Below(theirs, i)
        invariant bitmap[FREE_BIT] == old(bitmap[FREE_BIT]) && bitmap[LOCK_BIT] == old(bitmap[LOCK_BIT])
        decreases 8 - i
      {
        SourceBlock(src.bytes[..], src.bitmap[..], step, i);
        if src.bitmap[i] {
          PutBlock(step, i, src.bytes, i * 512);
          assert src.bytes[i * 512..i * 512 + step * 512] == src.bytes[..][i * 512..(i + step) * 512];
          UpdateSum(mine, Below(theirs, i), i, src.bytes[..][i * 512..(i + step) * 512]);
        }
        i := i + step;
      }
    }
  }
}
