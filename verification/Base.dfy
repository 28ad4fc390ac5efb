/** Vocabulary shared by every module: optional values, the machine sizes the sources
    are written against, and their wrap-around arithmetic. */
module Base {

  datatype Option<+T> = None | Some(value: T)

  const PAGE_SIZE: nat := 4096
  const SECTOR_SIZE: nat := 512
  const PAGE_SECTORS: nat := 8
  const U32: nat := 0x1_0000_0000
  const U64: nat := 0x1_0000_0000_0000_0000
  /** ULONG_MAX / 1024 / 1024 */
  const MAX_MIB: nat := 0xFFF_FFFF_FFFF

  /** Addition, subtraction in a C `unsigned int`. */
  function Add32(a: nat, b: nat): nat { (a + b) % U32 }

  function Sub32(a: nat, b: nat): nat { (a - b) % U32 }

  /** Addition in a C `unsigned long`. */
  function Add64(a: nat, b: nat): nat { (a + b) % U64 }

  lemma SmallSum(a: nat, b: nat)
    requires a + b < U64
    ensures Add64(a, b) == a + b
  {}

  lemma Wraps(a: nat, b: nat)
    requires a < U64 && b < U64 && a + b >= U64
    ensures Add64(a, b) < b
  {}

  lemma NoWrap(a: nat, b: nat)
    requires a + b < U64
    ensures b <= Add64(a, b)
  {}

  lemma WrapsOnly(a: nat, b: nat)
    requires Add64(a, b) < b
    ensures a + b >= U64
  {}

  /** n << PAGE_SHIFT */
  function PageBytes(n: nat): nat { n * 4096 }

  function MebiBytes(n: nat): nat { n * 0x10_0000 }

  /** A set of naturals below n has at most n elements. */
  lemma {:induction false} BoundedSetSize(s: set<nat>, n: nat)
    requires forall k :: k in s ==> k < n
    ensures |s| <= n
  {
    if n == 0 {
      assert s == {};
    } else {
      var rest := s - {n - 1};
      BoundedSetSize(rest, n - 1);
      assert s <= rest + {n - 1};
      if n - 1 in s {
        assert s == rest + {n - 1};
      } else {
        assert s == rest;
      }
    }
  }

  lemma {:induction false} SubsetSize<T>(s: set<T>, t: set<T>)
    requires s <= t
    ensures |s| <= |t|
    decreases s
  {
    if s != {} {
      var x :| x in s;
      SubsetSize(s - {x}, t - {x});
    }
  }

  lemma {:induction false} BoundOf(s: set<nat>) returns (top: nat)
    ensures forall k :: k in s ==> k < top
    decreases s
  {
    top := 0;
    if s != {} {
      var x: nat :| x in s;
      top := BoundOf(s - {x});
      assert forall k :: k in s ==> k == x || k in s - {x};
      top := if top <= x then x + 1 else top;
    }
  }

  lemma {:induction false} HasLeast(s: set<nat>) returns (m: nat)
    requires s != {}
    ensures m in s && forall k :: k in s ==> m <= k
  {
    var x: nat :| x in s;
    m := x;
    var rest := s - {x};
    assert forall k :: k in s ==> k == x || k in rest;
    if rest != {} {
      var m' := HasLeast(rest);
      m := if m' < x then m' else x;
    }
  }

  function Least(s: set<nat>): (m: nat)
    requires s != {}
    ensures m in s && forall k :: k in s ==> m <= k
  {
    assert exists m :: m in s && forall k :: k in s ==> m <= k by {
      var w := HasLeast(s);
    }
    var m :| m in s && forall k :: k in s ==> m <= k;
    m
  }
}

/** `radix_tree_gang_lookup`: the entries of a page tree in ascending key order. */
module PageTree {
  import opened Base

  predicate Ascending(r: seq<nat>) {
    forall i, j :: 0 <= i < j < |r| ==> r[i] < r[j]
  }

  function Above(keys: set<nat>, pos: nat): set<nat> { set k | k in keys && pos <= k }

  /** The first `max` keys at or above `pos`. */
  function GangLookup(keys: set<nat>, pos: nat, max: nat): seq<nat>
    decreases max
  {
    if max == 0 || Above(keys, pos) == {} then []
    else
      var m := Least(Above(keys, pos));
      [m] + GangLookup(keys, m + 1, max - 1)
  }

  lemma {:induction false} GangRange(keys: set<nat>, pos: nat, max: nat)
    ensures var r := GangLookup(keys, pos, max);
      && |r| <= max
      && (forall i :: 0 <= i < |r| ==> r[i] in keys && pos <= r[i])
      && Ascending(r)
    decreases max
  {
    if max != 0 && Above(keys, pos) != {} {
      var m := Least(Above(keys, pos));
      GangRange(keys, m + 1, max - 1);
    }
  }

  /** Nothing is skipped: a key at or above pos is returned if it is at most some returned key,
      or if the batch is not full. */
  lemma {:induction false} GangNoGaps(keys: set<nat>, pos: nat, max: nat, k: nat)
    requires k in keys && pos <= k
    requires var r := GangLookup(keys, pos, max); |r| < max || (r != [] && k <= r[|r| - 1])
    ensures k in GangLookup(keys, pos, max)
    decreases max
  {
    assert k in Above(keys, pos);
    var m := Least(Above(keys, pos));
    var rest := GangLookup(keys, m + 1, max - 1);
    if k != m {
      if rest == [] && max - 1 == 0 {
        assert false;
      }
      GangNoGaps(keys, m + 1, max - 1, k);
    }
  }

  lemma GangEmpty(keys: set<nat>, pos: nat, max: nat)
    requires max > 0
    ensures GangLookup(keys, pos, max) == [] <==> forall k :: k in keys ==> k < pos
  {
    if Above(keys, pos) == {} {
      forall k | k in keys ensures k < pos {
        assert k !in Above(keys, pos);
      }
    } else {
      assert Least(Above(keys, pos)) in keys;
    }
  }
}
