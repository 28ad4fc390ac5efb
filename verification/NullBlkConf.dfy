/** null_blk's configuration check. */
module NullBlkConf {
  import opened Base

  const Q_BIO: nat := 0
  const Q_MQ: nat := 2
  const IRQ_TIMER: nat := 2
  const EINVAL: int := 22

  /** The fields of struct nullb_device that the check reads or writes. */
  datatype Dev = Dev(
    blocksize: nat, submitQueues: nat, prevSubmitQueues: nat, pollQueues: nat, prevPollQueues: nat,
    queueMode: nat, irqmode: nat, perNode: bool, memoryBacked: bool, blocking: bool,
    cacheSize: nat, mbps: nat, zoned: bool, zoneSize: nat)

  /** What it depends on besides: nr_cpu_ids, g_poll_queues, nr_online_nodes. */
  datatype Env = Env(cpus: nat, polls: nat, nodes: nat)

  function Min(a: nat, b: nat): nat { if a <= b then a else b }

  function RoundDown(n: nat, m: nat): nat
    requires m > 0
  {
    n - n % m
  }

  function Clamp(n: nat, lo: nat, hi: nat): nat { if n < lo then lo else Min(n, hi) }

  predicate IsPowerOf2(n: nat) { n == 1 || (n > 0 && n % 2 == 0 && IsPowerOf2(n / 2)) }

  function SubmitQueues(d: Dev, e: Env): nat {
    if d.queueMode == Q_MQ && d.perNode then e.nodes
    else if d.submitQueues > e.cpus then e.cpus
    else if d.submitQueues == 0 then 1
    else d.submitQueues
  }

  predicate ZoneOk(d: Dev) { d.zoned ==> d.zoneSize != 0 && IsPowerOf2(d.zoneSize) }

  /** null_validate_conf: the device afterwards, and 0 or -EINVAL. */
  function Validate(d: Dev, e: Env): (Dev, int) {
    var submit, poll, mode := SubmitQueues(d, e), Min(d.pollQueues, e.polls), Min(d.queueMode, Q_MQ);
    (d.(blocksize := Clamp(RoundDown(d.blocksize, 512), 512, 4096),
        submitQueues := submit, prevSubmitQueues := submit, pollQueues := poll, prevPollQueues := poll,
        queueMode := mode, irqmode := Min(d.irqmode, IRQ_TIMER), blocking := d.blocking || d.memoryBacked,
        cacheSize := if d.memoryBacked then Min(MAX_MIB, d.cacheSize) else 0,
        mbps := if mode == Q_BIO then 0 else Min(40960, d.mbps)),
     if ZoneOk(d) then 0 else -EINVAL)
  }

  /** What the rest of the driver relies on, the tags and the page engine in particular. */
  lemma ValidatedConf(d: Dev, e: Env)
    ensures var v := Validate(d, e).0;
      && 512 <= v.blocksize <= 4096 && v.blocksize % 512 == 0
      && (v.queueMode == Q_BIO ==> v.mbps == 0) && v.mbps <= 40960
      && v.cacheSize <= MAX_MIB && (!v.memoryBacked ==> v.cacheSize == 0)
      && v.queueMode <= 2 && v.irqmode <= 2
      && (Validate(d, e).1 == 0 <==> ZoneOk(v))
  {}

  /** v is the number from lo to hi that is nearest to n. */
  ghost predicate Nearest(lo: nat, hi: nat, n: nat, v: nat) {
    lo <= v <= hi && forall x: nat :: lo <= x <= hi ==> Gap(n, v) <= Gap(n, x)
  }

  function Gap(a: nat, b: nat): nat { if a <= b then b - a else a - b }

  lemma MinNearest(hi: nat, n: nat)
    ensures Nearest(0, hi, n, Min(n, hi))
  {}

  lemma ClampNearest(hi: nat, n: nat)
    requires hi > 0
    ensures Nearest(1, hi, n, if n > hi then hi else if n == 0 then 1 else n)
  {}

  lemma BlocksizeBelow(b: nat)
    ensures var v := Clamp(RoundDown(b, 512), 512, 4096);
      && v % 512 == 0 && 512 <= v <= 4096 && (v <= b || v == 512) && (b < v + 512 || v == 4096)
  {}

  function Pow2(k: nat): nat { if k == 0 then 1 else 2 * Pow2(k - 1) }

  lemma {:induction false} PowerOf2Is(n: nat)
    ensures IsPowerOf2(n) <==> exists k: nat :: n == Pow2(k)
  {
    if n == 1 {
      assert n == Pow2(0);
    } else if n > 0 && n % 2 == 0 {
      PowerOf2Is(n / 2);
      if IsPowerOf2(n) {
        var k: nat :| n / 2 == Pow2(k);
        assert n == Pow2(k + 1);
      }
      forall k: nat | n == Pow2(k) ensures IsPowerOf2(n) {
        HalfPower(n, k);
      }
    } else {
      forall k: nat ensures n != Pow2(k) {
        EvenOrOne(k);
      }
    }
  }

  lemma HalfPower(n: nat, k: nat)
    requires n == Pow2(k) && n % 2 == 0
    ensures k > 0 && n / 2 == Pow2(k - 1)
  {}

  lemma EvenOrOne(k: nat)
    ensures Pow2(k) > 0 && (Pow2(k) == 1 || Pow2(k) % 2 == 0)
  {}

  /** Field by field: each becomes the nearest value in its range, the block size the next multiple of 512 below that is, and
      the rest stays; the only device refused is one with zones whose size is not a power of 2. */
  lemma FieldByField(d: Dev, e: Env)
    requires e.cpus > 0
    ensures var v := Validate(d, e).0;
      && v.blocksize % 512 == 0 && 512 <= v.blocksize <= 4096 && (v.blocksize <= d.blocksize || v.blocksize == 512)
      && (d.blocksize < v.blocksize + 512 || v.blocksize == 4096)
      && (if d.queueMode == Q_MQ && d.perNode then v.submitQueues == e.nodes else Nearest(1, e.cpus, d.submitQueues, v.submitQueues))
      && Nearest(0, e.polls, d.pollQueues, v.pollQueues) && v.prevSubmitQueues == v.submitQueues && v.prevPollQueues == v.pollQueues
      && Nearest(0, 2, d.queueMode, v.queueMode) && Nearest(0, 2, d.irqmode, v.irqmode)
      && (if d.memoryBacked then v.blocking && Nearest(0, MAX_MIB, d.cacheSize, v.cacheSize) else v.blocking == d.blocking && v.cacheSize == 0)
      && (if d.queueMode == Q_BIO then v.mbps == 0 else Nearest(0, 40960, d.mbps, v.mbps))
      && v.perNode == d.perNode && v.memoryBacked == d.memoryBacked && v.zoned == d.zoned && v.zoneSize == d.zoneSize
    ensures Validate(d, e).1 == (if d.zoned && !exists k: nat :: d.zoneSize == Pow2(k) then -EINVAL else 0)
  {
    PowerOf2Is(d.zoneSize);
    PowersPositive();
    BlocksizeBelow(d.blocksize);
    ClampNearest(e.cpus, d.submitQueues);
    MinNearest(e.polls, d.pollQueues);
    MinNearest(2, d.queueMode);
    MinNearest(2, d.irqmode);
    MinNearest(MAX_MIB, d.cacheSize);
    MinNearest(40960, d.mbps);
    hide IsPowerOf2, Pow2, Nearest, Clamp, RoundDown;
  }

  lemma PowersPositive()
    ensures forall k: nat :: Pow2(k) != 0
  {
    forall k: nat ensures Pow2(k) != 0 {
      EvenOrOne(k);
    }
  }

  /** The sizes for which a page is a whole number of blocks are exactly the powers of 2; the
      check lets others pass. */
  lemma BlocksPerPage(d: Dev, e: Env)
    ensures var b := Validate(d, e).0.blocksize;
      PAGE_SIZE % b == 0 <==> b == 512 || b == 1024 || b == 2048 || b == 4096
  {
    var b := Validate(d, e).0.blocksize;
    var k := b / 512;
    assert b == 512 * k && 1 <= k <= 8;
    if k == 3 {
      assert PAGE_SIZE % 1536 == 1024;
    } else if k == 5 {
      assert PAGE_SIZE % 2560 == 1536;
    } else if k == 6 {
      assert PAGE_SIZE % 3072 == 1024;
    } else if k == 7 {
      assert PAGE_SIZE % 3584 == 512;
    }
  }

  /** Every field in its range, and those that go together agreeing. */
  predicate Normal(d: Dev, e: Env) {
    && 512 <= d.blocksize <= 4096 && d.blocksize % 512 == 0 && d.queueMode <= Q_MQ && d.irqmode <= IRQ_TIMER
    && (if d.queueMode == Q_MQ && d.perNode then d.submitQueues == e.nodes else 1 <= d.submitQueues <= e.cpus)
    && d.prevSubmitQueues == d.submitQueues && d.pollQueues <= e.polls && d.prevPollQueues == d.pollQueues
    && (if d.memoryBacked then d.blocking && d.cacheSize <= MAX_MIB else d.cacheSize == 0)
    && (if d.queueMode == Q_BIO then d.mbps == 0 else d.mbps <= 40960)
  }

  /** The check leaves alone exactly the devices that need nothing. */
  lemma UnchangedIff(d: Dev, e: Env)
    requires e.cpus > 0
    ensures Validate(d, e).0 == d <==> Normal(d, e)
  {
    hide IsPowerOf2;
    BlocksizeKept(d.blocksize);
  }

  lemma BlocksizeKept(b: nat)
    ensures Clamp(RoundDown(b, 512), 512, 4096) == b <==> 512 <= b <= 4096 && b % 512 == 0
  {}

  /** It makes every device so, except that a mode above Q_MQ is clamped after the per-node rule
      has looked at it. */
  lemma NormalizesIff(d: Dev, e: Env)
    requires e.cpus > 0
    ensures Normal(Validate(d, e).0, e) <==> !(d.queueMode > Q_MQ && d.perNode && SubmitQueues(d, e) != e.nodes)
  {
    ValidatedConf(d, e);
    hide Clamp, RoundDown, IsPowerOf2;
  }

  /** And so checking twice is checking once, with the same exception. */
  lemma ValidateTwice(d: Dev, e: Env)
    requires e.cpus > 0
    ensures Validate(Validate(d, e).0, e).0 == Validate(d, e).0 <==>
      !(d.queueMode > Q_MQ && d.perNode && SubmitQueues(d, e) != e.nodes)
  {
    hide Validate, Normal;
    UnchangedIff(Validate(d, e).0, e);
    NormalizesIff(d, e);
  }

  /** The check moved into the domain sees one CPU and one poll queue. It agrees with the driver's
      own on every device exactly when that is what the driver sees. */
  lemma SameEverywhereIff(e: Env)
    requires e.cpus > 0
    ensures (forall d :: Validate(d, Env(1, 1, e.nodes)) == Validate(d, e)) <==> e.cpus == 1 && e.polls == 1
  {
    hide Validate, SubmitQueues;
    var d := Dev(512, 2, 0, if e.polls == 0 then 1 else e.polls, 0, Q_BIO, 0, false, false, false, 0, 0, false, 0);
    if e.cpus == 1 && e.polls == 1 {
      assert Env(1, 1, e.nodes) == e;
    } else {
      SeesTheQueues(d, e);
    }
  }

  /** A device with two submit queues and as many poll queues as may be tells the two apart. */
  lemma SeesTheQueues(d: Dev, e: Env)
    requires d.queueMode == Q_BIO && d.submitQueues == 2 && d.pollQueues == (if e.polls == 0 then 1 else e.polls)
    requires e.cpus > 0 && !(e.cpus == 1 && e.polls == 1)
    ensures Validate(d, Env(1, 1, e.nodes)) != Validate(d, e)
  {
    QueueFields(d, e);
    QueueFields(d, Env(1, 1, e.nodes));
    hide Validate;
  }

  lemma QueueFields(d: Dev, e: Env)
    ensures var v := Validate(d, e).0; v.submitQueues == SubmitQueues(d, e) && v.pollQueues == Min(d.pollQueues, e.polls)
  {
    hide Clamp, RoundDown, IsPowerOf2;
  }
}
