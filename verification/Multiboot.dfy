/** The Multiboot memory map (mltiboot.c): how far available memory reaches without a gap from 1 MiB,
    found by at most 64 passes over entries in any order. */
module Multiboot {
  const TPA_MIN_BASE := 0x10_0000
  const TPA_MAX_TOP := 0xE000_0000
  const MAX_PASSES := 64
  const TWO64 := 0x1_0000_0000_0000_0000

  /** `struct multiboot_mmap_entry`; `size` does not count its own four bytes. */
  datatype Entry = Entry(size: nat, addr: nat, len: nat, typ: nat)

  /** `e->addr + e->len` in 64 bits. */
  function EndOf(e: Entry): nat { (e.addr + e.len) % TWO64 }

  predicate Available(e: Entry) { e.typ == 1 }

  /** Byte `b` is available memory according to `e`; an entry that wraps around covers nothing. */
  predicate Covers(e: Entry, b: nat) { Available(e) && e.addr <= b < EndOf(e) }

  // ---------------------------------------------------------------- the algorithm on values

  /** One entry's effect on `top` (mltiboot.c:50-61). */
  function Absorb(top: nat, e: Entry): nat
  {
    if Available(e) && e.addr <= top && EndOf(e) > top then EndOf(e) else top
  }

  /** One pass over the entries from index `k` on. */
  function Pass(es: seq<Entry>, top: nat, k: nat): (r: nat)
    requires k <= |es|
    ensures r >= top
    decreases |es| - k
  {
    if k == |es| then top else Pass(es, Absorb(top, es[k]), k + 1)
  }

  /** Passes until one does not grow, `n` at most. */
  function Merge(es: seq<Entry>, top: nat, n: nat): (r: nat)
    ensures r >= top
    decreases n
  {
    if n == 0 then top
    else
      var next := Pass(es, top, 0);
      if next == top then top else Merge(es, next, n - 1)
  }

  // ---------------------------------------------------------------- the entries a pass visits

  /** Entries at `p`, `p + size + 4`, ... below `end`, up to one of size zero. */
  function Visited(es: seq<Entry>, p: nat, end: nat): seq<Entry>
  {
    if |es| == 0 || p >= end || es[0].size == 0 then []
    else [es[0]] + Visited(es[1..], p + es[0].size + 4, end)
  }

  /** The stored entries reach to `end` or to an entry of size zero, so that no pass runs off them, and
      the 32-bit pointer does not wrap. */
  predicate Reaches(es: seq<Entry>, p: nat, end: nat)
  {
    if p >= end then true
    else |es| > 0 && (es[0].size != 0 ==>
      p + es[0].size + 4 < 0x1_0000_0000 && Reaches(es[1..], p + es[0].size + 4, end))
  }

  /** `mb_merge_mmap` (mltiboot.c:22-67); `es[k]` is the entry `k` steps from the start of the map. */
  method MbMergeMmap(es: seq<Entry>, start: nat, end: nat) returns (top: nat)
    requires Reaches(es, start, end)
    ensures top == Merge(Visited(es, start, end), TPA_MIN_BASE, MAX_PASSES)
  {
    hide Merge, Pass, Absorb, Visited, Reaches, EndOf, Available;
    ghost var v := Visited(es, start, end);
    top := TPA_MIN_BASE;
    var grew := true;
    var passes := 0;
    while grew && passes < MAX_PASSES
      invariant passes <= MAX_PASSES
      invariant grew ==> Merge(v, top, MAX_PASSES - passes) == Merge(v, TPA_MIN_BASE, MAX_PASSES)
      invariant !grew ==> top == Merge(v, TPA_MIN_BASE, MAX_PASSES)
      decreases MAX_PASSES - passes
    {
      ghost var before := top;
      MergeStep(v, top, MAX_PASSES - passes);
      var p: nat, k := start, 0;
      grew := false;
      passes := passes + 1;
      assert es[0..] == es && v[0..] == v;
      AtMap(es, 0, start, end);
      while p < end && es[k].size != 0
        invariant k <= |es| && Reaches(es[k..], p, end) && (p < end ==> k < |es|)
        invariant k <= |v| && v[k..] == Visited(es[k..], p, end)
        invariant Pass(v, top, k) == Pass(v, before, 0) && (grew <==> top > before) && top >= before
        decreases |es| - k
      {
        NextVisited(es, k, p, end);
        PassStep(v, top, k);
        var e := es[k];
        assert v[k] == v[k..][0] == e && v[k..][1..] == v[k + 1..];
        p := p + e.size + 4;
        k := k + 1;
        AtMap(es, k, p, end);
        if e.typ != 1 || e.addr > top { continue; }
        var eend := (e.addr + e.len) % TWO64;
        if eend > top {
          top := eend;
          grew := true;
        }
      }
      NextVisited(es, k, p, end);
      PassStep(v, top, k);
    }
    MergeStep(v, top, MAX_PASSES - passes);
  }

  lemma AtMap(es: seq<Entry>, k: nat, p: nat, end: nat)
    requires k <= |es| && Reaches(es[k..], p, end)
    ensures p < end ==> k < |es|
  {
  }

  /** The entry at hand is the next one visited. */
  lemma NextVisited(es: seq<Entry>, k: nat, p: nat, end: nat)
    requires k <= |es| && Reaches(es[k..], p, end)
    ensures p < end ==> k < |es|
    ensures p >= end || es[k].size == 0 ==> Visited(es[k..], p, end) == []
    ensures p < end && es[k].size != 0 ==>
      Reaches(es[k + 1..], p + es[k].size + 4, end)
      && Visited(es[k..], p, end) == [es[k]] + Visited(es[k + 1..], p + es[k].size + 4, end)
  {
    if p < end { assert es[k..][0] == es[k] && es[k..][1..] == es[k + 1..]; }
  }

  lemma PassStep(es: seq<Entry>, top: nat, k: nat)
    requires k <= |es|
    ensures k == |es| ==> Pass(es, top, k) == top
    ensures k < |es| ==>
      Pass(es, top, k)
      == Pass(es, if es[k].typ == 1 && es[k].addr <= top && EndOf(es[k]) > top then EndOf(es[k]) else top, k + 1)
    ensures k < |es| ==> EndOf(es[k]) == (es[k].addr + es[k].len) % TWO64
  {
  }

  lemma MergeStep(es: seq<Entry>, top: nat, n: nat)
    ensures n == 0 ==> Merge(es, top, n) == top
    ensures n > 0 && Pass(es, top, 0) == top ==> Merge(es, top, n) == top
    ensures n > 0 && Pass(es, top, 0) != top ==> Merge(es, top, n) == Merge(es, Pass(es, top, 0), n - 1)
  {
  }

  // ---------------------------------------------------------------- what the result means

  /** All memory from 1 MiB up to `top` is available. */
  ghost predicate Contiguous(es: seq<Entry>, top: nat)
  {
    forall b: nat :: TPA_MIN_BASE <= b < top ==> Covered(es, b)
  }

  ghost predicate Covered(es: seq<Entry>, b: nat) { exists k :: 0 <= k < |es| && Covers(es[k], b) }

  /** No available entry that starts at or below `top` reaches beyond it. */
  ghost predicate Closed(es: seq<Entry>, top: nat)
  {
    forall k :: 0 <= k < |es| && Available(es[k]) && es[k].addr <= top ==> EndOf(es[k]) <= top
  }

  lemma {:induction false} PassContiguous(es: seq<Entry>, top: nat, k: nat)
    requires k <= |es| && Contiguous(es, top)
    ensures Contiguous(es, Pass(es, top, k))
    decreases |es| - k
  {
    if k < |es| {
      var t := Absorb(top, es[k]);
      forall b: nat | TPA_MIN_BASE <= b < t ensures Covered(es, b) {
        if top <= b { assert Covers(es[k], b); }
      }
      PassContiguous(es, t, k + 1);
    }
  }

  lemma {:induction false} MergeContiguous(es: seq<Entry>, top: nat, n: nat)
    requires Contiguous(es, top)
    ensures Contiguous(es, Merge(es, top, n))
    decreases n
  {
    if n > 0 {
      PassContiguous(es, top, 0);
      MergeContiguous(es, Pass(es, top, 0), n - 1);
    }
  }

  lemma {:induction false} PassGrows(es: seq<Entry>, top: nat, k: nat, i: nat)
    requires k <= i < |es| && Available(es[i]) && es[i].addr <= top
    ensures Pass(es, top, k) >= EndOf(es[i])
    decreases |es| - k
  {
    if k < i { PassGrows(es, Absorb(top, es[k]), k + 1, i); }
  }

  // ---------------------------------------------------------------- how many passes are needed

  /** Available entries that `top` has reached the end of. */
  ghost function Absorbed(es: seq<Entry>, top: nat): set<nat>
  {
    set k: nat | k < |es| && Available(es[k]) && EndOf(es[k]) <= top
  }

  lemma {:induction false} GrowthHasCause(es: seq<Entry>, top: nat, k: nat) returns (i: nat)
    requires k <= |es| && Pass(es, top, k) > top
    ensures i < |es| && Available(es[i]) && EndOf(es[i]) == Pass(es, top, k)
    decreases |es| - k
  {
    var t := Absorb(top, es[k]);
    if Pass(es, t, k + 1) > t {
      i := GrowthHasCause(es, t, k + 1);
    } else {
      i := k;
    }
  }

  lemma {:induction false} Cardinality(a: set<nat>, b: set<nat>)
    requires a <= b
    ensures |a| <= |b|
  {
    if a != {} {
      var x :| x in a;
      Cardinality(a - {x}, b - {x});
    }
  }

  ghost function Indexes(n: nat): set<nat> { if n == 0 then {} else Indexes(n - 1) + {n - 1} }

  lemma {:induction false} AllIndexes(n: nat)
    ensures |Indexes(n)| == n && forall k: nat :: k in Indexes(n) <==> k < n
  {
    if n > 0 { AllIndexes(n - 1); }
  }

  lemma SameCardinality(a: set<nat>, b: set<nat>)
    requires a <= b && |a| == |b|
    ensures a == b
  {
    if x :| x in b && x !in a {
      Cardinality(a, b - {x});
    }
  }

  lemma {:induction false} MergeCloses(es: seq<Entry>, top: nat, n: nat)
    requires |Absorbed(es, top)| + n >= |es|
    ensures Closed(es, Merge(es, top, n))
    decreases n
  {
    if n == 0 {
      {
        var all := Indexes(|es|);
        AllIndexes(|es|);
        Cardinality(Absorbed(es, top), all);
        if |Absorbed(es, top)| == |es| {
          SameCardinality(Absorbed(es, top), all);
          forall k: nat | k < |es| && Available(es[k]) && es[k].addr <= top ensures EndOf(es[k]) <= top {
            assert k in all;
          }
        }
      }
    } else if Pass(es, top, 0) == top {
      forall i: nat | i < |es| && Available(es[i]) && es[i].addr <= top ensures EndOf(es[i]) <= top {
        PassGrows(es, top, 0, i);
      }
    } else {
      var i := GrowthHasCause(es, top, 0);
      var a, b := Absorbed(es, top), Absorbed(es, Pass(es, top, 0));
      assert i in b && i !in a && a <= b;
      Cardinality(a + {i}, b);
      MergeCloses(es, Pass(es, top, 0), n - 1);
    }
  }

  /** For up to 64 entries the result is the end of the run of available memory that starts at 1 MiB. */
  lemma MergeIsRun(es: seq<Entry>)
    requires |es| <= MAX_PASSES
    ensures var top := Merge(es, TPA_MIN_BASE, MAX_PASSES); Contiguous(es, top) && Closed(es, top)
  {
    MergeContiguous(es, TPA_MIN_BASE, MAX_PASSES);
    MergeCloses(es, TPA_MIN_BASE, MAX_PASSES);
  }

  /** The order of the entries, and repeating them, makes no difference. */
  lemma OrderIndependent(es: seq<Entry>, fs: seq<Entry>)
    requires |es| <= MAX_PASSES && |fs| <= MAX_PASSES && forall e :: e in es <==> e in fs
    ensures Merge(es, TPA_MIN_BASE, MAX_PASSES) == Merge(fs, TPA_MIN_BASE, MAX_PASSES)
  {
    MergeIsRun(es);
    MergeIsRun(fs);
    var t := Merge(es, TPA_MIN_BASE, MAX_PASSES);
    forall b: nat | TPA_MIN_BASE <= b < t ensures Covered(fs, b) {
      assert Covered(es, b);
      var k :| 0 <= k < |es| && Covers(es[k], b);
      assert es[k] in fs;
      var i :| 0 <= i < |fs| && fs[i] == es[k];
      assert Covers(fs[i], b);
    }
    assert Closed(fs, t) by {
      forall k | 0 <= k < |fs| && Available(fs[k]) && fs[k].addr <= t ensures EndOf(fs[k]) <= t {
        assert fs[k] in es;
      }
    }
    assert t < Merge(fs, TPA_MIN_BASE, MAX_PASSES) ==> Covered(fs, t);
    assert Merge(fs, TPA_MIN_BASE, MAX_PASSES) < t ==> Covered(fs, Merge(fs, TPA_MIN_BASE, MAX_PASSES));
  }

  // ---------------------------------------------------------------- why 64 is the limit

  /** `n` entries of one byte each, the last one first. */
  function Chain(n: nat): seq<Entry>
  {
    seq(n, k requires 0 <= k < n => Entry(20, TPA_MIN_BASE + (n - 1 - k), 1, 1))
  }

  lemma {:induction false} ChainPass(n: nat, j: nat, k: nat)
    requires k <= n && j <= n < 0x1_0000
    ensures Pass(Chain(n), TPA_MIN_BASE + j, k) == TPA_MIN_BASE + if j < n && k <= n - 1 - j then j + 1 else j
    decreases n - k
  {
    if k < n {
      var t := Absorb(TPA_MIN_BASE + j, Chain(n)[k]);
      if n - 1 - k == j { ChainPass(n, j + 1, k + 1); } else { ChainPass(n, j, k + 1); }
    }
  }

  lemma {:induction false} ChainMerge(n: nat, j: nat, m: nat)
    requires j + m <= n < 0x1_0000
    ensures Merge(Chain(n), TPA_MIN_BASE + j, m) == TPA_MIN_BASE + j + m
    decreases m
  {
    if m > 0 {
      ChainPass(n, j, 0);
      ChainMerge(n, j + 1, m - 1);
    }
  }

  /** 64 passes are enough for exactly the maps of at most 64 entries. */
  lemma PassesSuffice(n: nat)
    requires n < 0x1_0000
    ensures (forall es: seq<Entry> :: |es| == n ==>
      Closed(es, Merge(es, TPA_MIN_BASE, MAX_PASSES))) <==> n <= MAX_PASSES
  {
    hide Merge;
    if n <= MAX_PASSES {
      forall es: seq<Entry> | |es| == n ensures Closed(es, Merge(es, TPA_MIN_BASE, MAX_PASSES)) { MergeIsRun(es); }
    } else {
      var c := Chain(n);
      ChainMerge(n, 0, MAX_PASSES);
      var k := n - 1 - MAX_PASSES;
      assert Available(c[k]) && c[k].addr == TPA_MIN_BASE + MAX_PASSES && EndOf(c[k]) == TPA_MIN_BASE + MAX_PASSES + 1;
    }
  }

  // ---------------------------------------------------------------- the TPA

  /** What `mb_init_from_multiboot` takes from the boot information (flag bits 0 and 6). */
  datatype Info = Info(present: bool, basic: bool, mapped: bool, memUpper: nat, mmapLength: nat, mmapAddr: nat)

  datatype Source = NoSource | BasicSizes | MemoryMap

  /** `mb_init_from_multiboot` (mltiboot.c:71-109): top of memory, and where it was learnt. */
  method InitFromMultiboot(mbi: Info, es: seq<Entry>) returns (top: nat, source: Source)
    requires Reaches(es, mbi.mmapAddr, mbi.mmapAddr + mbi.mmapLength)
    ensures TPA_MIN_BASE <= top <= TPA_MAX_TOP
    ensures var run := Merge(Visited(es, mbi.mmapAddr, mbi.mmapAddr + mbi.mmapLength), TPA_MIN_BASE, MAX_PASSES);
      var known := if mbi.present && mbi.mapped && mbi.mmapLength >= 4 && run > TPA_MIN_BASE then (run, MemoryMap)
        else if mbi.present && mbi.basic && mbi.memUpper > 0 then (TPA_MIN_BASE + mbi.memUpper * 1024, BasicSizes)
        else (TPA_MIN_BASE, NoSource);
      source == known.1 && top == if known.0 > TPA_MAX_TOP then TPA_MAX_TOP else known.0
  {
    top, source := TPA_MIN_BASE, NoSource;
    if mbi.present && mbi.basic && mbi.memUpper > 0 {
      top, source := TPA_MIN_BASE + mbi.memUpper * 1024, BasicSizes;
    }
    if mbi.present && mbi.mapped && mbi.mmapLength >= 4 {
      var mtop := MbMergeMmap(es, mbi.mmapAddr, mbi.mmapAddr + mbi.mmapLength);
      if mtop > TPA_MIN_BASE { top, source := mtop, MemoryMap; }
    }
    if top > TPA_MAX_TOP { top := TPA_MAX_TOP; }
    // the lower clamp has nothing left to do
    assert top >= TPA_MIN_BASE;
  }
}
