/**
 Physical placement of a process's memory regions, after
 lapidary/checkpoint/GDBEngine.py: regions get physical bases by prefix sum, and
 are published twice, as a coarse table (one entry per region, used to build the
 memory image) and as a page table (one entry per page, used by the simulator).
 */
module MemoryLayout {
  import opened Arithmetic
  import opened Basics

  /** One line of `info proc mappings`; the first region is always the null page. */
  datatype Region = Region(vaddr: nat, size: nat, offset: nat, name: string)

  datatype Mapping = Mapping(index: nat, paddr: nat, vaddr: nat, size: nat, offset: nat, flags: nat, name: string)

  predicate InRegion(r: Region, a: int) {
    r.vaddr <= a < r.vaddr + r.size
  }

  ghost predicate Mapped(rs: seq<Region>, a: int) {
    exists i :: 0 <= i < |rs| && InRegion(rs[i], a)
  }

  /** The null page comes first; regions ascend, are non-empty and do not overlap. */
  ghost predicate Ordered(rs: seq<Region>, pg: nat) {
    && 0 < |rs| && rs[0].vaddr == 0 && 0 < rs[0].size == pg
    && (forall i :: 0 <= i < |rs| ==> 0 < rs[i].size)
    && (forall i, j :: 0 <= i < j < |rs| ==> rs[i].vaddr + rs[i].size <= rs[j].vaddr)
  }

  ghost predicate PageAligned(r: Region, pg: nat)
    requires 0 < pg
  {
    r.vaddr % pg == 0 && r.size % pg == 0
  }

  /** What the kernel guarantees of the mappings it lists, after the null page is put in front. */
  ghost predicate WellFormed(rs: seq<Region>, pg: nat) {
    Ordered(rs, pg) && forall i :: 0 <= i < |rs| ==> PageAligned(rs[i], pg)
  }

  /** The sum of the sizes of the first `n` regions. */
  function PhysBase(rs: seq<Region>, n: nat): (p: nat)
    requires n <= |rs|
  {
    if n == 0 then 0 else PhysBase(rs, n - 1) + rs[n - 1].size
  }

  function Entry(rs: seq<Region>, i: nat): Mapping
    requires i < |rs|
  {
    Mapping(i, PhysBase(rs, i), rs[i].vaddr, rs[i].size, rs[i].offset, 0, rs[i].name)
  }

  /** The page of `e` at byte distance `off`, with the source's special case for physical base 0. */
  function PageEntry(e: Mapping, off: nat, pg: nat): Mapping {
    e.(paddr := if e.paddr != 0 then e.paddr + off else 0, vaddr := e.vaddr + off, size := pg, offset := e.offset + off)
  }

  /** The coarse table of the first `n` regions; on equal keys the later region wins. */
  function RegionTable(rs: seq<Region>, n: nat): map<nat, Mapping>
    requires n <= |rs|
  {
    if n == 0 then map[] else RegionTable(rs, n - 1)[rs[n - 1].vaddr := Entry(rs, n - 1)]
  }

  function AddPages(t: map<nat, Mapping>, e: Mapping, pg: nat, off: nat): map<nat, Mapping>
    requires 0 < pg
    decreases e.size - off
  {
    if e.size <= off then t else AddPages(t[e.vaddr + off := PageEntry(e, off, pg)], e, pg, off + pg)
  }

  /** The page table of the first `n` regions. */
  function PageTable(rs: seq<Region>, pg: nat, n: nat): map<nat, Mapping>
    requires 0 < pg && n <= |rs|
  {
    if n == 0 then map[] else AddPages(PageTable(rs, pg, n - 1), Entry(rs, n - 1), pg, 0)
  }

  /** The simulator's view of an address: look up its page and add the distance into the page. */
  function Translate(t: map<nat, Mapping>, pg: nat, a: nat): Option<nat>
    requires 0 < pg
  {
    if a - a % pg in t then Some(t[a - a % pg].paddr + a % pg) else None
  }

  /** `sz` is twice the highest physical end of any entry. */
  ghost predicate IsMemorySize(t: map<nat, Mapping>, sz: nat) {
    && (forall v :: v in t ==> 2 * (t[v].paddr + t[v].size) <= sz)
    && (sz == 0 || exists v :: v in t && 2 * (t[v].paddr + t[v].size) == sz)
  }

  // ---------------------------------------------------------------- operations

  method GetMemoryRegions(rs: seq<Region>) returns (paddrs: seq<nat>, flags: seq<nat>)
    ensures |paddrs| == |flags| == |rs|
    ensures forall i :: 0 <= i < |rs| ==> paddrs[i] == PhysBase(rs, i) && flags[i] == 0
  {
    paddrs, flags := [], [];
    var nextPaddr: nat := 0;
    for i := 0 to |rs|
      invariant |paddrs| == |flags| == i && nextPaddr == PhysBase(rs, i)
      invariant forall k :: 0 <= k < i ==> paddrs[k] == PhysBase(rs, k) && flags[k] == 0
    {
      paddrs, flags := paddrs + [nextPaddr], flags + [0];
      nextPaddr := nextPaddr + rs[i].size;
    }
  }

  method CreateMappings(rs: seq<Region>, pg: nat, expand: bool) returns (t: map<nat, Mapping>)
    requires 0 < pg
    ensures t == if expand then PageTable(rs, pg, |rs|) else RegionTable(rs, |rs|)
  {
    var paddrs, flags := GetMemoryRegions(rs);
    t := map[];
    for i := 0 to |rs|
      invariant t == if expand then PageTable(rs, pg, i) else RegionTable(rs, i)
    {
      var e := Mapping(i, paddrs[i], rs[i].vaddr, rs[i].size, rs[i].offset, flags[i], rs[i].name);
      if expand {
        var off := 0;
        while off < e.size
          invariant AddPages(t, e, pg, off) == PageTable(rs, pg, i + 1)
          decreases e.size - off
        {
          t := t[e.vaddr + off := PageEntry(e, off, pg)];
          off := off + pg;
        }
      } else {
        t := t[e.vaddr := e];
      }
    }
  }

  method CalculateMemorySize(t: map<nat, Mapping>) returns (sz: nat)
    ensures IsMemorySize(t, sz)
  {
    var top: nat, todo := 0, t.Keys;
    while todo != {}
      invariant todo <= t.Keys
      invariant forall v :: v in t && v !in todo ==> t[v].paddr + t[v].size <= top
      invariant top == 0 || exists v :: v in t && t[v].paddr + t[v].size == top
      decreases |todo|
    {
      var v :| v in todo;
      if top < t[v].paddr + t[v].size {
        top := t[v].paddr + t[v].size;
      }
      todo := todo - {v};
    }
    sz := 2 * top;
  }

  // ---------------------------------------------------------------- placement

  /** Placement is contiguous, in order and without overlap. */
  lemma {:induction false} PlacementDisjoint(rs: seq<Region>, i: nat, j: nat)
    requires i < j <= |rs|
    ensures PhysBase(rs, i) + rs[i].size <= PhysBase(rs, j)
    ensures j == i + 1 ==> PhysBase(rs, i) + rs[i].size == PhysBase(rs, j)
  {
    if i + 1 < j {
      PlacementDisjoint(rs, i, j - 1);
    }
  }

  /** Only the null page is placed at physical address 0. */
  lemma PlacedAboveZero(rs: seq<Region>, pg: nat, i: nat)
    requires Ordered(rs, pg) && i < |rs|
    ensures PhysBase(rs, i) == 0 <==> i == 0
  {
    if 0 < i {
      PlacementDisjoint(rs, 0, i);
    }
  }

  lemma {:induction false} RegionTableAt(rs: seq<Region>, pg: nat, n: nat, i: nat)
    requires Ordered(rs, pg) && i < n <= |rs|
    ensures rs[i].vaddr in RegionTable(rs, n) && RegionTable(rs, n)[rs[i].vaddr] == Entry(rs, i)
  {
    if i < n - 1 {
      RegionTableAt(rs, pg, n - 1, i);
      assert rs[i].vaddr != rs[n - 1].vaddr;
    }
  }

  lemma {:induction false} RegionTableKey(rs: seq<Region>, n: nat, v: nat) returns (i: nat)
    requires n <= |rs| && v in RegionTable(rs, n)
    ensures i < n && rs[i].vaddr == v
  {
    if v == rs[n - 1].vaddr {
      i := n - 1;
    } else {
      i := RegionTableKey(rs, n - 1, v);
    }
  }

  /** What the inner loop of the expansion adds: exactly the page-spaced addresses of one region. */
  lemma {:induction false} AddPagesAt(t: map<nat, Mapping>, e: Mapping, pg: nat, off: nat, a: nat)
    requires 0 < pg
    ensures
      var r := AddPages(t, e, pg, off);
      if e.vaddr + off <= a < e.vaddr + e.size && (a - e.vaddr - off) % pg == 0
      then a in r && r[a] == PageEntry(e, a - e.vaddr, pg)
      else (a in r <==> a in t) && (a in r ==> r[a] == t[a])
    decreases e.size - off
  {
    if off < e.size {
      var d := a - e.vaddr - off;
      AddPagesAt(t[e.vaddr + off := PageEntry(e, off, pg)], e, pg, off + pg, a);
      if 0 <= d < pg {
        ModUnique(d, pg, 0, d);
      } else {
        ModStep(d, pg);
      }
    }
  }

  /** The page table holds exactly the page-aligned mapped addresses, each with its own region's page. */
  lemma {:induction false} PageTableAt(rs: seq<Region>, pg: nat, n: nat, a: nat)
    requires WellFormed(rs, pg) && n <= |rs|
    ensures a in PageTable(rs, pg, n) ==> a % pg == 0 && exists i :: 0 <= i < n && InRegion(rs[i], a)
    ensures a % pg == 0 ==> forall i :: 0 <= i < n && InRegion(rs[i], a) ==>
              a in PageTable(rs, pg, n) && PageTable(rs, pg, n)[a] == PageEntry(Entry(rs, i), a - rs[i].vaddr, pg)
  {
    if 0 < n {
      PageTableAt(rs, pg, n - 1, a);
      AddPagesAt(PageTable(rs, pg, n - 1), Entry(rs, n - 1), pg, 0, a);
      ModAdd(a, rs[n - 1].vaddr, pg);
    }
  }

  lemma PageOfAddress(r: Region, pg: nat, a: nat)
    requires 0 < pg && PageAligned(r, pg) && InRegion(r, a)
    ensures InRegion(r, a - a % pg) && (a - a % pg) % pg == 0
  {
    ModUnique(a - a % pg, pg, a / pg, 0);
    AlignedGap(a - a % pg, r.vaddr, pg);
  }

  /** A page that starts in a region lies in it. */
  lemma PageFits(r: Region, pg: nat, page: nat)
    requires 0 < pg && PageAligned(r, pg) && InRegion(r, page) && page % pg == 0
    ensures page + pg <= r.vaddr + r.size
  {
    ModAdd(r.size, r.vaddr, pg);
    AlignedGap(page, r.vaddr + r.size, pg);
  }

  /** The source's special case for physical base 0 never changes a result. */
  lemma PagePhysical(rs: seq<Region>, pg: nat, i: nat, page: nat)
    requires WellFormed(rs, pg) && i < |rs| && InRegion(rs[i], page) && page % pg == 0
    ensures page in PageTable(rs, pg, |rs|)
    ensures PageTable(rs, pg, |rs|)[page].paddr == PhysBase(rs, i) + page - rs[i].vaddr
  {
    PageTableAt(rs, pg, |rs|, page);
    PlacedAboveZero(rs, pg, i);
    assert PageAligned(rs[i], pg);
    PageFits(rs[i], pg, page);
  }

  /** Coarse and fine tables agree: both send an address of region `i` to its base plus the distance into it. */
  lemma TranslationAgrees(rs: seq<Region>, pg: nat, i: nat, a: nat)
    requires WellFormed(rs, pg) && i < |rs| && InRegion(rs[i], a)
    ensures rs[i].vaddr in RegionTable(rs, |rs|)
    ensures Translate(PageTable(rs, pg, |rs|), pg, a) ==
            Some(RegionTable(rs, |rs|)[rs[i].vaddr].paddr + a - rs[i].vaddr)
    ensures Translate(PageTable(rs, pg, |rs|), pg, a) == Some(PhysBase(rs, i) + a - rs[i].vaddr)
  {
    RegionTableAt(rs, pg, |rs|, i);
    assert PageAligned(rs[i], pg);
    PageOfAddress(rs[i], pg, a);
    PagePhysical(rs, pg, i, a - a % pg);
  }

  lemma TranslationDomain(rs: seq<Region>, pg: nat, a: nat)
    requires WellFormed(rs, pg)
    ensures Translate(PageTable(rs, pg, |rs|), pg, a).Some? <==> Mapped(rs, a)
  {
    if Mapped(rs, a) {
      var i :| 0 <= i < |rs| && InRegion(rs[i], a);
      TranslationAgrees(rs, pg, i, a);
    }
    var page := a - a % pg;
    if page in PageTable(rs, pg, |rs|) {
      PageTableAt(rs, pg, |rs|, page);
      var i :| 0 <= i < |rs| && InRegion(rs[i], page);
      PageFits(rs[i], pg, page);
      assert InRegion(rs[i], a);
    }
  }

  /** Two different mapped addresses never share a physical byte. */
  lemma TranslationInjective(rs: seq<Region>, pg: nat, a: nat, b: nat)
    requires WellFormed(rs, pg) && Mapped(rs, a) && Mapped(rs, b)
    requires Translate(PageTable(rs, pg, |rs|), pg, a) == Translate(PageTable(rs, pg, |rs|), pg, b)
    ensures a == b
  {
    var i :| 0 <= i < |rs| && InRegion(rs[i], a);
    var j :| 0 <= j < |rs| && InRegion(rs[j], b);
    TranslationAgrees(rs, pg, i, a);
    TranslationAgrees(rs, pg, j, b);
    if i < j {
      PlacementDisjoint(rs, i, j);
    } else if j < i {
      PlacementDisjoint(rs, j, i);
    }
  }

  // ---------------------------------------------------------------- memory size

  /** A bound on every entry that some entry reaches is the memory size. */
  lemma MemorySizeIs(t: map<nat, Mapping>, top: nat, v: nat, sz: nat)
    requires forall u :: u in t ==> t[u].paddr + t[u].size <= top
    requires v in t && t[v].paddr + t[v].size == top
    ensures IsMemorySize(t, sz) <==> sz == 2 * top
  {
  }

  /** Both tables give the same memory size, twice the sum of the region sizes. */
  lemma MemorySizesAgree(rs: seq<Region>, pg: nat, sz: nat)
    requires WellFormed(rs, pg)
    ensures IsMemorySize(RegionTable(rs, |rs|), sz) <==> sz == 2 * PhysBase(rs, |rs|)
    ensures IsMemorySize(PageTable(rs, pg, |rs|), sz) <==> sz == 2 * PhysBase(rs, |rs|)
  {
    var n, last := |rs|, rs[|rs| - 1];
    var coarse, fine := RegionTable(rs, n), PageTable(rs, pg, n);
    forall v | v in coarse
      ensures coarse[v].paddr + coarse[v].size <= PhysBase(rs, n)
    {
      var i := RegionTableKey(rs, n, v);
      RegionTableAt(rs, pg, n, i);
      PlacementDisjoint(rs, i, n);
    }
    RegionTableAt(rs, pg, n, n - 1);
    MemorySizeIs(coarse, PhysBase(rs, n), last.vaddr, sz);
    forall v | v in fine
      ensures fine[v].paddr + fine[v].size <= PhysBase(rs, n)
    {
      PagePlacedInRegion(rs, pg, v);
    }
    LastPage(rs, pg);
    MemorySizeIs(fine, PhysBase(rs, n), last.vaddr + last.size - pg, sz);
  }

  /** Every placed page lies below the sum of the region sizes, so in the lower half of memory. */
  lemma PagePlacedInRegion(rs: seq<Region>, pg: nat, v: nat)
    requires WellFormed(rs, pg) && v in PageTable(rs, pg, |rs|)
    ensures PageTable(rs, pg, |rs|)[v].paddr + PageTable(rs, pg, |rs|)[v].size <= PhysBase(rs, |rs|)
  {
    PageTableAt(rs, pg, |rs|, v);
    var i :| 0 <= i < |rs| && InRegion(rs[i], v);
    PlacementDisjoint(rs, i, |rs|);
    PlacedAboveZero(rs, pg, i);
    PageFits(rs[i], pg, v);
  }

  lemma LastPage(rs: seq<Region>, pg: nat)
    requires WellFormed(rs, pg)
    ensures var last, t := rs[|rs| - 1], PageTable(rs, pg, |rs|);
            && 0 <= last.vaddr + last.size - pg
            && last.vaddr + last.size - pg in t
            && t[last.vaddr + last.size - pg].paddr + t[last.vaddr + last.size - pg].size == PhysBase(rs, |rs|)
  {
    var last := rs[|rs| - 1];
    PageFits(last, pg, last.vaddr);
    var v := last.vaddr + last.size - pg;
    ModAdd(last.size, last.vaddr, pg);
    ModStep(last.size + last.vaddr, pg);
    PageTableAt(rs, pg, |rs|, v);
    PlacedAboveZero(rs, pg, |rs| - 1);
  }
}
