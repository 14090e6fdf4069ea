/**
 Merging checkpoints into one, after `aggregate` in custom_gem5/util/checkpoint_aggregator.py: the
 memories are laid one after the other, page by page, and every physical address of a checkpoint is
 moved up by the pages laid before it.
 */
module Aggregator {
  import opened Basics
  import opened Streams

  const PAGE := 4096

  /** A page-table entry of one of a checkpoint's CPU sections. */
  datatype Entry = Entry(vaddr: nat, paddr: nat)

  /** `pages` is the checkpoint's `pagePtr`; its memory file is already decompressed. */
  datatype Checkpoint = Checkpoint(pages: nat, memory: seq<Byte>, entries: seq<Entry>, curTick: int)

  /** What the merged configuration says. */
  datatype Config = Config(entries: seq<seq<Entry>>, pagePtr: nat, nextPid: nat, rangeSize: nat, curTick: int)

  // ---------------------------------------------------------------- layout

  /** The page at which checkpoint `i` starts. */
  function PageBase(cpts: seq<Checkpoint>, i: nat): nat
    requires i <= |cpts|
  {
    if i == 0 then 0 else PageBase(cpts, i - 1) + cpts[i - 1].pages
  }

  /** What reading the declared number of pages from a memory file gives. */
  function Contents(c: Checkpoint): seq<Byte> {
    if PAGE * c.pages <= |c.memory| then c.memory[..PAGE * c.pages] else c.memory
  }

  /** The merged memory before padding. */
  function Body(cpts: seq<Checkpoint>, i: nat): seq<Byte>
    requires i <= |cpts|
  {
    if i == 0 then [] else Body(cpts, i - 1) + Contents(cpts[i - 1])
  }

  function Moved(e: Entry, base: nat): Entry {
    Entry(e.vaddr, e.paddr + PAGE * base)
  }

  function Relocated(es: seq<Entry>, base: nat): seq<Entry> {
    seq(|es|, i requires 0 <= i < |es| => Moved(es[i], base))
  }

  /** How many pages of padding bring `pages` pages up to the memory size asked for. */
  function PadPages(pages: nat, memorySize: Option<int>): (n: nat)
    ensures memorySize.None? ==> n == 0
    ensures memorySize.Some? ==> memorySize.value <= 4096 * (pages + n)
    ensures 0 < n ==> 4096 * (pages + n - 1) < memorySize.value
  {
    if memorySize.None? || memorySize.value <= PAGE * pages then 0
    else (memorySize.value - PAGE * pages + PAGE - 1) / PAGE
  }

  /** `n` pages of the character `0`. */
  function Padding(n: nat): (r: seq<Byte>)
    ensures |r| == 4096 * n && forall i :: 0 <= i < |r| ==> r[i] == 48
  {
    seq(PAGE * n, i => 48)
  }

  ghost predicate LargestTick(cpts: seq<Checkpoint>, n: nat, tick: int)
    requires n <= |cpts|
  {
    && 0 <= tick && (forall i :: 0 <= i < n ==> cpts[i].curTick <= tick)
    && (tick == 0 || exists i :: 0 <= i < n && cpts[i].curTick == tick)
  }

  // ---------------------------------------------------------------- the script

  /** Reads that hit the end of the file are short or empty, and copied as they are. */
  method CopyPages(c: Checkpoint, out: OutFile)
    modifies out
    ensures out.bytes == old(out.bytes) + Contents(c)
  {
    var f := new InFile(c.memory);
    var x := 0;
    ghost var n := 0;
    while x < c.pages
      invariant x <= c.pages && f.Valid() && n <= |c.memory|
      invariant n == if PAGE * x <= |c.memory| then PAGE * x else |c.memory|
      invariant f.Rest() == c.memory[n..] && out.bytes == old(out.bytes) + c.memory[..n]
    {
      var bytesRead := f.Read(PAGE);
      out.Put(bytesRead);
      assert c.memory[..n] + bytesRead == c.memory[..n + |bytesRead|];
      assert c.memory[n..][|bytesRead|..] == c.memory[n + |bytesRead|..];
      n := n + |bytesRead|;
      x := x + 1;
    }
  }

  method Relocate(es: seq<Entry>, base: nat) returns (r: seq<Entry>)
    ensures r == Relocated(es, base)
  {
    r := [];
    for i := 0 to |es|
      invariant |r| == i && forall j :: 0 <= j < i ==> r[j] == Moved(es[j], base)
    {
      r := r + [Moved(es[i], base)];
    }
  }

  method Pad(pages: nat, memorySize: Option<int>, out: OutFile) returns (pagePtr: nat)
    modifies out
    ensures pagePtr == pages + PadPages(pages, memorySize)
    ensures out.bytes == old(out.bytes) + Padding(PadPages(pages, memorySize))
  {
    pagePtr := pages;
    var fileSize := PAGE * pages;
    while memorySize.Some? && fileSize < memorySize.value
      invariant pages <= pagePtr <= pages + PadPages(pages, memorySize) && fileSize == PAGE * pagePtr
      invariant out.bytes == old(out.bytes) + Padding(pagePtr - pages)
      decreases pages + PadPages(pages, memorySize) - pagePtr
    {
      out.Put(Padding(1));
      assert Padding(pagePtr - pages) + Padding(1) == Padding(pagePtr + 1 - pages);
      fileSize, pagePtr := fileSize + PAGE, pagePtr + 1;
    }
  }

  /** The entries of checkpoint `i`, moved up by the pages before it. */
  ghost predicate AreMoved(cpts: seq<Checkpoint>, i: nat, es: seq<Entry>) {
    i < |cpts| && es == Relocated(cpts[i].entries, PageBase(cpts, i))
  }

  ghost predicate AllRelocated(cpts: seq<Checkpoint>, entries: seq<seq<Entry>>) {
    forall i :: 0 <= i < |entries| ==> AreMoved(cpts, i, entries[i])
  }

  /** The loop over the checkpoints. */
  method Merge(cpts: seq<Checkpoint>, out: OutFile) returns (entries: seq<seq<Entry>>, pagePtr: nat, maxTick: int)
    requires out.bytes == []
    modifies out
    ensures AllRelocated(cpts, entries) && |entries| == |cpts|
    ensures pagePtr == PageBase(cpts, |cpts|) && LargestTick(cpts, |cpts|, maxTick) && out.bytes == Body(cpts, |cpts|)
  {
    entries, pagePtr, maxTick := [], 0, 0;
    for i := 0 to |cpts|
      invariant AllRelocated(cpts, entries) && |entries| == i
      invariant pagePtr == PageBase(cpts, i) && LargestTick(cpts, i, maxTick) && out.bytes == Body(cpts, i)
    {
      var es := Relocate(cpts[i].entries, pagePtr);
      assert AreMoved(cpts, i, es);
      entries := entries + [es];
      maxTick := LaterTick(cpts, i, maxTick);
      pagePtr := pagePtr + cpts[i].pages;
      CopyPages(cpts[i], out);
    }
  }

  method LaterTick(cpts: seq<Checkpoint>, i: nat, maxTick: int) returns (tick: int)
    requires i < |cpts| && LargestTick(cpts, i, maxTick)
    ensures LargestTick(cpts, i + 1, tick)
  {
    tick := if maxTick < cpts[i].curTick then cpts[i].curTick else maxTick;
  }

  /** No result for the empty list, on which the source fails. */
  method Aggregate(cpts: seq<Checkpoint>, memorySize: Option<int>, out: OutFile) returns (r: Option<Config>)
    requires out.bytes == []
    modifies out
    ensures r.None? <==> cpts == []
    ensures r.Some? ==>
              var c, total := r.value, PageBase(cpts, |cpts|);
              && AllRelocated(cpts, c.entries) && |c.entries| == |cpts|
              && c.pagePtr == total && c.nextPid == |cpts| && LargestTick(cpts, |cpts|, c.curTick)
              && c.rangeSize == 4096 * (total + PadPages(total, memorySize))
              && out.bytes == Body(cpts, |cpts|) + Padding(PadPages(total, memorySize))
  {
    if cpts == [] {
      return None;
    }
    var entries, total, maxTick := Merge(cpts, out);
    var pagePtr := Pad(total, memorySize, out);
    r := Some(Config(entries, total, |cpts|, PAGE * pagePtr, maxTick));
  }

  // ---------------------------------------------------------------- properties

  /** The memory file holds all the declared pages. */
  predicate Complete(c: Checkpoint) {
    PAGE * c.pages <= |c.memory|
  }

  /** The memories before checkpoint `i` end where its pages start exactly when all of their files are complete. */
  lemma {:induction false} BodyLength(cpts: seq<Checkpoint>, i: nat)
    requires i <= |cpts|
    ensures |Body(cpts, i)| <= 4096 * PageBase(cpts, i)
    ensures |Body(cpts, i)| == 4096 * PageBase(cpts, i) <==> forall j :: 0 <= j < i ==> Complete(cpts[j])
  {
    if 0 < i {
      BodyLength(cpts, i - 1);
    }
  }

  /** The recorded size is the length of the written memory exactly when every memory file is complete. */
  lemma RangeSizeExact(cpts: seq<Checkpoint>, memorySize: Option<int>)
    ensures var total := PageBase(cpts, |cpts|); var pad := PadPages(total, memorySize);
            |Body(cpts, |cpts|) + Padding(pad)| == 4096 * (total + pad) <==> forall j :: 0 <= j < |cpts| ==>
                Complete(cpts[j])
  {
    BodyLength(cpts, |cpts|);
  }

  lemma {:induction false} BodyPrefix(cpts: seq<Checkpoint>, i: nat, n: nat)
    requires i <= n <= |cpts|
    ensures Body(cpts, i) <= Body(cpts, n)
    decreases n
  {
    if i < n {
      BodyPrefix(cpts, i, n - 1);
    }
  }

  /**
   The merged memory holds, at a relocated address, the byte that the checkpoint had there, if the
   files before it are complete.
   */
  lemma RelocatedByte(cpts: seq<Checkpoint>, m: seq<Byte>, i: nat, e: Entry)
    requires i < |cpts| && e.paddr < PAGE * cpts[i].pages && e.paddr < |cpts[i].memory|
    requires Body(cpts, |cpts|) <= m && forall j :: 0 <= j < i ==> Complete(cpts[j])
    ensures var a := Moved(e, PageBase(cpts, i)).paddr; a < |m| && m[a] == cpts[i].memory[e.paddr]
  {
    BodyLength(cpts, i);
    BodyPrefix(cpts, i + 1, |cpts|);
    Within(Body(cpts, i), Contents(cpts[i]), Body(cpts, |cpts|), m, e.paddr);
  }

  lemma Within(a: seq<Byte>, b: seq<Byte>, c: seq<Byte>, m: seq<Byte>, x: nat)
    requires a + b <= c <= m && x < |b|
    ensures |a| + x < |m| && m[|a| + x] == b[x]
  {
    assert (a + b)[|a| + x] == b[x];
  }

  /** Following any entry of the merged page tables reads what the entry's own checkpoint holds. */
  lemma EntryReads(cpts: seq<Checkpoint>, m: seq<Byte>, entries: seq<seq<Entry>>, i: nat, k: nat)
    requires Body(cpts, |cpts|) <= m && forall j :: 0 <= j < |cpts| ==> Complete(cpts[j])
    requires AllRelocated(cpts, entries) && i < |entries| && k < |entries[i]|
    requires i < |cpts| && k < |cpts[i].entries| && cpts[i].entries[k].paddr < 4096 * cpts[i].pages
    ensures var e, e' := cpts[i].entries[k], entries[i][k];
            && e'.vaddr == e.vaddr && e'.paddr == e.paddr + 4096 * PageBase(cpts, i)
            && e.paddr < |cpts[i].memory| && e'.paddr < |m| && m[e'.paddr] == cpts[i].memory[e.paddr]
  {
    assert Complete(cpts[i]) && AreMoved(cpts, i, entries[i]);
    RelocatedByte(cpts, m, i, cpts[i].entries[k]);
  }

  /** Each checkpoint's pages end before the next one's start. */
  lemma {:induction false} PagesAscend(cpts: seq<Checkpoint>, i: nat, j: nat)
    requires i < j <= |cpts|
    ensures PageBase(cpts, i) + cpts[i].pages <= PageBase(cpts, j)
    decreases j
  {
    if i + 1 < j {
      PagesAscend(cpts, i, j - 1);
    }
  }

  /** Addresses of different checkpoints, or different addresses of one, stay different. */
  lemma RelocationInjective(cpts: seq<Checkpoint>, i: nat, j: nat, v: nat, p: nat, w: nat, q: nat)
    requires i < |cpts| && j < |cpts| && p < 4096 * cpts[i].pages && q < 4096 * cpts[j].pages
    requires Moved(Entry(v, p), PageBase(cpts, i)).paddr == Moved(Entry(w, q), PageBase(cpts, j)).paddr
    ensures i == j && p == q
  {
    if i < j {
      PagesAscend(cpts, i, j);
    }
    if j < i {
      PagesAscend(cpts, j, i);
    }
  }
}
