/**
 Construction of the physical memory image, after
 lapidary/checkpoint/CheckpointConvert.py: the file starts as zeros, then
 file-backed regions are copied in, then the segments of the core dump.
 */
module MemoryImage {
  import opened Basics
  import opened MemoryLayout

  /** An ELF program header of the core dump with its bytes; `load` says that its type is PT_LOAD. */
  datatype Segment = Segment(load: bool, vaddr: nat, memsz: nat, filesz: nat, data: seq<Byte>)

  /** The mappings file: memory size, entries by virtual address, and the order in which they are listed. */
  datatype MappingFile = MappingFile(memSize: nat, entries: map<nat, Mapping>, order: seq<nat>)

  datatype Write = Write(pos: nat, data: seq<Byte>)

  // ---------------------------------------------------------------- the output file

  /** Overwriting at `pos`, with the zero-filled hole a write past the end leaves. */
  function WriteAt(f: seq<Byte>, pos: nat, data: seq<Byte>): seq<Byte> {
    if data == [] then f
    else if |f| < pos then f + Zeros(pos - |f|) + data
    else f[..pos] + data + if pos + |data| <= |f| then f[pos + |data|..] else []
  }

  /** Where a byte of the file comes from after a write. */
  lemma WriteAtIs(f: seq<Byte>, pos: nat, data: seq<Byte>)
    requires data != []
    ensures var r := WriteAt(f, pos, data);
            && |r| == (if |f| < pos + |data| then pos + |data| else |f|)
            && forall i :: 0 <= i < |r| ==>
                 r[i] == if pos <= i < pos + |data| then data[i - pos] else if i < |f| then f[i] else 0
  {
    var r := WriteAt(f, pos, data);
    if pos <= |f| {
      assert forall i :: pos + |data| <= i < |r| ==> r[i] == f[i];
    }
  }

  function Replay(f: seq<Byte>, ws: seq<Write>): seq<Byte> {
    if ws == [] then f else
      var w := ws[|ws| - 1];
      WriteAt(Replay(f, ws[..|ws| - 1]), w.pos, w.data)
  }

  class PmemFile {
    var bytes: seq<Byte>
    var pos: nat

    constructor ()
      ensures bytes == [] && pos == 0
    {
      bytes, pos := [], 0;
    }

    method Truncate(size: nat)
      modifies this`bytes
      ensures |bytes| == size && forall i :: 0 <= i < size ==> bytes[i] == if i < |old(bytes)| then old(bytes)[i] else 0
    {
      bytes := if size <= |bytes| then bytes[..size] else bytes + Zeros(size - |bytes|);
    }

    method Seek(p: nat)
      modifies this`pos
      ensures pos == p
    {
      pos := p;
    }

    method Put(data: seq<Byte>)
      modifies this
      ensures bytes == WriteAt(old(bytes), old(pos), data) && pos == old(pos) + |data|
    {
      bytes := WriteAt(bytes, pos, data);
      pos := pos + |data|;
    }
  }

  // ---------------------------------------------------------------- the two passes

  /** `seek(offset); read(size)`: what the file still has there. */
  function FileSlice(file: seq<Byte>, offset: nat, size: nat): seq<Byte> {
    if |file| <= offset then [] else if |file| <= offset + size then file[offset..] else file[offset..offset + size]
  }

  predicate Spans(s: Segment, v: nat) {
    s.vaddr <= v < s.vaddr + s.memsz
  }

  /** First pass, one region: the file is copied once for every PT_LOAD segment that does not span its start. */
  function RegionWrites(v: nat, e: Mapping, files: map<string, seq<Byte>>, segs: seq<Segment>): seq<Write> {
    if segs == [] || v == 0 || e.name !in files then [] else
      var s, ws := segs[|segs| - 1], RegionWrites(v, e, files, segs[..|segs| - 1]);
      if s.load && !Spans(s, v) then ws + [Write(e.paddr, FileSlice(files[e.name], e.offset, e.size))] else ws
  }

  function FileWrites(entries: map<nat, Mapping>, order: seq<nat>, files: map<string, seq<Byte>>,
                      segs: seq<Segment>): seq<Write>
    requires forall v :: v in order ==> v in entries
  {
    if order == [] then [] else
      var v := order[|order| - 1];
      FileWrites(entries, order[..|order| - 1], files, segs) + RegionWrites(v, entries[v], files, segs)
  }

  /** Second pass: every PT_LOAD segment that starts at a region key. */
  function CoreWrites(entries: map<nat, Mapping>, segs: seq<Segment>): seq<Write> {
    if segs == [] then [] else
      var s, ws := segs[|segs| - 1], CoreWrites(entries, segs[..|segs| - 1]);
      if s.load && s.vaddr in entries then ws + [Write(entries[s.vaddr].paddr, s.data)] else ws
  }

  /** The assertions the second pass makes about a PT_LOAD segment. */
  predicate Accepted(s: Segment, entries: map<nat, Mapping>, pg: nat)
    requires 0 < pg
  {
    s.load ==> s.filesz == s.memsz && s.memsz % pg == 0 && (s.vaddr in entries ==> |s.data| == s.memsz)
  }

  function Image(m: MappingFile, files: map<string, seq<Byte>>, segs: seq<Segment>): seq<Byte>
    requires forall v :: v in m.order ==> v in m.entries
  {
    Replay(Zeros(m.memSize), FileWrites(m.entries, m.order, files, segs) + CoreWrites(m.entries, segs))
  }

  lemma {:induction false} ReplayConcat(f: seq<Byte>, a: seq<Write>, b: seq<Write>)
    ensures Replay(f, a + b) == Replay(Replay(f, a), b)
  {
    if b == [] {
      assert a + b == a;
    } else {
      assert (a + b)[..|a + b| - 1] == a + b[..|b| - 1];
      ReplayConcat(f, a, b[..|b| - 1]);
    }
  }

  lemma ReplayOne(f: seq<Byte>, ws: seq<Write>, w: Write)
    ensures Replay(f, ws + [w]) == WriteAt(Replay(f, ws), w.pos, w.data)
  {
    assert (ws + [w])[..|ws|] == ws;
  }

  method CopyRegion(pmem: PmemFile, v: nat, e: Mapping, files: map<string, seq<Byte>>, segs: seq<Segment>)
    modifies pmem
    ensures pmem.bytes == Replay(old(pmem.bytes), RegionWrites(v, e, files, segs))
  {
    if v == 0 || e.name !in files {
      return;
    }
    for k := 0 to |segs|
      invariant pmem.bytes == Replay(old(pmem.bytes), RegionWrites(v, e, files, segs[..k]))
    {
      assert segs[..k + 1][..k] == segs[..k];
      if segs[k].load && !Spans(segs[k], v) {
        pmem.Seek(e.paddr);
        pmem.Put(FileSlice(files[e.name], e.offset, e.size));
        ReplayOne(old(pmem.bytes), RegionWrites(v, e, files, segs[..k]),
            Write(e.paddr, FileSlice(files[e.name], e.offset, e.size)));
      }
    }
    assert segs[..|segs|] == segs;
  }

  method CopyFiles(pmem: PmemFile, m: MappingFile, files: map<string, seq<Byte>>, segs: seq<Segment>)
    requires forall v :: v in m.order ==> v in m.entries
    modifies pmem
    ensures pmem.bytes == Replay(old(pmem.bytes), FileWrites(m.entries, m.order, files, segs))
  {
    for i := 0 to |m.order|
      invariant pmem.bytes == Replay(old(pmem.bytes), FileWrites(m.entries, m.order[..i], files, segs))
    {
      var v := m.order[i];
      assert m.order[..i + 1][..i] == m.order[..i];
      CopyRegion(pmem, v, m.entries[v], files, segs);
      ReplayConcat(old(pmem.bytes), FileWrites(m.entries, m.order[..i], files, segs),
          RegionWrites(v, m.entries[v], files, segs));
    }
    assert m.order[..|m.order|] == m.order;
  }

  method LoadSegments(pmem: PmemFile, entries: map<nat, Mapping>, pg: nat, segs: seq<Segment>) returns (ok: bool)
    requires 0 < pg
    modifies pmem
    ensures ok <==> forall k :: 0 <= k < |segs| ==> Accepted(segs[k], entries, pg)
    ensures ok ==> pmem.bytes == Replay(old(pmem.bytes), CoreWrites(entries, segs))
  {
    for k := 0 to |segs|
      invariant forall j :: 0 <= j < k ==> Accepted(segs[j], entries, pg)
      invariant pmem.bytes == Replay(old(pmem.bytes), CoreWrites(entries, segs[..k]))
    {
      var s := segs[k];
      assert segs[..k + 1][..k] == segs[..k];
      if s.load {
        if s.filesz != s.memsz || s.memsz % pg != 0 {
          return false;
        }
        if s.vaddr in entries {
          if |s.data| != s.memsz {
            return false;
          }
          pmem.Seek(entries[s.vaddr].paddr);
          pmem.Put(s.data);
          ReplayOne(old(pmem.bytes), CoreWrites(entries, segs[..k]), Write(entries[s.vaddr].paddr, s.data));
        }
      }
    }
    assert segs[..|segs|] == segs;
    ok := true;
  }

  method CreatePmemFile(m: MappingFile, pg: nat, files: map<string, seq<Byte>>, segs: seq<Segment>)
    returns (ok: bool, pmem: PmemFile)
    requires 0 < pg && forall v :: v in m.order ==> v in m.entries
    ensures fresh(pmem)
    ensures ok <==> forall k :: 0 <= k < |segs| ==> Accepted(segs[k], m.entries, pg)
    ensures ok ==> pmem.bytes == Image(m, files, segs)
  {
    pmem := new PmemFile();
    pmem.Truncate(m.memSize);
    ghost var zeros := pmem.bytes;
    assert zeros == Zeros(m.memSize);
    CopyFiles(pmem, m, files, segs);
    ok := LoadSegments(pmem, m.entries, pg, segs);
    ReplayConcat(zeros, FileWrites(m.entries, m.order, files, segs), CoreWrites(m.entries, segs));
  }

  // ---------------------------------------------------------------- what a list of writes leaves behind

  predicate Hits(w: Write, p: int) {
    w.pos <= p < w.pos + |w.data|
  }

  ghost predicate Within(ws: seq<Write>, size: nat) {
    forall w :: w in ws ==> w.pos + |w.data| <= size
  }

  /** Every write that hits `p` puts `b` there. */
  ghost predicate AgreeAt(ws: seq<Write>, p: nat, b: Byte) {
    forall w :: w in ws && Hits(w, p) ==> w.data[p - w.pos] == b
  }

  lemma {:induction false} ReplayAt(f: seq<Byte>, ws: seq<Write>, p: nat, b: Byte)
    requires Within(ws, |f|) && p < |f| && AgreeAt(ws, p, b)
    ensures |Replay(f, ws)| == |f|
    ensures Replay(f, ws)[p] == if exists w :: w in ws && Hits(w, p) then b else f[p]
  {
    if ws != [] {
      var init, w := ws[..|ws| - 1], ws[|ws| - 1];
      assert ws == init + [w];
      assert forall x :: x in ws <==> x in init || x == w;
      ReplayAt(f, init, p, b);
      assert Replay(f, ws) == WriteAt(Replay(f, init), w.pos, w.data);
      if Hits(w, p) {
        assert w in ws;
      } else if exists x :: x in init && Hits(x, p) {
        var x :| x in init && Hits(x, p);
        assert x in ws;
      }
    }
  }

  // ---------------------------------------------------------------- membership in the two passes

  /** Some PT_LOAD segment lies wholly above `v` or ends at or below it. */
  ghost predicate Missed(v: nat, segs: seq<Segment>) {
    exists k :: 0 <= k < |segs| && segs[k].load && (v < segs[k].vaddr || segs[k].vaddr + segs[k].memsz <= v)
  }

  ghost predicate Copied(v: nat, segs: seq<Segment>) {
    v != 0 && Missed(v, segs)
  }

  lemma {:induction false} RegionWritesAre(v: nat, e: Mapping, files: map<string, seq<Byte>>, segs: seq<Segment>,
                                           w: Write)
    ensures w in RegionWrites(v, e, files, segs) <==>
            e.name in files && Copied(v, segs) && w == Write(e.paddr, FileSlice(files[e.name], e.offset, e.size))
  {
    if segs != [] && v != 0 && e.name in files {
      var init, s := segs[..|segs| - 1], segs[|segs| - 1];
      RegionWritesAre(v, e, files, init, w);
      assert Copied(v, segs) <==> Copied(v, init) || (s.load && !Spans(s, v)) by {
        if Copied(v, init) {
          var k :| 0 <= k < |init| && init[k].load && (v < init[k].vaddr || init[k].vaddr + init[k].memsz <= v);
          assert segs[k] == init[k];
        }
        if Copied(v, segs) {
          var k :| 0 <= k < |segs| && segs[k].load && (v < segs[k].vaddr || segs[k].vaddr + segs[k].memsz <= v);
          assert k < |init| ==> segs[k] == init[k];
        }
      }
    }
  }

  lemma {:induction false} FileWritesAre(entries: map<nat, Mapping>, order: seq<nat>, files: map<string, seq<Byte>>,
                                         segs: seq<Segment>, w: Write)
    requires forall v :: v in order ==> v in entries
    ensures w in FileWrites(entries, order, files, segs) <==>
            exists v :: v in order && w in RegionWrites(v, entries[v], files, segs)
  {
    if order != [] {
      var init, last := order[..|order| - 1], order[|order| - 1];
      assert order == init + [last];
      FileWritesAre(entries, init, files, segs, w);
      assert last in order;
    }
  }

  lemma {:induction false} CoreWritesAre(entries: map<nat, Mapping>, segs: seq<Segment>, w: Write)
    ensures w in CoreWrites(entries, segs) <==>
            exists s :: s in segs && s.load && s.vaddr in entries && w == Write(entries[s.vaddr].paddr, s.data)
  {
    if segs != [] {
      var init, last := segs[..|segs| - 1], segs[|segs| - 1];
      assert segs == init + [last];
      CoreWritesAre(entries, init, w);
      assert last in segs;
    }
  }

  // ---------------------------------------------------------------- end to end

  predicate Loads(s: Segment, entries: map<nat, Mapping>) {
    s.load && s.vaddr in entries
  }

  predicate Covers(s: Segment, a: int) {
    s.vaddr <= a < s.vaddr + |s.data|
  }

  /** A checkpoint as the engine dumps it: loaded segments cover mapped addresses only, and no address twice. */
  ghost predicate Dumped(rs: seq<Region>, pg: nat, m: MappingFile, segs: seq<Segment>) {
    && WellFormed(rs, pg)
    && m.entries == RegionTable(rs, |rs|) && m.memSize == 2 * PhysBase(rs, |rs|)
    && (forall v :: v in m.order <==> v in m.entries)
    && (forall s, a :: s in segs && Loads(s, m.entries) && Covers(s, a) ==> Mapped(rs, a))
    && (forall s, t, a ::
          s in segs && t in segs && Loads(s, m.entries) && Loads(t, m.entries) && Covers(s, a) && Covers(t, a) ==>
            s == t)
  }

  lemma Ascending(rs: seq<Region>, pg: nat, i: nat, j: nat)
    requires Ordered(rs, pg) && i < |rs| && j < |rs|
    ensures i < j ==> rs[i].vaddr + rs[i].size <= rs[j].vaddr
  {
  }

  /** Regions that a fully mapped stretch of addresses touches are placed back to back. */
  lemma {:induction false} SpanContiguous(rs: seq<Region>, pg: nat, i: nat, j: nat)
    requires Ordered(rs, pg) && i <= j < |rs|
    requires forall a :: rs[i].vaddr <= a < rs[j].vaddr ==> Mapped(rs, a)
    ensures PhysBase(rs, j) - PhysBase(rs, i) == rs[j].vaddr - rs[i].vaddr
  {
    if i < j {
      assert rs[i].vaddr + rs[i].size <= rs[j].vaddr;
      var a := rs[j].vaddr - 1;
      assert Mapped(rs, a);
      var k :| 0 <= k < |rs| && InRegion(rs[k], a);
      Ascending(rs, pg, k, j - 1);
      Ascending(rs, pg, j, k);
      Ascending(rs, pg, j - 1, j);
      assert k == j - 1;
      assert i < j - 1 ==> rs[i].vaddr + rs[i].size <= rs[j - 1].vaddr;
      SpanContiguous(rs, pg, i, j - 1);
    }
  }

  /** A loaded segment, even one over several regions, lands where the page table sends its addresses. */
  lemma SegmentPlaced(rs: seq<Region>, pg: nat, m: MappingFile, segs: seq<Segment>, s: Segment, a: nat)
    requires Dumped(rs, pg, m, segs) && s in segs && Loads(s, m.entries) && Covers(s, a)
    ensures Translate(PageTable(rs, pg, |rs|), pg, a) == Some(m.entries[s.vaddr].paddr + a - s.vaddr)
    ensures m.entries[s.vaddr].paddr + a - s.vaddr < PhysBase(rs, |rs|)
  {
    var i := RegionTableKey(rs, |rs|, s.vaddr);
    RegionTableAt(rs, pg, |rs|, i);
    assert Mapped(rs, a);
    var j :| 0 <= j < |rs| && InRegion(rs[j], a);
    Ascending(rs, pg, j, i);
    forall b | rs[i].vaddr <= b < rs[j].vaddr
      ensures Mapped(rs, b)
    {
      assert Covers(s, b);
    }
    SpanContiguous(rs, pg, i, j);
    TranslationAgrees(rs, pg, j, a);
    PlacementDisjoint(rs, j, |rs|);
  }

  /** Core writes stay inside the placed memory, and hit a translated address exactly when their segment covers it. */
  lemma CoreWriteHits(rs: seq<Region>, pg: nat, m: MappingFile, segs: seq<Segment>, s: Segment, a: nat)
    requires Dumped(rs, pg, m, segs) && s in segs && Loads(s, m.entries) && Mapped(rs, a)
    ensures var w := Write(m.entries[s.vaddr].paddr, s.data);
            && w.pos + |w.data| <= PhysBase(rs, |rs|)
            && Translate(PageTable(rs, pg, |rs|), pg, a).Some?
            && (Hits(w, Translate(PageTable(rs, pg, |rs|), pg, a).value) <==> Covers(s, a))
  {
    var w := Write(m.entries[s.vaddr].paddr, s.data);
    TranslationDomain(rs, pg, a);
    var p := Translate(PageTable(rs, pg, |rs|), pg, a).value;
    if s.data != [] {
      SegmentPlaced(rs, pg, m, segs, s, s.vaddr + |s.data| - 1);
    } else {
      var i := RegionTableKey(rs, |rs|, s.vaddr);
      RegionTableAt(rs, pg, |rs|, i);
      PlacementDisjoint(rs, i, |rs|);
    }
    if Covers(s, a) {
      SegmentPlaced(rs, pg, m, segs, s, a);
    }
    if Hits(w, p) {
      var b := s.vaddr + (p - w.pos);
      SegmentPlaced(rs, pg, m, segs, s, b);
      assert Covers(s, b) && Mapped(rs, b);
      TranslationInjective(rs, pg, a, b);
    }
  }

  /** A file write is the slice of one region, at the place of that region. */
  lemma FileWriteFrom(rs: seq<Region>, pg: nat, m: MappingFile, files: map<string, seq<Byte>>, segs: seq<Segment>,
                      w: Write)
    returns (j: nat)
    requires Dumped(rs, pg, m, segs) && w in FileWrites(m.entries, m.order, files, segs)
    ensures j < |rs| && rs[j].name in files && Copied(rs[j].vaddr, segs)
    ensures w == Write(PhysBase(rs, j), FileSlice(files[rs[j].name], rs[j].offset, rs[j].size))
  {
    FileWritesAre(m.entries, m.order, files, segs, w);
    var v :| v in m.order && w in RegionWrites(v, m.entries[v], files, segs);
    RegionWritesAre(v, m.entries[v], files, segs, w);
    j := RegionTableKey(rs, |rs|, v);
    RegionTableAt(rs, pg, |rs|, j);
  }

  /** File writes stay inside their own region's memory. */
  lemma FileWriteHits(rs: seq<Region>, pg: nat, m: MappingFile, files: map<string, seq<Byte>>, segs: seq<Segment>,
                      w: Write, i: nat, a: nat)
    requires Dumped(rs, pg, m, segs) && i < |rs| && InRegion(rs[i], a)
    requires w in FileWrites(m.entries, m.order, files, segs)
    ensures w.pos + |w.data| <= PhysBase(rs, |rs|)
    ensures Hits(w, PhysBase(rs, i) + a - rs[i].vaddr) ==>
              && rs[i].name in files && Copied(rs[i].vaddr, segs)
              && rs[i].offset + (a - rs[i].vaddr) < |files[rs[i].name]|
              && w.data[PhysBase(rs, i) + a - rs[i].vaddr - w.pos] ==
                  files[rs[i].name][rs[i].offset + (a - rs[i].vaddr)]
  {
    var j := FileWriteFrom(rs, pg, m, files, segs, w);
    PlacementDisjoint(rs, j, |rs|);
    if j < i {
      PlacementDisjoint(rs, j, i);
    } else if i < j {
      PlacementDisjoint(rs, i, j);
    }
  }

  /** The byte the first pass leaves at address `a` of region `r`. */
  ghost function BackingByte(r: Region, files: map<string, seq<Byte>>, segs: seq<Segment>, a: nat): Byte
    requires InRegion(r, a)
  {
    if r.name in files && Copied(r.vaddr, segs) && r.offset + (a - r.vaddr) < |files[r.name]|
    then files[r.name][r.offset + (a - r.vaddr)] else 0
  }

  lemma BackingPlaced(rs: seq<Region>, pg: nat, m: MappingFile, files: map<string, seq<Byte>>, segs: seq<Segment>,
                      i: nat, a: nat)
    requires Dumped(rs, pg, m, segs) && i < |rs| && InRegion(rs[i], a)
    ensures var img, p := Replay(Zeros(m.memSize), FileWrites(m.entries, m.order, files, segs)),
            PhysBase(rs, i) + a - rs[i].vaddr;
            p < |img| == m.memSize && img[p] == BackingByte(rs[i], files, segs, a)
  {
    var ws, p, r := FileWrites(m.entries, m.order, files, segs), PhysBase(rs, i) + a - rs[i].vaddr, rs[i];
    PlacementDisjoint(rs, i, |rs|);
    forall w | w in ws
      ensures w.pos + |w.data| <= m.memSize && (Hits(w, p) ==> w.data[p - w.pos] == BackingByte(r, files, segs, a))
    {
      FileWriteHits(rs, pg, m, files, segs, w, i, a);
    }
    ReplayAt(Zeros(m.memSize), ws, p, BackingByte(r, files, segs, a));
    if r.name in files && Copied(r.vaddr, segs) && r.offset + (a - r.vaddr) < |files[r.name]| {
      RegionTableAt(rs, pg, |rs|, i);
      var w := Write(PhysBase(rs, i), FileSlice(files[r.name], r.offset, r.size));
      RegionWritesAre(r.vaddr, m.entries[r.vaddr], files, segs, w);
      FileWritesAre(m.entries, m.order, files, segs, w);
      assert w in ws && Hits(w, p);
    } else if exists w :: w in ws && Hits(w, p) {
      var w :| w in ws && Hits(w, p);
      FileWriteHits(rs, pg, m, files, segs, w, i, a);
    }
  }

  /** The segment a core write comes from. */
  lemma CoreWriteFrom(rs: seq<Region>, pg: nat, m: MappingFile, segs: seq<Segment>, w: Write, i: nat, a: nat)
      returns (s: Segment)
    requires Dumped(rs, pg, m, segs) && i < |rs| && InRegion(rs[i], a) && w in CoreWrites(m.entries, segs)
    ensures s in segs && Loads(s, m.entries) && w == Write(m.entries[s.vaddr].paddr, s.data)
    ensures w.pos + |w.data| <= m.memSize
    ensures Hits(w, PhysBase(rs, i) + a - rs[i].vaddr) ==>
              Covers(s, a) && w.data[PhysBase(rs, i) + a - rs[i].vaddr - w.pos] == s.data[a - s.vaddr]
  {
    CoreWritesAre(m.entries, segs, w);
    s :| s in segs && s.load && s.vaddr in m.entries && w == Write(m.entries[s.vaddr].paddr, s.data);
    assert Mapped(rs, a);
    CoreWriteHits(rs, pg, m, segs, s, a);
    TranslationAgrees(rs, pg, i, a);
    if Covers(s, a) {
      SegmentPlaced(rs, pg, m, segs, s, a);
    }
  }

  /**
   After the second pass: byte `b` if every segment over `a` holds it there and one does, the first
   pass's byte if none is.
   */
  lemma CorePlaced(rs: seq<Region>, pg: nat, m: MappingFile, segs: seq<Segment>, base: seq<Byte>, i: nat, a: nat,
                   b: Byte)
    requires Dumped(rs, pg, m, segs) && i < |rs| && InRegion(rs[i], a) && |base| == m.memSize
    requires forall s :: s in segs && Loads(s, m.entries) && Covers(s, a) ==> s.data[a - s.vaddr] == b
    ensures var img, p := Replay(base, CoreWrites(m.entries, segs)), PhysBase(rs, i) + a - rs[i].vaddr;
            && p < |img| == m.memSize
            && img[p] == if exists s :: s in segs && Loads(s, m.entries) && Covers(s, a) then b else base[p]
  {
    var ws, p := CoreWrites(m.entries, segs), PhysBase(rs, i) + a - rs[i].vaddr;
    PlacementDisjoint(rs, i, |rs|);
    forall w | w in ws
      ensures w.pos + |w.data| <= m.memSize && (Hits(w, p) ==> w.data[p - w.pos] == b)
    {
      var _ := CoreWriteFrom(rs, pg, m, segs, w, i, a);
    }
    ReplayAt(base, ws, p, b);
    if s :| s in segs && Loads(s, m.entries) && Covers(s, a) {
      var w := Write(m.entries[s.vaddr].paddr, s.data);
      CoreWritesAre(m.entries, segs, w);
      SegmentPlaced(rs, pg, m, segs, s, a);
      TranslationAgrees(rs, pg, i, a);
      assert w in ws && Hits(w, p);
    } else if w :| w in ws && Hits(w, p) {
      var _ := CoreWriteFrom(rs, pg, m, segs, w, i, a);
    }
  }

  /** A region starts at `v`. */
  ghost predicate Starts(rs: seq<Region>, v: nat) {
    exists j :: 0 <= j < |rs| && rs[j].vaddr == v
  }

  /**
   Translating address `a` of region `i` through page table `pt` and reading `img` gives the byte of
   a PT_LOAD segment over `a`, if the segment starts where a region does; otherwise the byte of the
   region's file, if the region is not the null page, the file is there and long enough, and some
   PT_LOAD segment does not reach over the start of the region; otherwise zero.
   */
  ghost predicate ReadsBack(rs: seq<Region>, pg: nat, pt: map<nat, Mapping>, files: map<string, seq<Byte>>,
                            segs: seq<Segment>, img: seq<Byte>, i: nat, a: nat)
    requires 0 < pg && i < |rs| && InRegion(rs[i], a)
  {
    && Translate(pt, pg, a).Some?
    && var r, p := rs[i], Translate(pt, pg, a).value;
    && p < |img|
    && (forall s :: s in segs && s.load && Starts(rs, s.vaddr) && Covers(s, a) ==> img[p] == s.data[a - s.vaddr])
    && ((forall s :: s in segs && s.load && Starts(rs, s.vaddr) ==> !Covers(s, a)) ==>
          var at := r.offset + (a - r.vaddr);
          img[p] == if r.vaddr != 0 && r.name in files && at < |files[r.name]| && Missed(r.vaddr, segs)
            then files[r.name][at] else 0)
  }

  /** The byte of the image where region `i` has its address `a`. */
  lemma ImageAt(rs: seq<Region>, pg: nat, m: MappingFile, files: map<string, seq<Byte>>, segs: seq<Segment>, i: nat,
                a: nat)
    requires Dumped(rs, pg, m, segs) && i < |rs| && InRegion(rs[i], a)
    ensures var img, p := Image(m, files, segs), PhysBase(rs, i) + a - rs[i].vaddr;
            && p < |img|
            && (forall s :: s in segs && Loads(s, m.entries) && Covers(s, a) ==> img[p] == s.data[a - s.vaddr])
            && ((forall s :: s in segs && Loads(s, m.entries) ==> !Covers(s, a)) ==>
                img[p] == BackingByte(rs[i], files, segs, a))
  {
    BackingPlaced(rs, pg, m, files, segs, i, a);
    var ws, base := FileWrites(m.entries, m.order, files, segs), Zeros(m.memSize);
    ReplayConcat(base, ws, CoreWrites(m.entries, segs));
    if s :| s in segs && Loads(s, m.entries) && Covers(s, a) {
      CorePlaced(rs, pg, m, segs, Replay(base, ws), i, a, s.data[a - s.vaddr]);
    } else {
      CorePlaced(rs, pg, m, segs, Replay(base, ws), i, a, 0);
    }
  }

  /** The image is what the simulator must see, at every mapped address. */
  lemma ImageCorrect(rs: seq<Region>, pg: nat, m: MappingFile, files: map<string, seq<Byte>>, segs: seq<Segment>,
                     i: nat, a: nat)
    requires Dumped(rs, pg, m, segs) && i < |rs| && InRegion(rs[i], a)
    ensures ReadsBack(rs, pg, PageTable(rs, pg, |rs|), files, segs, Image(m, files, segs), i, a)
  {
    TranslationAgrees(rs, pg, i, a);
    ImageAt(rs, pg, m, files, segs, i, a);
    forall s | s in segs
      ensures s.vaddr in m.entries <==> Starts(rs, s.vaddr)
    {
      StartsIs(rs, pg, s.vaddr);
    }
  }

  lemma StartsIs(rs: seq<Region>, pg: nat, v: nat)
    requires WellFormed(rs, pg)
    ensures v in RegionTable(rs, |rs|) <==> Starts(rs, v)
  {
    if v in RegionTable(rs, |rs|) {
      var j := RegionTableKey(rs, |rs|, v);
    }
    if j :| 0 <= j < |rs| && rs[j].vaddr == v {
      RegionTableAt(rs, pg, |rs|, j);
    }
  }

  /** Python's `word in name`. */
  predicate Contains(name: string, word: string) {
    word <= name || (name != [] && Contains(name[1..], word))
  }

  /** A name with the word in it that the engine looks for. */
  ghost predicate IsStack(name: string) {
    exists before: string, after: string :: name == before + "stack" + after
  }

  lemma StackInside(name: string)
    requires name != []
    ensures IsStack(name) <==> "stack" <= name || IsStack(name[1..])
  {
    if "stack" <= name {
      assert name == [] + "stack" + name[5..];
    }
    if before, after :| name[1..] == before + "stack" + after {
      assert name == ([name[0]] + before) + "stack" + after;
    }
    if before: string, after: string :| name == before + "stack" + after {
      if before == [] {
        assert name[..5] == "stack";
      } else {
        assert name[1..] == before[1..] + "stack" + after;
      }
    }
  }

  lemma {:induction false} ContainsStack(name: string)
    ensures Contains(name, "stack") <==> IsStack(name)
  {
    if name != [] {
      ContainsStack(name[1..]);
      StackInside(name);
    }
  }

  ghost predicate OneStack(rs: seq<Region>) {
    exists i :: 0 <= i < |rs| && IsStack(rs[i].name) && forall j :: 0 <= j < |rs| && j != i ==> !IsStack(rs[j].name)
  }

  /** Counts the mappings with a stack's name; the region table has one entry for each region. */
  method CountStacks(rs: seq<Region>) returns (n: nat)
    ensures n == 1 <==> OneStack(rs)
  {
    n := 0;
    ghost var first, second := 0, 0;
    for i := 0 to |rs|
      invariant n == 0 ==> forall j :: 0 <= j < i ==> !IsStack(rs[j].name)
      invariant 1 <= n ==> 0 <= first < i && IsStack(rs[first].name)
      invariant n == 1 ==> forall j :: 0 <= j < i && j != first ==> !IsStack(rs[j].name)
      invariant 2 <= n ==> first < second < i && IsStack(rs[second].name)
    {
      ContainsStack(rs[i].name);
      if Contains(rs[i].name, "stack") {
        if n == 0 {
          first := i;
        } else if n == 1 {
          second := i;
        }
        n := n + 1;
      }
    }
  }

  /** The assertions of the second pass hold for all segments. */
  lemma AcceptedAre(rs: seq<Region>, pg: nat, segs: seq<Segment>)
    requires WellFormed(rs, pg)
    ensures (forall k :: 0 <= k < |segs| ==> Accepted(segs[k], RegionTable(rs, |rs|), pg)) <==>
            forall s :: s in segs && s.load ==>
              s.filesz == s.memsz && s.memsz % pg == 0 && (Starts(rs, s.vaddr) ==> |s.data| == s.memsz)
  {
    forall v: nat
      ensures v in RegionTable(rs, |rs|) <==> Starts(rs, v)
    {
      StartsIs(rs, pg, v);
    }
  }

  /** Engine and converter together: the tables, the memory size taken from the page table, and the image. */
  method CreateCheckpoint(rs: seq<Region>, pg: nat, order: seq<nat>, files: map<string, seq<Byte>>, segs: seq<Segment>)
    returns (ok: bool, pageTable: map<nat, Mapping>, pmem: PmemFile)
    requires Dumped(rs, pg, MappingFile(2 * PhysBase(rs, |rs|), RegionTable(rs, |rs|), order), segs)
    ensures fresh(pmem) && pageTable == PageTable(rs, pg, |rs|)
    ensures ok <==> OneStack(rs) && forall s :: s in segs && s.load ==>
              s.filesz == s.memsz && s.memsz % pg == 0 && (Starts(rs, s.vaddr) ==> |s.data| == s.memsz)
    ensures ok ==> |pmem.bytes| == 2 * PhysBase(rs, |rs|)
    ensures ok ==> forall i, a :: 0 <= i < |rs| && InRegion(rs[i], a) ==>
            ReadsBack(rs, pg, pageTable, files, segs, pmem.bytes, i, a)
  {
    pageTable := CreateMappings(rs, pg, true);
    var memSize := CalculateMemorySize(pageTable);
    var entries := CreateMappings(rs, pg, false);
    MemorySizesAgree(rs, pg, memSize);
    var m := MappingFile(memSize, entries, order);
    var stacks := CountStacks(rs);
    if stacks != 1 {
      pmem := new PmemFile();
      return false, pageTable, pmem;
    }
    ok, pmem := CreatePmemFile(m, pg, files, segs);
    AcceptedAre(rs, pg, segs);
    if ok {
      ImageLength(rs, pg, m, files, segs);
      forall i, a | 0 <= i < |rs| && InRegion(rs[i], a)
        ensures ReadsBack(rs, pg, pageTable, files, segs, pmem.bytes, i, a)
      {
        ImageCorrect(rs, pg, m, files, segs, i, a);
      }
    }
  }

  /** No write grows the file past the size it was truncated to. */
  lemma ImageLength(rs: seq<Region>, pg: nat, m: MappingFile, files: map<string, seq<Byte>>, segs: seq<Segment>)
    requires Dumped(rs, pg, m, segs)
    ensures |Image(m, files, segs)| == m.memSize
  {
    assert InRegion(rs[0], 0);
    BackingPlaced(rs, pg, m, files, segs, 0, 0);
    var ws, base := FileWrites(m.entries, m.order, files, segs), Zeros(m.memSize);
    ReplayConcat(base, ws, CoreWrites(m.entries, segs));
    if s :| s in segs && Loads(s, m.entries) && Covers(s, 0) {
      CorePlaced(rs, pg, m, segs, Replay(base, ws), 0, 0, s.data[0 - s.vaddr]);
    } else {
      CorePlaced(rs, pg, m, segs, Replay(base, ws), 0, 0, 0);
    }
  }
}
