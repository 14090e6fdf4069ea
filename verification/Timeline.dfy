/**
 The timeline of one instruction in the pipeline viewer, after `print_inst` in
 custom_gem5/util/o3-pipeview.py: rows of `width` cells, one cell per cycle, with a letter in
 the cell of each stage. An instruction shorter than a row is drawn on a single row that wraps.
 */
module Timeline {
  import opened Arithmetic
  import opened Basics
  import opened PipeTrace

  /** The stages in the order of the viewer's table; store completion is optional. */
  type Stage = k: nat | k < 8

  function Tick(x: Inst, k: Stage): nat {
    match k
    case 0 => x.fetch
    case 1 => x.decode
    case 2 => x.rename
    case 3 => x.dispatch
    case 4 => x.issue
    case 5 => x.complete
    case 6 => x.retire
    case _ => x.store
  }

  function Letter(k: Stage): char {
    match k
    case 0 => 'f'
    case 1 => 'd'
    case 2 => 'n'
    case 3 => 'p'
    case 4 => 'i'
    case 5 => 'c'
    case 6 => 'r'
    case _ => 's'
  }

  /** Position of the stage's name in alphabetical order, which breaks ties between events. */
  function Rank(k: Stage): nat {
    match k
    case 0 => 3
    case 1 => 1
    case 2 => 5
    case 3 => 2
    case 4 => 4
    case 5 => 0
    case 6 => 6
    case _ => 7
  }

  /** Dispatch is not drawn when it coincides with issue. */
  predicate Drawn(x: Inst, k: Stage) {
    !(k == 3 && x.dispatch == x.issue)
  }

  function Dot(x: Inst): char {
    if x.retire == 0 then '=' else '.'
  }

  // ---------------------------------------------------------------- drawing a row of marks

  /** A letter to put in a column. */
  datatype Pen = Pen(col: nat, letter: char)

  function Dots(dot: char, n: int): (r: seq<char>)
    ensures |r| == if n < 0 then 0 else n
    ensures forall i :: 0 <= i < |r| ==> r[i] == dot
  {
    if n <= 0 then [] else Dots(dot, n - 1) + [dot]
  }

  /** The column after the last mark. */
  function Pos(ps: seq<Pen>): nat {
    if ps == [] then 0 else ps[|ps| - 1].col + 1
  }

  function Marks(ps: seq<Pen>, dot: char): seq<char> {
    if ps == [] then [] else
      var init, p := ps[..|ps| - 1], ps[|ps| - 1];
      Marks(init, dot) + Dots(dot, p.col - Pos(init)) + [p.letter]
  }

  function Line(ps: seq<Pen>, width: nat, dot: char): seq<char> {
    Marks(ps, dot) + Dots(dot, width - Pos(ps))
  }

  ghost predicate Rising(ps: seq<Pen>) {
    forall i, j :: 0 <= i < j < |ps| ==> ps[i].col <= ps[j].col
  }

  /** How many marks share the column of the mark before them. */
  function Collisions(ps: seq<Pen>): nat {
    if |ps| < 2 then 0 else
      Collisions(ps[..|ps| - 1]) + if ps[|ps| - 1].col == ps[|ps| - 2].col then 1 else 0
  }

  lemma {:induction false} MarksLength(ps: seq<Pen>, dot: char)
    requires Rising(ps)
    ensures |Marks(ps, dot)| == Pos(ps) + Collisions(ps)
  {
    if ps != [] {
      MarksLength(ps[..|ps| - 1], dot);
    }
  }

  /** A row is as wide as asked, plus one cell for every mark that lands on the mark before it. */
  lemma LineLength(ps: seq<Pen>, width: nat, dot: char)
    requires Rising(ps) && forall i :: 0 <= i < |ps| ==> ps[i].col < width
    ensures |Line(ps, width, dot)| == width + Collisions(ps)
  {
    MarksLength(ps, dot);
  }

  ghost predicate Ascending(ps: seq<Pen>) {
    forall i, j :: 0 <= i < j < |ps| ==> ps[i].col < ps[j].col
  }

  lemma {:induction false} NoCollisions(ps: seq<Pen>)
    requires Rising(ps)
    ensures Collisions(ps) == 0 <==> Ascending(ps)
  {
    if 2 <= |ps| {
      var init := ps[..|ps| - 1];
      NoCollisions(init);
      if Ascending(init) && ps[|ps| - 1].col != ps[|ps| - 2].col {
        forall i, j | 0 <= i < j < |ps|
          ensures ps[i].col < ps[j].col
        {
          if j < |ps| - 1 {
            assert init[i].col < init[j].col;
          }
        }
      }
      if Ascending(ps) {
        assert forall i :: 0 <= i < |init| ==> init[i] == ps[i];
      }
    }
  }

  /** The letter that belongs in column `c`, if any. */
  ghost predicate HasMark(ps: seq<Pen>, c: nat, letter: char) {
    exists i :: 0 <= i < |ps| && ps[i] == Pen(c, letter)
  }

  /** With ascending columns the marks end in the last column, and each one more adds dots and its letter. */
  lemma MarksLast(ps: seq<Pen>, dot: char, c: nat)
    requires Ascending(ps) && ps != [] && c < Pos(ps)
    ensures var init, p := ps[..|ps| - 1], ps[|ps| - 1];
            && |Marks(ps, dot)| == Pos(ps) && |Marks(init, dot)| == Pos(init) <= p.col && Ascending(init)
            && Marks(ps, dot)[c] == if c == p.col then p.letter else if c < Pos(init) then Marks(init, dot)[c] else dot
  {
    var init := ps[..|ps| - 1];
    assert forall i :: 0 <= i < |init| ==> init[i] == ps[i];
    MarksLength(ps, dot);
    MarksLength(init, dot);
    NoCollisions(ps);
    NoCollisions(init);
  }

  lemma {:induction false} MarksAt(ps: seq<Pen>, dot: char, c: nat)
    requires Ascending(ps) && c < Pos(ps)
    ensures |Marks(ps, dot)| == Pos(ps)
    ensures (exists i :: 0 <= i < |ps| && ps[i].col == c) ==> HasMark(ps, c, Marks(ps, dot)[c])
    ensures (forall i :: 0 <= i < |ps| ==> ps[i].col != c) ==> Marks(ps, dot)[c] == dot
  {
    var n := |ps| - 1;
    var init, p := ps[..n], ps[n];
    MarksLast(ps, dot, c);
    assert forall i :: 0 <= i < n ==> init[i] == ps[i];
    if c == p.col {
      assert ps[n] == Pen(c, Marks(ps, dot)[c]);
    } else if c < Pos(init) {
      MarksAt(init, dot, c);
      if i :| 0 <= i < |ps| && ps[i].col == c {
        assert init[i].col == c;
        var j :| 0 <= j < |init| && init[j] == Pen(c, Marks(init, dot)[c]);
        assert ps[j] == Pen(c, Marks(ps, dot)[c]);
      }
    } else {
      assert init != [] ==> init[|init| - 1].col < c;
    }
  }

  /** With distinct columns, a row shows each letter in its column and dots everywhere else. */
  lemma LineShows(ps: seq<Pen>, width: nat, dot: char, c: nat, letter: char)
    requires Ascending(ps) && (forall i :: 0 <= i < |ps| ==> ps[i].col < width) && c < width && letter != dot
    ensures |Line(ps, width, dot)| == width
    ensures Line(ps, width, dot)[c] == letter <==> HasMark(ps, c, letter)
  {
    LineLength(ps, width, dot);
    NoCollisions(ps);
    MarksLength(ps, dot);
    if c < Pos(ps) {
      MarksAt(ps, dot, c);
    }
  }

  // ---------------------------------------------------------------- the events of a row

  datatype Event = Event(off: nat, stage: Stage)

  /** Events sort by their offset into the row, then by the stage's name. */
  predicate Before(a: Event, b: Event) {
    a.off < b.off || (a.off == b.off && Rank(a.stage) <= Rank(b.stage))
  }

  ghost predicate Ordered(es: seq<Event>) {
    forall i, j :: 0 <= i < j < |es| ==> Before(es[i], es[j]) && es[i].stage != es[j].stage
  }

  function Place(es: seq<Event>, e: Event): (p: nat)
    requires Ordered(es)
    ensures p <= |es|
    ensures forall i :: 0 <= i < p ==> Before(es[i], e)
    ensures forall i :: p <= i < |es| ==> Before(e, es[i])
  {
    if es == [] || Before(es[|es| - 1], e) then |es| else Place(es[..|es| - 1], e)
  }

  function Insert(es: seq<Event>, e: Event): (r: seq<Event>)
    requires Ordered(es) && forall i :: 0 <= i < |es| ==> es[i].stage != e.stage
    ensures Ordered(r) && forall x :: x in r <==> x in es || x == e
  {
    var p := Place(es, e);
    assert es == es[..p] + es[p..];
    es[..p] + [e] + es[p..]
  }

  /** Events of the first `n` stages with a tick in [start, end), each at its offset modulo `span`. */
  function Events(x: Inst, n: nat, span: nat, start: int, end: int): (es: seq<Event>)
    requires 0 < span && n <= 8
    ensures Ordered(es) && forall e :: e in es <==> e.stage < n && IsEvent(x, span, start, end, e)
  {
    if n == 0 then [] else
      var es, k := Events(x, n - 1, span, start, end), n - 1;
      if Tick(x, k) != 0 && start <= Tick(x, k) < end then
        assert forall i :: 0 <= i < |es| ==> es[i] in es;
        Insert(es, Event(Tick(x, k) % span, k))
      else es
  }

  predicate IsEvent(x: Inst, span: nat, start: int, end: int, e: Event)
    requires 0 < span
  {
    Tick(x, e.stage) != 0 && start <= Tick(x, e.stage) < end && e.off == Tick(x, e.stage) % span
  }

  function PenOf(e: Event, cycle: nat): Pen
    requires 0 < cycle
  {
    Pen(e.off / cycle, Letter(e.stage))
  }

  /** The marks of the events that are drawn. */
  function Pens(x: Inst, es: seq<Event>, cycle: nat): seq<Pen>
    requires 0 < cycle
  {
    if es == [] then [] else
      var ps, e := Pens(x, es[..|es| - 1], cycle), es[|es| - 1];
      if Drawn(x, e.stage) then ps + [PenOf(e, cycle)] else ps
  }

  // ---------------------------------------------------------------- rows

  datatype Chart = Chart(x: Inst, stages: nat, width: nat, cycle: nat)

  ghost predicate Valid(c: Chart) {
    0 < c.width && 0 < c.cycle && 0 < c.stages <= 8
  }

  /** The number of ticks in a row. */
  function Span(c: Chart): (s: nat)
    requires Valid(c)
    ensures 0 < s
  {
    MulAtLeast(c.width, c.cycle);
    c.width * c.cycle
  }

  function Base(c: Chart): nat
    requires Valid(c)
  {
    c.x.fetch - c.x.fetch % Span(c)
  }

  function LastEvent(x: Inst, n: nat): (t: nat)
    requires 0 < n <= 8
    ensures (forall k: Stage :: k < n ==> Tick(x, k) <= t) && exists k: Stage :: k < n && Tick(x, k) == t
  {
    if n == 1 then Tick(x, 0) else
      var r := LastEvent(x, n - 1);
      if r < Tick(x, n - 1) then Tick(x, n - 1) else r
  }

  predicate Compact(c: Chart)
    requires Valid(c)
  {
    LastEvent(c.x, c.stages) - c.x.fetch < Span(c)
  }

  function Lines(c: Chart): int
    requires Valid(c)
  {
    if Compact(c) then 1 else (LastEvent(c.x, c.stages) - Base(c)) / Span(c) + 1
  }

  function RowStart(c: Chart, row: nat): int
    requires Valid(c)
  {
    Base(c) + row * Span(c)
  }

  function RowEnd(c: Chart, row: nat): int
    requires Valid(c)
  {
    RowStart(c, row) + Span(c) + if Lines(c) == 1 then c.x.fetch - Base(c) else 0
  }

  function RowPens(c: Chart, row: nat): seq<Pen>
    requires Valid(c)
  {
    Pens(c.x, Events(c.x, c.stages, Span(c), RowStart(c, row), RowEnd(c, row)), c.cycle)
  }

  function Row(c: Chart, row: nat): seq<char>
    requires Valid(c)
  {
    Line(RowPens(c, row), c.width, Dot(c.x))
  }

  lemma PensOne(x: Inst, es: seq<Event>, i: nat, cycle: nat)
    requires 0 < cycle && i < |es|
    ensures Pens(x, es[..i + 1], cycle) == if Drawn(x, es[i].stage) then
            Pens(x, es[..i], cycle) + [PenOf(es[i], cycle)] else Pens(x, es[..i], cycle)
  {
    assert es[..i + 1][..i] == es[..i];
  }

  lemma MarksOne(ps: seq<Pen>, p: Pen, dot: char)
    ensures Marks(ps + [p], dot) == Marks(ps, dot) + Dots(dot, p.col - Pos(ps)) + [p.letter] &&
            Pos(ps + [p]) == p.col + 1
  {
    assert (ps + [p])[..|ps|] == ps;
  }

  method DrawEvents(x: Inst, events: seq<Event>, width: nat, cycle: nat) returns (cells: seq<char>)
    requires 0 < cycle
    ensures cells == Line(Pens(x, events, cycle), width, Dot(x))
  {
    cells := [];
    var pos := 0;
    for i := 0 to |events|
      invariant cells == Marks(Pens(x, events[..i], cycle), Dot(x)) && pos == Pos(Pens(x, events[..i], cycle))
    {
      var e := events[i];
      PensOne(x, events, i, cycle);
      if e.stage == 3 && x.dispatch == x.issue {
        continue;
      }
      MarksOne(Pens(x, events[..i], cycle), PenOf(e, cycle), Dot(x));
      cells := cells + Dots(Dot(x), e.off / cycle - pos);
      cells := cells + [Letter(e.stage)];
      pos := e.off / cycle + 1;
    }
    assert events[..|events|] == events;
    cells := cells + Dots(Dot(x), width - pos);
  }

  lemma RowIs(c: Chart, row: nat, start: int, end: int)
    requires Valid(c) && start == RowStart(c, row) && end == RowEnd(c, row)
    ensures Line(Pens(c.x, Events(c.x, c.stages, Span(c), start, end), c.cycle), c.width, Dot(c.x)) == Row(c, row)
    ensures Events(c.x, c.stages, Span(c), start, end) == RowEvents(c, row)
  {
  }

  /** The events that a row shows. */
  function RowEvents(c: Chart, row: nat): seq<Event>
    requires Valid(c)
  {
    Events(c.x, c.stages, Span(c), RowStart(c, row), RowEnd(c, row))
  }

  /** Fails, as looking up the first event does, when the row is the only one and has no events. */
  method DrawRow(c: Chart, row: nat, base: int, span: nat, lines: int) returns (cells: Option<seq<char>>)
    requires Valid(c) && base == Base(c) && span == Span(c) && lines == Lines(c)
    ensures cells.None? <==> Lines(c) == 1 && RowEvents(c, row) == []
    ensures cells.Some? ==> cells.value == Row(c, row)
  {
    var start := base + row * span;
    var end := start + span;
    if lines == 1 {
      end := end + (c.x.fetch - base);
    }
    RowIs(c, row, start, end);
    var events := Events(c.x, c.stages, span, start, end);
    if lines == 1 && events == [] {
      return None;
    }
    var drawn := DrawEvents(c.x, events, c.width, c.cycle);
    cells := Some(drawn);
  }

  lemma BaseIs(c: Chart)
    requires Valid(c)
    ensures c.x.fetch / Span(c) * Span(c) == Base(c) && Base(c) % Span(c) == 0 &&
            Base(c) <= c.x.fetch < Base(c) + Span(c)
  {
    ModUnique(Base(c), Span(c), c.x.fetch / Span(c), 0);
  }

  method Geometry(c: Chart) returns (base: int, span: nat, lines: int)
    requires Valid(c)
    ensures base == Base(c) && span == Span(c) && lines == Lines(c)
  {
    BaseIs(c);
    span := Span(c);
    base := c.x.fetch / span * span;
    var last := LastEvent(c.x, c.stages);
    lines := if last - c.x.fetch < span then 1 else (last - base) / span + 1;
  }

  /** No stage has a tick. */
  ghost predicate NoTicks(c: Chart) {
    forall k: Stage :: k < c.stages ==> Tick(c.x, k) == 0
  }

  /** The only row is without events exactly when the instruction is without ticks. */
  lemma NoEvents(c: Chart)
    requires Valid(c)
    ensures Lines(c) == 1 && RowEvents(c, 0) == [] <==> NoTicks(c)
  {
    var es := RowEvents(c, 0);
    BaseIs(c);
    if !Compact(c) {
      LongHasLines(LastEvent(c.x, c.stages), Base(c), c.x.fetch, Span(c));
    } else if c.x.fetch != 0 {
      assert Event(c.x.fetch % Span(c), 0) in es;
    } else {
      forall k: Stage | k < c.stages && Tick(c.x, k) != 0
        ensures Event(Tick(c.x, k) % Span(c), k) in es
      {
        assert Tick(c.x, k) <= LastEvent(c.x, c.stages);
      }
      assert es != [] ==> es[0] in es;
    }
    assert Tick(c.x, 0) == c.x.fetch;
  }

  /** All rows of an instruction; fails exactly on an instruction without ticks. */
  method PrintInst(c: Chart) returns (rows: Option<seq<seq<char>>>)
    requires Valid(c)
    ensures rows.None? <==> NoTicks(c)
    ensures rows.Some? ==> |rows.value| == Lines(c) && forall i :: 0 <= i < |rows.value| ==> rows.value[i] == Row(c, i)
  {
    var base, span, lines := Geometry(c);
    LinesPositive(c);
    NoEvents(c);
    var drawn: seq<seq<char>> := [];
    for i := 0 to lines
      invariant |drawn| == i && forall j :: 0 <= j < i ==> drawn[j] == Row(c, j)
      invariant 0 < i ==> !NoTicks(c)
    {
      var cells := DrawRow(c, i, base, span, lines);
      if cells.None? {
        return None;
      }
      drawn := drawn + [cells.value];
    }
    rows := Some(drawn);
  }

  lemma LinesPositive(c: Chart)
    requires Valid(c)
    ensures 1 <= Lines(c)
  {
    assert Tick(c.x, 0) <= LastEvent(c.x, c.stages);
    if !Compact(c) {
      DivAtLeast(LastEvent(c.x, c.stages) - Base(c), Span(c));
    }
  }

  lemma DivAtLeast(a: int, m: nat)
    requires 0 < m && 0 <= a
    ensures 0 <= a / m
  {
  }

  // ---------------------------------------------------------------- layout

  /** Ticks count in whole cycles, start at fetch, and no two drawn stages share one. */
  ghost predicate WellTimed(c: Chart) {
    && Valid(c) && 0 < c.x.fetch
    && (forall k: Stage :: k < c.stages && Tick(c.x, k) != 0 ==>
          Tick(c.x, k) % c.cycle == 0 && c.x.fetch <= Tick(c.x, k))
    && (forall j: Stage, k: Stage :: j < c.stages && k < c.stages && j != k && Shown(c, j) && Shown(c, k) ==>
        Tick(c.x, j) != Tick(c.x, k))
  }

  predicate Shown(c: Chart, k: Stage) {
    Tick(c.x, k) != 0 && Drawn(c.x, k)
  }

  function RowOf(c: Chart, k: Stage): int
    requires Valid(c)
  {
    if Compact(c) then 0 else (Tick(c.x, k) - Base(c)) / Span(c)
  }

  function Column(c: Chart, k: Stage): nat
    requires Valid(c)
  {
    Tick(c.x, k) % Span(c) / c.cycle
  }

  lemma RowUnique(a: int, span: nat, row: int)
    requires 0 < span
    ensures row * span <= a < row * span + span <==> a / span == row
  {
    if row * span <= a < row * span + span {
      ModUnique(a, span, row, a - row * span);
    }
  }

  /** A stage's tick falls in the window of its own row and of no other. */
  lemma OnOwnRow(c: Chart, row: nat, k: Stage)
    requires WellTimed(c) && row < Lines(c) && k < c.stages && Tick(c.x, k) != 0
    ensures RowStart(c, row) <= Tick(c.x, k) < RowEnd(c, row) <==> row == RowOf(c, k)
    ensures 0 <= RowOf(c, k) < Lines(c)
  {
    var t, span, base, last := Tick(c.x, k), Span(c), Base(c), LastEvent(c.x, c.stages);
    BaseIs(c);
    if Compact(c) {
      assert row == 0 && RowStart(c, 0) == base;
    } else {
      LongHasLines(last, base, c.x.fetch, span);
      RowUnique(t - base, span, row);
      DivAtLeast(t - base, span);
      DivOrder(t - base, last - base, span);
    }
  }

  lemma LongHasLines(last: int, base: int, fetch: int, span: nat)
    requires 0 < span && base <= fetch && span <= last - fetch
    ensures (last - base) / span + 1 != 1
  {
    DivOrder(span, last - base, span);
    ModUnique(span, span, 1, 0);
  }

  lemma DivOrder(a: int, b: int, m: nat)
    requires 0 < m && a <= b
    ensures a / m <= b / m
  {
    MulAtLeast(m, a / m - b / m);
    assert m * (a / m - b / m) == m * (a / m) - m * (b / m);
  }

  /** Different ticks less than a row apart have different offsets. */
  lemma OffsetsDiffer(a: nat, b: nat, span: nat)
    requires 0 < span && a < b < a + span
    ensures a % span != b % span
  {
    if a % span == b % span {
      var x, y := a - a % span, b - b % span;
      ModUnique(x, span, a / span, 0);
      ModUnique(y, span, b / span, 0);
      AlignedGap(x, y, span);
    }
  }

  lemma OffsetAligned(t: nat, width: nat, cycle: nat)
    requires 0 < width && 0 < cycle && 0 < width * cycle && t % cycle == 0
    ensures (t % (width * cycle)) % cycle == 0 && t % (width * cycle) / cycle < width
  {
    var span := width * cycle;
    var q, off := t / span, t % span;
    assert span * q == cycle * (width * q);
    ModUnique(cycle * (width * q), cycle, width * q, 0);
    ModAdd(t, cycle * (width * q), cycle);
    assert off == t - span * q;
    assert cycle * (off / cycle) == off;
    ColumnBound(off / cycle, width, cycle);
  }

  lemma ColumnBound(col: int, width: nat, cycle: nat)
    requires 0 < cycle && cycle * col < width * cycle
    ensures col < width
  {
    MulAtLeast(cycle, col - width);
    assert cycle * (col - width) == cycle * col - width * cycle;
  }

  /** Two drawn events in order have columns in order. */
  ghost predicate ColumnsAscend(x: Inst, es: seq<Event>, cycle: nat)
    requires 0 < cycle
  {
    forall i, j :: 0 <= i < j < |es| && Drawn(x, es[i].stage) && Drawn(x, es[j].stage) ==>
        PenOf(es[i], cycle).col < PenOf(es[j], cycle).col
  }

  lemma {:induction false} PensAre(x: Inst, es: seq<Event>, cycle: nat, p: Pen)
    requires 0 < cycle
    ensures p in Pens(x, es, cycle) <==> exists i :: 0 <= i < |es| && Drawn(x, es[i].stage) && PenOf(es[i], cycle) == p
  {
    if es != [] {
      var init := es[..|es| - 1];
      PensAre(x, init, cycle, p);
      assert forall i :: 0 <= i < |init| ==> es[i] == init[i];
    }
  }

  lemma {:induction false} PensAscending(x: Inst, es: seq<Event>, cycle: nat)
    requires 0 < cycle && ColumnsAscend(x, es, cycle)
    ensures Ascending(Pens(x, es, cycle))
  {
    if es != [] {
      var init, e := es[..|es| - 1], es[|es| - 1];
      assert forall i :: 0 <= i < |init| ==> init[i] == es[i];
      PensAscending(x, init, cycle);
      if Drawn(x, e.stage) {
        var ps := Pens(x, init, cycle);
        forall i | 0 <= i < |ps|
          ensures ps[i].col < PenOf(e, cycle).col
        {
          PensAre(x, init, cycle, ps[i]);
          var j :| 0 <= j < |init| && Drawn(x, init[j].stage) && PenOf(init[j], cycle) == ps[i];
          assert es[j] == init[j];
        }
      }
    }
  }

  lemma DivStrict(a: nat, b: nat, m: nat)
    requires 0 < m && a < b && a % m == 0 && b % m == 0
    ensures a / m < b / m
  {
    assert m * (b / m - a / m) == b - a;
    MulAtLeast(m, a / m - b / m);
  }

  /** Ticks shown on one row lie less than a row apart. */
  lemma RowWindow(c: Chart, row: nat, e: Event) returns (lo: int)
    requires WellTimed(c) && row < Lines(c) && e.stage < c.stages
    requires IsEvent(c.x, Span(c), RowStart(c, row), RowEnd(c, row), e)
    ensures lo == (if Compact(c) then c.x.fetch else RowStart(c, row)) && lo <= Tick(c.x, e.stage) < lo + Span(c)
  {
    OnOwnRow(c, row, e.stage);
    BaseIs(c);
    lo := if Compact(c) then c.x.fetch else RowStart(c, row);
    if Compact(c) {
      assert row == 0 && Lines(c) == 1;
    } else {
      LongHasLines(LastEvent(c.x, c.stages), Base(c), c.x.fetch, Span(c));
    }
  }

  lemma EventColumn(c: Chart, row: nat, e: Event)
    requires WellTimed(c) && e.stage < c.stages && IsEvent(c.x, Span(c), RowStart(c, row), RowEnd(c, row), e)
    ensures e.off % c.cycle == 0 && PenOf(e, c.cycle).col < c.width && PenOf(e, c.cycle).col == Column(c, e.stage)
  {
    OffsetAligned(Tick(c.x, e.stage), c.width, c.cycle);
  }

  lemma EventPairAscends(c: Chart, row: nat, a: Event, b: Event)
    requires WellTimed(c) && row < Lines(c) && a.stage < c.stages && b.stage < c.stages && a.stage != b.stage &&
             Before(a, b)
    requires IsEvent(c.x, Span(c), RowStart(c, row), RowEnd(c, row), a) && Drawn(c.x, a.stage)
    requires IsEvent(c.x, Span(c), RowStart(c, row), RowEnd(c, row), b) && Drawn(c.x, b.stage)
    ensures PenOf(a, c.cycle).col < PenOf(b, c.cycle).col
  {
    var lo := RowWindow(c, row, a);
    var _ := RowWindow(c, row, b);
    var s, t := Tick(c.x, a.stage), Tick(c.x, b.stage);
    assert Shown(c, a.stage) && Shown(c, b.stage);
    if s < t { OffsetsDiffer(s, t, Span(c)); } else { OffsetsDiffer(t, s, Span(c)); }
    EventColumn(c, row, a);
    EventColumn(c, row, b);
    DivStrict(a.off, b.off, c.cycle);
  }

  lemma RowAscending(c: Chart, row: nat)
    requires WellTimed(c) && row < Lines(c)
    ensures Ascending(RowPens(c, row)) && forall i :: 0 <= i < |RowPens(c, row)| ==> RowPens(c, row)[i].col < c.width
  {
    var es := Events(c.x, c.stages, Span(c), RowStart(c, row), RowEnd(c, row));
    forall i, j | 0 <= i < j < |es| && Drawn(c.x, es[i].stage) && Drawn(c.x, es[j].stage)
      ensures PenOf(es[i], c.cycle).col < PenOf(es[j], c.cycle).col
    {
      assert es[i] in es && es[j] in es;
      EventPairAscends(c, row, es[i], es[j]);
    }
    PensAscending(c.x, es, c.cycle);
    var ps := Pens(c.x, es, c.cycle);
    forall i | 0 <= i < |ps|
      ensures ps[i].col < c.width
    {
      PensAre(c.x, es, c.cycle, ps[i]);
      var j :| 0 <= j < |es| && Drawn(c.x, es[j].stage) && PenOf(es[j], c.cycle) == ps[i];
      assert es[j] in es;
      EventColumn(c, row, es[j]);
    }
  }

  lemma LetterInjective(j: Stage, k: Stage)
    requires Letter(j) == Letter(k)
    ensures j == k
  {
  }

  lemma MarkIsStage(c: Chart, row: nat, k: Stage, col: nat)
    requires WellTimed(c) && row < Lines(c) && k < c.stages && Shown(c, k) && HasMark(RowPens(c, row), col, Letter(k))
    ensures row == RowOf(c, k) && col == Column(c, k)
  {
    var es := Events(c.x, c.stages, Span(c), RowStart(c, row), RowEnd(c, row));
    var p := Pen(col, Letter(k));
    assert p in Pens(c.x, es, c.cycle);
    PensAre(c.x, es, c.cycle, p);
    var i :| 0 <= i < |es| && Drawn(c.x, es[i].stage) && PenOf(es[i], c.cycle) == p;
    assert es[i] in es;
    LetterInjective(es[i].stage, k);
    EventColumn(c, row, es[i]);
    OnOwnRow(c, row, k);
  }

  lemma StageIsMarked(c: Chart, k: Stage)
    requires WellTimed(c) && k < c.stages && Shown(c, k)
    ensures 0 <= RowOf(c, k) < Lines(c) && HasMark(RowPens(c, RowOf(c, k)), Column(c, k), Letter(k))
  {
    LinesPositive(c);
    OnOwnRow(c, 0, k);
    var row := RowOf(c, k);
    OnOwnRow(c, row, k);
    var es := Events(c.x, c.stages, Span(c), RowStart(c, row), RowEnd(c, row));
    var e := Event(Tick(c.x, k) % Span(c), k);
    assert e in es;
    var i :| 0 <= i < |es| && es[i] == e;
    EventColumn(c, row, e);
    PensAre(c.x, es, c.cycle, PenOf(e, c.cycle));
  }

  /** Every row is exactly `width` cells, and each drawn stage's letter is in one place: its own row and column. */
  lemma TimelineShows(c: Chart, row: nat, k: Stage, col: nat)
    requires WellTimed(c) && row < Lines(c) && k < c.stages && Shown(c, k) && col < c.width
    ensures |Row(c, row)| == c.width
    ensures Row(c, row)[col] == Letter(k) <==> row == RowOf(c, k) && col == Column(c, k)
    ensures 0 <= RowOf(c, k) < Lines(c) && Column(c, k) < c.width
  {
    RowAscending(c, row);
    StageIsMarked(c, k);
    if HasMark(RowPens(c, row), col, Letter(k)) { MarkIsStage(c, row, k, col); }
    LineShows(RowPens(c, row), c.width, Dot(c.x), col, Letter(k));
    OnOwnRow(c, row, k);
    OffsetAligned(Tick(c.x, k), c.width, c.cycle);
  }

  lemma {:induction false} PensRising(x: Inst, es: seq<Event>, cycle: nat)
    requires 0 < cycle && Ordered(es)
    ensures Rising(Pens(x, es, cycle))
  {
    if es != [] {
      var init, e := es[..|es| - 1], es[|es| - 1];
      PensRising(x, init, cycle);
      var ps := Pens(x, init, cycle);
      forall i | 0 <= i < |ps|
        ensures ps[i].col <= PenOf(e, cycle).col
      {
        PensAre(x, init, cycle, ps[i]);
        var j :| 0 <= j < |init| && Drawn(x, init[j].stage) && PenOf(init[j], cycle) == ps[i];
        assert init[j] == es[j];
        DivOrder(es[j].off, e.off, cycle);
      }
    }
  }

  lemma OffsetColumn(t: nat, width: nat, cycle: nat)
    requires 0 < width && 0 < cycle && 0 < width * cycle
    ensures t % (width * cycle) / cycle < width
  {
    var off := t % (width * cycle);
    assert cycle * (off / cycle) <= off;
    ColumnBound(off / cycle, width, cycle);
  }

  ghost predicate Inside(ps: seq<Pen>, width: nat) {
    forall i :: 0 <= i < |ps| ==> ps[i].col < width
  }

  lemma PensInside(c: Chart, row: nat) returns (ps: seq<Pen>)
    requires Valid(c)
    ensures ps == RowPens(c, row) && Inside(ps, c.width)
  {
    var es := RowEvents(c, row);
    ps := Pens(c.x, es, c.cycle);
    forall i | 0 <= i < |ps|
      ensures ps[i].col < c.width
    {
      PensAre(c.x, es, c.cycle, ps[i]);
      var j :| 0 <= j < |es| && Drawn(c.x, es[j].stage) && PenOf(es[j], c.cycle) == ps[i];
      assert es[j] in es;
      OffsetColumn(Tick(c.x, es[j].stage), c.width, c.cycle);
    }
  }

  /** Stage `k` is drawn in the row. */
  ghost predicate InRow(c: Chart, row: nat, k: Stage)
    requires Valid(c)
  {
    k < c.stages && Shown(c, k) && RowStart(c, row) <= Tick(c.x, k) < RowEnd(c, row)
  }

  function PenFor(c: Chart, k: Stage): Pen
    requires Valid(c)
  {
    Pen(Column(c, k), Letter(k))
  }

  lemma PensOfStages(c: Chart, row: nat, p: Pen)
    requires Valid(c)
    ensures p in RowPens(c, row) <==> exists k: Stage :: InRow(c, row, k) && p == PenFor(c, k)
  {
    var es := RowEvents(c, row);
    PensAre(c.x, es, c.cycle, p);
    if p in RowPens(c, row) {
      var i :| 0 <= i < |es| && Drawn(c.x, es[i].stage) && PenOf(es[i], c.cycle) == p;
      assert es[i] in es;
      assert InRow(c, row, es[i].stage);
    }
    if k: Stage :| InRow(c, row, k) && p == PenFor(c, k) {
      var e := Event(Tick(c.x, k) % Span(c), k);
      assert e in es;
      var i :| 0 <= i < |es| && es[i] == e;
      assert PenOf(es[i], c.cycle) == p;
    }
  }

  ghost predicate DistinctLetters(ps: seq<Pen>) {
    forall i, j :: 0 <= i < j < |ps| ==> ps[i].letter != ps[j].letter
  }

  lemma LetterNew(x: Inst, es: seq<Event>, cycle: nat, e: Event, p: Pen)
    requires 0 < cycle && p in Pens(x, es, cycle) && forall i :: 0 <= i < |es| ==> es[i].stage != e.stage
    ensures p.letter != Letter(e.stage)
  {
    PensAre(x, es, cycle, p);
    var j :| 0 <= j < |es| && Drawn(x, es[j].stage) && PenOf(es[j], cycle) == p;
    assert es[j].stage != e.stage;
  }

  /** No letter is drawn twice. */
  lemma {:induction false} LettersDiffer(x: Inst, es: seq<Event>, cycle: nat)
    requires 0 < cycle && Ordered(es)
    ensures DistinctLetters(Pens(x, es, cycle))
  {
    if es != [] {
      var init, e := es[..|es| - 1], es[|es| - 1];
      assert forall i :: 0 <= i < |init| ==> init[i].stage != e.stage;
      LettersDiffer(x, init, cycle);
      var ps := Pens(x, init, cycle);
      forall i | 0 <= i < |ps|
        ensures ps[i].letter != Letter(e.stage)
      {
        LetterNew(x, init, cycle, e, ps[i]);
      }
    }
  }

  ghost predicate PensDiffer(ps: seq<Pen>) {
    forall p, q :: p in ps && q in ps && p != q ==> p.col != q.col
  }

  /** Rising marks with different letters are strictly ascending exactly when no two of them share a column. */
  lemma AscendingIff(ps: seq<Pen>)
    requires Rising(ps) && DistinctLetters(ps)
    ensures Ascending(ps) <==> PensDiffer(ps)
  {
    if PensDiffer(ps) {
      forall i, j | 0 <= i < j < |ps|
        ensures ps[i].col < ps[j].col
      {
        assert ps[i] in ps && ps[j] in ps && ps[i] != ps[j];
      }
    }
  }

  /** No two different stages drawn in the row have ticks in the same column. */
  ghost predicate ColumnsDiffer(c: Chart, row: nat)
    requires Valid(c)
  {
    forall j: Stage, k: Stage :: j != k && InRow(c, row, j) && InRow(c, row, k) ==> Column(c, j) != Column(c, k)
  }

  lemma PensDifferIff(c: Chart, row: nat)
    requires Valid(c)
    ensures PensDiffer(RowPens(c, row)) <==> ColumnsDiffer(c, row)
  {
    var ps := RowPens(c, row);
    forall p
      ensures p in ps <==> exists k: Stage :: InRow(c, row, k) && p == PenFor(c, k)
    {
      PensOfStages(c, row, p);
    }
    if PensDiffer(ps) {
      forall j: Stage, k: Stage | j != k && InRow(c, row, j) && InRow(c, row, k)
        ensures Column(c, j) != Column(c, k)
      {
        assert PenFor(c, j) in ps && PenFor(c, k) in ps;
        assert PenFor(c, j).letter != PenFor(c, k).letter;
      }
    }
  }

  lemma PensWidth(ps: seq<Pen>, width: nat, dot: char)
    requires Rising(ps) && DistinctLetters(ps) && Inside(ps, width)
    ensures |Line(ps, width, dot)| == width + Collisions(ps)
    ensures |Line(ps, width, dot)| == width <==> PensDiffer(ps)
  {
    LineLength(ps, width, dot);
    NoCollisions(ps);
    AscendingIff(ps);
  }

  lemma PensOrdered(x: Inst, es: seq<Event>, cycle: nat) returns (ps: seq<Pen>)
    requires 0 < cycle && Ordered(es)
    ensures ps == Pens(x, es, cycle) && Rising(ps) && DistinctLetters(ps)
  {
    ps := Pens(x, es, cycle);
    PensRising(x, es, cycle);
    LettersDiffer(x, es, cycle);
  }

  /** Whatever the ticks, a row is `width` cells exactly when no two stages drawn in it share a column. */
  lemma RowWidth(c: Chart, row: nat)
    requires Valid(c)
    ensures |Row(c, row)| == c.width + Collisions(RowPens(c, row))
    ensures |Row(c, row)| == c.width <==> ColumnsDiffer(c, row)
  {
    var ps := PensInside(c, row);
    var _ := PensOrdered(c.x, RowEvents(c, row), c.cycle);
    PensWidth(ps, c.width, Dot(c.x));
    PensDifferIff(c, row);
  }

  /** An instruction decoded in the tick of its fetch: the row gets a cell too many. */
  lemma TooWide(sn: nat, tick: nat, width: nat) returns (c: Chart)
    requires 0 < tick && 0 < width
    ensures Valid(c) && c.width == width && c.x.fetch == c.x.decode == tick && Lines(c) == 1 && width < |Row(c, 0)|
  {
    c := Chart(Inst(sn, tick, tick, 0, 0, 0, 0, 0, 0), 7, width, 1);
    BaseIs(c);
    assert Tick(c.x, 0) == Tick(c.x, 1) == tick && forall k: Stage :: Tick(c.x, k) <= tick;
    assert LastEvent(c.x, 7) == tick;
    assert InRow(c, 0, 0) && InRow(c, 0, 1) && Column(c, 0) == Column(c, 1);
    RowWidth(c, 0);
  }

  // ---------------------------------------------------------------- what the rows cover

  /** The rows cover every tick from the start of the first row to the last event, each once, and none is to spare. */
  lemma RowsCover(c: Chart, t: int) returns (row: nat)
    requires Valid(c) && Base(c) <= t <= LastEvent(c.x, c.stages)
    ensures row < Lines(c) && RowStart(c, row) <= t < RowEnd(c, row)
    ensures forall r: nat :: r < Lines(c) && RowStart(c, r) <= t < RowEnd(c, r) ==> r == row
    ensures t == LastEvent(c.x, c.stages) ==> row == Lines(c) - 1
  {
    var span, base, last := Span(c), Base(c), LastEvent(c.x, c.stages);
    BaseIs(c);
    if Compact(c) {
      row := 0;
    } else {
      LongHasLines(last, base, c.x.fetch, span);
      DivAtLeast(t - base, span);
      DivOrder(t - base, last - base, span);
      row := (t - base) / span;
      RowUnique(t - base, span, row);
      forall r: nat | r < Lines(c) && RowStart(c, r) <= t < RowEnd(c, r)
        ensures r == row
      {
        RowUnique(t - base, span, r);
      }
    }
  }

  // ---------------------------------------------------------------- the chart in terms of the instruction

  /** The stage with this letter is drawn at tick `t`; dispatch is left out when it coincides with issue. */
  ghost predicate At(c: Chart, letter: char, t: int) {
    var x := c.x;
    && t != 0
    && (|| (letter == 'f' && t == x.fetch) || (letter == 'd' && t == x.decode) || (letter == 'n' && t == x.rename)
        || (letter == 'p' && t == x.dispatch && x.dispatch != x.issue)
        || (letter == 'i' && t == x.issue) || (letter == 'c' && t == x.complete) || (letter == 'r' && t == x.retire)
        || (letter == 's' && t == x.store && c.stages == 8))
  }

  /** Ticks are whole cycles from fetch onwards, and each belongs to one stage. */
  ghost predicate Regular(c: Chart)
    requires Valid(c)
  {
    && 7 <= c.stages && 0 < c.x.fetch
    && (forall letter, t :: At(c, letter, t) ==> t % c.cycle == 0 && c.x.fetch <= t)
    && (forall a, b, t :: At(c, a, t) && At(c, b, t) ==> a == b)
  }

  /** Everything happens less than a row after fetch. */
  ghost predicate Short(c: Chart) {
    forall letter, t :: At(c, letter, t) ==> t < c.x.fetch + c.width * c.cycle
  }

  /** How many rows below the first tick `t` is. */
  ghost function RowsDown(c: Chart, t: int): int
    requires Valid(c)
  {
    var span := Span(c);
    t / span - c.x.fetch / span
  }

  /** Tick `t` belongs in this row and column: a short chart has one row, which wraps around. */
  ghost predicate InCell(c: Chart, row: nat, col: nat, t: int)
    requires Valid(c)
  {
    t % Span(c) / c.cycle == col && row == if Short(c) then 0 else RowsDown(c, t)
  }

  lemma StageAt(c: Chart, k: Stage)
    requires 7 <= c.stages <= 8 && k < c.stages
    ensures Shown(c, k) <==> At(c, Letter(k), Tick(c.x, k))
  {
  }

  lemma AtStage(c: Chart, letter: char, t: int) returns (k: Stage)
    requires 7 <= c.stages <= 8 && At(c, letter, t)
    ensures k < c.stages && Shown(c, k) && letter == Letter(k) && t == Tick(c.x, k)
  {
    k := match letter
      case 'f' => 0
      case 'd' => 1
      case 'n' => 2
      case 'p' => 3
      case 'i' => 4
      case 'c' => 5
      case 'r' => 6
      case _ => 7;
  }

  lemma RegularTick(c: Chart, k: Stage)
    requires Valid(c) && Regular(c) && k < c.stages && Tick(c.x, k) != 0
    ensures Tick(c.x, k) % c.cycle == 0 && c.x.fetch <= Tick(c.x, k)
  {
    StageAt(c, k);
    StageAt(c, 4);
  }

  lemma RegularIs(c: Chart)
    requires Valid(c) && Regular(c)
    ensures WellTimed(c)
  {
    forall k: Stage | k < c.stages && Tick(c.x, k) != 0
      ensures Tick(c.x, k) % c.cycle == 0 && c.x.fetch <= Tick(c.x, k)
    {
      RegularTick(c, k);
    }
    forall j: Stage, k: Stage | j < c.stages && k < c.stages && j != k && Shown(c, j) && Shown(c, k)
      ensures Tick(c.x, j) != Tick(c.x, k)
    {
      StageAt(c, j);
      StageAt(c, k);
      assert Letter(j) != Letter(k);
    }
  }

  lemma ShortIs(c: Chart)
    requires Valid(c) && 7 <= c.stages
    ensures Compact(c) <==> Short(c)
  {
    var last := LastEvent(c.x, c.stages);
    if Compact(c) {
      forall letter, t | At(c, letter, t)
        ensures t < c.x.fetch + Span(c)
      {
        var k := AtStage(c, letter, t);
      }
    } else {
      var k: Stage :| k < c.stages && Tick(c.x, k) == last;
      StageAt(c, k);
      StageAt(c, 4);
      assert At(c, Letter(k), last) || At(c, 'i', last);
    }
  }

  lemma RowOfIs(c: Chart, k: Stage)
    requires Valid(c) && c.x.fetch <= Tick(c.x, k)
    ensures (Tick(c.x, k) - Base(c)) / Span(c) == Tick(c.x, k) / Span(c) - c.x.fetch / Span(c)
  {
    var t, span, f := Tick(c.x, k), Span(c), c.x.fetch;
    BaseIs(c);
    var q, r := t / span, t % span;
    assert span * (q - f / span) == span * q - f / span * span;
    ModUnique(t - Base(c), span, q - f / span, r);
  }

  /** A stage belongs in a cell exactly if that is the stage's own row and column. */
  lemma InCellIs(c: Chart, row: nat, col: nat, k: Stage)
    requires WellTimed(c) && 7 <= c.stages && k < c.stages && Shown(c, k)
    ensures InCell(c, row, col, Tick(c.x, k)) <==>
            row == RowOf(c, k) && col == Column(c, k)
  {
    ShortIs(c);
    RowOfIs(c, k);
  }

  lemma LineShowsDot(ps: seq<Pen>, width: nat, dot: char, c: nat)
    requires Ascending(ps) && Inside(ps, width) && c < width && forall p :: p in ps ==> p.col != c
    ensures |Line(ps, width, dot)| == width && Line(ps, width, dot)[c] == dot
  {
    LineLength(ps, width, dot);
    NoCollisions(ps);
    MarksLength(ps, dot);
    if c < Pos(ps) {
      MarksAt(ps, dot, c);
    }
  }

  /** The letter that belongs in a cell is there. */
  lemma CellLetter(c: Chart, row: nat, col: nat, letter: char, t: int)
    requires WellTimed(c) && 7 <= c.stages && row < Lines(c) && col < c.width
    requires At(c, letter, t) && InCell(c, row, col, t)
    ensures |Row(c, row)| == c.width && Row(c, row)[col] == letter
  {
    var k := AtStage(c, letter, t);
    InCellIs(c, row, col, k);
    TimelineShows(c, row, k, col);
  }

  ghost predicate Empty(c: Chart, row: nat, col: nat)
    requires Valid(c)
  {
    forall letter, t :: At(c, letter, t) ==>
      !InCell(c, row, col, t)
  }

  /** A cell in which nothing belongs shows whether the instruction was retired. */
  lemma CellDot(c: Chart, row: nat, col: nat)
    requires WellTimed(c) && 7 <= c.stages && row < Lines(c) && col < c.width && Empty(c, row, col)
    ensures |Row(c, row)| == c.width && Row(c, row)[col] == if c.x.retire == 0 then '=' else '.'
  {
    RowAscending(c, row);
    var ps := RowPens(c, row);
    forall p | p in ps
      ensures p.col != col
    {
      PensOfStages(c, row, p);
      var k: Stage :| InRow(c, row, k) && p == PenFor(c, k);
      StageAt(c, k);
      OnOwnRow(c, row, k);
      InCellIs(c, row, col, k);
    }
    LineShowsDot(ps, c.width, Dot(c.x), col);
  }

  /**
   The chart of an instruction: each row is `width` cells; a cell shows the letter of the stage that
   falls in it, and otherwise '.' for a retired instruction and '=' for an abandoned one.
   */
  lemma ChartShows(c: Chart, row: nat, col: nat)
    requires Valid(c) && Regular(c) && row < Lines(c) && col < c.width
    ensures |Row(c, row)| == c.width && Span(c) == c.width * c.cycle
    ensures forall letter, t ::
              At(c, letter, t) && InCell(c, row, col, t) ==>
                Row(c, row)[col] == letter
    ensures Empty(c, row, col) ==> Row(c, row)[col] == if c.x.retire == 0 then '=' else '.'
  {
    RegularIs(c);
    RowWidthRegular(c, row);
    forall letter, t |
      At(c, letter, t) && InCell(c, row, col, t)
      ensures Row(c, row)[col] == letter
    {
      CellLetter(c, row, col, letter, t);
    }
    if Empty(c, row, col) {
      CellDot(c, row, col);
    }
  }

  lemma RowWidthRegular(c: Chart, row: nat)
    requires WellTimed(c) && row < Lines(c)
    ensures |Row(c, row)| == c.width
  {
    RowAscending(c, row);
    LineLength(RowPens(c, row), c.width, Dot(c.x));
    NoCollisions(RowPens(c, row));
  }

  lemma LastRow(c: Chart) returns (letter: char, last: nat)
    requires Valid(c) && Regular(c)
    ensures last == LastEvent(c.x, c.stages) && At(c, letter, last) && c.x.fetch <= last
    ensures !Compact(c) ==> RowsDown(c, last) == Lines(c) - 1
  {
    last := LastEvent(c.x, c.stages);
    var k: Stage :| k < c.stages && Tick(c.x, k) == last;
    assert Tick(c.x, 0) <= last;
    StageAt(c, k);
    StageAt(c, 4);
    letter := if Shown(c, k) then Letter(k) else 'i';
    RowOfIs(c, k);
  }

  /** A short chart has one row; otherwise the rows reach exactly to the last stage. */
  lemma RowCount(c: Chart)
    requires Valid(c) && Regular(c)
    ensures Short(c) ==> Lines(c) == 1
    ensures !Short(c) ==> forall letter, t :: At(c, letter, t) ==> RowsDown(c, t) < Lines(c)
    ensures !Short(c) ==> exists letter, t :: At(c, letter, t) && RowsDown(c, t) == Lines(c) - 1
  {
    ShortIs(c);
    if !Compact(c) {
      var l, last := LastRow(c);
      forall letter, t | At(c, letter, t)
        ensures RowsDown(c, t) < Lines(c)
      {
        var j := AtStage(c, letter, t);
        DivOrder(t, last, Span(c));
      }
    }
  }

  // ---------------------------------------------------------------- stages in the same cell

  /** The marks of a row come in the order of its events. */
  lemma {:induction false} PensFrom(x: Inst, es: seq<Event>, cycle: nat, i: nat, j: nat) returns (p: nat, q: nat)
    requires 0 < cycle && i < j < |Pens(x, es, cycle)|
    ensures p < q < |es| && Drawn(x, es[p].stage) && Drawn(x, es[q].stage)
    ensures Pens(x, es, cycle)[i] == PenOf(es[p], cycle) && Pens(x, es, cycle)[j] == PenOf(es[q], cycle)
  {
    var n := |es| - 1;
    var init := Pens(x, es[..n], cycle);
    if j < |init| {
      p, q := PensFrom(x, es[..n], cycle, i, j);
    } else {
      q := n;
      PensAre(x, es[..n], cycle, init[i]);
      p :| 0 <= p < n && Drawn(x, es[..n][p].stage) && PenOf(es[..n][p], cycle) == init[i];
    }
  }

  /** The letters in the order of the names complete, decode, dispatch, fetch, issue, rename, retire and store. */
  const BY_NAME := "cdpfinrs"

  lemma RankIs(k: Stage)
    ensures Rank(k) < 8 && BY_NAME[Rank(k)] == Letter(k)
  {
  }

  /** Letters come in the order of their place in the row, and by the names of the stages for the same place. */
  lemma TiesByName(c: Chart, row: nat, i: nat, j: nat) returns (a: Stage, b: Stage)
    requires Valid(c) && i < j < |RowPens(c, row)|
    ensures RowPens(c, row)[i] == PenFor(c, a) && RowPens(c, row)[j] == PenFor(c, b)
    ensures var x, y := Tick(c.x, a) % Span(c), Tick(c.x, b) % Span(c);
            x < y || (x == y && exists m, n :: 0 <= m < n < 8 && BY_NAME[m] == Letter(a) && BY_NAME[n] == Letter(b))
  {
    var es := RowEvents(c, row);
    var p, q := PensFrom(c.x, es, c.cycle, i, j);
    a, b := es[p].stage, es[q].stage;
    assert es[p] in es && es[q] in es && Before(es[p], es[q]) && a != b;
    RankIs(a);
    RankIs(b);
    if es[p].off == es[q].off {
      assert Rank(a) < Rank(b) by { RankDiffers(a, b); }
    }
  }

  lemma RankDiffers(a: Stage, b: Stage)
    requires a != b
    ensures Rank(a) != Rank(b)
  {
  }
}
