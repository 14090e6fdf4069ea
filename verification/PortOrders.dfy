/**
 In which orders the connections of a configuration can be made at all, whatever
 `ConfigManager.bind_ports` in custom_gem5/configs/example/read_config.py does with its sorted list.
 */
module PortOrders {
  import opened PortBinding
  import Graphs

  /** An order that makes every connection, each port's elements one after the other. */
  ghost predicate Orders(cs: seq<Connection>, made: seq<Connection>) {
    InOrder(made) && (forall c :: c in made ==> c in cs) && SomeDirection(cs, made)
  }

  ghost predicate Orderable(cs: seq<Connection>) {
    exists made :: Orders(cs, made)
  }

  /** No element is left out below a connected one. */
  ghost predicate Contiguous(cs: seq<Connection>) {
    forall c, i: nat :: c in cs && i < c.from.index ==> exists d :: d in cs && d.from == Element(c.from.port, i)
  }

  predicate Below(d: Element, e: Element) {
    d.port == e.port && d.index < e.index
  }

  /** `c` uses a later element of a port than `d` does, so it has to be made after `d`. */
  predicate Follows(c: Connection, d: Connection) {
    Below(d.from, c.from) || Below(d.to, c.from) || Below(d.from, c.to) || Below(d.to, c.to)
  }

  function After(): (Connection, Connection) -> bool {
    (c, d) => Follows(c, d)
  }

  ghost predicate Same(c: Connection, d: Connection) {
    c == d || c == Swap(d)
  }

  // ---------------------------------------------------------------- from an order

  lemma {:induction false} InOrderPrefix(made: seq<Connection>, k: nat)
    requires InOrder(made) && k < |made|
    ensures InOrder(made[..k]) && Ready(made[..k], made[k])
    decreases |made|
  {
    var n := |made| - 1;
    if k < n {
      InOrderPrefix(made[..n], k);
      assert made[..n][..k] == made[..k];
    }
  }

  /** With one peer for each element, an element names its connection. */
  lemma OneConnection(cs: seq<Connection>, c: Connection, d: Connection, e: Element)
    requires TwoWay(cs) && OnePeer(cs) && c in cs && d in cs
    requires (c.from == e || c.to == e) && (d.from == e || d.to == e)
    ensures Same(c, d)
  {
    assert Swap(c) in cs && Swap(d) in cs;
    assert Swap(Swap(c)) == c;
  }

  lemma EarlierEnd(cs: seq<Connection>, made: seq<Connection>, k: nat, e: Element, d: Connection, e': Element)
      returns (j: nat)
    requires TwoWay(cs) && OnePeer(cs) && Orders(cs, made) && k < |made| && (made[k].from == e || made[k].to == e)
    requires d in cs && (d.from == e' || d.to == e') && Below(e', e)
    ensures j < k && Same(made[j], d)
  {
    InOrderPrefix(made, k);
    UsedInOrder(made[..k], e');
    j :| 0 <= j < k && (made[..k][j].from == e' || made[..k][j].to == e');
    assert made[..k][j] == made[j] && made[j] in made;
    OneConnection(cs, made[j], d, e');
  }

  /** A connection is made after all that it follows. */
  lemma Earlier(cs: seq<Connection>, made: seq<Connection>, c: Connection, d: Connection, k: nat) returns (j: nat)
    requires TwoWay(cs) && OnePeer(cs) && Orders(cs, made) && d in cs && Follows(c, d) && k < |made| && Same(made[k], c)
    ensures j < k && Same(made[j], d)
  {
    if Below(d.from, c.from) {
      j := EarlierEnd(cs, made, k, c.from, d, d.from);
    } else if Below(d.to, c.from) {
      j := EarlierEnd(cs, made, k, c.from, d, d.to);
    } else if Below(d.from, c.to) {
      j := EarlierEnd(cs, made, k, c.to, d, d.from);
    } else {
      j := EarlierEnd(cs, made, k, c.to, d, d.to);
    }
  }

  lemma MadeAt(cs: seq<Connection>, made: seq<Connection>, c: Connection) returns (k: nat)
    requires Orders(cs, made) && c in cs
    ensures k < |made| && Same(made[k], c)
  {
    var d := if c in made then c else Swap(c);
    assert d in made;
    k :| 0 <= k < |made| && made[k] == d;
  }

  lemma MadeOnce(made: seq<Connection>, c: Connection, j: nat, k: nat)
    requires InOrder(made) && j < |made| && k < |made| && Same(made[j], c) && Same(made[k], c)
    ensures j == k
  {
    assert Swap(Swap(c)) == c;
    if j < k {
      NeverTwice(made, j, k);
    } else if k < j {
      NeverTwice(made, k, j);
    }
  }

  lemma OrderHasNoCycle(cs: seq<Connection>, made: seq<Connection>, w: seq<Connection>)
    requires TwoWay(cs) && OnePeer(cs) && Orders(cs, made)
    ensures !Graphs.IsCycle(After(), w, Set(cs))
  {
    if Graphs.IsCycle(After(), w, Set(cs)) {
      var first := MadeAt(cs, made, w[0]);
      var k := first;
      for i := 1 to |w|
        invariant k <= first && Same(made[k], w[i - 1])
      {
        assert After()(w[i - 1], w[i]);
        k := Earlier(cs, made, w[i - 1], w[i], k);
      }
      var j := Earlier(cs, made, w[|w| - 1], w[0], k);
      MadeOnce(made, w[0], j, first);
    }
  }

  lemma OrderIsContiguous(cs: seq<Connection>, made: seq<Connection>)
    requires TwoWay(cs) && Orders(cs, made)
    ensures Contiguous(cs)
  {
    forall c, i: nat | c in cs && i < c.from.index
      ensures exists d :: d in cs && d.from == Element(c.from.port, i)
    {
      var k := MadeAt(cs, made, c);
      var e := Element(c.from.port, i);
      UsedInOrder(made, c.from);
      UsedInOrder(made, e);
      var j :| 0 <= j < |made| && (made[j].from == e || made[j].to == e);
      assert made[j] in made && Swap(made[j]) in cs;
      assert made[j].from == e || Swap(made[j]).from == e;
    }
  }

  // ---------------------------------------------------------------- to an order

  ghost function Remaining(cs: seq<Connection>, made: seq<Connection>): set<Connection> {
    set c | c in cs && c !in made && Swap(c) !in made
  }

  /** An end that is not next in its port waits for the connection of the element that is. */
  lemma EndWaits(cs: seq<Connection>, made: seq<Connection>, c: Connection) returns (d: Connection)
    requires TwoWay(cs) && OnePeer(cs) && Contiguous(cs) && InOrder(made) && forall x :: x in made ==> x in cs
    requires c in Remaining(cs, made) && Count(made, c.from.port) != c.from.index
    ensures d in Remaining(cs, made) && Below(d.from, c.from)
  {
    Untouched(cs, made, c);
    UsedInOrder(made, c.from);
    var e := Element(c.from.port, Count(made, c.from.port));
    d :| d in cs && d.from == e;
    UsedInOrder(made, e);
    forall i | 0 <= i < |made|
      ensures made[i] != d && made[i] != Swap(d)
    {
      assert made[i].from != e && made[i].to != e;
    }
  }

  lemma WaitsFor(cs: seq<Connection>, made: seq<Connection>, c: Connection) returns (d: Connection)
    requires TwoWay(cs) && OnePeer(cs) && Contiguous(cs) && InOrder(made) && forall x :: x in made ==> x in cs
    requires c in Remaining(cs, made) && !Ready(made, c)
    ensures d in Remaining(cs, made) && Follows(c, d)
  {
    if Count(made, c.from.port) != c.from.index {
      d := EndWaits(cs, made, c);
    } else {
      assert Swap(Swap(c)) == c && Swap(c) in Remaining(cs, made);
      d := EndWaits(cs, made, Swap(c));
    }
  }

  /** Without a cycle, something that remains can be made. */
  lemma SomeReady(cs: seq<Connection>, made: seq<Connection>) returns (c: Connection)
    requires TwoWay(cs) && OnePeer(cs) && Contiguous(cs) && InOrder(made) && forall x :: x in made ==> x in cs
    requires Remaining(cs, made) != {} && !Graphs.HasCycle(After(), Set(cs))
    ensures c in Remaining(cs, made) && Ready(made, c)
  {
    var left := Remaining(cs, made);
    if forall x :: x in left ==> !Ready(made, x) {
      forall x | x in left
        ensures Graphs.WaitsOn(After(), x, left)
      {
        var d := WaitsFor(cs, made, x);
        assert After()(x, d);
      }
      Graphs.BlockedHasCycle(After(), left);
      Graphs.CycleLarger(After(), left, Set(cs));
      assert false;
    }
    c :| c in left && Ready(made, c);
  }

  lemma AcyclicOrder(cs: seq<Connection>) returns (made: seq<Connection>)
    requires TwoWay(cs) && OnePeer(cs) && Contiguous(cs) && !Graphs.HasCycle(After(), Set(cs))
    ensures Orders(cs, made)
  {
    made := [];
    while Remaining(cs, made) != {}
      invariant InOrder(made) && forall x :: x in made ==> x in cs
      decreases |Remaining(cs, made)|
    {
      var c := SomeReady(cs, made);
      var next := made + [c];
      assert next[..|made|] == made;
      assert Remaining(cs, next) <= Remaining(cs, made) && c !in Remaining(cs, next);
      SubsetSize(Remaining(cs, next), Remaining(cs, made));
      made := next;
    }
    forall c | c in cs
      ensures c in made || Swap(c) in made
    {
      assert c !in Remaining(cs, made);
    }
  }

  /**
   The connections can be made in some order exactly when no port leaves out an element below a
   connected one and no connections follow each other in a cycle.
   */
  lemma OrderableIff(cs: seq<Connection>)
    requires TwoWay(cs) && OnePeer(cs)
    ensures Orderable(cs) <==> Contiguous(cs) && !Graphs.HasCycle(After(), Set(cs))
  {
    forall made | Orders(cs, made)
      ensures Contiguous(cs) && !Graphs.HasCycle(After(), Set(cs))
    {
      OrderIsContiguous(cs, made);
      forall w
        ensures !Graphs.IsCycle(After(), w, Set(cs))
      {
        OrderHasNoCycle(cs, made, w);
      }
    }
    if Contiguous(cs) && !Graphs.HasCycle(After(), Set(cs)) {
      var made := AcyclicOrder(cs);
    }
  }

  /** What the pass succeeds on can be ordered. */
  lemma BoundIsOrderable(cs: seq<Connection>)
    requires TwoWay(cs) && 2 * |Greedy(Sort(cs))| == |cs|
    ensures Orderable(cs)
  {
    var made := Greedy(Sort(cs));
    SortIs(cs);
    GreedyInOrder(Sort(cs));
    HalfIsAll(cs, made);
    assert Orders(cs, made);
  }

  // ---------------------------------------------------------------- a wiring that the sorted pass misses

  lemma {:induction false} SortOrdered(cs: seq<Connection>)
    requires Ordered(cs)
    ensures Sort(cs) == cs
  {
    if cs != [] {
      var init, c := cs[..|cs| - 1], cs[|cs| - 1];
      SortOrdered(init);
      assert init != [] ==> init[|init| - 1] == cs[|cs| - 2];
      assert Place(init, c) == |init|;
      assert init[..|init|] == init && init[|init|..] == [];
    }
  }

  lemma {:induction false} CompareSelf(a: string)
    ensures CompareText(a, a) == 0
  {
    if a != [] {
      CompareSelf(a[1..]);
    }
  }

  /** a[0] to b[1], b[0] to c[1], c[0] to d[0], in both directions, by object name and index. */
  function Staircase(a: Port, b: Port, c: Port, d: Port): seq<Connection> {
    var a0, b0, b1, c0, c1, d0 := Element(a, 0), Element(b, 0), Element(b, 1), Element(c, 0), Element(c, 1),
        Element(d, 0);
    [Connection(a0, b1), Connection(b0, c1), Connection(b1, a0), Connection(c0, d0), Connection(c1, b0),
        Connection(d0, c0)]
  }

  /** Four ports of objects in ascending order. */
  ghost predicate InNameOrder(a: Port, b: Port, c: Port, d: Port) {
    && CompareText(a.obj, b.obj) < 0 && CompareText(b.obj, c.obj) < 0 && CompareText(c.obj, d.obj) < 0
    && a != b && a != c && a != d && b != c && b != d && c != d
  }

  lemma StaircaseTwoWay(a: Port, b: Port, c: Port, d: Port, cs: seq<Connection>)
    requires InNameOrder(a, b, c, d) && cs == Staircase(a, b, c, d)
    ensures TwoWay(cs)
  {
    assert Swap(cs[0]) == cs[2] && Swap(cs[1]) == cs[4] && Swap(cs[3]) == cs[5];
    assert Swap(cs[2]) == cs[0] && Swap(cs[4]) == cs[1] && Swap(cs[5]) == cs[3];
  }

  lemma StaircaseOnePeer(a: Port, b: Port, c: Port, d: Port, cs: seq<Connection>)
    requires InNameOrder(a, b, c, d) && cs == Staircase(a, b, c, d)
    ensures OnePeer(cs)
  {
  }

  lemma StaircaseOrdered(a: Port, b: Port, c: Port, d: Port, cs: seq<Connection>)
    requires InNameOrder(a, b, c, d) && cs == Staircase(a, b, c, d)
    ensures Ordered(cs)
  {
    CompareSelf(b.obj);
    CompareSelf(b.name);
    CompareSelf(c.obj);
    CompareSelf(c.name);
  }

  /** The counts of four ports after one or two bindings. */
  lemma StaircaseCounts(x: Connection, y: Connection, p: Port)
    ensures Count([], p) == 0
    ensures Count([x], p) == (if x.from.port == p then 1 else 0) + (if x.to.port == p then 1 else 0)
    ensures Count([x, y], p) == Count([x], p) + (if y.from.port == p then 1 else 0) + (if y.to.port == p then 1 else 0)
  {
    CountOne([], x, p);
    CountOne([x], y, p);
    assert [] + [x] == [x] && [x] + [y] == [x, y];
  }

  lemma StaircaseReady(a: Port, b: Port, c: Port, d: Port, cs: seq<Connection>)
    requires InNameOrder(a, b, c, d) && cs == Staircase(a, b, c, d)
    ensures !Ready([], cs[0]) && !Ready([], cs[1]) && !Ready([], cs[2])
    ensures Ready([], cs[3]) && Ready([cs[3]], cs[4]) && !Ready([cs[3], cs[4]], cs[5]) && Ready([cs[3], cs[4]], cs[2])
  {
    StaircaseCounts(cs[3], cs[4], a);
    StaircaseCounts(cs[3], cs[4], b);
    StaircaseCounts(cs[3], cs[4], c);
    StaircaseCounts(cs[3], cs[4], d);
  }

  /** The pass over six connections of which only the fourth and then the fifth are ever ready. */
  lemma StaircasePass(cs: seq<Connection>)
    requires |cs| == 6 && !Ready([], cs[0]) && !Ready([], cs[1]) && !Ready([], cs[2])
    requires Ready([], cs[3]) && Ready([cs[3]], cs[4]) && !Ready([cs[3], cs[4]], cs[5])
    ensures Greedy(cs) == [cs[3], cs[4]]
  {
    GreedyOne(cs, 0);
    GreedyOne(cs, 1);
    GreedyOne(cs, 2);
    GreedyOne(cs, 3);
    GreedyOne(cs, 4);
    GreedyOne(cs, 5);
    assert [] + [cs[3]] == [cs[3]] && [cs[3]] + [cs[4]] == [cs[3], cs[4]];
    assert cs[..0] == [] && cs[..6] == cs;
  }

  lemma ThreeInOrder(x: Connection, y: Connection, z: Connection)
    requires Ready([], x) && Ready([x], y) && Ready([x, y], z) && x.from != x.to && y.from != y.to && z.from != z.to
    ensures InOrder([x, y, z])
  {
    assert [x][..0] == [] && [x, y][..1] == [x] && [x, y, z][..2] == [x, y];
    assert InOrder([x]);
    assert InOrder([x, y]);
  }

  lemma StaircaseOrder(a: Port, b: Port, c: Port, d: Port, cs: seq<Connection>)
    requires InNameOrder(a, b, c, d) && cs == Staircase(a, b, c, d)
    ensures Orders(cs, [cs[3], cs[4], cs[2]])
  {
    StaircaseReady(a, b, c, d, cs);
    ThreeInOrder(cs[3], cs[4], cs[2]);
    assert Swap(cs[0]) == cs[2] && Swap(cs[1]) == cs[4] && Swap(cs[5]) == cs[3];
  }

  /** Connections that can be made in order, of which the sorted pass makes two of three and so raises. */
  lemma SortedMisses(a: Port, b: Port, c: Port, d: Port) returns (cs: seq<Connection>)
    requires InNameOrder(a, b, c, d)
    ensures TwoWay(cs) && OnePeer(cs) && |cs| == 6 && Orderable(cs) && |Greedy(Sort(cs))| == 2
  {
    cs := Staircase(a, b, c, d);
    StaircaseTwoWay(a, b, c, d, cs);
    StaircaseOnePeer(a, b, c, d, cs);
    StaircaseOrdered(a, b, c, d, cs);
    StaircaseReady(a, b, c, d, cs);
    StaircasePass(cs);
    StaircaseOrder(a, b, c, d, cs);
    SortOrdered(cs);
  }

  /** Such ports are there: objects named a to d. */
  lemma FourPorts()
    ensures InNameOrder(Port("a", "p"), Port("b", "p"), Port("c", "p"), Port("d", "p"))
  {
    assert "a"[0] == 'a' && "b"[0] == 'b' && "c"[0] == 'c' && "d"[0] == 'd';
  }
}
