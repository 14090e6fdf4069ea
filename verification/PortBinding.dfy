/**
 Binding the ports of a configuration, after `PortConnection` and `ConfigManager.bind_ports` in
 custom_gem5/configs/example/read_config.py. Every connection is listed in both directions; one
 pass over the sorted list picks the direction and the order in which to make each of them, so
 that the vector ports, which can only be appended to, end up with the configured elements.
 */
module PortBinding {
  import opened Basics

  datatype Port = Port(obj: string, name: string)

  /** One element of a vector port. */
  datatype Element = Element(port: Port, index: nat)

  datatype Connection = Connection(from: Element, to: Element)

  function Swap(c: Connection): Connection {
    Connection(c.to, c.from)
  }

  ghost predicate Distinct(cs: seq<Connection>) {
    forall i, j :: 0 <= i < j < |cs| ==> cs[i] != cs[j]
  }

  /** What the documentation of `bind_ports` asks: both directions of everything, each once. */
  ghost predicate TwoWay(cs: seq<Connection>) {
    && Distinct(cs)
    && (forall c :: c in cs ==> Swap(c) in cs)
    && (forall c :: c in cs ==> c.from != c.to)
  }

  ghost predicate OnePeer(cs: seq<Connection>) {
    forall c, d :: c in cs && d in cs && c.from == d.from ==> c == d
  }

  // ---------------------------------------------------------------- sorting

  /** Python's `cmp` on strings. */
  function CompareText(a: string, b: string): int {
    if a == [] then (if b == [] then 0 else -1)
    else if b == [] then 1
    else if a[0] < b[0] then -1
    else if b[0] < a[0] then 1
    else CompareText(a[1..], b[1..])
  }

  function CompareElement(a: Element, b: Element): int {
    var obj := CompareText(a.port.obj, b.port.obj);
    if obj != 0 then obj else
      var name := CompareText(a.port.name, b.port.name);
      if name != 0 then name else a.index - b.index
  }

  function Compare(c: Connection, d: Connection): int {
    var from := CompareElement(c.from, d.from);
    if from != 0 then from else CompareElement(c.to, d.to)
  }

  lemma {:induction false} CompareTextTotal(a: string, b: string)
    ensures CompareText(a, b) == -CompareText(b, a)
  {
    if a != [] && b != [] {
      CompareTextTotal(a[1..], b[1..]);
    }
  }

  lemma CompareTotal(c: Connection, d: Connection)
    ensures Compare(c, d) <= 0 || Compare(d, c) <= 0
  {
    CompareTextTotal(c.from.port.obj, d.from.port.obj);
    CompareTextTotal(c.from.port.name, d.from.port.name);
    CompareTextTotal(c.to.port.obj, d.to.port.obj);
    CompareTextTotal(c.to.port.name, d.to.port.name);
  }

  // ---------------------------------------------------------------- the order of tuples

  /** `a` comes before `b` in a dictionary: it is a proper prefix, or smaller where the two first differ. */
  ghost predicate TextBelow(a: string, b: string) {
    a < b || exists k: nat :: SmallerAt(a, b, k)
  }

  /** The strings agree on their first `k` characters and `a` is smaller at the next. */
  ghost predicate SmallerAt(a: string, b: string, k: nat) {
    k < |a| && k < |b| && a[..k] == b[..k] && a[k] < b[k]
  }

  lemma SmallerInside(a: string, b: string, k: nat)
    requires a != [] && b != [] && a[0] == b[0]
    ensures SmallerAt(a, b, k + 1) <==> SmallerAt(a[1..], b[1..], k)
    ensures !SmallerAt(a, b, 0)
  {
    var x, y := a[1..], b[1..];
    if k < |x| && k < |y| {
      assert a[..k + 1] == [a[0]] + x[..k] && b[..k + 1] == [b[0]] + y[..k];
      assert a[..k + 1][1..] == x[..k] && b[..k + 1][1..] == y[..k];
    }
  }

  lemma TextBelowInside(a: string, b: string)
    requires a != [] && b != [] && a[0] == b[0]
    ensures TextBelow(a, b) <==> TextBelow(a[1..], b[1..])
  {
    var x, y := a[1..], b[1..];
    assert a == [a[0]] + x && b == [b[0]] + y;
    assert a < b <==> x < y;
    if k: nat :| SmallerAt(x, y, k) {
      SmallerInside(a, b, k);
    }
    if k: nat :| SmallerAt(a, b, k) {
      SmallerInside(a, b, if k == 0 then 0 else k - 1);
    }
  }

  lemma TextBelowFirst(a: string, b: string)
    requires a != [] && b != [] && a[0] != b[0]
    ensures TextBelow(a, b) <==> a[0] < b[0]
  {
    assert SmallerAt(a, b, 0) <==> a[0] < b[0];
    assert forall k: nat :: SmallerAt(a, b, k) ==> k == 0 || a[..k][0] == b[..k][0];
  }

  lemma {:induction false} CompareTextIs(a: string, b: string)
    ensures CompareText(a, b) < 0 <==> TextBelow(a, b)
    ensures CompareText(a, b) == 0 <==> a == b
  {
    if a != [] && b != [] {
      if a[0] == b[0] {
        CompareTextIs(a[1..], b[1..]);
        TextBelowInside(a, b);
        assert a == [a[0]] + a[1..] && b == [b[0]] + b[1..];
      } else {
        TextBelowFirst(a, b);
      }
    }
  }

  /** The order of the tuples (object name, port name, index). */
  ghost predicate ElementBelow(a: Element, b: Element) {
    || TextBelow(a.port.obj, b.port.obj)
    || (a.port.obj == b.port.obj &&
         (TextBelow(a.port.name, b.port.name) || (a.port.name == b.port.name && a.index < b.index)))
  }

  /** The order of the pairs of ends: by the first, and by the second where the first is the same. */
  ghost predicate ConnectionBelow(c: Connection, d: Connection) {
    ElementBelow(c.from, d.from) || (c.from == d.from && ElementBelow(c.to, d.to))
  }

  lemma CompareElementIs(a: Element, b: Element)
    ensures CompareElement(a, b) < 0 <==> ElementBelow(a, b)
    ensures CompareElement(a, b) == 0 <==> a == b
  {
    CompareTextIs(a.port.obj, b.port.obj);
    CompareTextIs(a.port.name, b.port.name);
  }

  /** Connections compare like Python's tuples. */
  lemma CompareIs(c: Connection, d: Connection)
    ensures Compare(c, d) < 0 <==> ConnectionBelow(c, d)
    ensures Compare(c, d) == 0 <==> c == d
  {
    CompareElementIs(c.from, d.from);
    CompareElementIs(c.to, d.to);
  }

  lemma {:induction false} TextAlong(a: string, b: string, c: string)
    requires CompareText(a, b) <= 0 && CompareText(b, c) <= 0
    ensures CompareText(a, c) <= 0 && (CompareText(a, c) == 0 ==> CompareText(a, b) == 0 && CompareText(b, c) == 0)
  {
    if a != [] && b != [] && c != [] && a[0] == b[0] == c[0] {
      TextAlong(a[1..], b[1..], c[1..]);
    }
  }

  lemma ElementAlong(a: Element, b: Element, c: Element)
    requires CompareElement(a, b) <= 0 && CompareElement(b, c) <= 0
    ensures CompareElement(a, c) <= 0
    ensures CompareElement(a, c) == 0 ==> CompareElement(a, b) == 0 && CompareElement(b, c) == 0
  {
    TextAlong(a.port.obj, b.port.obj, c.port.obj);
    if CompareText(a.port.obj, c.port.obj) == 0 && CompareText(a.port.name, b.port.name) <= 0 &&
       CompareText(b.port.name, c.port.name) <= 0 {
      TextAlong(a.port.name, b.port.name, c.port.name);
    }
  }

  lemma CompareAlong(a: Connection, b: Connection, c: Connection)
    requires Compare(a, b) <= 0 && Compare(b, c) <= 0
    ensures Compare(a, c) <= 0
  {
    ElementAlong(a.from, b.from, c.from);
    if CompareElement(a.to, b.to) <= 0 && CompareElement(b.to, c.to) <= 0 {
      ElementAlong(a.to, b.to, c.to);
    }
  }

  /** Everything is in its place: no entry is below one before it. */
  ghost predicate InTupleOrder(cs: seq<Connection>) {
    forall i, j :: 0 <= i < j < |cs| ==> cs[i] == cs[j] || ConnectionBelow(cs[i], cs[j])
  }

  lemma {:induction false} OrderedAll(cs: seq<Connection>, i: nat, j: nat)
    requires Ordered(cs) && i < j < |cs|
    ensures Compare(cs[i], cs[j]) <= 0
    decreases j
  {
    if i < j - 1 {
      OrderedAll(cs, i, j - 1);
      var k := j - 1;
      CompareAlong(cs[i], cs[k], cs[j]);
    }
  }

  lemma OrderedIs(cs: seq<Connection>)
    requires Ordered(cs)
    ensures InTupleOrder(cs)
  {
    forall i, j | 0 <= i < j < |cs|
      ensures cs[i] == cs[j] || ConnectionBelow(cs[i], cs[j])
    {
      OrderedAll(cs, i, j);
      CompareIs(cs[i], cs[j]);
    }
  }

  lemma NotBoth(c: Connection, d: Connection)
    ensures !(ConnectionBelow(c, d) && ConnectionBelow(d, c)) && !ConnectionBelow(c, c)
  {
    CompareIs(c, d);
    CompareIs(d, c);
    CompareIs(c, c);
    CompareTotalStrict(c, d);
  }

  lemma CompareTotalStrict(c: Connection, d: Connection)
    ensures !(Compare(c, d) < 0 && Compare(d, c) < 0)
  {
    CompareTextTotal(c.from.port.obj, d.from.port.obj);
    CompareTextTotal(c.from.port.name, d.from.port.name);
    CompareTextTotal(c.to.port.obj, d.to.port.obj);
    CompareTextTotal(c.to.port.name, d.to.port.name);
  }

  ghost predicate SameMembers(a: seq<Connection>, b: seq<Connection>) {
    forall c :: c in a <==> c in b
  }

  lemma BothEmpty(a: seq<Connection>, b: seq<Connection>)
    requires SameMembers(a, b)
    ensures a == [] <==> b == []
  {
    assert a != [] ==> a[0] in b;
    assert b != [] ==> b[0] in a;
  }

  /** There is only one way to put different connections in order. */
  lemma {:induction false} OneOrder(a: seq<Connection>, b: seq<Connection>)
    requires Distinct(a) && Distinct(b) && InTupleOrder(a) && InTupleOrder(b) && SameMembers(a, b)
    ensures a == b
  {
    BothEmpty(a, b);
    if a != [] {
      var m, n := |a| - 1, |b| - 1;
      var x, y := a[m], b[n];
      assert x in b && y in a;
      if x != y {
        var i :| 0 <= i < |b| && b[i] == x;
        var j :| 0 <= j < |a| && a[j] == y;
        assert i < n && j < m;
        NotBoth(x, y);
      }
      ShorterMembers(a, b);
      OneOrder(a[..m], b[..n]);
      assert a == a[..m] + [x] && b == b[..n] + [y];
    }
  }

  lemma ShorterMembers(a: seq<Connection>, b: seq<Connection>)
    requires a != [] && b != [] && Distinct(a) && Distinct(b) && SameMembers(a, b) && a[|a| - 1] == b[|b| - 1]
    ensures SameMembers(a[..|a| - 1], b[..|b| - 1]) && Distinct(a[..|a| - 1]) && Distinct(b[..|b| - 1])
  {
    var m, n := |a| - 1, |b| - 1;
    assert a == a[..m] + [a[m]] && b == b[..n] + [b[n]];
    assert a[m] !in a[..m] && b[n] !in b[..n];
    assert forall c :: c in a <==> c in a[..m] || c == a[m];
    assert forall c :: c in b <==> c in b[..n] || c == b[n];
  }

  // ---------------------------------------------------------------- insertion

  ghost predicate Ordered(cs: seq<Connection>) {
    forall i, j :: 0 <= i && j == i + 1 && j < |cs| ==> Compare(cs[i], cs[j]) <= 0
  }

  /** Where `c` goes in an ordered list: after the last entry that is not above it. */
  function Place(cs: seq<Connection>, c: Connection): (p: nat)
    ensures p <= |cs|
    ensures 0 < p ==> Compare(cs[p - 1], c) <= 0
    ensures p < |cs| ==> Compare(c, cs[p]) <= 0
  {
    if cs == [] then 0 else
      var last := cs[|cs| - 1];
      CompareTotal(last, c);
      if Compare(last, c) <= 0 then |cs| else Place(cs[..|cs| - 1], c)
  }

  function Insert(cs: seq<Connection>, c: Connection): (r: seq<Connection>)
    ensures |r| == |cs| + 1
  {
    var p := Place(cs, c);
    cs[..p] + [c] + cs[p..]
  }

  lemma InsertOrdered(cs: seq<Connection>, c: Connection)
    requires Ordered(cs)
    ensures Ordered(Insert(cs, c))
  {
    var p, r := Place(cs, c), Insert(cs, c);
    assert forall i :: 0 <= i < p ==> r[i] == cs[i];
    assert r[p] == c;
    assert forall i :: p < i < |r| ==> r[i] == cs[i - 1];
  }

  lemma InsertAt<T>(cs: seq<T>, c: T, p: nat)
    requires p <= |cs|
    ensures forall d :: d in cs[..p] + [c] + cs[p..] <==> d in cs || d == c
  {
    assert cs == cs[..p] + cs[p..];
  }

  lemma InsertDistinct(cs: seq<Connection>, c: Connection, p: nat)
    requires p <= |cs| && Distinct(cs) && c !in cs
    ensures Distinct(cs[..p] + [c] + cs[p..])
  {
    var r := cs[..p] + [c] + cs[p..];
    assert forall i :: 0 <= i < p ==> r[i] == cs[i];
    assert forall i :: p < i < |r| ==> r[i] == cs[i - 1];
  }

  function Sort(cs: seq<Connection>): (r: seq<Connection>)
    ensures |r| == |cs|
  {
    if cs == [] then [] else Insert(Sort(cs[..|cs| - 1]), cs[|cs| - 1])
  }

  /** The sorted list holds the same connections in the order of tuples. */
  lemma SortIs(cs: seq<Connection>)
    ensures InTupleOrder(Sort(cs)) && Ordered(Sort(cs)) && SameMembers(Sort(cs), cs)
    ensures Distinct(cs) ==> Distinct(Sort(cs))
  {
    SortOrders(cs);
    OrderedIs(Sort(cs));
  }

  /** Whatever sorts different connections, sorts them like this. */
  lemma SortUnique(cs: seq<Connection>, sorted: seq<Connection>)
    requires Distinct(cs) && Distinct(sorted) && InTupleOrder(sorted) && SameMembers(sorted, cs)
    ensures sorted == Sort(cs)
  {
    SortIs(cs);
    OneOrder(sorted, Sort(cs));
  }

  lemma {:induction false} SortOrders(cs: seq<Connection>)
    ensures Ordered(Sort(cs)) && SameMembers(Sort(cs), cs) && (Distinct(cs) ==> Distinct(Sort(cs)))
  {
    if cs != [] {
      var init, c := cs[..|cs| - 1], cs[|cs| - 1];
      SortOrders(init);
      InsertOrdered(Sort(init), c);
      InsertAt(Sort(init), c, Place(Sort(init), c));
      assert cs == init + [c];
      if Distinct(cs) {
        InsertDistinct(Sort(init), c, Place(Sort(init), c));
      }
    }
  }

  // ---------------------------------------------------------------- one pass

  /** How many elements of `p` the bindings have used. */
  function Count(made: seq<Connection>, p: Port): nat {
    if made == [] then 0 else
      var c := made[|made| - 1];
      Count(made[..|made| - 1], p) + (if c.from.port == p then 1 else 0) + (if c.to.port == p then 1 else 0)
  }

  /** Both ends are the next free element of their ports. */
  predicate Ready(made: seq<Connection>, c: Connection) {
    Count(made, c.from.port) == c.from.index && Count(made, c.to.port) == c.to.index
  }

  /** The connections that one pass makes. */
  function Greedy(cs: seq<Connection>): seq<Connection> {
    if cs == [] then [] else
      var made, c := Greedy(cs[..|cs| - 1]), cs[|cs| - 1];
      if Ready(made, c) then made + [c] else made
  }

  /** The ports that some connection comes from. */
  ghost function Sources(cs: seq<Connection>): set<Port> {
    set c | c in cs :: c.from.port
  }

  /** Some connection's first end is in order when the pass reaches it, and its second port was never counted. */
  ghost predicate Fails(cs: seq<Connection>, sorted: seq<Connection>) {
    sorted != [] &&
    var init, c := sorted[..|sorted| - 1], sorted[|sorted| - 1];
    Fails(cs, init) || (Count(Greedy(init), c.from.port) == c.from.index && c.to.port !in Sources(cs))
  }

  lemma FailsOne(cs: seq<Connection>, sorted: seq<Connection>, k: nat, made: seq<Connection>)
    requires k < |sorted| && made == Greedy(sorted[..k])
    ensures Fails(cs, sorted[..k + 1]) <==>
            Fails(cs, sorted[..k]) || (Count(made, sorted[k].from.port) == sorted[k].from.index &&
                sorted[k].to.port !in Sources(cs))
  {
    assert sorted[..k + 1][..k] == sorted[..k];
  }

  lemma FailsLater(cs: seq<Connection>, sorted: seq<Connection>, k: nat)
    requires k <= |sorted| && Fails(cs, sorted[..k])
    ensures Fails(cs, sorted)
  {
    for j := k to |sorted|
      invariant Fails(cs, sorted[..j])
    {
      FailsOne(cs, sorted, j, Greedy(sorted[..j]));
    }
    assert sorted[..|sorted|] == sorted;
  }

  lemma CountOne(made: seq<Connection>, c: Connection, p: Port)
    ensures Count(made + [c], p) ==
            Count(made, p) + (if c.from.port == p then 1 else 0) + (if c.to.port == p then 1 else 0)
  {
    assert (made + [c])[..|made|] == made;
  }

  lemma GreedyOne(cs: seq<Connection>, k: nat)
    requires k < |cs|
    ensures Greedy(cs[..k + 1]) == var made := Greedy(cs[..k]); if Ready(made, cs[k]) then made + [cs[k]] else made
  {
    assert cs[..k + 1][..k] == cs[..k];
  }

  ghost predicate Counted(counts: map<Port, nat>, made: seq<Connection>) {
    forall p :: p in counts ==> counts[p] == Count(made, p)
  }

  method ZeroCounts(connections: seq<Connection>) returns (counts: map<Port, nat>)
    ensures Counted(counts, [])
    ensures counts.Keys == Sources(connections)
  {
    counts := map[];
    for i := 0 to |connections|
      invariant Counted(counts, [])
      invariant counts.Keys == Sources(connections[..i])
    {
      counts := counts[connections[i].from.port := 0];
      assert connections[..i + 1] == connections[..i] + [connections[i]];
    }
    assert connections[..|connections|] == connections;
  }

  method Increment(counts: map<Port, nat>, c: Connection, ghost made: seq<Connection>) returns (counts': map<Port, nat>)
    requires Counted(counts, made) && c.from.port in counts && c.to.port in counts
    ensures counts'.Keys == counts.Keys && Counted(counts', made + [c])
  {
    forall p
      ensures Count(made + [c], p) ==
              Count(made, p) + (if c.from.port == p then 1 else 0) + (if c.to.port == p then 1 else 0)
    {
      CountOne(made, c, p);
    }
    counts' := counts[c.from.port := counts[c.from.port] + 1];
    counts' := counts'[c.to.port := counts'[c.to.port] + 1];
  }

  /** The body of the loop over the sorted connections. */
  method Consider(counts: map<Port, nat>, made: seq<Connection>, c: Connection)
    returns (unknown: bool, counts': map<Port, nat>, made': seq<Connection>)
    requires Counted(counts, made) && c.from.port in counts
    ensures unknown <==> Count(made, c.from.port) == c.from.index && c.to.port !in counts
    ensures counts'.Keys == counts.Keys && Counted(counts', made')
    ensures !unknown ==> made' == if Ready(made, c) then made + [c] else made
  {
    unknown, counts', made' := false, counts, made;
    if counts[c.from.port] == c.from.index {
      if c.to.port !in counts {
        unknown := true;
      } else if counts[c.to.port] == c.to.index {
        counts' := Increment(counts, c, made);
        made' := made + [c];
      }
    }
  }

  /** The loop over the sorted connections; no result when it looks up a port it has no count for. */
  method Pass(connections: seq<Connection>, sorted: seq<Connection>) returns (made: Option<seq<Connection>>)
    requires forall c :: c in sorted <==> c in connections
    ensures made.None? <==> Fails(connections, sorted)
    ensures made.Some? ==> made.value == Greedy(sorted)
  {
    var counts := ZeroCounts(connections);
    var list: seq<Connection> := [];
    for k := 0 to |sorted|
      invariant list == Greedy(sorted[..k]) && Counted(counts, list)
      invariant counts.Keys == Sources(connections)
      invariant !Fails(connections, sorted[..k])
    {
      GreedyOne(sorted, k);
      FailsOne(connections, sorted, k, list);
      assert sorted[k] in connections;
      var unknown;
      unknown, counts, list := Consider(counts, list, sorted[k]);
      if unknown {
        FailsLater(connections, sorted, k + 1);
        return None;
      }
    }
    assert sorted[..|sorted|] == sorted;
    made := Some(list);
  }

  datatype Outcome = Bound(made: seq<Connection>) | Unorderable | UnknownPort

  /** `bind_ports` up to the point where it sets the ports. */
  method BindPorts(connections: seq<Connection>) returns (r: Outcome)
    ensures r.UnknownPort? <==> Fails(connections, Sort(connections))
    ensures r.Bound? ==> r.made == Greedy(Sort(connections)) && 2 * |r.made| == |connections|
    ensures r.Unorderable? ==> 2 * |Greedy(Sort(connections))| != |connections|
  {
    SortIs(connections);
    var made := Pass(connections, Sort(connections));
    match made
    case None => r := UnknownPort;
    case Some(list) => r := if 2 * |list| != |connections| then Unorderable else Bound(list);
  }

  /** A vector port after `c` is appended at both its ends. */
  function Extend(v: seq<Element>, c: Connection, p: Port): seq<Element> {
    var w := if c.from.port == p then v + [c.to] else v;
    if c.to.port == p then w + [c.from] else w
  }

  /** The elements of port `p` after the bindings are appended one by one: each end's peer. */
  function Vector(made: seq<Connection>, p: Port): (v: seq<Element>)
    ensures |v| == Count(made, p)
  {
    if made == [] then [] else Extend(Vector(made[..|made| - 1], p), made[|made| - 1], p)
  }

  lemma VectorOne(made: seq<Connection>, k: nat, p: Port)
    requires k < |made|
    ensures Vector(made[..k + 1], p) == Extend(Vector(made[..k], p), made[k], p)
  {
    assert made[..k + 1][..k] == made[..k];
  }

  function Elements(ports: map<Port, seq<Element>>, p: Port): seq<Element> {
    if p in ports then ports[p] else []
  }

  method Append(ports: map<Port, seq<Element>>, c: Connection) returns (ports': map<Port, seq<Element>>)
    ensures forall p :: Elements(ports', p) == Extend(Elements(ports, p), c, p)
  {
    ports' := ports[c.from.port := Elements(ports, c.from.port) + [c.to]];
    ports' := ports'[c.to.port := Elements(ports', c.to.port) + [c.from]];
  }

  /** The final loop of `bind_ports`, with the assignment of a vector port as an append at both ends. */
  method SetPorts(made: seq<Connection>) returns (ports: map<Port, seq<Element>>)
    ensures forall p :: Elements(ports, p) == Vector(made, p)
  {
    ports := map[];
    for k := 0 to |made|
      invariant forall p :: Elements(ports, p) == Vector(made[..k], p)
    {
      forall p
        ensures Vector(made[..k + 1], p) == Extend(Vector(made[..k], p), made[k], p)
      {
        VectorOne(made, k, p);
      }
      ports := Append(ports, made[k]);
    }
    assert made[..|made|] == made;
  }

  // ---------------------------------------------------------------- bindings in order

  /** Each binding uses the next free element of two different ports. */
  ghost predicate InOrder(made: seq<Connection>) {
    made == [] ||
    var init, c := made[..|made| - 1], made[|made| - 1];
    InOrder(init) && Ready(init, c) && c.from != c.to
  }

  ghost predicate Touches(made: seq<Connection>, e: Element) {
    exists i :: 0 <= i < |made| && (made[i].from == e || made[i].to == e)
  }

  lemma TouchesOne(made: seq<Connection>, c: Connection, e: Element)
    ensures Touches(made + [c], e) <==> Touches(made, e) || c.from == e || c.to == e
  {
    var r := made + [c];
    assert r[|made|] == c;
    assert forall i :: 0 <= i < |made| ==> r[i] == made[i];
    if Touches(made, e) {
      var i :| 0 <= i < |made| && (made[i].from == e || made[i].to == e);
      assert r[i].from == e || r[i].to == e;
    }
  }

  /** The elements used of a port are always its first ones: 0, 1, 2, and so on. */
  lemma {:induction false} UsedInOrder(made: seq<Connection>, e: Element)
    requires InOrder(made)
    ensures Touches(made, e) <==> e.index < Count(made, e.port)
  {
    if made != [] {
      var init, c := made[..|made| - 1], made[|made| - 1];
      UsedInOrder(init, e);
      TouchesOne(init, c, e);
      assert made == init + [c];
    }
  }

  /** The pass makes its bindings in order, out of the given connections. */
  lemma GreedyInOrder(cs: seq<Connection>)
    requires forall c :: c in cs ==> c.from != c.to
    ensures InOrder(Greedy(cs)) && forall c :: c in Greedy(cs) ==> c in cs
  {
    var made: seq<Connection> := [];
    for k := 0 to |cs|
      invariant made == Greedy(cs[..k]) && InOrder(made) && forall c :: c in made ==> c in cs
    {
      GreedyOne(cs, k);
      assert cs[k] in cs;
      assert (made + [cs[k]])[..|made|] == made;
      made := Greedy(cs[..k + 1]);
    }
    assert cs[..|cs|] == cs;
  }

  /** Bindings in order never use an element twice. */
  lemma {:induction false} NeverTwice(made: seq<Connection>, i: nat, j: nat)
    requires InOrder(made) && i < j < |made|
    ensures made[i] != made[j] && made[i] != Swap(made[j])
  {
    var init, c := made[..|made| - 1], made[|made| - 1];
    if j < |made| - 1 {
      NeverTwice(init, i, j);
    } else {
      UsedInOrder(init, c.from);
      assert init[i] == made[i];
      assert !Touches(init, c.from);
    }
  }

  // ---------------------------------------------------------------- half of the connections

  ghost function Set(cs: seq<Connection>): set<Connection> {
    set c | c in cs
  }

  ghost function Swaps(cs: seq<Connection>): seq<Connection>
  {
    seq(|cs|, i requires 0 <= i < |cs| => Swap(cs[i]))
  }

  lemma {:induction false} SetSize(cs: seq<Connection>)
    requires Distinct(cs)
    ensures |Set(cs)| == |cs|
  {
    if cs != [] {
      var init, c := cs[..|cs| - 1], cs[|cs| - 1];
      SetSize(init);
      assert cs == init + [c];
      assert Set(cs) == Set(init) + {c};
    }
  }

  lemma SubsetSize(a: set<Connection>, b: set<Connection>)
    requires a <= b
    ensures |a| <= |b| && (|a| == |b| ==> a == b)
  {
    assert b == a + (b - a);
  }

  lemma NoRepeat(made: seq<Connection>)
    requires InOrder(made)
    ensures Distinct(made) && forall c :: c in made && Swap(c) in made ==> c.from == c.to
  {
    forall i, j | 0 <= i < |made| && 0 <= j < |made|
      ensures i != j ==> made[i] != made[j] && made[i] != Swap(made[j])
    {
      if i < j {
        NeverTwice(made, i, j);
      } else if j < i {
        NeverTwice(made, j, i);
      }
    }
    forall c | c in made && Swap(c) in made
      ensures c.from == c.to
    {
      var i :| 0 <= i < |made| && made[i] == c;
      var j :| 0 <= j < |made| && made[j] == Swap(c);
      assert made[j] == Swap(made[i]);
    }
  }

  /** Bindings and their reverses are twice as many distinct connections. */
  lemma BothWays(made: seq<Connection>)
    requires InOrder(made) && forall c :: c in made ==> c.from != c.to
    ensures Set(made) !! Set(Swaps(made)) && |Set(made) + Set(Swaps(made))| == 2 * |made|
  {
    NoRepeat(made);
    SwapsAre(made);
    assert Distinct(Swaps(made)) by { SwapsDistinct(made); }
    SetSize(made);
    SetSize(Swaps(made));
  }

  lemma SwapsDistinct(made: seq<Connection>)
    requires Distinct(made)
    ensures Distinct(Swaps(made))
  {
    forall i, j | 0 <= i < j < |made|
      ensures Swaps(made)[i] != Swaps(made)[j]
    {
      assert made[i] != made[j];
    }
  }

  /** Each connection is made in exactly one of its directions. */
  ghost predicate OneDirection(cs: seq<Connection>, made: seq<Connection>) {
    forall c :: c in cs ==> (c in made <==> Swap(c) !in made)
  }

  ghost predicate SomeDirection(cs: seq<Connection>, made: seq<Connection>) {
    forall c :: c in cs ==> c in made || Swap(c) in made
  }

  lemma BothWaysAre(cs: seq<Connection>, made: seq<Connection>, both: set<Connection>)
    requires TwoWay(cs) && (forall c :: c in made ==> c in cs) && both == Set(made) + Set(Swaps(made))
    ensures both <= Set(cs) && (SomeDirection(cs, made) <==> both == Set(cs))
  {
    SwapsAre(made);
    forall c | c in both
      ensures c in cs
    {
      assert Swap(Swap(c)) == c;
    }
    forall c | c in cs
      ensures c in both <==> c in made || Swap(c) in made
    {
    }
    if both == Set(cs) {
      assert forall c :: c in cs ==> c in both;
    }
  }

  /** The test for half of the connections is exactly the test that each was made in one direction. */
  lemma HalfIsAll(cs: seq<Connection>, made: seq<Connection>)
    requires TwoWay(cs) && InOrder(made) && forall c :: c in made ==> c in cs
    ensures SomeDirection(cs, made) <==> 2 * |made| == |cs|
    ensures 2 * |made| == |cs| ==> OneDirection(cs, made) && Distinct(made)
  {
    var both := Set(made) + Set(Swaps(made));
    BothWays(made);
    SetSize(cs);
    BothWaysAre(cs, made, both);
    SubsetSize(both, Set(cs));
    NoRepeat(made);
  }

  lemma SwapsAre(made: seq<Connection>)
    ensures forall c :: c in Set(Swaps(made)) <==> Swap(c) in made
  {
    forall c
      ensures c in Set(Swaps(made)) <==> Swap(c) in made
    {
      if Swap(c) in made {
        var i :| 0 <= i < |made| && made[i] == Swap(c);
        assert Swaps(made)[i] == c;
      }
    }
  }

  // ---------------------------------------------------------------- soundness

  /** Position `e.index` of the port of `e` holds `peer`. */
  ghost predicate Holds(made: seq<Connection>, e: Element, peer: Element) {
    e.index < Count(made, e.port) && Vector(made, e.port)[e.index] == peer
  }

  lemma HoldsOne(made: seq<Connection>, c: Connection, e: Element, peer: Element)
    requires Ready(made, c) && c.from != c.to
    ensures Holds(made + [c], e, peer) <==>
            Holds(made, e, peer) || Connection(e, peer) == c || Connection(e, peer) == Swap(c)
  {
    assert (made + [c])[..|made|] == made;
    CountOne(made, c, e.port);
  }

  /** Appending the bindings in order puts at each position the configured peer, and nothing else. */
  lemma {:induction false} AppendsHold(made: seq<Connection>, e: Element, peer: Element)
    requires InOrder(made)
    ensures Holds(made, e, peer) <==> Connection(e, peer) in made || Connection(peer, e) in made
  {
    if made != [] {
      var init, c := made[..|made| - 1], made[|made| - 1];
      AppendsHold(init, e, peer);
      assert made == init + [c];
      HoldsOne(init, c, e, peer);
    }
  }

  /**
   Soundness: when `bind_ports` does not raise, each connection is made in exactly one direction,
   and the appends give the ports exactly the configured elements at the configured positions.
   */
  lemma BindingSound(cs: seq<Connection>)
    requires TwoWay(cs) && 2 * |Greedy(Sort(cs))| == |cs|
    ensures var made := Greedy(Sort(cs)); OneDirection(cs, made) && Distinct(made) && InOrder(made)
    ensures forall e, peer :: Holds(Greedy(Sort(cs)), e, peer) <==> Connection(e, peer) in cs
  {
    SortIs(cs);
    var made := Greedy(Sort(cs));
    GreedyInOrder(Sort(cs));
    HalfIsAll(cs, made);
    forall e, peer
      ensures Holds(made, e, peer) <==> Connection(e, peer) in cs
    {
      AppendsHold(made, e, peer);
      var c := Connection(e, peer);
      assert Swap(c) == Connection(peer, e) && Swap(Swap(c)) == c;
    }
  }

  /** The lookup never fails when both directions are listed. */
  lemma NoUnknownPort(cs: seq<Connection>)
    requires TwoWay(cs)
    ensures !Fails(cs, Sort(cs))
  {
    var sorted := Sort(cs);
    SortIs(cs);
    for k := 0 to |sorted|
      invariant !Fails(cs, sorted[..k])
    {
      FailsOne(cs, sorted, k, Greedy(sorted[..k]));
      assert sorted[k] in cs && Swap(sorted[k]) in cs;
    }
    assert sorted[..|sorted|] == sorted;
  }

  // ---------------------------------------------------------------- completeness

  /** The connections at the chosen places of the list. */
  ghost function Chosen(cs: seq<Connection>, pick: seq<bool>): seq<Connection>
    requires |cs| == |pick|
  {
    if cs == [] then [] else
      var init, n := Chosen(cs[..|cs| - 1], pick[..|cs| - 1]), |cs| - 1;
      if pick[n] then init + [cs[n]] else init
  }

  lemma ChosenOne(cs: seq<Connection>, pick: seq<bool>, k: nat)
    requires |cs| == |pick| && k < |cs|
    ensures Chosen(cs[..k + 1], pick[..k + 1]) == var init := Chosen(cs[..k], pick[..k]);
            if pick[k] then init + [cs[k]] else init
  {
    assert cs[..k + 1][..k] == cs[..k] && pick[..k + 1][..k] == pick[..k];
  }

  /** A choice that makes every connection, in the order of the list. */
  ghost predicate Plan(cs: seq<Connection>, pick: seq<bool>) {
    |cs| == |pick| && InOrder(Chosen(cs, pick)) && SomeDirection(cs, Chosen(cs, pick))
  }

  /** Everything that `plan` has made, `made` has made in some direction. */
  ghost predicate KeepsUp(made: seq<Connection>, plan: seq<Connection>) {
    SomeDirection(plan, made)
  }

  /** With one peer for each element, only `c` itself can use the element it comes from. */
  lemma Untouched(cs: seq<Connection>, made: seq<Connection>, c: Connection)
    requires TwoWay(cs) && OnePeer(cs) && c in cs && forall d :: d in made ==> d in cs
    requires c !in made && Swap(c) !in made
    ensures !Touches(made, c.from)
  {
    forall i | 0 <= i < |made|
      ensures made[i].from != c.from && made[i].to != c.from
    {
      var d := made[i];
      assert d in made && Swap(d) in cs && Swap(Swap(d)) == d;
      assert d.from == c.from ==> d == c;
      assert d.to == c.from ==> Swap(d) == c;
    }
  }

  /** An element that the plan has used, the pass has used. */
  lemma UsedToo(made: seq<Connection>, plan: seq<Connection>, e: Element)
    requires KeepsUp(made, plan) && Touches(plan, e)
    ensures Touches(made, e)
  {
    var i :| 0 <= i < |plan| && (plan[i].from == e || plan[i].to == e);
    var d := plan[i];
    assert d in plan;
    var d' := if d in made then d else Swap(d);
    var j :| 0 <= j < |made| && made[j] == d';
    assert made[j].from == e || made[j].to == e;
  }

  /** The end of a connection that is next in the plan is next in the pass, if it is not made yet. */
  lemma NextEnd(cs: seq<Connection>, made: seq<Connection>, plan: seq<Connection>, c: Connection)
    requires TwoWay(cs) && OnePeer(cs) && c in cs
    requires InOrder(made) && InOrder(plan) && KeepsUp(made, plan) && forall d :: d in made ==> d in cs
    requires Count(plan, c.from.port) == c.from.index && c !in made && Swap(c) !in made
    ensures Count(made, c.from.port) == c.from.index
  {
    Untouched(cs, made, c);
    UsedInOrder(made, c.from);
    if 0 < c.from.index {
      var e := Element(c.from.port, c.from.index - 1);
      UsedInOrder(plan, e);
      UsedToo(made, plan, e);
      UsedInOrder(made, e);
    }
  }

  lemma NextReady(cs: seq<Connection>, made: seq<Connection>, plan: seq<Connection>, c: Connection)
    requires TwoWay(cs) && OnePeer(cs) && c in cs
    requires InOrder(made) && InOrder(plan) && KeepsUp(made, plan) && forall d :: d in made ==> d in cs
    requires Ready(plan, c) && c !in made && Swap(c) !in made
    ensures Ready(made, c)
  {
    assert Swap(Swap(c)) == c && Swap(c) in cs;
    NextEnd(cs, made, plan, c);
    NextEnd(cs, made, plan, Swap(c));
  }

  lemma {:induction false} PlanPrefix(cs: seq<Connection>, pick: seq<bool>, k: nat)
    requires |cs| == |pick| && InOrder(Chosen(cs, pick)) && k <= |cs|
    ensures InOrder(Chosen(cs[..k], pick[..k]))
    ensures k < |cs| && pick[k] ==> Ready(Chosen(cs[..k], pick[..k]), cs[k])
    decreases |cs|
  {
    var n := |cs| - 1;
    if k == |cs| {
      assert cs[..k] == cs && pick[..k] == pick;
    } else {
      var init := Chosen(cs[..n], pick[..n]);
      assert pick[n] ==> Chosen(cs, pick)[..|init|] == init;
      PlanPrefix(cs[..n], pick[..n], k);
      assert cs[..n][..k] == cs[..k] && pick[..n][..k] == pick[..k];
    }
  }

  lemma KeepsUpOne(cs: seq<Connection>, made: seq<Connection>, plan: seq<Connection>, c: Connection, picked: bool)
    returns (made': seq<Connection>, plan': seq<Connection>)
    requires TwoWay(cs) && OnePeer(cs) && c in cs
    requires InOrder(made) && InOrder(plan) && KeepsUp(made, plan) && forall d :: d in made ==> d in cs
    requires picked ==> Ready(plan, c)
    ensures made' == (if Ready(made, c) then made + [c] else made) && plan' == if picked then plan + [c] else plan
    ensures InOrder(made') && KeepsUp(made', plan') && forall d :: d in made' ==> d in cs
  {
    made' := if Ready(made, c) then made + [c] else made;
    plan' := if picked then plan + [c] else plan;
    if picked && c !in made && Swap(c) !in made {
      NextReady(cs, made, plan, c);
    }
    assert (made + [c])[..|made|] == made;
  }

  /** The pass keeps up with every plan: when the plan makes a connection, the pass makes it or has made it. */
  lemma GreedyKeepsUp(cs: seq<Connection>, pick: seq<bool>)
    requires TwoWay(cs) && OnePeer(cs) && |cs| == |pick| && InOrder(Chosen(cs, pick))
    ensures KeepsUp(Greedy(cs), Chosen(cs, pick))
  {
    var made: seq<Connection> := [];
    var plan: seq<Connection> := [];
    for k := 0 to |cs|
      invariant made == Greedy(cs[..k]) && plan == Chosen(cs[..k], pick[..k])
      invariant InOrder(made) && KeepsUp(made, plan) && forall d :: d in made ==> d in cs
    {
      GreedyOne(cs, k);
      ChosenOne(cs, pick, k);
      PlanPrefix(cs, pick, k);
      made, plan := KeepsUpOne(cs, made, plan, cs[k], pick[k]);
    }
    assert cs[..|cs|] == cs && pick[..|pick|] == pick;
  }

  lemma GreedyIsChosen(cs: seq<Connection>) returns (pick: seq<bool>)
    ensures |pick| == |cs| && Chosen(cs, pick) == Greedy(cs)
  {
    pick := [];
    for k := 0 to |cs|
      invariant |pick| == k && Chosen(cs[..k], pick) == Greedy(cs[..k])
    {
      GreedyOne(cs, k);
      assert cs[..k + 1][..k] == cs[..k];
      var p := pick + [Ready(Greedy(cs[..k]), cs[k])];
      assert p[..k] == pick;
      pick := p;
    }
    assert cs[..|cs|] == cs;
  }

  /**
   Completeness: `bind_ports` raises only if no choice of directions makes every connection along
   the sorted list with each port's elements in order.
   */
  lemma BindingComplete(cs: seq<Connection>)
    requires TwoWay(cs) && OnePeer(cs)
    ensures 2 * |Greedy(Sort(cs))| == |cs| <==> exists pick :: Plan(Sort(cs), pick)
  {
    SortIs(cs);
    var sorted := Sort(cs);
    var made := Greedy(sorted);
    GreedyInOrder(sorted);
    HalfIsAll(sorted, made);
    var mine := GreedyIsChosen(sorted);
    assert SomeDirection(sorted, made) ==> Plan(sorted, mine);
    forall pick | Plan(sorted, pick)
      ensures SomeDirection(sorted, made)
    {
      GreedyKeepsUp(sorted, pick);
      AtLeastPlan(sorted, made, Chosen(sorted, pick));
    }
  }

  lemma AtLeastPlan(cs: seq<Connection>, made: seq<Connection>, plan: seq<Connection>)
    requires SomeDirection(cs, plan) && KeepsUp(made, plan)
    ensures SomeDirection(cs, made)
  {
    forall c | c in cs
      ensures c in made || Swap(c) in made
    {
      assert Swap(Swap(c)) == c;
    }
  }

  /** Position by position, what the ports hold is what the connections say. */
  ghost predicate Configured(ports: map<Port, seq<Element>>, cs: seq<Connection>) {
    forall e, peer :: Connection(e, peer) in cs <==>
      e.index < |Elements(ports, e.port)| && Elements(ports, e.port)[e.index] == peer
  }

  /** The connections in the order of Python's tuples. */
  ghost predicate Sorts(cs: seq<Connection>, sorted: seq<Connection>) {
    Distinct(sorted) && InTupleOrder(sorted) && SameMembers(sorted, cs)
  }

  /** The whole of `bind_ports`; no result when it raises. */
  method Bind(connections: seq<Connection>) returns (ports: Option<map<Port, seq<Element>>>)
    requires TwoWay(connections)
    ensures ports.Some? ==> Configured(ports.value, connections)
    ensures OnePeer(connections) ==> forall sorted :: Sorts(connections, sorted) ==>
              (ports.Some? <==> exists pick :: Plan(sorted, pick))
    ensures exists sorted :: Sorts(connections, sorted)
  {
    NoUnknownPort(connections);
    SortIs(connections);
    assert Sorts(connections, Sort(connections));
    if OnePeer(connections) {
      BindingComplete(connections);
      forall sorted | Sorts(connections, sorted)
        ensures sorted == Sort(connections)
      {
        SortUnique(connections, sorted);
      }
    }
    var r := BindPorts(connections);
    if !r.Bound? {
      return None;
    }
    BindingSound(connections);
    var made := r.made;
    var p := SetPorts(made);
    ports := Some(p);
    forall e, peer
      ensures Connection(e, peer) in connections <==>
                e.index < |Elements(p, e.port)| && Elements(p, e.port)[e.index] == peer
    {
      assert Holds(made, e, peer) <==> Connection(e, peer) in connections;
    }
  }

  /** Element 0 of each of two ports is connected to element 1 of the other. */
  function Crossed(a: Port, b: Port): seq<Connection> {
    var a0, a1, b0, b1 := Element(a, 0), Element(a, 1), Element(b, 0), Element(b, 1);
    [Connection(a0, b1), Connection(a1, b0), Connection(b0, a1), Connection(b1, a0)]
  }

  lemma NothingReady(cs: seq<Connection>)
    requires forall c :: c in cs ==> !Ready([], c)
    ensures Greedy(cs) == []
  {
    for k := 0 to |cs|
      invariant Greedy(cs[..k]) == []
    {
      GreedyOne(cs, k);
      assert cs[k] in cs;
    }
    assert cs[..|cs|] == cs;
  }

  lemma CrossedTwoWay(a: Port, b: Port, cs: seq<Connection>)
    requires a != b && cs == Crossed(a, b)
    ensures TwoWay(cs) && OnePeer(cs) && forall c :: c in cs ==> !Ready([], c)
  {
    assert Swap(cs[0]) == cs[3] && Swap(cs[1]) == cs[2] && Swap(cs[2]) == cs[1] && Swap(cs[3]) == cs[0];
  }

  /** Two ports connected crosswise: sorting does not make any of the connections bindable. */
  lemma CrossedPorts(a: Port, b: Port) returns (cs: seq<Connection>)
    requires a != b
    ensures TwoWay(cs) && OnePeer(cs) && |cs| == 4 && Greedy(Sort(cs)) == []
  {
    cs := Crossed(a, b);
    CrossedTwoWay(a, b, cs);
    CrossedNothing(cs);
  }

  lemma CrossedNothing(cs: seq<Connection>)
    requires forall c :: c in cs ==> !Ready([], c)
    ensures Greedy(Sort(cs)) == []
  {
    SortIs(cs);
    NothingReady(Sort(cs));
  }
}
