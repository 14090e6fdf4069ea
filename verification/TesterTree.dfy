/**
 The tree of caches and memory testers, after custom_gem5/configs/example/memtest.py. A
 specification lists, from the level nearest memory outwards, how many caches each subsystem fans
 out to and how many testers it holds; level numbers count down to 0 at the leaves.
 */
module TesterTree {
  import opened Arithmetic
  import opened Basics
  import opened Text

  const BLOCK_SIZE := 64

  // ---------------------------------------------------------------- counting testers

  function Product(cs: seq<int>): int {
    if cs == [] then 1 else Product(cs[..|cs| - 1]) * cs[|cs| - 1]
  }

  function Min(a: int, b: int): int {
    if a < b then a else b
  }

  /** The first `n` levels: each level's testers times the number of subsystems there. */
  function ProductSum(caches: seq<int>, testers: seq<int>, n: nat): int
    requires n <= |testers| && n <= |caches| + 1
  {
    if n == 0 then 0 else ProductSum(caches, testers, n - 1) + testers[n - 1] * Product(caches[..n - 1])
  }

  method Multipliers(caches: seq<int>) returns (multiplier: seq<int>)
    ensures |multiplier| == |caches| + 1
    ensures forall i :: 0 <= i <= |caches| ==> multiplier[i] == Product(caches[..i])
  {
    multiplier := [1];
    for k := 0 to |caches|
      invariant |multiplier| == k + 1
      invariant forall i :: 0 <= i <= k ==> multiplier[i] == Product(caches[..i])
    {
      assert caches[..k + 1][..k] == caches[..k];
      multiplier := multiplier + [multiplier[k] * caches[k]];
    }
  }

  method NumTesters(caches: seq<int>, testers: seq<int>) returns (total: int)
    ensures total == ProductSum(caches, testers, Min(|testers|, |caches| + 1))
  {
    var multiplier := Multipliers(caches);
    total := 0;
    for i := 0 to Min(|testers|, |multiplier|)
      invariant total == ProductSum(caches, testers, i)
    {
      total := total + testers[i] * multiplier[i];
    }
  }

  /** The specifications that the script goes on with. */
  ghost predicate Accepted(caches: seq<int>, testers: seq<int>) {
    && 1 <= |caches| && |testers| == |caches| + 1
    && (forall i :: 0 <= i < |caches| ==> 1 <= caches[i])
    && (forall i :: 0 <= i < |testers| ==> 0 <= testers[i])
    && testers[|caches|] != 0
    && ProductSum(caches, testers, |testers|) <= 64
  }

  method Check(caches: seq<int>, testers: seq<int>) returns (ok: bool)
    ensures ok <==> Accepted(caches, testers)
  {
    if |caches| < 1 || |caches| != |testers| - 1 || testers[|testers| - 1] == 0 {
      return false;
    }
    for i := 0 to |testers|
      invariant forall j :: 0 <= j < i ==> 0 <= testers[j]
    {
      if testers[i] < 0 {
        return false;
      }
    }
    for i := 0 to |caches|
      invariant forall j :: 0 <= j < i ==> 1 <= caches[j]
    {
      if caches[i] < 1 {
        return false;
      }
    }
    var total := NumTesters(caches, testers);
    ok := total <= BLOCK_SIZE;
  }

  // ---------------------------------------------------------------- cache prototypes

  datatype Cache = Cache(size: nat, assoc: nat, tagLatency: nat, dataLatency: nat, responseLatency: nat, mshrs: nat,
                         writebackClean: bool, mostlyInclusive: bool)

  function Scaled(c: Cache, scale: nat): Cache {
    Cache(c.size * scale, c.assoc * scale, c.tagLatency * 10, c.dataLatency * 10, c.responseLatency * 10,
        c.mshrs * scale, !c.writebackClean, !c.mostlyInclusive)
  }

  /** The first element belongs to the level nearest memory, the last is the L1 prototype. */
  method Prototypes(l1: Cache, caches: seq<nat>) returns (protos: seq<Cache>)
    requires 0 < |caches|
    ensures |protos| == |caches| && protos[|protos| - 1] == l1
    ensures forall i, j :: 0 <= i && j == i + 1 && j < |protos| ==>
            protos[i] == Scaled(protos[j], caches[|caches| - 1 - j])
  {
    protos := [l1];
    for k := 0 to |caches| - 1
      invariant |protos| == k + 1 && protos[k] == l1
      invariant forall i, j :: 0 <= i && j == i + 1 && j <= k ==> protos[i] == Scaled(protos[j], caches[k - j])
    {
      protos := [Scaled(protos[0], caches[k])] + protos;
    }
  }

  function Power10(n: nat): nat {
    if n == 0 then 1 else 10 * Power10(n - 1)
  }

  /** The prototype `k` levels outwards from the L1 caches, when the cache counts so far multiply to `p`. */
  function Outwards(l1: Cache, p: nat, k: nat): Cache {
    var slower, even := Power10(k), k % 2 == 0;
    Cache(l1.size * p, l1.assoc * p, l1.tagLatency * slower, l1.dataLatency * slower, l1.responseLatency * slower,
        l1.mshrs * p, l1.writebackClean == even, l1.mostlyInclusive == even)
  }

  lemma OutwardsOne(l1: Cache, p: nat, k: nat, scale: nat)
    ensures Scaled(Outwards(l1, p, k), scale) == Outwards(l1, p * scale, k + 1)
  {
    Associates(l1.size, p, scale);
    Associates(l1.assoc, p, scale);
    Associates(l1.mshrs, p, scale);
    Associates(l1.tagLatency, Power10(k), 10);
    Associates(l1.dataLatency, Power10(k), 10);
    Associates(l1.responseLatency, Power10(k), 10);
    assert Power10(k + 1) == Power10(k) * 10;
  }

  lemma {:induction false} ProductNatural(cs: seq<nat>)
    ensures 0 <= Product(cs)
  {
    if cs != [] {
      ProductNatural(cs[..|cs| - 1]);
    }
  }

  /** Outwards from the L1 caches sizes multiply up, latencies grow tenfold and inclusion alternates. */
  lemma {:induction false} PrototypeAt(l1: Cache, caches: seq<nat>, protos: seq<Cache>, k: nat)
    requires k < |caches| && |protos| == |caches| && protos[|protos| - 1] == l1
    requires forall i, j :: 0 <= i && j == i + 1 && j < |protos| ==>
             protos[i] == Scaled(protos[j], caches[|caches| - 1 - j])
    ensures 0 <= Product(caches[..k]) && protos[|protos| - 1 - k] == Outwards(l1, Product(caches[..k]), k)
  {
    ProductNatural(caches[..k]);
    if 0 < k {
      PrototypeAt(l1, caches, protos, k - 1);
      assert protos[|protos| - 1 - k] == Scaled(protos[|protos| - k], caches[k - 1]);
      assert caches[..k][..k - 1] == caches[..k - 1];
      OutwardsOne(l1, Product(caches[..k - 1]), k - 1, caches[k - 1]);
    }
  }

  lemma Associates(a: int, b: int, c: int)
    ensures a * b * c == a * (b * c)
  {
  }

  // ---------------------------------------------------------------- the tree

  datatype Tester = Tester(interval: nat, progressCheck: nat)

  /** One of the caches with which a subsystem fans out. */
  datatype CacheId = CacheId(level: nat, index: nat, cache: nat)

  /** `above` is the cache whose CPU side the subsystem hangs on. */
  datatype Subsystem = Subsystem(testers: seq<Tester>, caches: seq<Cache>, crossbar: bool, above: Option<CacheId>)

  function Copies<T>(x: T, n: nat): (r: seq<T>)
    ensures |r| == n && forall i :: 0 <= i < n ==> r[i] == x
  {
    seq(n, i => x)
  }

  /** The attribute of `system` that holds a subsystem. */
  function Name(level: nat, index: nat): string {
    "l" + Decimal(level) + "subsys" + Decimal(index)
  }

  lemma SameDigits(a: string, b: string, x: string, y: string)
    requires AllDigits(a) && AllDigits(b) && x != [] && y != [] && !IsDigit(x[0]) && !IsDigit(y[0]) && a + x == b + y
    ensures a == b && x == y
  {
    var s := a + x;
    assert s[|a|] == x[0] && s[|b|] == y[0];
    assert forall i :: 0 <= i < |a| ==> IsDigit(s[i]);
    assert forall i :: 0 <= i < |b| ==> IsDigit(s[i]);
    assert s[..|a|] == a && s[..|b|] == b && s[|a|..] == x && s[|b|..] == y;
  }

  /** A name says which subsystem it is of. */
  lemma SameName(level: nat, index: nat, level': nat, index': nat)
    requires Name(level, index) == Name(level', index')
    ensures level == level' && index == index'
  {
    var a, b := Decimal(level), Decimal(level');
    var x, y := "subsys" + Decimal(index), "subsys" + Decimal(index');
    assert Name(level, index) == "l" + (a + x) && Name(level', index') == "l" + (b + y);
    assert Name(level, index)[1..] == a + x && Name(level', index')[1..] == b + y;
    DecimalIs(level);
    DecimalIs(level');
    SameDigits(a, b, x, y);
    assert x[6..] == Decimal(index) && y[6..] == Decimal(index');
    DecimalIs(index);
    DecimalIs(index');
  }

  /** Different subsystems have different names. */
  lemma NamesDiffer(level: nat, index: nat, level': nat, index': nat)
    ensures Name(level, index) == Name(level', index') <==> level == level' && index == index'
    ensures Name(12, 3) == "l12subsys3"
  {
    assert Decimal(12) == Decimal(1) + "2" && Decimal(1) == "1" && Decimal(3) == "3";
    if Name(level, index) == Name(level', index') {
      SameName(level, index, level', index');
    }
  }

  /** How many subsystems of level `l` a subtree of level `|cs|` holds. */
  function Fan(cs: seq<nat>, l: nat): nat {
    if |cs| < l then 0 else if l == |cs| then 1 else cs[0] * Fan(cs[1..], l)
  }

  /** How many testers a subtree of level `|cs|` holds. */
  function TreeTesters(cs: seq<nat>, ts: seq<nat>): nat
    requires |ts| == |cs| + 1
  {
    if cs == [] then ts[0] else ts[0] + cs[0] * TreeTesters(cs[1..], ts[1..])
  }

  /** Each level has gained `k` times what a subtree with cache counts `cs` holds. */
  ghost predicate Grown(base: seq<nat>, next: seq<nat>, k: nat, cs: seq<nat>) {
    |next| == |base| && forall l: nat :: l < |base| ==> next[l] == base[l] + k * Fan(cs, l)
  }

  lemma GrownOne(base: seq<nat>, mid: seq<nat>, next: seq<nat>, k: nat, cs: seq<nat>)
    requires Grown(base, mid, k, cs) && Grown(mid, next, 1, cs)
    ensures Grown(base, next, k + 1, cs)
  {
    forall l: nat | l < |base|
      ensures next[l] == base[l] + (k + 1) * Fan(cs, l)
    {
      OneMore(k, Fan(cs, l));
    }
  }

  /** A new subsystem and its `cs[0]` subtrees make one subtree. */
  lemma GrownAll(base: seq<nat>, next: seq<nat>, cs: seq<nat>)
    requires cs != [] && |cs| < |base| && Grown(base[|cs| := base[|cs|] + 1], next, cs[0], cs[1..])
    ensures Grown(base, next, 1, cs)
  {
  }

  lemma OneMore(k: nat, x: nat)
    ensures (k + 1) * x == k * x + x
  {
  }

  /** Below `level` every cache that fans out has its subsystem, `next` being the numbers of subsystems. */
  ghost predicate AllServed(next: seq<nat>, caches: seq<nat>, level: nat)
    requires |next| == |caches| + 1
  {
    forall l: nat, m: nat :: m == l + 1 && m <= level && m <= |caches| ==> next[l] == next[m] * caches[|caches| - m]
  }

  lemma ServedAttach(base: seq<nat>, caches: seq<nat>, level: nat)
    requires |base| == |caches| + 1 && 0 < level <= |caches| && AllServed(base, caches, level)
    ensures var next := base[level := base[level] + 1];
            AllServed(next, caches, level - 1) && next[level - 1] == (next[level] - 1) * caches[|caches| - level]
  {
  }

  lemma ServedAgain(mid: seq<nat>, next: seq<nat>, caches: seq<nat>, level: nat, n: nat, cs: seq<nat>)
    requires |mid| == |next| == |caches| + 1 && 0 < level <= |caches| && n == caches[|caches| - level] &&
             |cs| == level - 1
    requires Grown(mid, next, n, cs) && AllServed(next, caches, level - 1)
    requires 0 < mid[level] && mid[level - 1] == (mid[level] - 1) * n
    ensures AllServed(next, caches, level)
  {
    assert Fan(cs, level) == 0 && Fan(cs, level - 1) == 1;
    assert next[level] == mid[level] && next[level - 1] == mid[level - 1] + n;
    OneMore(mid[level] - 1, n);
  }

  class Tree {
    const caches: seq<nat>
    const testers: seq<nat>
    const protos: seq<Cache>
    const l1: Cache
    var next: seq<nat>
    var subsystems: map<(nat, nat), Subsystem>
    var made: nat

    function TestersOf(l: nat): (r: seq<Tester>)
      requires |testers| == |caches| + 1 && l <= |caches|
      ensures |r| == testers[|caches| - l]
    {
      Copies(Tester(10 * (l * l + 1), (|caches| - l + 1) * 100000000), testers[|caches| - l])
    }

    /** How many subsystems of level `l` hang on one subsystem of the next level. */
    function Fanout(l: nat): nat
      requires l < |caches|
    {
      caches[|caches| - l - 1]
    }

    /** The cache that subsystem `i` of level `l` hangs on: the caches of a level are taken in order. */
    function Above(l: nat, i: nat): Option<CacheId>
      requires l <= |caches| && forall k :: 0 <= k < |caches| ==> 0 < caches[k]
    {
      if l == |caches| then None else Some(CacheId(l + 1, i / Fanout(l), i % Fanout(l)))
    }

    /** What subsystem `i` of level `l` is made of. */
    function Part(l: nat, i: nat): Subsystem
      requires |testers| == |caches| + 1 && |protos| == |caches| && l <= |caches|
      requires forall k :: 0 <= k < |caches| ==> 0 < caches[k]
    {
      var k := |caches| - l;
      Subsystem(TestersOf(l), if l == 0 then [] else Copies(l1, testers[k]) + Copies(protos[k], caches[k]),
                l != 0 || 1 < testers[k], Above(l, i))
    }

    ghost predicate Valid()
      reads this
    {
      && |testers| == |caches| + 1 && |protos| == |caches| && |next| == |caches| + 1
      && (forall k :: 0 <= k < |caches| ==> 0 < caches[k])
      && (forall l: nat, i: nat :: (l, i) in subsystems <==> l < |next| && i < next[l])
      && (forall l: nat, i: nat :: l < |next| && (l, i) in subsystems ==> subsystems[(l, i)] == Part(l, i))
    }

    ghost predicate Balanced(level: nat)
      reads this
      requires |next| == |caches| + 1
    {
      AllServed(next, caches, level)
    }

    constructor (caches: seq<nat>, testers: seq<nat>, protos: seq<Cache>, l1: Cache)
      requires |testers| == |caches| + 1 && |protos| == |caches| && forall k :: 0 <= k < |caches| ==> 0 < caches[k]
      ensures Valid() && made == 0 && subsystems == map[] && forall l :: 0 <= l < |next| ==> next[l] == 0
      ensures this.caches == caches && this.testers == testers && this.protos == protos && this.l1 == l1
    {
      this.caches, this.testers, this.protos, this.l1 := caches, testers, protos, l1;
      next, subsystems, made := seq(|caches| + 1, i => 0), map[], 0;
    }

    /** A new subsystem never takes the name of an older one. */
    method Attach(level: nat, s: Subsystem)
      requires Valid() && level <= |caches| && s == Part(level, next[level])
      modifies this
      ensures Valid() && made == old(made) && next == old(next)[level := old(next)[level] + 1]
      ensures (level, old(next)[level]) !in old(subsystems)
      ensures subsystems == old(subsystems)[(level, old(next)[level]) := s]
    {
      var index := next[level];
      next := next[level := index + 1];
      subsystems := subsystems[(level, index) := s];
    }

    /** The subtree below `level`; no success when a leaf has no cache to connect its testers to. */
    method MakeCacheLevel(ncaches: seq<nat>, prototypes: seq<Cache>, level: nat, nextCache: Option<CacheId>)
        returns (ok: bool)
      requires Valid() && level <= |caches| && testers[|caches|] != 0 && Balanced(level)
      requires ncaches == caches[|caches| - level..] && prototypes == protos[|caches| - level..]
      requires nextCache == Above(level, next[level])
      modifies this
      ensures ok <==> level != 0 || nextCache.Some?
      ensures Valid() && Grown(old(next), next, 1, ncaches) && Balanced(level)
      ensures made == old(made) + TreeTesters(ncaches, testers[|caches| - level..])
      decreases level, 1
    {
      var list := TestersOf(level);
      made := made + |list|;
      ok := true;
      if level != 0 {
        MakeInner(list, ncaches, prototypes, level, nextCache);
        assert testers[|caches| - level..][0] == testers[|caches| - level];
      } else {
        Attach(level, Subsystem(list, [], 1 < |list|, nextCache));
        ok := nextCache.Some?;
        if ok && |list| <= 1 {
          // The source connects testers[0] here, so there has to be one.
          var single := list[0];
        }
      }
    }

    /** A subsystem that fans out, and the subtrees that hang on it. */
    method MakeInner(list: seq<Tester>, ncaches: seq<nat>, prototypes: seq<Cache>, level: nat,
                     nextCache: Option<CacheId>)
      requires Valid() && 0 < level <= |caches| && testers[|caches|] != 0 && Balanced(level) && list == TestersOf(level)
      requires ncaches == caches[|caches| - level..] && prototypes == protos[|caches| - level..]
      requires nextCache == Above(level, next[level])
      modifies this
      ensures Valid() && Grown(old(next), next, 1, ncaches) && Balanced(level)
      ensures made == old(made) + ncaches[0] * TreeTesters(ncaches[1..], testers[|caches| - level..][1..])
      decreases level, 0
    {
      ServedAttach(next, caches, level);
      assert ncaches[0] == caches[|caches| - level] && prototypes[0] == protos[|caches| - level];
      Attach(level, Subsystem(list, Copies(l1, |list|) + Copies(prototypes[0], ncaches[0]), true, nextCache));
      assert ncaches[1..] == caches[|caches| - (level - 1)..] && prototypes[1..] == protos[|caches| - (level - 1)..];
      assert testers[|caches| - level..][1..] == testers[|caches| - (level - 1)..];
      ghost var mid := next;
      MakeSubtrees(ncaches[0], ncaches[1..], prototypes[1..], level - 1);
      GrownAll(old(next), next, ncaches);
      ServedAgain(mid, next, caches, level, ncaches[0], ncaches[1..]);
    }

    /** The loop over the caches that fan out of the subsystem made last, on the next level. */
    method MakeSubtrees(n: nat, ncaches: seq<nat>, prototypes: seq<Cache>, level: nat)
      requires Valid() && level < |caches| && testers[|caches|] != 0 && Balanced(level)
      requires ncaches == caches[|caches| - level..] && prototypes == protos[|caches| - level..]
      requires n == Fanout(level) && 0 < next[level + 1] && next[level] == (next[level + 1] - 1) * n
      modifies this
      ensures Valid() && Grown(old(next), next, n, ncaches) && Balanced(level)
      ensures made == old(made) + n * TreeTesters(ncaches, testers[|caches| - level..])
      decreases level, 2
    {
      ghost var each := TreeTesters(ncaches, testers[|caches| - level..]);
      var parent := next[level + 1] - 1;
      for k := 0 to n
        invariant Valid() && Grown(old(next), next, k, ncaches) && Balanced(level) && made == old(made) + k * each
      {
        ghost var mid := next;
        ModUnique(parent * n + k, n, parent, k);
        var ok := MakeCacheLevel(ncaches, prototypes, level, Some(CacheId(level + 1, parent, k)));
        GrownOne(old(next), mid, next, k, ncaches);
        OneMore(k, each);
      }
    }
  }

  // ---------------------------------------------------------------- the two counts agree

  lemma {:induction false} ProductFront(cs: seq<int>)
    requires cs != []
    ensures Product(cs) == cs[0] * Product(cs[1..])
  {
    var n := |cs| - 1;
    if n == 0 {
      assert cs[..0] == [] && cs[1..] == [];
    } else {
      ProductFront(cs[..n]);
      assert cs[..n][1..] == cs[1..][..n - 1];
      Associates(cs[0], Product(cs[1..][..n - 1]), cs[n]);
    }
  }

  /** A level holds as many subsystems as the product of the cache counts nearer memory. */
  lemma {:induction false} FanIsProduct(cs: seq<nat>, l: nat)
    requires l <= |cs|
    ensures Fan(cs, l) == Product(cs[..|cs| - l])
    decreases |cs|
  {
    var k := |cs| - l;
    if 0 < k {
      FanIsProduct(cs[1..], l);
      ProductFront(cs[..k]);
      assert cs[..k][1..] == cs[1..][..k - 1];
    }
  }

  /** Taking out the first level: everything after it is multiplied by the first cache count. */
  lemma {:induction false} ProductSumFront(cs: seq<int>, ts: seq<int>, n: nat)
    requires cs != [] && 0 < n <= |ts| && n <= |cs| + 1
    ensures ProductSum(cs, ts, n) == ts[0] + cs[0] * ProductSum(cs[1..], ts[1..], n - 1)
    decreases n
  {
    if n == 1 {
      assert cs[..0] == [];
    } else {
      var rest, p, t := ProductSum(cs[1..], ts[1..], n - 2), Product(cs[1..][..n - 2]), ts[n - 1];
      ProductSumFront(cs, ts, n - 1);
      ProductFront(cs[..n - 1]);
      assert cs[..n - 1][1..] == cs[1..][..n - 2];
      Distributes(cs[0], rest, t, p);
    }
  }

  lemma Distributes(c: int, rest: int, t: int, p: int)
    ensures c * (rest + t * p) == c * rest + t * (c * p)
  {
    assert c * (rest + t * p) == c * rest + c * (t * p);
    assert c * (t * p) == t * (c * p);
  }

  lemma {:induction false} TestersAgree(cs: seq<nat>, ts: seq<nat>)
    requires |ts| == |cs| + 1
    ensures TreeTesters(cs, ts) == ProductSum(cs, ts, |ts|)
    decreases |cs|
  {
    if cs == [] {
      assert cs[..0] == [];
      assert ProductSum(cs, ts, 1) == ProductSum(cs, ts, 0) + ts[0] * Product(cs[..0]);
    } else {
      TestersAgree(cs[1..], ts[1..]);
      ProductSumFront(cs, ts, |ts|);
    }
  }

  lemma InsideProduct(j: nat, n: nat, f: nat, k: nat)
    requires j < n && k < f
    ensures 0 <= j * f + k < n * f
  {
    MulAtLeast(f, n - j);
    assert n * f == j * f + f * (n - j);
  }

  lemma QuotientInside(i: nat, n: nat, f: nat)
    requires 0 < f && i < n * f
    ensures 0 <= i / f < n && i % f < f
  {
    MulAtLeast(f, i / f - n);
    assert f * (i / f - n) == f * (i / f) - f * n;
  }

  /** Each cache that fans out has exactly one subsystem hanging on it. */
  lemma CacheServes(t: Tree, l: nat, j: nat, k: nat) returns (i: nat)
    requires t.Valid() && t.Balanced(|t.caches|) && l < |t.caches| && j < t.next[l + 1] && k < t.Fanout(l)
    ensures (l, i) in t.subsystems && t.subsystems[(l, i)].above == Some(CacheId(l + 1, j, k))
    ensures forall m :: (l, m) in t.subsystems && t.subsystems[(l, m)].above == Some(CacheId(l + 1, j, k)) ==> m == i
  {
    var f := t.Fanout(l);
    i := j * f + k;
    InsideProduct(j, t.next[l + 1], f, k);
    assert t.next[l] == t.next[l + 1] * f;
    ModUnique(i, f, j, k);
    forall m | (l, m) in t.subsystems && t.subsystems[(l, m)].above == Some(CacheId(l + 1, j, k))
      ensures m == i
    {
      assert m / f == j && m % f == k;
    }
  }

  /** Each subsystem but the one nearest memory hangs on a cache of a subsystem of the next level. */
  lemma HangsOnCache(t: Tree, l: nat, i: nat)
    requires t.Valid() && t.Balanced(|t.caches|) && l < |t.caches| && (l, i) in t.subsystems
    ensures var c := t.subsystems[(l, i)].above;
            c.Some? && c.value.level == l + 1 && (l + 1, c.value.index) in t.subsystems && c.value.cache < t.Fanout(l)
  {
    QuotientInside(i, t.next[l + 1], t.Fanout(l));
  }

  /** A number of equal elements. */
  ghost predicate AllEqual<T>(s: seq<T>, n: nat, x: T) {
    |s| == n && forall j :: 0 <= j < n ==> s[j] == x
  }

  /** Behind an L1 cache for each tester, the caches with which a subsystem of level `l` fans out. */
  ghost predicate FansOut(cs: seq<Cache>, caches: seq<nat>, testers: seq<nat>, l1: Cache, l: nat)
    requires 0 < l <= |caches| < |testers|
  {
    var k := |caches| - l;
    && 0 <= Product(caches[..l - 1]) && testers[k] <= |cs|
    && AllEqual(cs[..testers[k]], testers[k], l1)
    && AllEqual(cs[testers[k]..], caches[k], Outwards(l1, Product(caches[..l - 1]), l - 1))
  }

  /** What the script puts in subsystem `i` of level `l`, and what it hangs it on. */
  ghost predicate Described(s: Subsystem, caches: seq<nat>, testers: seq<nat>, l1: Cache, l: nat, i: nat)
    requires l <= |caches| < |testers|
    requires forall k :: 0 <= k < |caches| ==> 0 < caches[k]
  {
    var k := |caches| - l;
    && AllEqual(s.testers, testers[k], Tester(10 * (l * l + 1), (k + 1) * 100000000))
    && (if l == 0 then s.caches == [] else FansOut(s.caches, caches, testers, l1, l))
    && (s.crossbar <==> 0 < l || 1 < testers[k])
    && s.above == if k == 0 then None else Some(CacheId(l + 1, i / caches[k - 1], i % caches[k - 1]))
  }

  lemma PartDescribed(t: Tree, l: nat, i: nat)
    requires t.Valid() && l <= |t.caches|
    requires 0 < l ==>
               && 0 <= Product(t.caches[..l - 1])
               && t.protos[|t.caches| - l] == Outwards(t.l1, Product(t.caches[..l - 1]), l - 1)
    ensures Described(t.Part(l, i), t.caches, t.testers, t.l1, l, i)
  {
  }

  /**
   The whole script: the testers created are those of the product-sum formula, a level holds as many
   subsystems as the product of the cache counts nearer memory, no two have the same name, and every
   cache that fans out has its subsystem.
   */
  method Build(caches: seq<nat>, testers: seq<nat>, l1: Cache) returns (t: Tree)
    requires Accepted(caches, testers)
    ensures t.Valid() && t.caches == caches && t.testers == testers
    ensures t.made == ProductSum(caches, testers, |testers|) <= 64
    ensures forall l: nat :: l <= |caches| ==> t.next[l] == Product(caches[..|caches| - l])
    ensures forall a, b :: a in t.subsystems && b in t.subsystems && a != b ==> Name(a.0, a.1) != Name(b.0, b.1)
    ensures forall l: nat, i: nat :: (l, i) in t.subsystems ==>
              l <= |caches| && Described(t.subsystems[(l, i)], caches, testers, l1, l, i)
    ensures t.Balanced(|caches|)
  {
    var protos := Prototypes(l1, caches);
    t := new Tree(caches, testers, protos, l1);
    assert caches[0..] == caches && protos[0..] == protos && testers[0..] == testers;
    var ok := t.MakeCacheLevel(caches, protos, |caches|, None);
    TestersAgree(caches, testers);
    forall l: nat | l <= |caches|
      ensures t.next[l] == Product(caches[..|caches| - l])
    {
      FanIsProduct(caches, l);
    }
    forall a, b | a in t.subsystems && b in t.subsystems && a != b
      ensures Name(a.0, a.1) != Name(b.0, b.1)
    {
      NamesDiffer(a.0, a.1, b.0, b.1);
    }
    forall l: nat, i: nat | (l, i) in t.subsystems
      ensures l <= |caches| && Described(t.subsystems[(l, i)], caches, testers, l1, l, i)
    {
      if 0 < l {
        PrototypeAt(l1, caches, protos, l - 1);
      }
      PartDescribed(t, l, i);
    }
  }
}
