/**
 Evenly spaced selection, after `select_evenly_spaced` in lapidary/utils/Utils.py.
 Keys come already in natural sort order.
 */
module EvenSelection {
  import opened Arithmetic

  /** Pick number `i` when `m` of `n` positions are selected. */
  function Pick(i: int, n: int, m: int): int
    requires 0 <= n && 0 < m
  {
    i * n / m + n / (2 * m)
  }

  function KeyAt<K>(keys: seq<K>, i: nat, m: nat): (k: K)
    requires i < m <= |keys|
    ensures k in keys
  {
    PickInRange(i, |keys|, m);
    keys[Pick(i, |keys|, m)]
  }

  function SelectEvenlySpaced<K>(keys: seq<K>, wanted: int): (r: seq<K>)
    ensures |r| == if wanted > |keys| then |keys| else if wanted < 0 then 0 else wanted
    ensures forall i :: 0 <= i < |r| ==> r[i] in keys
  {
    if wanted > |keys| then keys
    else if wanted <= 0 then []
    else seq(wanted, i requires 0 <= i < wanted => KeyAt(keys, i, wanted))
  }

  lemma FloorBounds(x: int, m: int)
    requires 0 < m
    ensures m * (x / m) <= x < m * (x / m) + m
  {
  }

  lemma MulOrder(m: int, a: int, b: int)
    requires 0 < m
    ensures m * a < m * b ==> a < b
    ensures a <= b ==> m * a <= m * b
  {
  }

  /** Picks `k` places apart are as far apart as their share of the positions, to within less than one. */
  lemma PickDistance(i: int, k: nat, n: int, m: int)
    requires 0 <= n && 0 < m
    ensures k * n - m < m * (Pick(i + k, n, m) - Pick(i, n, m)) < k * n + m
  {
    var x, y := i * n / m, (i + k) * n / m;
    FloorBounds(i * n, m);
    FloorBounds((i + k) * n, m);
    assert m * (y - x) == m * y - m * x;
    assert (i + k) * n == i * n + k * n;
  }

  lemma PickAscends(i: int, j: int, n: int, m: int)
    requires 0 < m <= n && i < j
    ensures Pick(i, n, m) < Pick(j, n, m)
  {
    PickDistance(i, j - i, n, m);
    MulOrder(n, 1, j - i);
    MulOrder(m, 0, Pick(j, n, m) - Pick(i, n, m));
  }

  /** The first pick is half a gap in. */
  lemma FirstPick(n: int, m: int)
    requires 0 < m <= n
    ensures 0 <= n / (2 * m) == Pick(0, n, m)
  {
    FloorBounds(n, 2 * m);
    MulOrder(2 * m, 0, n / (2 * m) + 1);
  }

  /** A pick past the last would be past the end. */
  lemma PickPastEnd(n: int, m: int)
    requires 0 < m <= n
    ensures n <= Pick(m, n, m)
  {
    FirstPick(n, m);
    assert m * n / m == n by { ModUnique(m * n, m, n, 0); }
  }

  lemma LastPick(n: int, m: int)
    requires 0 < m <= n
    ensures Pick(m - 1, n, m) < n
  {
    var last, half := (m - 1) * n / m, n / (2 * m);
    FloorBounds((m - 1) * n, m);
    FloorBounds(n, 2 * m);
    assert (m - 1) * n == m * n - n;
    assert 2 * m * half == 2 * (m * half);
    assert m * (last + half) == m * last + m * half;
    MulOrder(m, last + half, n);
  }

  lemma PickInRange(i: int, n: int, m: int)
    requires 0 < m <= n && 0 <= i < m
    ensures 0 <= Pick(i, n, m) < n
  {
    FirstPick(n, m);
    LastPick(n, m);
    if 0 < i { PickAscends(0, i, n, m); }
    if i < m - 1 { PickAscends(i, m - 1, n, m); }
  }

  /** Neighbouring picks are n/m apart, rounded down or up. */
  lemma PickGap(i: int, n: int, m: int)
    requires 0 < m <= n
    ensures Pick(i + 1, n, m) - Pick(i, n, m) == n / m || Pick(i + 1, n, m) - Pick(i, n, m) == n / m + 1
  {
    var g, q := Pick(i + 1, n, m) - Pick(i, n, m), n / m;
    PickDistance(i, 1, n, m);
    FloorBounds(n, m);
    assert m * (q - 1) == m * q - m && m * (q + 2) == m * q + 2 * m;
    MulOrder(m, q - 1, g);
    MulOrder(m, g, q + 2);
  }

  // ---------------------------------------------------------------- balance

  /** How many of the first `k` picks fall in the window of `len` positions from `a`. */
  function PicksIn(n: int, m: int, a: int, len: nat, k: nat): nat
    requires 0 <= n && 0 < m
  {
    if k == 0 then 0 else
      PicksIn(n, m, a, len, k - 1) + if a <= Pick(k - 1, n, m) < a + len then 1 else 0
  }

  function PicksBelow(n: int, m: int, x: int, k: nat): (b: nat)
    requires 0 <= n && 0 < m
    ensures b <= k
  {
    if k == 0 then 0 else PicksBelow(n, m, x, k - 1) + if Pick(k - 1, n, m) < x then 1 else 0
  }

  lemma {:induction false} PicksInIs(n: int, m: int, a: int, len: nat, k: nat)
    requires 0 <= n && 0 < m
    ensures PicksIn(n, m, a, len, k) == PicksBelow(n, m, a + len, k) - PicksBelow(n, m, a, k)
  {
    if 0 < k {
      PicksInIs(n, m, a, len, k - 1);
    }
  }

  /** Picks ascend, so those below `x` are the first ones. */
  lemma {:induction false} PicksBelowIs(n: int, m: int, x: int, k: nat, i: nat)
    requires 0 < m <= n && i < k
    ensures i < PicksBelow(n, m, x, k) <==> Pick(i, n, m) < x
  {
    if i < k - 1 {
      PicksBelowIs(n, m, x, k - 1, i);
      PickAscends(i, k - 1, n, m);
    } else if 0 < i {
      PicksBelowIs(n, m, x, k - 1, i - 1);
      PickAscends(i - 1, i, n, m);
    }
  }

  lemma UpperShare(n: int, m: int, c: int, d: int, len: int)
    requires 0 < m && (c - 1) * n - m < m * d && d <= len - 1
    ensures (c - 1) * n < len * m
  {
    MulOrder(m, d, len - 1);
    assert m * (len - 1) == len * m - m;
  }

  lemma LowerShare(n: int, m: int, c: int, d: int, len: int)
    requires 0 < m && m * d < (c + 1) * n + m && len + 1 <= d
    ensures len * m < (c + 1) * n
  {
    MulOrder(m, len + 1, d);
    assert m * (len + 1) == len * m + m;
  }

  /** The distance between the first and the last pick in a window. */
  lemma PicksWithin(n: int, m: int, a: int, len: nat) returns (c: int, d: int)
    requires 0 < m <= n
    ensures c == PicksIn(n, m, a, len, m)
    ensures 0 < c ==> (c - 1) * n - m < m * d && d <= len - 1
  {
    var lo, hi := PicksBelow(n, m, a, m), PicksBelow(n, m, a + len, m);
    PicksInIs(n, m, a, len, m);
    c := hi - lo;
    if 0 < c {
      PicksBelowIs(n, m, a, m, lo);
      PicksBelowIs(n, m, a + len, m, hi - 1);
      PickDistance(lo, c - 1, n, m);
      d := Pick(hi - 1, n, m) - Pick(lo, n, m);
    } else {
      d := 0;
    }
  }

  /** Every window holds fewer than its share of picks plus one. */
  lemma WindowUpper(n: int, m: int, a: int, len: nat)
    requires 0 < m <= n
    ensures (PicksIn(n, m, a, len, m) - 1) * n < len * m
  {
    var c, d := PicksWithin(n, m, a, len);
    if 0 < c {
      UpperShare(n, m, c, d, len);
    } else {
      MulOrder(m, 0, len);
    }
  }

  /** Picks on either side of a window bound its share. */
  lemma SpanShare(n: int, m: int, a: int, len: nat, before: int, c: nat)
    requires 0 <= n && 0 < m && Pick(before, n, m) < a && a + len <= Pick(before + (c + 1), n, m)
    ensures len * m < (c + 1) * n
  {
    PickDistance(before, c + 1, n, m);
    LowerShare(n, m, c, Pick(before + (c + 1), n, m) - Pick(before, n, m), len);
  }

  /** The picks just before and just after a window that starts no earlier than the first pick. */
  lemma PicksAround(n: int, m: int, a: int, len: nat) returns (before: int, c: nat)
    requires 0 < m <= n && Pick(0, n, m) <= a && a + len <= n
    ensures c == PicksIn(n, m, a, len, m)
    ensures Pick(before, n, m) < a && a + len <= Pick(before + (c + 1), n, m)
  {
    var lo: int, hi: int := PicksBelow(n, m, a, m), PicksBelow(n, m, a + len, m);
    PicksInIs(n, m, a, len, m);
    before, c := lo - 1, PicksIn(n, m, a, len, m);
    PickPastEnd(n, m);
    if 0 < lo { PicksBelowIs(n, m, a, m, lo - 1); } else { PickAscends(-1, 0, n, m); }
    if hi < m { PicksBelowIs(n, m, a + len, m, hi); }
  }

  /** A window inside the positions that starts no earlier than the first pick holds more than its share minus one. */
  lemma WindowLower(n: int, m: int, a: int, len: nat)
    requires 0 < m <= n && n / (2 * m) <= a && a + len <= n
    ensures len * m < (PicksIn(n, m, a, len, m) + 1) * n
  {
    FirstPick(n, m);
    var before, c := PicksAround(n, m, a, len);
    SpanShare(n, m, a, len, before, c);
  }

  /** Selection keeps the order of the keys and repeats none. */
  lemma SelectionDistinct<K>(keys: seq<K>, wanted: int)
    requires forall i, j :: 0 <= i < j < |keys| ==> keys[i] != keys[j]
    ensures var r := SelectEvenlySpaced(keys, wanted); forall i, j :: 0 <= i < j < |r| ==> r[i] != r[j]
  {
    var r := SelectEvenlySpaced(keys, wanted);
    if 0 < wanted <= |keys| {
      forall i, j | 0 <= i < j < |r|
        ensures r[i] != r[j]
      {
        PickAscends(i, j, |keys|, wanted);
        PickInRange(i, |keys|, wanted);
        PickInRange(j, |keys|, wanted);
      }
    }
  }

  /** Selection keeps the order of the keys: later selected keys come from later positions. */
  lemma SelectionInOrder<K>(keys: seq<K>, wanted: int, i: nat, j: nat)
    requires i < j < wanted <= |keys|
    ensures var r, p, q := SelectEvenlySpaced(keys, wanted), Pick(i, |keys|, wanted), Pick(j, |keys|, wanted);
            0 <= p < q < |keys| && r[i] == keys[p] && r[j] == keys[q]
  {
    PickAscends(i, j, |keys|, wanted);
    PickInRange(i, |keys|, wanted);
    PickInRange(j, |keys|, wanted);
  }
}
