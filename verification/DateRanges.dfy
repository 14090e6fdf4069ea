/**
 Copyright years as text, after `datestr` and `process_dates` in
 custom_gem5/util/find_copyrights.py: a set of years is printed as comma-separated years and
 ranges, and read back.
 */
module DateRanges {
  import opened Basics
  import opened Text

  datatype Range = Range(first: nat, last: nat)

  predicate InRange(r: Range, y: int) {
    r.first <= y <= r.last
  }

  ghost predicate Covers(rs: seq<Range>, y: int) {
    exists i :: 0 <= i < |rs| && InRange(rs[i], y)
  }

  // ---------------------------------------------------------------- sorting

  ghost predicate Ascending(ys: seq<nat>) {
    forall i, j :: 0 <= i < j < |ys| ==> ys[i] < ys[j]
  }

  function Place(ys: seq<nat>, y: nat): (p: nat)
    requires Ascending(ys) && y !in ys
    ensures p <= |ys|
    ensures forall i :: 0 <= i < p ==> ys[i] < y
    ensures forall i :: p <= i < |ys| ==> y < ys[i]
  {
    if ys == [] || ys[|ys| - 1] < y then |ys| else Place(ys[..|ys| - 1], y)
  }

  /** The members of a set listed in some order, sorted. */
  function Sorted(ys: seq<nat>): (r: seq<nat>)
    requires forall i, j :: 0 <= i < j < |ys| ==> ys[i] != ys[j]
    ensures Ascending(r) && |r| == |ys| && forall y :: y in r <==> y in ys
  {
    if ys == [] then [] else
      var r, y := Sorted(ys[..|ys| - 1]), ys[|ys| - 1];
      assert ys == ys[..|ys| - 1] + [y];
      var p := Place(r, y);
      assert r == r[..p] + r[p..];
      r[..p] + [y] + r[p..]
  }

  // ---------------------------------------------------------------- printing

  /** The maximal runs of consecutive years. */
  function Runs(ys: seq<nat>): (rs: seq<Range>)
    requires 0 < |ys|
    ensures 0 < |rs|
  {
    var y := ys[|ys| - 1];
    if |ys| == 1 then [Range(y, y)] else
      var rs := Runs(ys[..|ys| - 1]);
      var r := rs[|rs| - 1];
      if y == r.last + 1 then rs[..|rs| - 1] + [Range(r.first, y)] else rs + [Range(y, y)]
  }

  function RangeText(r: Range): string {
    if r.first == r.last then Decimal(r.first) else Decimal(r.first) + ['-'] + Decimal(r.last)
  }

  function RangeTexts(rs: seq<Range>): (ts: seq<string>)
    ensures |ts| == |rs| && forall i :: 0 <= i < |rs| ==> ts[i] == RangeText(rs[i])
  {
    if rs == [] then [] else RangeTexts(rs[..|rs| - 1]) + [RangeText(rs[|rs| - 1])]
  }

  function DateText(ys: seq<nat>): string
    requires 0 < |ys|
  {
    Join(RangeTexts(Runs(ys)), ',')
  }

  /** `done` and then `cur` are the runs of the first `k` years; what the next year makes of them. */
  lemma RunsOne(ys: seq<nat>, k: nat, done: seq<Range>, cur: Range)
    requires 0 < k < |ys| && Runs(ys[..k]) == done + [cur]
    ensures Runs(ys[..k + 1]) == if ys[k] == cur.last + 1 then done + [Range(cur.first, ys[k])]
            else (done + [cur]) + [Range(ys[k], ys[k])]
  {
    assert ys[..k + 1][..k] == ys[..k];
    assert (done + [cur])[..|done|] == done;
  }

  lemma RangeTextsOne(rs: seq<Range>, r: Range)
    ensures RangeTexts(rs + [r]) == RangeTexts(rs) + [RangeText(r)]
  {
    assert (rs + [r])[..|rs|] == rs;
  }

  /** No output for the empty set, on which the source fails. */
  method DateStr(dates: seq<nat>) returns (text: Option<string>)
    requires forall i, j :: 0 <= i < j < |dates| ==> dates[i] != dates[j]
    ensures text.None? <==> dates == []
    ensures dates != [] ==> text == Some(DateText(Sorted(dates)))
  {
    if dates == [] {
      return None;
    }
    var ys := Sorted(dates);
    var output := PrintRuns(ys);
    text := Some(Join(output, ','));
  }

  method PrintRuns(ys: seq<nat>) returns (output: seq<string>)
    requires 0 < |ys|
    ensures output == RangeTexts(Runs(ys))
  {
    output := [];
    var first, second := ys[0], ys[0];
    ghost var done: seq<Range> := [];
    assert ys[..1] == [ys[0]] && [] + [Range(first, second)] == [Range(first, second)];
    for k := 1 to |ys|
      invariant Runs(ys[..k]) == done + [Range(first, second)] && output == RangeTexts(done)
    {
      RunsOne(ys, k, done, Range(first, second));
      if ys[k] == second + 1 {
        second := ys[k];
      } else {
        RangeTextsOne(done, Range(first, second));
        output := output + [RangeText(Range(first, second))];
        done := done + [Range(first, second)];
        first, second := ys[k], ys[k];
      }
    }
    assert ys[..|ys|] == ys;
    RangeTextsOne(done, Range(first, second));
    output := output + [RangeText(Range(first, second))];
  }

  // ---------------------------------------------------------------- reading

  /** The range at the start of `s`: four digits, a hyphen, four digits, with spaces around the hyphen. */
  function MatchRange(s: string): Option<Range> {
    if |s| < 4 || !AllDigits(s[..4]) then None else
      var t := StripLeft(s[4..]);
      if t == [] || t[0] != '-' then None else
        var u := StripLeft(t[1..]);
        if |u| < 4 || !AllDigits(u[..4]) then None else Some(Range(Numeral(s[..4]), Numeral(u[..4])))
  }

  function Years(first: nat, last: nat): (s: set<nat>)
    ensures forall y: nat :: y in s <==> first <= y <= last
    decreases last
  {
    if last < first then {} else if last == first then {last} else Years(first, last - 1) + {last}
  }

  function YearsOf(piece: string): set<nat> {
    match MatchRange(Strip(piece))
    case Some(r) => Years(r.first, r.last)
    case None =>
      match ParseNat(Strip(piece))
      case Some(y) => {y}
      case None => {}
  }

  function AllYears(pieces: seq<string>): set<nat> {
    if pieces == [] then {} else AllYears(pieces[..|pieces| - 1]) + YearsOf(pieces[|pieces| - 1])
  }

  method AddRange(years: set<nat>, r: Range) returns (output: set<nat>)
    ensures output == years + Years(r.first, r.last)
  {
    output := years;
    var y := r.first;
    while y <= r.last
      invariant r.first <= y && (y == r.first || y <= r.last + 1)
      invariant forall z: nat :: z in output <==> z in years || r.first <= z < y
    {
      output := output + {y};
      y := y + 1;
    }
  }

  method ProcessDates(text: string) returns (output: set<nat>)
    ensures output == AllYears(Split(text, ','))
    ensures forall y :: y in output <==> exists i :: 0 <= i < |Split(text, ',')| && Says(Split(text, ',')[i], y)
  {
    var pieces := Split(text, ',');
    output := {};
    for i := 0 to |pieces|
      invariant output == AllYears(pieces[..i])
    {
      assert pieces[..i + 1][..i] == pieces[..i];
      var date := Strip(pieces[i]);
      var m := MatchRange(date);
      if m.Some? {
        output := AddRange(output, m.value);
      } else {
        var n := ParseNat(date);
        if n.Some? {
          output := output + {n.value};
        }
      }
    }
    assert pieces[..|pieces|] == pieces;
    forall y: nat
      ensures y in output <==> exists i :: 0 <= i < |pieces| && Says(pieces[i], y)
    {
      ReadIs(pieces, y);
    }
  }

  // ---------------------------------------------------------------- what is read of any text

  /** The text starts with a range: four digits, a hyphen with white space around it, four digits. */
  ghost predicate StartsWithRange(s: string, r: Range) {
    exists a: string, x: string, y: string, b: string, rest: string :: IsRange(s, r, a, x, y, b, rest)
  }

  ghost predicate IsRange(s: string, r: Range, a: string, x: string, y: string, b: string, rest: string) {
    && s == a + (x + ("-" + (y + (b + rest)))) && |a| == |b| == 4 && AllSpace(x) && AllSpace(y)
    && AllDigits(a) && AllDigits(b) && r == Range(Numeral(a), Numeral(b))
  }

  lemma MatchedIs(s: string, r: Range)
    requires MatchRange(s) == Some(r)
    ensures StartsWithRange(s, r)
  {
    var x := StripLeftIs(s[4..]);
    var t := StripLeft(s[4..]);
    var y := StripLeftIs(t[1..]);
    var u := StripLeft(t[1..]);
    assert t == "-" + (y + u) && u == u[..4] + u[4..] && s == s[..4] + (x + t);
    assert IsRange(s, r, s[..4], x, y, u[..4], u[4..]);
  }

  lemma IsMatched(s: string, r: Range, a: string, x: string, y: string, b: string, rest: string)
    requires IsRange(s, r, a, x, y, b, rest)
    ensures MatchRange(s) == Some(r)
  {
    var u := b + rest;
    var t := "-" + (y + u);
    assert s[..4] == a && s[4..] == x + t;
    StripLeftAll(x, t);
    assert t[1..] == y + u;
    assert IsDigit(b[0]);
    StripLeftAll(y, u);
    assert u[..4] == b;
  }

  /** The reader finds a range exactly where there is one. */
  lemma MatchRangeIs(s: string, r: Range)
    ensures MatchRange(s) == Some(r) <==> StartsWithRange(s, r)
  {
    if MatchRange(s) == Some(r) {
      MatchedIs(s, r);
    }
    forall a, x, y, b, rest | IsRange(s, r, a, x, y, b, rest)
      ensures MatchRange(s) == Some(r)
    {
      IsMatched(s, r, a, x, y, b, rest);
    }
  }

  /** A piece between commas says year `y`: it starts with a range around it, or with none and is the numeral. */
  ghost predicate Says(piece: string, y: int) {
    || (exists r :: StartsWithRange(Strip(piece), r) && r.first <= y <= r.last)
    || ((forall r :: !StartsWithRange(Strip(piece), r)) && ParseNat(Strip(piece)).Some? &&
        ParseNat(Strip(piece)).value == y)
  }

  lemma YearsAre(piece: string, y: nat)
    ensures y in YearsOf(piece) <==> Says(piece, y)
  {
    var s := Strip(piece);
    forall r
      ensures MatchRange(s) == Some(r) <==> StartsWithRange(s, r)
    {
      MatchRangeIs(s, r);
    }
  }

  /** The years read of a text are those that one of its pieces says. */
  lemma ReadIs(pieces: seq<string>, y: nat)
    ensures y in AllYears(pieces) <==> exists i :: 0 <= i < |pieces| && Says(pieces[i], y)
  {
    AllYearsAre(pieces, y);
    forall i | 0 <= i < |pieces|
      ensures y in YearsOf(pieces[i]) <==> Says(pieces[i], y)
    {
      YearsAre(pieces[i], y);
    }
  }

  // ---------------------------------------------------------------- runs

  /** Ranges in order, each non-empty, with at least one year missing between neighbours. */
  ghost predicate Separated(rs: seq<Range>) {
    && (forall i :: 0 <= i < |rs| ==> rs[i].first <= rs[i].last)
    && (forall i, j :: 0 <= i < j < |rs| ==> rs[i].last + 1 < rs[j].first)
  }

  /** Separated ranges that cover exactly the given years. */
  ghost predicate AreRuns(rs: seq<Range>, ys: seq<nat>) {
    Separated(rs) && forall y :: Covers(rs, y) <==> y in ys
  }

  /** The runs are separated, so disjoint and maximal, and cover exactly the years. */
  lemma {:induction false} RunsAre(ys: seq<nat>)
    requires Ascending(ys) && 0 < |ys|
    ensures AreRuns(Runs(ys), ys) && Runs(ys)[|Runs(ys)| - 1].last == ys[|ys| - 1]
  {
    var n := |ys| - 1;
    if n == 0 {
      assert Runs(ys) == [Range(ys[0], ys[0])] && InRange(Runs(ys)[0], ys[0]);
    } else {
      RunsAre(ys[..n]);
      RunsExtend(Runs(ys[..n]), ys[..n], ys[n], Runs(ys));
      assert ys == ys[..n] + [ys[n]];
    }
  }

  lemma RunsExtend(init: seq<Range>, ys: seq<nat>, y: nat, rs: seq<Range>)
    requires AreRuns(init, ys) && 0 < |init| && init[|init| - 1].last < y
    requires var r := init[|init| - 1];
             rs == if y == r.last + 1 then init[..|init| - 1] + [Range(r.first, y)] else init + [Range(y, y)]
    ensures AreRuns(rs, ys + [y]) && 0 < |rs| && rs[|rs| - 1].last == y
  {
    RunsCover(init, rs, y);
  }

  lemma RunsCover(init: seq<Range>, rs: seq<Range>, y: nat)
    requires 0 < |init| && init[|init| - 1].first <= init[|init| - 1].last
    requires var r := init[|init| - 1];
             rs == if y == r.last + 1 then init[..|init| - 1] + [Range(r.first, y)] else init + [Range(y, y)]
    ensures forall z :: Covers(rs, z) <==> Covers(init, z) || z == y
  {
    var m := |init| - 1;
    forall z
      ensures Covers(rs, z) <==> Covers(init, z) || z == y
    {
      if Covers(init, z) {
        var i :| 0 <= i < |init| && InRange(init[i], z);
        assert InRange(rs[i], z);
      }
      if z == y {
        assert InRange(rs[|rs| - 1], z);
      }
      if Covers(rs, z) {
        var i :| 0 <= i < |rs| && InRange(rs[i], z);
        if i < m {
          assert InRange(init[i], z);
        } else if z != y {
          assert InRange(init[m], z);
        }
      }
    }
  }

  function Below(n: nat): (s: set<nat>)
    ensures |s| == n && forall i: nat :: i in s <==> i < n
  {
    if n == 0 then {} else Below(n - 1) + {n - 1}
  }

  lemma DistinctBound(g: seq<nat>, n: nat)
    requires (forall i :: 0 <= i < |g| ==> g[i] < n) && (forall i, j :: 0 <= i < j < |g| ==> g[i] != g[j])
    ensures |g| <= n
  {
    var s := set i | 0 <= i < |g| :: g[i];
    DistinctSize(g, s);
    assert s <= Below(n);
    SubsetSize(s, Below(n));
  }

  lemma {:induction false} DistinctSize(g: seq<nat>, s: set<nat>)
    requires s == (set i | 0 <= i < |g| :: g[i]) && forall i, j :: 0 <= i < j < |g| ==> g[i] != g[j]
    ensures |s| == |g|
    decreases |g|
  {
    if g != [] {
      var init, x := g[..|g| - 1], g[|g| - 1];
      var t := set i | 0 <= i < |init| :: init[i];
      DistinctSize(init, t);
      assert forall i :: 0 <= i < |init| ==> init[i] == g[i];
      assert s == t + {x} by {
        forall y | y in s
          ensures y in t + {x}
        {
          var i :| 0 <= i < |g| && g[i] == y;
          if i < |init| { assert init[i] == y; }
        }
        forall y | y in t
          ensures y in s
        {
          var i :| 0 <= i < |init| && init[i] == y;
          assert g[i] == y;
        }
        assert g[|g| - 1] == x;
      }
      assert x !in t;
    }
  }

  lemma SubsetSize(a: set<nat>, b: set<nat>)
    requires a <= b
    ensures |a| <= |b|
  {
    assert b == a + (b - a);
  }

  /** One range cannot hold the first years of two runs, because of the gap between them. */
  lemma FirstsApart(runs: seq<Range>, rs: seq<Range>, i: nat, j: nat, a: nat, b: nat)
    requires Separated(runs) && i < j < |runs| && forall y :: Covers(rs, y) <==> Covers(runs, y)
    requires a < |rs| && b < |rs| && InRange(rs[a], runs[i].first) && InRange(rs[b], runs[j].first)
    ensures a != b
  {
    GapBetween(runs, i, j);
    var y := runs[i].last + 1;
    assert !Covers(rs, y);
    assert !InRange(rs[a], y);
  }

  /** No list of ranges that denotes the same years is shorter than the runs. */
  lemma RunsShortest(ys: seq<nat>, rs: seq<Range>)
    requires Ascending(ys) && 0 < |ys| && forall y :: Covers(rs, y) <==> y in ys
    ensures |Runs(ys)| <= |rs|
  {
    var runs := Runs(ys);
    RunsAre(ys);
    var g: seq<nat> := [];
    for k := 0 to |runs|
      invariant |g| == k
      invariant forall i :: 0 <= i < k ==> g[i] < |rs| && InRange(rs[g[i]], runs[i].first)
    {
      assert InRange(runs[k], runs[k].first);
      assert Covers(rs, runs[k].first);
      var j :| 0 <= j < |rs| && InRange(rs[j], runs[k].first);
      g := g + [j];
    }
    forall i, j | 0 <= i < j < |g|
      ensures g[i] != g[j]
    {
      FirstsApart(runs, rs, i, j, g[i], g[j]);
    }
    DistinctBound(g, |rs|);
  }

  lemma GapBetween(runs: seq<Range>, i: nat, j: nat)
    requires Separated(runs) && i < j < |runs|
    ensures runs[i].first <= runs[i].last + 1 <= runs[j].first && !Covers(runs, runs[i].last + 1)
  {
  }

  // ---------------------------------------------------------------- reading what was printed

  lemma DecimalLength(n: nat)
    ensures n < 1000 ==> |Decimal(n)| < 4
    ensures 1000 <= n <= 9999 ==> |Decimal(n)| == 4
    ensures 9999 < n ==> 4 < |Decimal(n)|
  {
    assert 10 <= n ==> |Decimal(n)| == 1 + |Decimal(n / 10)|;
    assert 100 <= n ==> |Decimal(n / 10)| == 1 + |Decimal(n / 100)| by { assert n / 10 / 10 == n / 100; }
    assert 1000 <= n ==> |Decimal(n / 100)| == 1 + |Decimal(n / 1000)| by { assert n / 100 / 10 == n / 1000; }
    assert 10000 <= n ==> |Decimal(n / 1000)| == 1 + |Decimal(n / 10000)| by { assert n / 1000 / 10 == n / 10000; }
  }

  lemma FourDigits(s: string)
    requires |s| == 4 && AllDigits(s)
    ensures Numeral(s) <= 9999
  {
    var a, b, c := s[..3], s[..2], s[..1];
    assert a[..2] == b && b[..1] == c && c[..0] == [];
    assert Numeral(c) <= 9;
    assert Numeral(b) <= 99;
    assert Numeral(a) <= 999;
  }

  lemma DigitsNotSpace(s: string)
    requires s != [] && IsDigit(s[0])
    ensures StripLeft(s) == s
  {
  }

  /** A single year is read as itself. */
  lemma ReadYear(y: nat)
    ensures YearsOf(Decimal(y)) == {y}
  {
    var s := Decimal(y);
    DecimalIs(y);
    StripLine(s);
    if 4 < |s| {
      DigitsNotSpace(s[4..]);
    }
  }

  lemma HyphenNotNumeral(a: string, b: string)
    ensures ParseNat(a + ['-'] + b) == None
  {
    var s := a + ['-'] + b;
    assert s[|a|] == '-';
  }

  lemma MatchHyphen(a: string, b: string)
    requires a != [] && b != [] && AllDigits(a) && AllDigits(b)
    ensures MatchRange(a + ['-'] + b) ==
            if |a| == 4 && 4 <= |b| then Some(Range(Numeral(a), Numeral(b[..4]))) else None
  {
    var s := a + ['-'] + b;
    if |a| < 4 {
      if 4 <= |s| { assert s[..4][|a|] == '-'; }
    } else if |a| == 4 {
      assert s[..4] == a && s[4..] == ['-'] + b && (['-'] + b)[1..] == b;
      DigitsNotSpace(b);
    } else {
      assert s[4..][0] == a[4];
      DigitsNotSpace(s[4..]);
    }
  }

  /** The ranges that the reader understands: single years, and ranges of four-digit years. */
  predicate Readable(r: Range) {
    r.first == r.last || (1000 <= r.first && r.last <= 9999)
  }

  /** What is read of a printed range of several years. */
  lemma ReadHyphenated(r: Range)
    requires r.first < r.last
    ensures 1000 <= r.first <= 9999 && 1000 <= r.last ==>
              exists n: nat :: YearsOf(RangeText(r)) == Years(r.first, n) && n <= 9999 &&
                  (r.last <= 9999 ==> n == r.last)
    ensures !(1000 <= r.first <= 9999 && 1000 <= r.last) ==> YearsOf(RangeText(r)) == {}
  {
    var a, b := Decimal(r.first), Decimal(r.last);
    var s := a + ['-'] + b;
    DecimalIs(r.first);
    DecimalIs(r.last);
    DecimalLength(r.first);
    DecimalLength(r.last);
    assert s[0] == a[0] && s[|s| - 1] == b[|b| - 1];
    StripLine(s);
    MatchHyphen(a, b);
    HyphenNotNumeral(a, b);
    if |a| == 4 && 4 <= |b| {
      FourDigits(b[..4]);
      assert |b| == 4 ==> b[..4] == b;
      assert YearsOf(RangeText(r)) == Years(r.first, Numeral(b[..4]));
    }
  }

  /** A printed range is read as a part of itself, and as all of itself exactly when it is readable. */
  lemma ReadRange(r: Range)
    requires r.first <= r.last
    ensures forall y :: y in YearsOf(RangeText(r)) ==> InRange(r, y)
    ensures (forall y: nat :: InRange(r, y) ==> y in YearsOf(RangeText(r))) <==> Readable(r)
  {
    var read := YearsOf(RangeText(r));
    assert InRange(r, r.first) && InRange(r, r.last);
    if r.first == r.last {
      ReadYear(r.first);
    } else {
      ReadHyphenated(r);
    }
  }

  lemma {:induction false} AllYearsAre(ts: seq<string>, y: nat)
    ensures y in AllYears(ts) <==> exists i :: 0 <= i < |ts| && y in YearsOf(ts[i])
  {
    if ts != [] {
      AllYearsAre(ts[..|ts| - 1], y);
      assert forall i :: 0 <= i < |ts| - 1 ==> ts[..|ts| - 1][i] == ts[i];
    }
  }

  lemma RangeTextLacks(r: Range)
    ensures Lacks(RangeText(r), ',')
  {
    DecimalIs(r.first);
    DecimalIs(r.last);
  }

  /** A year of one of several separated ranges is read back exactly when its own range gives it. */
  lemma ReadFrom(rs: seq<Range>, i: nat, y: nat)
    requires Separated(rs) && i < |rs| && InRange(rs[i], y)
    ensures y in AllYears(RangeTexts(rs)) <==> y in YearsOf(RangeText(rs[i]))
  {
    var ts := RangeTexts(rs);
    AllYearsAre(ts, y);
    forall j | 0 <= j < |ts| && y in YearsOf(ts[j])
      ensures j == i
    {
      ReadRange(rs[j]);
      assert InRange(rs[j], y);
    }
  }

  /** Nothing is read that no range holds. */
  lemma ReadOnly(rs: seq<Range>, y: nat)
    requires Separated(rs)
    ensures y in AllYears(RangeTexts(rs)) ==> Covers(rs, y)
  {
    var ts := RangeTexts(rs);
    AllYearsAre(ts, y);
    forall j | 0 <= j < |ts| && y in YearsOf(ts[j])
      ensures InRange(rs[j], y)
    {
      ReadRange(rs[j]);
    }
  }

  /** Separated ranges are read back exactly when each of them is readable. */
  lemma ReadRanges(rs: seq<Range>)
    requires Separated(rs)
    ensures (forall y: nat :: y in AllYears(RangeTexts(rs)) <==> Covers(rs, y)) <==> forall i :: 0 <= i < |rs| ==>
            Readable(rs[i])
  {
    var read := AllYears(RangeTexts(rs));
    forall i, y: nat | 0 <= i < |rs| && InRange(rs[i], y)
      ensures y in read <==> y in YearsOf(RangeText(rs[i]))
    {
      ReadFrom(rs, i, y);
    }
    forall y: nat
      ensures y in read ==> Covers(rs, y)
    {
      ReadOnly(rs, y);
    }
    if forall i :: 0 <= i < |rs| ==> Readable(rs[i]) {
      forall y: nat | Covers(rs, y)
        ensures y in read
      {
        var i :| 0 <= i < |rs| && InRange(rs[i], y);
        ReadRange(rs[i]);
      }
    }
    if i :| 0 <= i < |rs| && !Readable(rs[i]) {
      ReadRange(rs[i]);
      var y: nat :| InRange(rs[i], y) && y !in YearsOf(RangeText(rs[i]));
      assert Covers(rs, y) && y !in read;
    }
  }

  /** Neighbouring years are both written with four digits. */
  ghost predicate FourDigitNeighbours(ys: seq<nat>) {
    forall y: nat :: y in ys && y + 1 in ys ==> 1000 <= y && y + 1 <= 9999
  }

  lemma ReadableRuns(rs: seq<Range>, ys: seq<nat>)
    requires AreRuns(rs, ys)
    ensures (forall i :: 0 <= i < |rs| ==> Readable(rs[i])) <==> FourDigitNeighbours(ys)
  {
    if forall i :: 0 <= i < |rs| ==> Readable(rs[i]) {
      forall y: nat | y in ys && y + 1 in ys
        ensures 1000 <= y && y + 1 <= 9999
      {
        assert Covers(rs, y) && Covers(rs, y + 1);
        var i :| 0 <= i < |rs| && InRange(rs[i], y);
        var j :| 0 <= j < |rs| && InRange(rs[j], y + 1);
        assert i == j;
      }
      assert FourDigitNeighbours(ys);
    }
    if FourDigitNeighbours(ys) {
      forall i | 0 <= i < |rs|
        ensures Readable(rs[i])
      {
        var f, l := rs[i].first, rs[i].last;
        if f < l {
          assert InRange(rs[i], f) && InRange(rs[i], f + 1) && InRange(rs[i], l - 1) && InRange(rs[i], l);
          assert Covers(rs, f) && Covers(rs, f + 1) && Covers(rs, l - 1) && Covers(rs, l);
          assert l - 1 in ys && (l - 1) + 1 in ys;
        }
      }
    }
  }

  lemma SplitRanges(rs: seq<Range>)
    requires 0 < |rs|
    ensures Split(Join(RangeTexts(rs), ','), ',') == RangeTexts(rs)
  {
    var ts := RangeTexts(rs);
    forall i | 0 <= i < |ts|
      ensures Lacks(ts[i], ',')
    {
      RangeTextLacks(rs[i]);
    }
    SplitJoin(ts, ',');
  }

  /**
   A printed set of years is read back as the same set exactly when neighbouring years both have
   four digits; in particular for every set of four-digit years.
   */
  lemma DateRoundTrip(ys: seq<nat>)
    requires Ascending(ys) && 0 < |ys|
    ensures (forall y: nat :: y in AllYears(Split(DateText(ys), ',')) <==> y in ys) <==> FourDigitNeighbours(ys)
    ensures (forall y :: y in ys ==> 1000 <= y <= 9999) ==> FourDigitNeighbours(ys)
  {
    var rs := Runs(ys);
    RunsAre(ys);
    SplitRanges(rs);
    var read := AllYears(RangeTexts(rs));
    ReadRanges(rs);
    ReadableRuns(rs, ys);
    assert (forall y: nat :: y in read <==> y in ys) <==> forall y: nat :: y in read <==> Covers(rs, y);
  }
}
