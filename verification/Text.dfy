/** Decimal numerals, and Python's `split`, `join` and `strip` on strings. */
module Text {
  import opened Basics

  // ---------------------------------------------------------------- numerals

  function Digit(d: nat): char
    requires d < 10
  {
    '0' + d as char
  }

  predicate IsDigit(c: char) {
    '0' <= c <= '9'
  }

  function Decimal(n: nat): (s: string)
    ensures s != []
  {
    if n < 10 then [Digit(n)] else Decimal(n / 10) + [Digit(n % 10)]
  }

  predicate AllDigits(s: string) {
    forall i :: 0 <= i < |s| ==> IsDigit(s[i])
  }

  function Numeral(s: string): nat
    requires AllDigits(s)
  {
    if s == [] then 0 else 10 * Numeral(s[..|s| - 1]) + (s[|s| - 1] as nat - '0' as nat)
  }

  /** A number as the scripts write it: one or more decimal digits. */
  function ParseNat(s: string): Option<nat> {
    if s != [] && AllDigits(s) then Some(Numeral(s)) else None
  }

  lemma {:induction false} DecimalIs(n: nat)
    ensures AllDigits(Decimal(n)) && Numeral(Decimal(n)) == n && ParseNat(Decimal(n)) == Some(n)
  {
    if 10 <= n {
      var s, d := Decimal(n / 10), Digit(n % 10);
      DecimalIs(n / 10);
      assert (s + [d])[..|s|] == s;
    } else {
      assert [Digit(n)][..0] == [];
    }
  }

  /** Numbers are printed without leading zeros. */
  lemma {:induction false} NoLeadingZero(n: nat)
    ensures 0 < n ==> Decimal(n)[0] != '0'
    ensures n == 0 ==> Decimal(n) == "0"
  {
    if 10 <= n {
      NoLeadingZero(n / 10);
    }
  }

  // ---------------------------------------------------------------- split and join

  ghost predicate Lacks(s: string, c: char) {
    forall i :: 0 <= i < |s| ==> s[i] != c
  }

  /** `t` written behind the last piece. */
  function ExtendLast(r: seq<string>, t: string): (x: seq<string>)
    requires 0 < |r|
    ensures |x| == |r|
  {
    r[..|r| - 1] + [r[|r| - 1] + t]
  }

  /** The pieces between occurrences of `sep`; always at least one. */
  function Split(s: string, sep: char): (r: seq<string>)
    ensures 0 < |r|
  {
    if s == [] then [[]] else
      var r, c := Split(s[..|s| - 1], sep), s[|s| - 1];
      if c == sep then r + [[]] else ExtendLast(r, [c])
  }

  function Join(parts: seq<string>, sep: char): string
    requires 0 < |parts|
  {
    if |parts| == 1 then parts[0] else Join(parts[..|parts| - 1], sep) + [sep] + parts[|parts| - 1]
  }

  lemma SplitOne(s: string, c: char, sep: char)
    ensures Split(s + [c], sep) == if c == sep then Split(s, sep) + [[]] else ExtendLast(Split(s, sep), [c])
  {
    assert (s + [c])[..|s|] == s;
  }

  lemma ExtendTwice(r: seq<string>, a: string, b: string)
    requires 0 < |r|
    ensures ExtendLast(ExtendLast(r, a), b) == ExtendLast(r, a + b)
  {
    assert r[|r| - 1] + a + b == r[|r| - 1] + (a + b);
  }

  lemma ExtendNew(r: seq<string>, t: string)
    ensures ExtendLast(r + [[]], t) == r + [t]
  {
    assert [] + t == t;
  }

  lemma {:induction false} SplitAppend(s: string, t: string, sep: char)
    requires Lacks(t, sep)
    ensures Split(s + t, sep) == ExtendLast(Split(s, sep), t)
    decreases |t|
  {
    if t == [] {
      var r := Split(s, sep);
      assert s + t == s && r[|r| - 1] + t == r[|r| - 1];
    } else {
      var init, c := t[..|t| - 1], t[|t| - 1];
      assert t == init + [c] && s + t == (s + init) + [c];
      SplitAppend(s, init, sep);
      SplitOne(s + init, c, sep);
      ExtendTwice(Split(s, sep), init, [c]);
    }
  }

  lemma SplitPiece(s: string, last: string, sep: char)
    requires Lacks(last, sep)
    ensures Split(s + ([sep] + last), sep) == Split(s, sep) + [last]
  {
    assert s + ([sep] + last) == (s + [sep]) + last;
    SplitOne(s, sep, sep);
    SplitAppend(s + [sep], last, sep);
    ExtendNew(Split(s, sep), last);
  }

  lemma JoinOne(ps: seq<string>, p: string, sep: char)
    requires 0 < |ps|
    ensures Join(ps + [p], sep) == Join(ps, sep) + ([sep] + p)
  {
    assert (ps + [p])[..|ps|] == ps;
  }

  lemma JoinPrefix(parts: seq<string>, n: nat, sep: char)
    requires 0 < n < |parts|
    ensures Join(parts[..n + 1], sep) == Join(parts[..n], sep) + ([sep] + parts[n])
  {
    JoinOne(parts[..n], parts[n], sep);
    assert parts[..n + 1] == parts[..n] + [parts[n]];
  }

  lemma {:induction false} SplitJoinPrefix(parts: seq<string>, n: nat, sep: char)
    requires 0 < n <= |parts| && forall i :: 0 <= i < |parts| ==> Lacks(parts[i], sep)
    ensures Split(Join(parts[..n], sep), sep) == parts[..n]
    decreases n
  {
    if n == 1 {
      SplitAppend([], parts[0], sep);
      assert [] + parts[0] == parts[0];
    } else {
      SplitJoinPrefix(parts, n - 1, sep);
      JoinPrefix(parts, n - 1, sep);
      SplitPiece(Join(parts[..n - 1], sep), parts[n - 1], sep);
    }
  }

  /** Joining pieces that lack the separator and splitting again gives the pieces. */
  lemma SplitJoin(parts: seq<string>, sep: char)
    requires 0 < |parts| && forall i :: 0 <= i < |parts| ==> Lacks(parts[i], sep)
    ensures Split(Join(parts, sep), sep) == parts
  {
    SplitJoinPrefix(parts, |parts|, sep);
    assert parts[..|parts|] == parts;
  }

  /** The pieces are free of the separator, and joining them gives the text back. */
  lemma {:induction false} JoinSplit(s: string, sep: char)
    ensures Join(Split(s, sep), sep) == s && forall i :: 0 <= i < |Split(s, sep)| ==> Lacks(Split(s, sep)[i], sep)
  {
    if s != [] {
      var init, c := s[..|s| - 1], s[|s| - 1];
      JoinSplit(init, sep);
      assert s == init + [c];
      var r := Split(init, sep);
      if c == sep {
        JoinOne(r, [], sep);
        assert [sep] + [] == [sep];
      } else {
        JoinExtend(r, [c], sep);
      }
    }
  }

  lemma JoinExtend(r: seq<string>, t: string, sep: char)
    requires 0 < |r|
    ensures Join(ExtendLast(r, t), sep) == Join(r, sep) + t
  {
    var x := ExtendLast(r, t);
    if 1 < |r| {
      assert x[..|x| - 1] == r[..|r| - 1];
    }
  }

  // ---------------------------------------------------------------- strip

  predicate IsSpace(c: char) {
    c == ' ' || '\t' <= c <= '\r'
  }

  function StripLeft(s: string): string {
    if s != [] && IsSpace(s[0]) then StripLeft(s[1..]) else s
  }

  function StripRight(s: string): string {
    if s != [] && IsSpace(s[|s| - 1]) then StripRight(s[..|s| - 1]) else s
  }

  function Strip(s: string): string {
    StripLeft(StripRight(s))
  }

  ghost predicate AllSpace(s: string) {
    forall i :: 0 <= i < |s| ==> s[i] in [' ', '\t', '\n', '\U{0B}', '\U{0C}', '\r']
  }

  /** Space, tab, line feed, vertical tab, form feed and carriage return. */
  lemma SpaceIs(c: char)
    ensures IsSpace(c) <==> c in [' ', '\t', '\n', '\U{0B}', '\U{0C}', '\r']
  {
  }

  lemma {:induction false} StripLeftIs(s: string) returns (x: string)
    ensures s == x + StripLeft(s) && AllSpace(x) && (StripLeft(s) != [] ==> !IsSpace(StripLeft(s)[0]))
  {
    x := [];
    if s != [] && IsSpace(s[0]) {
      var y := StripLeftIs(s[1..]);
      x := [s[0]] + y;
      SpaceIs(s[0]);
      assert s == [s[0]] + s[1..];
    }
  }

  lemma {:induction false} StripLeftAll(x: string, t: string)
    requires AllSpace(x) && (t != [] ==> !IsSpace(t[0]))
    ensures StripLeft(x + t) == t
  {
    if x == [] {
      assert x + t == t;
    } else {
      SpaceIs(x[0]);
      assert (x + t)[1..] == x[1..] + t;
      StripLeftAll(x[1..], t);
    }
  }

  lemma {:induction false} StripRightIs(s: string) returns (x: string)
    ensures s == StripRight(s) + x && AllSpace(x)
    ensures StripRight(s) != [] ==> !IsSpace(StripRight(s)[|StripRight(s)| - 1])
  {
    x := [];
    if s != [] && IsSpace(s[|s| - 1]) {
      var y := StripRightIs(s[..|s| - 1]);
      x := y + [s[|s| - 1]];
      SpaceIs(s[|s| - 1]);
      assert s == s[..|s| - 1] + [s[|s| - 1]];
    }
  }

  /** What is left has no white space at its ends, and only white space was taken away. */
  lemma StripIs(s: string) returns (x: string, y: string)
    ensures s == x + Strip(s) + y && AllSpace(x) && AllSpace(y)
    ensures var t := Strip(s); t != [] ==> !IsSpace(t[0]) && !IsSpace(t[|t| - 1])
  {
    y := StripRightIs(s);
    x := StripLeftIs(StripRight(s));
    var t, r := Strip(s), StripRight(s);
    assert t != [] ==> t[|t| - 1] == r[|r| - 1];
  }

  lemma StripLine(s: string)
    requires s != [] ==> !IsSpace(s[0]) && !IsSpace(s[|s| - 1])
    ensures Strip(s) == s && Strip(s + ['\n']) == s
  {
    assert (s + ['\n'])[..|s|] == s;
  }

  // ---------------------------------------------------------------- lines

  function Unlines(ls: seq<string>): string {
    if ls == [] then [] else Unlines(ls[..|ls| - 1]) + (ls[|ls| - 1] + ['\n'])
  }

  /** The lines of a file; a final newline does not start another line. */
  function LinesOf(text: string): seq<string> {
    var ps := Split(text, '\n');
    if ps[|ps| - 1] == [] then ps[..|ps| - 1] else ps
  }

  lemma UnlinesOne(ls: seq<string>, n: nat)
    requires n < |ls|
    ensures Unlines(ls[..n + 1]) == Unlines(ls[..n]) + (ls[n] + ['\n'])
  {
    assert ls[..n + 1][..n] == ls[..n];
  }

  lemma SplitLine(s: string, init: seq<string>, l: string)
    requires Split(s, '\n') == init + [[]] && Lacks(l, '\n')
    ensures Split(s + (l + ['\n']), '\n') == init + [l] + [[]]
  {
    SplitAppend(s, l, '\n');
    ExtendNew(init, l);
    SplitOne(s + l, '\n', '\n');
    assert s + (l + ['\n']) == (s + l) + ['\n'];
  }

  lemma {:induction false} SplitUnlines(ls: seq<string>)
    requires forall i :: 0 <= i < |ls| ==> Lacks(ls[i], '\n')
    ensures Split(Unlines(ls), '\n') == ls + [[]]
  {
    if ls != [] {
      var init, l := ls[..|ls| - 1], ls[|ls| - 1];
      SplitUnlines(init);
      SplitLine(Unlines(init), init, l);
      assert init + [l] == ls;
    }
  }

  lemma LinesRoundTrip(ls: seq<string>)
    requires forall i :: 0 <= i < |ls| ==> Lacks(ls[i], '\n')
    ensures LinesOf(Unlines(ls)) == ls
  {
    SplitUnlines(ls);
    assert (ls + [[]])[..|ls|] == ls;
  }

  /** Applies `f` to all elements; the whole fails if one does. */
  function TryAll<A, B>(f: A -> Option<B>, xs: seq<A>): Option<seq<B>> {
    if xs == [] then Some([]) else
      var ys, y := TryAll(f, xs[..|xs| - 1]), f(xs[|xs| - 1]);
      if ys.Some? && y.Some? then Some(ys.value + [y.value]) else None
  }

  lemma TryAllOne<A, B>(f: A -> Option<B>, xs: seq<A>, k: nat)
    requires k < |xs|
    ensures TryAll(f, xs[..k + 1]) ==
            if TryAll(f, xs[..k]).Some? &&
                f(xs[k]).Some? then Some(TryAll(f, xs[..k]).value + [f(xs[k]).value]) else None
  {
    assert xs[..k + 1][..k] == xs[..k];
  }

  lemma TryAllStops<A, B>(f: A -> Option<B>, xs: seq<A>, k: nat)
    requires k <= |xs| && TryAll(f, xs[..k]).None?
    ensures TryAll(f, xs).None?
  {
    for i := k to |xs|
      invariant TryAll(f, xs[..i]).None?
    {
      TryAllOne(f, xs, i);
    }
    assert xs[..|xs|] == xs;
  }

  lemma {:induction false} TryAllIs<A, B>(f: A -> Option<B>, xs: seq<A>, ys: seq<B>)
    requires |xs| == |ys|
    ensures TryAll(f, xs) == Some(ys) <==> forall i :: 0 <= i < |xs| ==> f(xs[i]) == Some(ys[i])
    decreases |xs|
  {
    if xs != [] {
      var n := |xs| - 1;
      TryAllIs(f, xs[..n], ys[..n]);
      assert ys == ys[..n] + [ys[n]];
      if TryAll(f, xs) == Some(ys) {
        var zs := TryAll(f, xs[..n]).value;
        assert (zs + [f(xs[n]).value])[..|zs|] == zs && |zs| == n;
        assert zs == ys[..n];
      }
      assert forall i :: 0 <= i < n ==> xs[..n][i] == xs[i] && ys[..n][i] == ys[i];
    }
  }
}
