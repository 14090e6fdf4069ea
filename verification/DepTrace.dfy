/**
 The text form of instruction dependency traces, after
 custom_gem5/util/decode_inst_dep_trace.py (records to lines) and
 custom_gem5/util/encode_inst_dep_trace.py (lines to records).
 */
module DepTrace {
  import opened Basics
  import opened Text

  datatype RecordType = INVALID | LOAD | STORE | COMP

  /** The fields of a record that the text form carries. */
  datatype Record = Record(
    seqNum: nat, typ: RecordType, pAddr: Option<nat>, size: Option<nat>, flags: Option<nat>,
    robDep: seq<nat>, compDelay: nat, regDep: seq<nat>, weight: Option<nat>, pc: Option<nat>)

  function TypeName(t: RecordType): (s: string)
    ensures s != []
  {
    match t
    case INVALID => "INVALID"
    case LOAD => "LOAD"
    case STORE => "STORE"
    case COMP => "COMP"
  }

  function TypeOf(s: string): Option<RecordType> {
    if s == "INVALID" then Some(INVALID)
    else if s == "LOAD" then Some(LOAD)
    else if s == "STORE" then Some(STORE)
    else if s == "COMP" then Some(COMP)
    else None
  }

  function OrElse(o: Option<nat>, default: nat): nat {
    if o.Some? then o.value else default
  }

  predicate IsMemory(t: RecordType) {
    t == LOAD || t == STORE
  }

  // ---------------------------------------------------------------- printing

  function Optional(o: Option<nat>): seq<string> {
    if o.Some? then [Decimal(o.value)] else []
  }

  function Head(r: Record): seq<string> {
    [Decimal(r.seqNum), Decimal(OrElse(r.pc, 0)), Decimal(OrElse(r.weight, 1)), TypeName(r.typ)]
  }

  /** The comma-separated fields before the first colon. */
  function Fields(r: Record): seq<string> {
    Head(r) + Optional(r.pAddr) + Optional(r.size) + Optional(r.flags) + [Decimal(r.compDelay)]
  }

  function Numerals(ds: seq<nat>): (r: seq<string>)
    ensures |r| == |ds|
  {
    if ds == [] then [] else Numerals(ds[..|ds| - 1]) + [Decimal(ds[|ds| - 1])]
  }

  /** Each dependency behind a comma. */
  function DepText(ds: seq<nat>): string {
    if ds == [] then [] else DepText(ds[..|ds| - 1]) + [','] + Decimal(ds[|ds| - 1])
  }

  function Line(r: Record): string {
    Join(Fields(r), ',') + [':'] + DepText(r.robDep) + [':'] + DepText(r.regDep)
  }

  function PrintedLines(rs: seq<Record>): seq<string> {
    seq(|rs|, i requires 0 <= i < |rs| => Line(rs[i]))
  }

  function Print(rs: seq<Record>): string {
    Unlines(PrintedLines(rs))
  }

  // ---------------------------------------------------------------- parsing

  /** The numbers among the pieces; empty pieces are skipped. */
  function ParseDeps(ps: seq<string>): Option<seq<nat>> {
    if ps == [] then Some([]) else
      var ds, p := ParseDeps(ps[..|ps| - 1]), ps[|ps| - 1];
      if p == [] then ds
      else if ds.Some? && ParseNat(p).Some? then Some(ds.value + [ParseNat(p).value]) else None
  }

  /** The record that given fields and dependencies describe, if they are well formed. */
  function ParseFields(fs: seq<string>, rob: Option<seq<nat>>, reg: Option<seq<nat>>): Option<Record> {
    if |fs| < 5 || rob.None? || reg.None? then None else
      var seqNum, pc, weight, typ := ParseNat(fs[0]), ParseNat(fs[1]), ParseNat(fs[2]), TypeOf(fs[3]);
      if seqNum.None? || pc.None? || weight.None? || typ.None? || typ.value == INVALID then None
      else if IsMemory(typ.value) then
        if |fs| < 8 then None else
          var addr, size, flags, delay := ParseNat(fs[4]), ParseNat(fs[5]), ParseNat(fs[6]), ParseNat(fs[7]);
          if addr.None? || size.None? || flags.None? || delay.None? then None
          else Some(Record(seqNum.value, typ.value, addr, size, flags, rob.value, delay.value, reg.value, weight, pc))
      else
        var delay := ParseNat(fs[4]);
        if delay.None? then None
        else Some(Record(seqNum.value, typ.value, None, None, None, rob.value, delay.value, reg.value, weight, pc))
  }

  function ParseLine(line: string): Option<Record> {
    var parts := Split(Strip(line), ':');
    if |parts| != 3 then None else
      ParseFields(Split(parts[0], ','), ParseDeps(Split(Strip(parts[1]), ',')), ParseDeps(Split(parts[2], ',')))
  }

  /** All lines of a file, or nothing if one of them is not a record. */
  function Parse(text: string): Option<seq<Record>> {
    TryAll(ParseLine, LinesOf(text))
  }

  // ---------------------------------------------------------------- the two scripts

  /** How many of the first `n` records have register dependencies. */
  ghost function WithReg(rs: seq<Record>, n: nat): nat
    requires n <= |rs|
  {
    if n == 0 then 0 else WithReg(rs, n - 1) + if rs[n - 1].regDep != [] then 1 else 0
  }

  /** How many of the first `n` records have order dependencies. */
  ghost function WithRob(rs: seq<Record>, n: nat): nat
    requires n <= |rs|
  {
    if n == 0 then 0 else WithRob(rs, n - 1) + if rs[n - 1].robDep != [] then 1 else 0
  }

  method AppendRecord(out: string, r: Record, ghost all: seq<string>, ghost n: nat) returns (out': string)
    requires n < |all| && all[n] == Line(r) && out == Unlines(all[..n])
    ensures out' == Unlines(all[..n + 1])
  {
    var line := PrintRecord(r, all[n]);
    UnlinesOne(all, n);
    out' := out + line;
  }

  method PrintRecords(rs: seq<Record>) returns (out: string, packets: nat, withReg: nat, withRob: nat)
    ensures out == Print(rs) && packets == |rs|
    ensures withReg == |set i | 0 <= i < |rs| && rs[i].regDep != []|
    ensures withRob == |set i | 0 <= i < |rs| && rs[i].robDep != []|
  {
    out, packets, withReg, withRob := [], 0, 0, 0;
    ghost var all := PrintedLines(rs);
    for n := 0 to |rs|
      invariant out == Unlines(all[..n])
      invariant packets == n && withReg == WithReg(rs, n) && withRob == WithRob(rs, n)
    {
      var r := rs[n];
      packets := packets + 1;
      withRob := withRob + if r.robDep != [] then 1 else 0;
      withReg := withReg + if r.regDep != [] then 1 else 0;
      out := AppendRecord(out, r, all, n);
    }
    assert all[..|rs|] == all;
    WithRegIs(rs, |rs|);
    WithRobIs(rs, |rs|);
  }

  lemma {:induction false} WithRegIs(rs: seq<Record>, n: nat)
    requires n <= |rs|
    ensures WithReg(rs, n) == |set i | 0 <= i < n && rs[i].regDep != []|
  {
    if 0 < n {
      WithRegIs(rs, n - 1);
      var before, after := set i | 0 <= i < n - 1 && rs[i].regDep != [], set i | 0 <= i < n && rs[i].regDep != [];
      assert after == if rs[n - 1].regDep != [] then before + {n - 1} else before;
    }
  }

  lemma {:induction false} WithRobIs(rs: seq<Record>, n: nat)
    requires n <= |rs|
    ensures WithRob(rs, n) == |set i | 0 <= i < n && rs[i].robDep != []|
  {
    if 0 < n {
      WithRobIs(rs, n - 1);
      var before, after := set i | 0 <= i < n - 1 && rs[i].robDep != [], set i | 0 <= i < n && rs[i].robDep != [];
      assert after == if rs[n - 1].robDep != [] then before + {n - 1} else before;
    }
  }

  method PrintDeps(ds: seq<nat>) returns (out: string)
    ensures out == DepText(ds)
  {
    out := [];
    for i := 0 to |ds|
      invariant out == DepText(ds[..i])
    {
      assert ds[..i + 1][..i] == ds[..i];
      out := out + ([','] + Decimal(ds[i]));
    }
    assert ds[..|ds|] == ds;
  }

  /** Writes one more field; `fs` are the fields written so far. */
  method Put(out: string, ghost fs: seq<string>, p: string) returns (out': string)
    requires 0 < |fs| && out == Join(fs, ',')
    ensures out' == Join(fs + [p], ',')
  {
    JoinOne(fs, p, ',');
    out' := out + ([','] + p);
  }

  /** Writes a field that may be absent. */
  method PutOptional(out: string, ghost fs: seq<string>, o: Option<nat>) returns (out': string)
    requires 0 < |fs| && out == Join(fs, ',')
    ensures out' == Join(fs + Optional(o), ',')
  {
    if o.Some? {
      out' := Put(out, fs, Decimal(o.value));
    } else {
      out' := out;
      assert fs + [] == fs;
    }
  }

  method PrintHead(r: Record) returns (out: string)
    ensures out == Join(Head(r), ',')
  {
    ghost var fs := Head(r);
    assert fs[..1] == [fs[0]] && fs[..2] == fs[..1] + [fs[1]] && fs[..3] == fs[..2] + [fs[2]] &&
           fs == fs[..3] + [fs[3]];
    out := Decimal(r.seqNum);
    out := Put(out, fs[..1], Decimal(OrElse(r.pc, 0)));
    out := Put(out, fs[..2], Decimal(OrElse(r.weight, 1)));
    out := Put(out, fs[..3], TypeName(r.typ));
  }

  /** The fields of one record, in the order of the script. */
  method PrintFields(r: Record) returns (out: string)
    ensures out == Join(Fields(r), ',')
  {
    ghost var fs := Head(r);
    out := PrintHead(r);
    out := PutOptional(out, fs, r.pAddr);
    fs := fs + Optional(r.pAddr);
    out := PutOptional(out, fs, r.size);
    fs := fs + Optional(r.size);
    out := PutOptional(out, fs, r.flags);
    fs := fs + Optional(r.flags);
    out := Put(out, fs, Decimal(r.compDelay));
  }

  method PrintRecord(r: Record, ghost line: string) returns (out: string)
    requires line == Line(r)
    ensures out == line + ['\n']
  {
    out := PrintFields(r);
    var rob := PrintDeps(r.robDep);
    var reg := PrintDeps(r.regDep);
    out := out + [':'] + rob + [':'] + reg + ['\n'];
  }

  /** Stops at the first line that is not a record. */
  method ParseTrace(text: string) returns (result: Option<seq<Record>>)
    ensures result == Parse(text)
  {
    var lines, rs := LinesOf(text), [];
    for i := 0 to |lines|
      invariant TryAll(ParseLine, lines[..i]) == Some(rs)
    {
      TryAllOne(ParseLine, lines, i);
      var r := ParseLine(lines[i]);
      if r.None? {
        TryAllStops(ParseLine, lines, i + 1);
        return None;
      }
      rs := rs + [r.value];
    }
    assert lines[..|lines|] == lines;
    result := Some(rs);
  }

  // ---------------------------------------------------------------- round trip

  /** Characters of numerals and type names: no separators, no white space. */
  predicate Plain(c: char) {
    IsDigit(c) || 'A' <= c <= 'Z'
  }

  ghost predicate AllPlain(s: string) {
    forall i :: 0 <= i < |s| ==> Plain(s[i])
  }

  ghost predicate PlainOrComma(s: string) {
    forall i :: 0 <= i < |s| ==> Plain(s[i]) || s[i] == ','
  }

  lemma DecimalPlain(n: nat)
    ensures AllPlain(Decimal(n)) && Decimal(n) != []
  {
    DecimalIs(n);
  }

  lemma FieldsPlain(r: Record)
    ensures forall i :: 0 <= i < |Fields(r)| ==> AllPlain(Fields(r)[i]) && Fields(r)[i] != []
  {
    DecimalPlain(r.seqNum);
    DecimalPlain(OrElse(r.pc, 0));
    DecimalPlain(OrElse(r.weight, 1));
    DecimalPlain(OrElse(r.pAddr, 0));
    DecimalPlain(OrElse(r.size, 0));
    DecimalPlain(OrElse(r.flags, 0));
    DecimalPlain(r.compDelay);
    assert AllPlain(TypeName(r.typ));
  }

  lemma {:induction false} JoinPlain(ps: seq<string>)
    requires 0 < |ps| && forall i :: 0 <= i < |ps| ==> AllPlain(ps[i])
    ensures PlainOrComma(Join(ps, ','))
    ensures ps[0] != [] ==> Join(ps, ',') != [] && Join(ps, ',')[0] == ps[0][0]
    decreases |ps|
  {
    if 1 < |ps| {
      JoinPlain(ps[..|ps| - 1]);
    }
  }

  lemma {:induction false} NumeralsPlain(ds: seq<nat>)
    ensures forall i :: 0 <= i < |ds| ==> Numerals(ds)[i] == Decimal(ds[i]) && AllPlain(Numerals(ds)[i])
  {
    if ds != [] {
      NumeralsPlain(ds[..|ds| - 1]);
      DecimalPlain(ds[|ds| - 1]);
    }
  }

  /** Dependencies behind commas are a join that starts with an empty piece. */
  lemma {:induction false} DepTextIs(ds: seq<nat>)
    ensures DepText(ds) == Join([[]] + Numerals(ds), ',')
  {
    if ds != [] {
      var init := ds[..|ds| - 1];
      DepTextIs(init);
      JoinOne([[]] + Numerals(init), Decimal(ds[|ds| - 1]), ',');
      assert [[]] + Numerals(ds) == [[]] + Numerals(init) + [Decimal(ds[|ds| - 1])];
    }
  }

  lemma {:induction false} ParseNumerals(ds: seq<nat>)
    ensures ParseDeps([[]] + Numerals(ds)) == Some(ds)
  {
    var ps := [[]] + Numerals(ds);
    if ds == [] {
      assert ps[..0] == [];
    } else {
      var init, d := ds[..|ds| - 1], ds[|ds| - 1];
      ParseNumerals(init);
      DecimalIs(d);
      assert ps[..|ps| - 1] == [[]] + Numerals(init);
      assert ds == init + [d];
    }
  }

  /** Printed dependencies parse back, in order. */
  lemma DepsRoundTrip(ds: seq<nat>)
    ensures ParseDeps(Split(DepText(ds), ',')) == Some(ds) && PlainOrComma(DepText(ds))
  {
    var ps := [[]] + Numerals(ds);
    NumeralsPlain(ds);
    DepTextIs(ds);
    assert forall i :: 0 <= i < |ps| ==> AllPlain(ps[i]);
    JoinPlain(ps);
    SplitJoin(ps, ',');
    ParseNumerals(ds);
  }

  lemma JoinThree(a: string, b: string, c: string, sep: char)
    ensures Join([a, b, c], sep) == a + [sep] + b + [sep] + c
  {
    JoinOne([a], b, sep);
    JoinOne([a, b], c, sep);
    assert [a] + [b] == [a, b] && [a, b] + [c] == [a, b, c];
  }

  lemma StripPlain(s: string)
    requires PlainOrComma(s)
    ensures Strip(s) == s
  {
    StripLine(s);
  }

  lemma LineParts(fs: seq<string>, info: string, rob: string, reg: string)
    requires 0 < |fs| && (forall i :: 0 <= i < |fs| ==> AllPlain(fs[i])) && fs[0] != []
    requires info == Join(fs, ',') && PlainOrComma(rob) && PlainOrComma(reg)
    ensures var line := info + [':'] + rob + [':'] + reg;
            && line != [] && Lacks(line, '\n') && Strip(line) == line
            && Split(line, ':') == [info, rob, reg] && Split(info, ',') == fs && Strip(rob) == rob
  {
    JoinPlain(fs);
    JoinThree(info, rob, reg, ':');
    SplitJoin([info, rob, reg], ':');
    SplitJoin(fs, ',');
    StripPlain(rob);
    LineEnds(info, rob, reg);
  }

  /** A printed line splits back into exactly the fields and dependencies that were printed. */
  lemma LineSplits(r: Record)
    ensures ParseLine(Line(r)) == ParseFields(Fields(r), Some(r.robDep), Some(r.regDep))
    ensures Line(r) != [] && Lacks(Line(r), '\n') && Strip(Line(r)) == Line(r)
  {
    FieldsPlain(r);
    DepsRoundTrip(r.robDep);
    DepsRoundTrip(r.regDep);
    LineParts(Fields(r), Join(Fields(r), ','), DepText(r.robDep), DepText(r.regDep));
  }

  lemma LineEnds(info: string, rob: string, reg: string)
    requires PlainOrComma(info) && PlainOrComma(rob) && PlainOrComma(reg) && info != []
    ensures var line := info + [':'] + rob + [':'] + reg; Lacks(line, '\n') && Strip(line) == line
  {
    var line := info + [':'] + rob + [':'] + reg;
    assert forall i :: 0 <= i < |line| ==> Plain(line[i]) || line[i] == ',' || line[i] == ':';
    StripLine(line);
  }

  /** Address, size and flags are there for loads and stores, and only for them. */
  predicate Printable(r: Record) {
    r.typ != INVALID &&
    if IsMemory(r.typ) then r.pAddr.Some? && r.size.Some? && r.flags.Some?
    else r.pAddr.None? && r.size.None? && r.flags.None?
  }

  function Normalised(r: Record): Record {
    r.(pc := Some(OrElse(r.pc, 0)), weight := Some(OrElse(r.weight, 1)))
  }

  lemma TypeRoundTrip(t: RecordType)
    ensures TypeOf(TypeName(t)) == Some(t)
  {
    assert "LOAD"[0] != "INVALID"[0] && "STORE"[0] != "INVALID"[0] && "COMP"[0] != "INVALID"[0];
    assert "STORE"[0] != "LOAD"[0] && "COMP"[0] != "LOAD"[0] && "COMP"[0] != "STORE"[0];
  }

  lemma FieldsRoundTrip(r: Record)
    ensures ParseFields(Fields(r), Some(r.robDep), Some(r.regDep)) == Some(Normalised(r)) <==> Printable(r)
  {
    TypeRoundTrip(r.typ);
    DecimalIs(r.seqNum);
    DecimalIs(OrElse(r.pc, 0));
    DecimalIs(OrElse(r.weight, 1));
    DecimalIs(OrElse(r.pAddr, 0));
    DecimalIs(OrElse(r.size, 0));
    DecimalIs(OrElse(r.flags, 0));
    DecimalIs(r.compDelay);
  }

  /** A printed record parses back to itself, with default pc and weight filled in, exactly when it is printable. */
  lemma RecordRoundTrip(r: Record)
    ensures ParseLine(Line(r)) == Some(Normalised(r)) <==> Printable(r)
  {
    LineSplits(r);
    FieldsRoundTrip(r);
  }

  function NormalisedAll(rs: seq<Record>): seq<Record> {
    seq(|rs|, i requires 0 <= i < |rs| => Normalised(rs[i]))
  }

  /** A trace parses back to its records, defaults filled in, exactly when every record is printable. */
  lemma TraceRoundTrip(rs: seq<Record>)
    ensures Parse(Print(rs)) == Some(NormalisedAll(rs)) <==> forall i :: 0 <= i < |rs| ==> Printable(rs[i])
  {
    var ls, ns := PrintedLines(rs), NormalisedAll(rs);
    forall i | 0 <= i < |rs|
      ensures Lacks(ls[i], '\n') && (ParseLine(ls[i]) == Some(ns[i]) <==> Printable(rs[i]))
    {
      LineSplits(rs[i]);
      RecordRoundTrip(rs[i]);
    }
    LinesRoundTrip(ls);
    TryAllIs(ParseLine, ls, ns);
  }

  // ---------------------------------------------------------------- the text form

  /** Numbers, each behind a comma. */
  ghost function Listed(ds: seq<nat>): string {
    if ds == [] then "" else "," + Decimal(ds[0]) + Listed(ds[1..])
  }

  ghost function Behind(o: Option<nat>): string {
    if o.None? then "" else "," + Decimal(o.value)
  }

  ghost function KindName(t: RecordType): string {
    if t == LOAD then "LOAD" else if t == STORE then "STORE" else if t == COMP then "COMP" else "INVALID"
  }

  /** Sequence number, pc (0 if absent), weight (1 if absent) and type. */
  ghost function HeadText(r: Record): string {
    Decimal(r.seqNum) + "," + (if r.pc.Some? then Decimal(r.pc.value) else "0") + "," +
    (if r.weight.Some? then Decimal(r.weight.value) else "1") + "," + KindName(r.typ)
  }

  lemma {:induction false} ListedOne(ds: seq<nat>, d: nat)
    ensures Listed(ds + [d]) == Listed(ds) + "," + Decimal(d)
  {
    if ds == [] {
      assert (ds + [d])[1..] == [];
    } else {
      assert (ds + [d])[1..] == ds[1..] + [d];
      ListedOne(ds[1..], d);
    }
  }

  lemma {:induction false} DepTextListed(ds: seq<nat>)
    ensures DepText(ds) == Listed(ds)
  {
    if ds != [] {
      var init, d := ds[..|ds| - 1], ds[|ds| - 1];
      DepTextListed(init);
      ListedOne(init, d);
      assert ds == init + [d];
    }
  }

  lemma HeadIs(r: Record)
    ensures Join(Head(r), ',') == HeadText(r)
  {
    var fs := Head(r);
    assert fs[..1] == [fs[0]] && fs[..2] == fs[..1] + [fs[1]] && fs[..3] == fs[..2] + [fs[2]] &&
           fs == fs[..3] + [fs[3]];
    JoinOne(fs[..1], fs[1], ',');
    JoinOne(fs[..2], fs[2], ',');
    JoinOne(fs[..3], fs[3], ',');
    assert Decimal(0) == "0" && Decimal(1) == "1";
  }

  lemma JoinBehind(fs: seq<string>, o: Option<nat>)
    requires 0 < |fs|
    ensures Join(fs + Optional(o), ',') == Join(fs, ',') + Behind(o)
  {
    if o.Some? {
      JoinOne(fs, Decimal(o.value), ',');
    } else {
      assert fs + [] == fs;
    }
  }

  /** A record as a line of text. */
  lemma LineIs(r: Record)
    ensures Line(r) == HeadText(r) + Behind(r.pAddr) + Behind(r.size) + Behind(r.flags) + "," + Decimal(r.compDelay) +
            ":" + Listed(r.robDep) + ":" + Listed(r.regDep)
  {
    var fs := Head(r);
    HeadIs(r);
    JoinBehind(fs, r.pAddr);
    JoinBehind(fs + Optional(r.pAddr), r.size);
    JoinBehind(fs + Optional(r.pAddr) + Optional(r.size), r.flags);
    JoinOne(fs + Optional(r.pAddr) + Optional(r.size) + Optional(r.flags), Decimal(r.compDelay), ',');
    DepTextListed(r.robDep);
    DepTextListed(r.regDep);
  }

  // ---------------------------------------------------------------- what is read of any line

  ghost predicate IsNumeral(s: string, n: nat) {
    s != [] && AllDigits(s) && Numeral(s) == n
  }

  /** Fields past the ones that are used are ignored. */
  ghost predicate FieldsSay(fs: seq<string>, r: Record) {
    && 5 <= |fs| && IsNumeral(fs[0], r.seqNum)
    && r.pc.Some? && IsNumeral(fs[1], r.pc.value) && r.weight.Some? && IsNumeral(fs[2], r.weight.value)
    && r.typ != INVALID && fs[3] == KindName(r.typ)
    && if r.typ == COMP then r.pAddr.None? && r.size.None? && r.flags.None? && IsNumeral(fs[4], r.compDelay)
       else
         && 8 <= |fs| && r.pAddr.Some? && IsNumeral(fs[4], r.pAddr.value)
         && r.size.Some? && IsNumeral(fs[5], r.size.value)
         && r.flags.Some? && IsNumeral(fs[6], r.flags.value) && IsNumeral(fs[7], r.compDelay)
  }

  /** The pieces that are not empty. */
  ghost function NonEmpty(ps: seq<string>): seq<string> {
    if ps == [] then [] else (if ps[0] == [] then [] else [ps[0]]) + NonEmpty(ps[1..])
  }

  ghost predicate DepsSay(ps: seq<string>, ds: seq<nat>) {
    |NonEmpty(ps)| == |ds| && forall i :: 0 <= i < |ds| ==> IsNumeral(NonEmpty(ps)[i], ds[i])
  }

  lemma {:induction false} NonEmptyOne(ps: seq<string>, p: string)
    ensures NonEmpty(ps + [p]) == NonEmpty(ps) + if p == [] then [] else [p]
  {
    if ps == [] {
      assert (ps + [p])[1..] == [];
    } else {
      assert (ps + [p])[1..] == ps[1..] + [p];
      NonEmptyOne(ps[1..], p);
    }
  }

  lemma {:induction false} ParseDepsIs(ps: seq<string>, ds: seq<nat>)
    ensures ParseDeps(ps) == Some(ds) <==> DepsSay(ps, ds)
  {
    if ps != [] {
      var init, p := ps[..|ps| - 1], ps[|ps| - 1];
      assert ps == init + [p];
      NonEmptyOne(init, p);
      if p == [] {
        ParseDepsIs(init, ds);
      } else if ds != [] {
        ParseDepsIs(init, ds[..|ds| - 1]);
        assert ds == ds[..|ds| - 1] + [ds[|ds| - 1]];
        DepsSayOne(init, p, ds);
        if ParseDeps(ps) == Some(ds) {
          var ds0 := ParseDeps(init).value;
          assert ds0 == (ds0 + [ParseNat(p).value])[..|ds0|] == ds[..|ds| - 1];
        }
      }
    }
  }

  lemma DepsSayOne(init: seq<string>, p: string, ds: seq<nat>)
    requires p != [] && ds != [] && NonEmpty(init + [p]) == NonEmpty(init) + [p]
    ensures DepsSay(init + [p], ds) <==> DepsSay(init, ds[..|ds| - 1]) && IsNumeral(p, ds[|ds| - 1])
  {
    var a, b := NonEmpty(init), NonEmpty(init + [p]);
    assert b[|a|] == p && forall i :: 0 <= i < |a| ==> b[i] == a[i];
  }

  lemma KindIs(t: RecordType)
    ensures TypeName(t) == KindName(t)
  {
  }

  lemma TypeOfIs(s: string, t: RecordType)
    ensures TypeOf(s) == Some(t) <==> s == KindName(t)
  {
    TypeRoundTrip(t);
    KindIs(t);
  }

  lemma ParseFieldsIs(fs: seq<string>, rob: Option<seq<nat>>, reg: Option<seq<nat>>, r: Record)
    ensures ParseFields(fs, rob, reg) == Some(r) <==> FieldsSay(fs, r) && rob == Some(r.robDep) && reg == Some(r.regDep)
  {
    if 5 <= |fs| {
      TypeOfIs(fs[3], r.typ);
    }
  }

  /** A line is read as a record exactly if its three parts say what the record holds. */
  lemma ParseLineIs(line: string, r: Record)
    ensures var parts := Split(Strip(line), ':');
            ParseLine(line) == Some(r) <==>
              |parts| == 3 && FieldsSay(Split(parts[0], ','), r) &&
              DepsSay(Split(Strip(parts[1]), ','), r.robDep) && DepsSay(Split(parts[2], ','), r.regDep)
  {
    var parts := Split(Strip(line), ':');
    if |parts| == 3 {
      var rob, reg := Split(Strip(parts[1]), ','), Split(parts[2], ',');
      ParseFieldsIs(Split(parts[0], ','), ParseDeps(rob), ParseDeps(reg), r);
      ParseDepsIs(rob, r.robDep);
      ParseDepsIs(reg, r.regDep);
    }
  }
}
