/**
 Varints and length-delimited messages, after custom_gem5/util/protolib.py (the
 "Base 128 Varints" of the Protocol Buffers encoding). Bytes are numbers below 256, so
 masking with 0x7f is a remainder by 128, shifting right by 7 a quotient, and or-ing into
 bits that are still zero a sum. Message contents are opaque byte strings.
 */
module Protolib {
  import opened Basics
  import opened Arithmetic
  import opened Streams

  function Pow2(n: nat): (p: nat)
    ensures 0 < p
  {
    if n == 0 then 1 else 2 * Pow2(n - 1)
  }

  const TWO32: nat := 0x1_0000_0000
  const TWO63: nat := 0x8000_0000_0000_0000

  // ---------------------------------------------------------------- varints

  function Encode(value: nat): (bs: seq<Byte>)
    ensures 0 < |bs|
  {
    if value < 128 then [value] else [128 + value % 128] + Encode(value / 128)
  }

  /** `x` shifted left by `n` groups of seven bits. */
  function Shift7(x: nat, n: nat): nat {
    if n == 0 then x else 128 * Shift7(x, n - 1)
  }

  datatype Varint = Value(value: int, used: nat) | TooManyBytes

  /** The 32-bit mask, with the sign extension that values of 64 bits and more get. */
  function Narrow(result: nat): int {
    if TWO63 <= result then result % TWO32 - TWO32 else result % TWO32
  }

  /** Decoding with `result` already read from `pos` bytes; the end of input reads as value 0 of 0 bytes. */
  function DecodeFrom(s: seq<Byte>, result: nat, pos: nat): Varint
    requires pos < 10
    decreases |s|
  {
    if s == [] then Value(0, 0) else
      var r := result + Shift7(s[0] % 128, pos);
      if s[0] < 128 then Value(Narrow(r), pos + 1)
      else if 64 <= 7 * (pos + 1) then TooManyBytes
      else DecodeFrom(s[1..], r, pos + 1)
  }

  function Decode(s: seq<Byte>): Varint {
    DecodeFrom(s, 0, 0)
  }

  /** The bytes that decoding takes from the input. */
  function Taken(s: seq<Byte>, pos: nat): (n: nat)
    ensures n <= |s|
    decreases |s|
  {
    if s == [] then 0 else if s[0] < 128 || 64 <= 7 * (pos + 1) then 1 else 1 + Taken(s[1..], pos + 1)
  }

  lemma Pow2Seven(n: nat)
    ensures Pow2(n + 7) == 128 * Pow2(n)
  {
    assert Pow2(n + 7) == 2 * Pow2(n + 6);
    assert Pow2(n + 6) == 2 * Pow2(n + 5);
    assert Pow2(n + 5) == 2 * Pow2(n + 4);
    assert Pow2(n + 4) == 2 * Pow2(n + 3);
    assert Pow2(n + 3) == 2 * Pow2(n + 2);
    assert Pow2(n + 2) == 2 * Pow2(n + 1);
  }

  /** A byte's seven bits and the rest of the value, each shifted into place, make up the value. */
  lemma {:induction false} Shifted(value: nat, pos: nat)
    ensures Shift7(value % 128, pos) + Shift7(value / 128, pos + 1) == Shift7(value, pos)
  {
    if 0 < pos {
      Shifted(value, pos - 1);
      assert Shift7(value / 128, pos + 1) == 128 * Shift7(value / 128, pos);
    }
  }

  /** Decoding what was encoded, from any position: the value or, past ten bytes, the error. */
  lemma {:induction false} DecodeEncoded(value: nat, suffix: seq<Byte>, result: nat, pos: nat)
    requires pos < 10
    ensures DecodeFrom(Encode(value) + suffix, result, pos) ==
            if pos + |Encode(value)| <= 10 then Value(Narrow(result + Shift7(value, pos)), pos + |Encode(value)|)
                else TooManyBytes
    decreases value
  {
    var s := Encode(value) + suffix;
    if 128 <= value {
      var rest := Encode(value / 128) + suffix;
      assert s == [128 + value % 128] + rest && s[1..] == rest;
      assert s[0] % 128 == value % 128;
      Shifted(value, pos);
      if pos < 9 {
        DecodeEncoded(value / 128, suffix, result + Shift7(value % 128, pos), pos + 1);
      }
    } else {
      assert s[0] == value;
    }
  }

  // ---------------------------------------------------------------- decoding any bytes

  /** The low seven bits of the bytes, the first the lowest. */
  ghost function Groups(s: seq<Byte>): nat {
    if s == [] then 0 else s[0] % 128 + 128 * Groups(s[1..])
  }

  /** The first `n` bytes all say that another one follows. */
  ghost predicate Continues(s: seq<Byte>, n: nat) {
    n <= |s| && forall i :: 0 <= i < n ==> 128 <= s[i]
  }

  lemma {:induction false} ShiftSum(a: nat, b: nat, pos: nat)
    ensures Shift7(a + b, pos) == Shift7(a, pos) + Shift7(b, pos) && Shift7(128 * b, pos) == Shift7(b, pos + 1)
  {
    if 0 < pos {
      ShiftSum(a, b, pos - 1);
    }
  }

  lemma {:induction false} DecodeEnds(s: seq<Byte>, k: nat, result: nat, pos: nat)
    requires Continues(s, k) && k < |s| && s[k] < 128 && pos + k < 10
    ensures DecodeFrom(s, result, pos) == Value(Narrow(result + Shift7(Groups(s[..k + 1]), pos)), pos + k + 1)
    ensures Taken(s, pos) == k + 1
    decreases k
  {
    var g := Groups(s[..k + 1]);
    assert s[..k + 1][1..] == s[1..][..k];
    ShiftSum(s[0] % 128, 128 * Groups(s[1..][..k]), pos);
    if 0 < k {
      ShiftSum(0, Groups(s[1..][..k]), pos);
      DecodeEnds(s[1..], k - 1, result + Shift7(s[0] % 128, pos), pos + 1);
    } else {
      assert s[1..][..0] == [];
      ShiftSum(s[0] % 128, 0, pos);
      ShiftSum(0, 0, pos);
    }
  }

  lemma {:induction false} DecodeRunsOut(s: seq<Byte>, result: nat, pos: nat)
    requires Continues(s, |s|) && pos + |s| < 10
    ensures DecodeFrom(s, result, pos) == Value(0, 0) && Taken(s, pos) == |s|
    decreases |s|
  {
    if s != [] {
      DecodeRunsOut(s[1..], result + Shift7(s[0] % 128, pos), pos + 1);
    }
  }

  lemma {:induction false} DecodeTooLong(s: seq<Byte>, result: nat, pos: nat)
    requires pos < 10 && Continues(s, 10 - pos)
    ensures DecodeFrom(s, result, pos) == TooManyBytes && Taken(s, pos) == 10 - pos
    decreases 10 - pos
  {
    if pos < 9 {
      DecodeTooLong(s[1..], result + Shift7(s[0] % 128, pos), pos + 1);
    }
  }

  /** A number ends at the first byte below 128, if that is one of the first ten. */
  lemma DecodeAny(s: seq<Byte>, k: nat)
    ensures Continues(s, k) && k < |s| && s[k] < 128 && k < 10 ==>
              Decode(s) == Value(Narrow(Groups(s[..k + 1])), k + 1) && Taken(s, 0) == k + 1
    ensures Continues(s, |s|) && |s| < 10 ==> Decode(s) == Value(0, 0) && Taken(s, 0) == |s|
    ensures Continues(s, 10) ==> Decode(s) == TooManyBytes && Taken(s, 0) == 10
  {
    if Continues(s, k) && k < |s| && s[k] < 128 && k < 10 {
      DecodeEnds(s, k, 0, 0);
    }
    if Continues(s, |s|) && |s| < 10 {
      DecodeRunsOut(s, 0, 0);
    }
    if Continues(s, 10) {
      DecodeTooLong(s, 0, 0);
    }
  }

  function Bits(value: nat): nat {
    if value == 0 then 0 else 1 + Bits(value / 2)
  }

  lemma BitsSeven(value: nat)
    requires 128 <= value
    ensures Bits(value) == 7 + Bits(value / 128)
  {
    assert Bits(value) == 1 + Bits(value / 2);
    assert Bits(value / 2) == 1 + Bits(value / 4) by { assert value / 2 / 2 == value / 4; }
    assert Bits(value / 4) == 1 + Bits(value / 8) by { assert value / 4 / 2 == value / 8; }
    assert Bits(value / 8) == 1 + Bits(value / 16) by { assert value / 8 / 2 == value / 16; }
    assert Bits(value / 16) == 1 + Bits(value / 32) by { assert value / 16 / 2 == value / 32; }
    assert Bits(value / 32) == 1 + Bits(value / 64) by { assert value / 32 / 2 == value / 64; }
    assert Bits(value / 64) == 1 + Bits(value / 128) by { assert value / 64 / 2 == value / 128; }
  }

  lemma {:induction false} BitsBound(value: nat, k: nat)
    ensures Bits(value) <= k <==> value < Pow2(k)
    decreases k
  {
    if k == 0 {
    } else if 0 < value {
      BitsBound(value / 2, k - 1);
    }
  }

  lemma BitsOfSmall(value: nat)
    requires 0 < value < 128
    ensures 1 <= Bits(value) <= 7
  {
    BitsBound(value, 7);
    Pow2Seven(0);
  }

  /** One byte for every started group of seven bits, and at least one. */
  lemma {:induction false} EncodedLength(value: nat)
    ensures |Encode(value)| == if value == 0 then 1 else (Bits(value) + 6) / 7
    decreases value
  {
    if 128 <= value {
      EncodedLength(value / 128);
      BitsSeven(value);
      assert (7 + Bits(value / 128) + 6) / 7 == 1 + (Bits(value / 128) + 6) / 7;
    } else if 0 < value {
      BitsOfSmall(value);
    }
  }

  lemma PowersOf2()
    ensures Pow2(32) == TWO32 && Pow2(63) == TWO63 && Pow2(0) == 1
  {
    Pow2Seven(0); Pow2Seven(7); Pow2Seven(14); Pow2Seven(21); Pow2Seven(28);
    assert Pow2(28) == 0x1000_0000;
    assert Pow2(29) == 2 * Pow2(28);
    assert Pow2(30) == 2 * Pow2(29);
    assert Pow2(31) == 2 * Pow2(30);
    assert Pow2(32) == 2 * Pow2(31);
    Pow2Seven(35); Pow2Seven(42); Pow2Seven(49); Pow2Seven(56);
  }

  lemma LengthBound(value: nat, k: nat)
    requires 0 < k
    ensures |Encode(value)| <= k <==> value < Pow2(7 * k)
  {
    EncodedLength(value);
    BitsBound(value, 7 * k);
  }

  lemma {:induction false} Pow2Ascends(m: nat, n: nat)
    requires m <= n
    ensures Pow2(m) <= Pow2(n)
  {
    if m < n {
      Pow2Ascends(m, n - 1);
    }
  }

  lemma DecodeWhole(value: nat, suffix: seq<Byte>)
    ensures Decode(Encode(value) + suffix) == if |Encode(value)| <= 10 then Value(Narrow(value), |Encode(value)|)
            else TooManyBytes
  {
    DecodeEncoded(value, suffix, 0, 0);
  }

  /**
   What every number decodes to from its encoding, whatever follows it: its residue below
   2^63, the residue less 2^32 below 2^70, and too many bytes from there on.
   */
  lemma DecodeIs(value: nat, suffix: seq<Byte>)
    ensures Decode(Encode(value) + suffix) ==
            if value < TWO63 then Value(value % TWO32, |Encode(value)|)
            else if value < Pow2(70) then Value(value % TWO32 - TWO32, |Encode(value)|)
            else TooManyBytes
  {
    DecodeWhole(value, suffix);
    LengthBound(value, 10);
    PowersOf2();
    Pow2Ascends(63, 70);
  }

  /** A value below 2^32 decodes to itself and takes at most five bytes. */
  lemma RoundTrip(value: nat, suffix: seq<Byte>)
    requires value < TWO32
    ensures Decode(Encode(value) + suffix) == Value(value, |Encode(value)|) && |Encode(value)| <= 5
  {
    DecodeIs(value, suffix);
    LengthBound(value, 5);
    PowersOf2();
    Pow2Ascends(32, 35);
  }

  /** No encoding is a proper prefix of another. */
  lemma {:induction false} PrefixFree(a: nat, b: nat)
    requires Encode(a) <= Encode(b)
    ensures a == b
    decreases a
  {
    assert Encode(a)[0] == Encode(b)[0];
    if 128 <= a {
      assert Encode(a)[1..] == Encode(a / 128) && Encode(b)[1..] == Encode(b / 128);
      assert Encode(a)[1..] <= Encode(b)[1..];
      PrefixFree(a / 128, b / 128);
    }
  }

  // ---------------------------------------------------------------- streams

  lemma EncodeStep(sofar: seq<Byte>, v: nat, bits: nat)
    requires 0 < v && bits < 128
    ensures sofar + Encode(128 * v + bits) == sofar + [128 + bits] + Encode(128 * (v / 128) + v % 128)
  {
    var x := 128 * v + bits;
    assert x / 128 == v && x % 128 == bits;
  }

  method EncodeVarint32(out: OutFile, value: nat)
    modifies out
    ensures out.bytes == old(out.bytes) + Encode(value)
  {
    var bits, v := value % 128, value / 128;
    while v != 0
      invariant 0 <= bits < 128 && 0 <= v
      invariant out.bytes + Encode(128 * v + bits) == old(out.bytes) + Encode(value)
    {
      EncodeStep(out.bytes, v, bits);
      out.Put([128 + bits]);
      bits, v := v % 128, v / 128;
    }
    out.Put([bits]);
  }

  method DecodeVarint32(f: InFile) returns (r: Varint)
    requires f.Valid()
    modifies f
    ensures f.Valid() && r == Decode(old(f.Rest())) && f.Rest() == old(f.Rest())[Taken(old(f.Rest()), 0)..]
  {
    ghost var all := f.Rest();
    var result: nat, shift, pos: nat := 0, 0, 0;
    while true
      invariant f.Valid() && pos < 10 && shift == 7 * pos
      invariant pos + |f.Rest()| <= |all| && f.Rest() == all[|all| - |f.Rest()|..]
      invariant Decode(all) == DecodeFrom(f.Rest(), result, pos)
      invariant Taken(all, 0) == |all| - |f.Rest()| + Taken(f.Rest(), pos)
      decreases 10 - pos
    {
      ghost var s := f.Rest();
      var c := f.Read(1);
      if |c| == 0 {
        return Value(0, 0);
      }
      var b := c[0];
      assert s[0] == b && s[1..] == f.Rest();
      result := result + Shift7(b % 128, shift / 7);
      pos := pos + 1;
      if b < 128 {
        return Value(Narrow(result), pos);
      }
      shift := shift + 7;
      if 64 <= shift {
        return TooManyBytes;
      }
    }
  }

  // ---------------------------------------------------------------- messages

  /** One message off the input, if there is one, and what is left. */
  function ReadMessage(s: seq<Byte>): (Option<seq<Byte>>, seq<Byte>) {
    var rest := s[Taken(s, 0)..];
    match Decode(s)
    case TooManyBytes => (None, rest)
    case Value(size, _) =>
      if size == 0 then (None, rest)
      else if size < 0 || |rest| <= size then (Some(rest), [])
      else (Some(rest[..size]), rest[size..])
  }

  /** Messages until there is none. */
  function ReadAll(s: seq<Byte>): seq<seq<Byte>>
    decreases |s|
  {
    var (m, rest) := ReadMessage(s);
    if m.None? then [] else [m.value] + ReadAll(rest)
  }

  function Frame(p: seq<Byte>): seq<Byte> {
    Encode(|p|) + p
  }

  function Stream(ps: seq<seq<Byte>>): seq<Byte> {
    if ps == [] then [] else Frame(ps[0]) + Stream(ps[1..])
  }

  method EncodeMessage(out: OutFile, payload: seq<Byte>)
    modifies out
    ensures out.bytes == old(out.bytes) + Frame(payload)
  {
    EncodeVarint32(out, |payload|);
    out.Put(payload);
  }

  /** The end of the input, a zero length and an overlong length all read as no message. */
  method DecodeMessage(f: InFile) returns (m: Option<seq<Byte>>)
    requires f.Valid()
    modifies f
    ensures f.Valid() && (m, f.Rest()) == ReadMessage(old(f.Rest()))
  {
    var r := DecodeVarint32(f);
    if r.TooManyBytes? || r.value == 0 {
      return None;
    }
    var buf := f.Read(r.value);
    m := Some(buf);
  }

  method DecodeAll(f: InFile) returns (ms: seq<seq<Byte>>)
    requires f.Valid()
    modifies f
    ensures ms == ReadAll(old(f.Rest()))
  {
    ms := [];
    ghost var total := ReadAll(f.Rest());
    while true
      invariant f.Valid() && ms + ReadAll(f.Rest()) == total
      decreases |f.Rest()|
    {
      ReadAllStep(ms, f.Rest());
      var m := DecodeMessage(f);
      if m.None? {
        return;
      }
      ms := ms + [m.value];
    }
  }

  lemma ReadAllStep(ms: seq<seq<Byte>>, s: seq<Byte>)
    ensures var (m, rest) := ReadMessage(s);
            if m.None? then ms + ReadAll(s) == ms else |rest| < |s| && ms + ReadAll(s) == ms + [m.value] + ReadAll(rest)
  {
  }

  // ---------------------------------------------------------------- framing

  lemma {:induction false} TakenEncoded(value: nat, suffix: seq<Byte>, pos: nat)
    requires pos + |Encode(value)| <= 10
    ensures Taken(Encode(value) + suffix, pos) == |Encode(value)|
    decreases value
  {
    var s := Encode(value) + suffix;
    if 128 <= value {
      assert s[1..] == Encode(value / 128) + suffix;
      TakenEncoded(value / 128, suffix, pos + 1);
    }
  }

  /** A frame with `have` bytes of its payload left in the input, all of it or all there is. */
  lemma ReadFramed(n: nat, body: seq<Byte>, suffix: seq<Byte>)
    requires 0 < n < TWO32 && (|body| == n || (|body| < n && suffix == []))
    ensures ReadMessage(Encode(n) + body + suffix) == (Some(body), suffix)
  {
    var s := Encode(n) + body + suffix;
    assert s == Encode(n) + (body + suffix);
    RoundTrip(n, body + suffix);
    TakenEncoded(n, body + suffix, 0);
    assert s[|Encode(n)|..] == body + suffix;
    assert body + [] == body;
  }

  /** A length of 2^63 or more, but below 2^70, comes out negative, and all that is left is one message. */
  lemma ReadHuge(n: nat, rest: seq<Byte>)
    requires TWO63 <= n < Pow2(70)
    ensures ReadMessage(Encode(n) + rest) == (Some(rest), [])
  {
    var s := Encode(n) + rest;
    DecodeIs(n, rest);
    LengthBound(n, 10);
    TakenEncoded(n, rest, 0);
    assert s[|Encode(n)|..] == rest;
  }

  /** An input cut inside a length prefix reads as no message. */
  lemma {:induction false} CutPrefix(value: nat, k: nat, result: nat, pos: nat)
    requires k < |Encode(value)| && pos + |Encode(value)| <= 10
    ensures DecodeFrom(Encode(value)[..k], result, pos) == Value(0, 0)
    decreases value
  {
    var s := Encode(value)[..k];
    if 0 < k {
      assert s[1..] == Encode(value / 128)[..k - 1];
      assert Encode(value)[1..] == Encode(value / 128);
      CutPrefix(value / 128, k - 1, result + Shift7(s[0] % 128, pos), pos + 1);
    }
  }

  ghost predicate Sendable(ps: seq<seq<Byte>>) {
    forall i :: 0 <= i < |ps| ==> 0 < |ps[i]| < TWO32
  }

  lemma StreamHead(ps: seq<seq<Byte>>, tail: seq<Byte>)
    requires ps != []
    ensures Stream(ps) + tail == Encode(|ps[0]|) + ps[0] + (Stream(ps[1..]) + tail)
  {
  }

  lemma ReadOne(p: seq<Byte>, rest: seq<Byte>, after: seq<seq<Byte>>) returns (x: seq<Byte>)
    requires 0 < |p| < TWO32 && ReadAll(rest) == after
    ensures x == Encode(|p|) + p + rest && ReadAll(x) == [p] + after
  {
    ReadFramed(|p|, p, rest);
    x := Encode(|p|) + p + rest;
  }

  lemma ConsAssociates(p: seq<Byte>, a: seq<seq<Byte>>, b: seq<seq<Byte>>)
    ensures [p] + (a + b) == ([p] + a) + b
  {
  }

  /** Reading a stream of messages followed by anything gives the messages and then what follows gives. */
  lemma ReadStream(ps: seq<seq<Byte>>, tail: seq<Byte>)
    requires Sendable(ps)
    ensures ReadAll(Stream(ps) + tail) == ps + ReadAll(tail)
  {
    var after := ReadAll(tail);
    var x, out, done := tail, after, [];
    assert Stream([]) + tail == tail && [] + after == after;
    for i := |ps| downto 0
      invariant done == ps[i..] && x == Stream(done) + tail
      invariant ReadAll(x) == out && out == done + after
    {
      var p := ps[i];
      assert ([p] + done)[1..] == done;
      StreamHead([p] + done, tail);
      ConsAssociates(p, done, after);
      x := ReadOne(p, x, out);
      out, done := [p] + out, [p] + done;
    }
  }

  /** A stream cut inside the next length prefix still gives exactly the messages before it. */
  lemma CutInPrefix(ps: seq<seq<Byte>>, n: nat, k: nat)
    requires Sendable(ps) && n < TWO32 && k < |Encode(n)|
    ensures ReadAll(Stream(ps) + Encode(n)[..k]) == ps
  {
    RoundTrip(n, []);
    CutPrefix(n, k, 0, 0);
    ReadStream(ps, Encode(n)[..k]);
    assert ReadAll(Encode(n)[..k]) == [];
  }

  /** A stream cut inside a payload gives one more message, the part of the payload that is there. */
  lemma CutInPayload(ps: seq<seq<Byte>>, p: seq<Byte>, k: nat)
    requires Sendable(ps) && 0 < |p| < TWO32 && k < |p|
    ensures ReadAll(Stream(ps) + (Encode(|p|) + p[..k])) == ps + [p[..k]]
  {
    ReadStream(ps, Encode(|p|) + p[..k]);
    assert Encode(|p|) + p[..k] + [] == Encode(|p|) + p[..k];
    ReadFramed(|p|, p[..k], []);
    assert ReadAll([]) == [];
  }

  /** An empty message reads as the end of the stream. */
  lemma EmptyStops(ps: seq<seq<Byte>>, tail: seq<Byte>)
    requires Sendable(ps)
    ensures ReadAll(Stream(ps) + (Frame([]) + tail)) == ps
  {
    ReadStream(ps, Frame([]) + tail);
    assert Frame([]) + tail == Encode(0) + tail;
    RoundTrip(0, tail);
  }

  lemma {:induction false} StreamConcat(a: seq<seq<Byte>>, b: seq<seq<Byte>>)
    ensures Stream(a + b) == Stream(a) + Stream(b)
    decreases |a|
  {
    if a == [] {
      assert a + b == b;
    } else {
      assert (a + b)[1..] == a[1..] + b;
      StreamConcat(a[1..], b);
    }
  }

  lemma FirstEmpty(ps: seq<seq<Byte>>) returns (i: nat)
    requires exists k :: 0 <= k < |ps| && ps[k] == []
    ensures i < |ps| && ps[i] == [] && forall k :: 0 <= k < i ==> ps[k] != []
  {
    i := 0;
    while ps[i] != []
      invariant i < |ps| && forall k :: 0 <= k < i ==> ps[k] != []
      decreases |ps| - i
    {
      i := i + 1;
    }
  }

  /** Messages below 2^32 bytes come back exactly, and then the end, if and only if none of them is empty. */
  lemma FramingRoundTrip(ps: seq<seq<Byte>>)
    requires forall i :: 0 <= i < |ps| ==> |ps[i]| < TWO32
    ensures ReadAll(Stream(ps)) == ps <==> forall i :: 0 <= i < |ps| ==> ps[i] != []
  {
    if forall i :: 0 <= i < |ps| ==> ps[i] != [] {
      ReadStream(ps, []);
      assert Stream(ps) + [] == Stream(ps) && ReadAll([]) == [];
    } else {
      var i := FirstEmpty(ps);
      assert ps == ps[..i] + ([ps[i]] + ps[i + 1..]);
      StreamConcat(ps[..i], [ps[i]] + ps[i + 1..]);
      assert ([ps[i]] + ps[i + 1..])[1..] == ps[i + 1..];
      EmptyStops(ps[..i], Stream(ps[i + 1..]));
    }
  }
}
