/** Little-endian integers and length-prefixed byte strings, printed and parsed. */
module Bytes {
  import opened Common

  type Byte = n: int | 0 <= n < 256

  /** One more than the largest value that fits in `width` bytes. */
  function Limit(width: nat): nat { if width == 0 then 1 else 256 * Limit(width - 1) }

  /** `width` bytes, least significant first. */
  function Little(width: nat, v: nat): (r: seq<Byte>)
    ensures |r| == width
  {
    if width == 0 then [] else [v % 256] + Little(width - 1, v / 256)
  }

  function Value(b: seq<Byte>): nat {
    if b == [] then 0 else b[0] + 256 * Value(b[1..])
  }

  lemma {:induction false} ValueOfLittle(width: nat, v: nat)
    requires v < Limit(width)
    ensures Value(Little(width, v)) == v
  {
    if width > 0 {
      ValueOfLittle(width - 1, v / 256);
      assert Little(width, v)[1..] == Little(width - 1, v / 256);
    }
  }

  lemma {:induction false} LittleOfValue(b: seq<Byte>)
    ensures Little(|b|, Value(b)) == b && Value(b) < Limit(|b|)
  {
    if b != [] {
      LittleOfValue(b[1..]);
      assert Value(b) % 256 == b[0] && Value(b) / 256 == Value(b[1..]);
      assert b == [b[0]] + b[1..];
    }
  }

  /** No other bytes stand for the value than the ones written for it. */
  lemma ValueIs(b: seq<Byte>, v: nat)
    requires v < Limit(|b|)
    ensures Value(b) == v <==> b == Little(|b|, v)
  {
    ValueOfLittle(|b|, v);
    LittleOfValue(b);
  }

  lemma Limits()
    ensures Limit(1) == 0x100 && Limit(4) == 0x1_0000_0000 && Limit(8) == 0x1_0000_0000_0000_0000
  {
    assert Limit(2) == 0x1_0000 && Limit(3) == 0x100_0000;
    assert Limit(5) == 0x100_0000_0000 && Limit(6) == 0x1_0000_0000_0000 && Limit(7) == 0x100_0000_0000_0000;
  }

  lemma {:induction false} LimitPositive(width: nat)
    ensures Limit(width) > 0
  {
    if width > 0 { LimitPositive(width - 1); }
  }

  /** The byte at place `k` counts the 256 to the power of `k`s. */
  lemma {:induction false} LittleDigit(width: nat, v: nat, k: nat)
    requires k < width
    ensures Limit(k) > 0 && Little(width, v)[k] == v / Limit(k) % 256
  {
    LimitPositive(k);
    if k > 0 {
      LimitPositive(k - 1);
      LittleDigit(width - 1, v / 256, k - 1);
      QuotientTwice(v, Limit(k - 1));
    }
  }

  lemma QuotientTwice(v: nat, n: nat)
    requires n > 0
    ensures v / 256 / n == v / (256 * n)
  {
    var q, r := v / 256, v % 256;
    var a, b := q / n, q % n;
    assert q == n * a + b;
    assert 256 * q == 256 * (n * a) + 256 * b;
    assert 256 * (n * a) == (256 * n) * a;
    assert v == (256 * n) * a + (256 * b + r);
    assert 0 <= 256 * b + r < 256 * n;
    SameQuotient(256 * n, a, 256 * b + r, v);
  }

  lemma SameQuotient(n: nat, a: nat, r: nat, v: nat)
    requires r < n && v == n * a + r
    ensures v / n == a
  {
    var c, m := v / n, v % n;
    if a > c { Spread(n, c, a - c); }
    if a < c { Spread(n, a, c - a); }
    assert n * c + m == n * a + r;
  }

  lemma Spread(n: nat, a: nat, more: nat)
    requires more > 0
    ensures n * (a + more) >= n * a + n
  {
    assert n * (a + more) == n * a + n * more;
    assert n * more == n + n * (more - 1);
  }

  // ----- Places --------------------------------------------------------------------------------

  /** `part` stands at offset `from`. */
  ghost predicate At(d: seq<Byte>, from: nat, part: seq<Byte>) {
    from + |part| <= |d| && d[from..from + |part|] == part
  }

  /** Behind offset `o` comes `front`, and behind that `rest`. */
  lemma Next(d: seq<Byte>, o: nat, front: seq<Byte>, rest: seq<Byte>)
    requires o <= |d| && d[o..] == front + rest
    ensures At(d, o, front) && d[o + |front|..] == rest
  {
    assert |d[o..]| == |front| + |rest|;
    assert d[o..o + |front|] == d[o..][..|front|];
    assert d[o + |front|..] == d[o..][|front|..];
  }

  lemma AtWithin(d: seq<Byte>, o: nat, part: seq<Byte>, i: nat, inner: seq<Byte>)
    requires At(d, o, part) && At(part, i, inner)
    ensures At(d, o + i, inner)
  {
    var here := d[o..o + |part|];
    assert here[i..i + |inner|] == inner;
    forall k | 0 <= k < |inner| ensures d[o + i + k] == inner[k] {
      assert here[i + k] == here[i..i + |inner|][k];
    }
    assert d[o + i..o + i + |inner|] == inner;
  }

  lemma {:induction false} U64sAt(vs: seq<U64>, k: nat)
    requires k < |vs|
    ensures At(PrintU64s(vs), 8 * k, Little(8, vs[k]))
  {
    if k > 0 {
      U64sAt(vs[1..], k - 1);
      Next(PrintU64s(vs), 0, Little(8, vs[0]), PrintU64s(vs[1..]));
      var rest := PrintU64s(vs)[8..];
      assert At(rest, 8 * (k - 1), Little(8, vs[k]));
      assert PrintU64s(vs)[8 * k..8 * k + 8] == rest[8 * (k - 1)..8 * k];
    }
  }

  lemma Regroup(a: seq<Byte>, b: seq<Byte>, c: seq<Byte>)
    ensures a + b + c == a + (b + c)
  {
  }

  // ----- Parsing: a value and what is left, or the input ended too soon ------------------------

  datatype Parsed<+T> = Parsed(value: T, rest: seq<Byte>) | Short

  function Take(n: nat, data: seq<Byte>): (r: Parsed<seq<Byte>>)
    ensures r.Parsed? <==> n <= |data|
    ensures r.Parsed? ==> |r.value| == n && r.value + r.rest == data
  {
    if n <= |data| then Parsed(data[..n], data[n..]) else Short
  }

  function ParseInt(width: nat, data: seq<Byte>): Parsed<nat> {
    match Take(width, data)
    case Parsed(b, rest) => Parsed(Value(b), rest)
    case Short => Short
  }

  function ParseU64(data: seq<Byte>): Parsed<U64> {
    match ParseInt(8, data)
    case Parsed(v, rest) =>
      LittleOfValue(data[..8]);
      Limits();
      Parsed(v, rest)
    case Short => Short
  }

  /** Parsing what was printed gives the value back and leaves the rest alone. */
  lemma ParseIntPrinted(width: nat, v: nat, rest: seq<Byte>)
    requires v < Limit(width)
    ensures ParseInt(width, Little(width, v) + rest) == Parsed(v, rest)
  {
    ValueOfLittle(width, v);
    assert (Little(width, v) + rest)[..width] == Little(width, v);
    assert (Little(width, v) + rest)[width..] == rest;
  }

  /** What parses was printed: no other bytes stand for the same value. */
  lemma ParseIntExact(width: nat, data: seq<Byte>)
    ensures ParseInt(width, data).Parsed? ==>
      var p := ParseInt(width, data); p.value < Limit(width) && data == Little(width, p.value) + p.rest
  {
    if width <= |data| {
      LittleOfValue(data[..width]);
      assert data == data[..width] + data[width..];
    }
  }

  /** Input that parsed still parses the same with more behind it. */
  lemma ParseIntStable(width: nat, data: seq<Byte>, more: seq<Byte>)
    ensures ParseInt(width, data).Parsed? ==>
      ParseInt(width, data + more) == Parsed(ParseInt(width, data).value, ParseInt(width, data).rest + more)
  {
    TakeStable(width, data, more);
  }

  lemma TakeStable(n: nat, data: seq<Byte>, more: seq<Byte>)
    ensures Take(n, data).Parsed? ==>
      Take(n, data + more) == Parsed(Take(n, data).value, Take(n, data).rest + more)
  {
    if n <= |data| {
      assert (data + more)[..n] == data[..n];
      assert (data + more)[n..] == data[n..] + more;
    }
  }

  lemma ParseBytesStable(data: seq<Byte>, more: seq<Byte>)
    ensures ParseBytes(data).Parsed? ==>
      ParseBytes(data + more) == Parsed(ParseBytes(data).value, ParseBytes(data).rest + more)
  {
    ParseIntStable(4, data, more);
    if ParseInt(4, data).Parsed? {
      TakeStable(ParseInt(4, data).value, ParseInt(4, data).rest, more);
    }
  }

  // ----- Lists of 64-bit integers --------------------------------------------------------------

  function PrintU64s(vs: seq<U64>): (r: seq<Byte>)
    ensures |r| == 8 * |vs|
  {
    if vs == [] then [] else Little(8, vs[0]) + PrintU64s(vs[1..])
  }

  function SplitU64s(b: seq<Byte>): (r: seq<U64>)
    requires |b| % 8 == 0
    ensures |r| == |b| / 8
  {
    if b == [] then []
    else
      LittleOfValue(b[..8]);
      Limits();
      [Value(b[..8])] + SplitU64s(b[8..])
  }

  lemma {:induction false} SplitPrinted(vs: seq<U64>)
    ensures SplitU64s(PrintU64s(vs)) == vs
  {
    if vs != [] {
      Limits();
      ValueOfLittle(8, vs[0]);
      var b := PrintU64s(vs);
      assert b[..8] == Little(8, vs[0]) && b[8..] == PrintU64s(vs[1..]);
      SplitPrinted(vs[1..]);
    }
  }

  lemma {:induction false} PrintSplit(b: seq<Byte>)
    requires |b| % 8 == 0
    ensures PrintU64s(SplitU64s(b)) == b
  {
    if b != [] {
      LittleOfValue(b[..8]);
      PrintSplit(b[8..]);
      assert SplitU64s(b)[1..] == SplitU64s(b[8..]);
      assert b == b[..8] + b[8..];
    }
  }

  /** A list of 64-bit integers behind its 32-bit count. */
  function ParseU64List(data: seq<Byte>): Parsed<seq<U64>> {
    match ParseInt(4, data)
    case Short => Short
    case Parsed(n, rest) =>
      match Take(8 * n, rest)
      case Short => Short
      case Parsed(b, after) => Parsed(SplitU64s(b), after)
  }

  function PrintU64List(vs: seq<U64>, rest: seq<Byte>): seq<Byte> { Little(4, |vs|) + (PrintU64s(vs) + rest) }

  lemma ParseU64ListPrinted(vs: seq<U64>, rest: seq<Byte>)
    requires |vs| < Limit(4)
    ensures ParseU64List(PrintU64List(vs, rest)) == Parsed(vs, rest)
  {
    ParseIntPrinted(4, |vs|, PrintU64s(vs) + rest);
    SplitPrinted(vs);
    assert (PrintU64s(vs) + rest)[..8 * |vs|] == PrintU64s(vs) && (PrintU64s(vs) + rest)[8 * |vs|..] == rest;
  }

  lemma ParseU64ListExact(data: seq<Byte>)
    ensures ParseU64List(data).Parsed? ==>
      var p := ParseU64List(data); |p.value| < Limit(4) && data == PrintU64List(p.value, p.rest)
  {
    ParseIntExact(4, data);
    if ParseU64List(data).Parsed? {
      var n := ParseInt(4, data);
      var t := Take(8 * n.value, n.rest);
      PrintSplit(t.value);
    }
  }

  lemma ParseU64ListStable(data: seq<Byte>, more: seq<Byte>)
    ensures ParseU64List(data).Parsed? ==>
      ParseU64List(data + more) == Parsed(ParseU64List(data).value, ParseU64List(data).rest + more)
  {
    ParseIntStable(4, data, more);
    if ParseInt(4, data).Parsed? {
      TakeStable(8 * ParseInt(4, data).value, ParseInt(4, data).rest, more);
    }
  }

  lemma {:induction false} U64sAppend(vs: seq<U64>, v: U64)
    ensures PrintU64s(vs + [v]) == PrintU64s(vs) + Little(8, v)
  {
    if vs == [] {
      assert [] + [v] == [v] && PrintU64s([v][1..]) == [];
    } else {
      assert (vs + [v])[1..] == vs[1..] + [v];
      U64sAppend(vs[1..], v);
    }
  }

  method WriteAll(buf: seq<Byte>, vs: seq<U64>) returns (out: seq<Byte>)
    ensures out == buf + PrintU64s(vs)
  {
    out := buf;
    for i := 0 to |vs|
      invariant out == buf + PrintU64s(vs[..i])
    {
      U64sAppend(vs[..i], vs[i]);
      assert vs[..i + 1] == vs[..i] + [vs[i]];
      out := out + Little(8, vs[i]);
    }
    assert vs[..|vs|] == vs;
  }

  /** A byte string behind its 32-bit length. */
  function PrintBytes(b: seq<Byte>): seq<Byte> { Little(4, |b|) + b }

  function ParseBytes(data: seq<Byte>): Parsed<seq<Byte>> {
    match ParseInt(4, data)
    case Short => Short
    case Parsed(n, rest) => Take(n, rest)
  }

  lemma ParseBytesPrinted(b: seq<Byte>, rest: seq<Byte>)
    requires |b| < Limit(4)
    ensures ParseBytes(PrintBytes(b) + rest) == Parsed(b, rest)
  {
    assert PrintBytes(b) + rest == Little(4, |b|) + (b + rest);
    ParseIntPrinted(4, |b|, b + rest);
    assert (b + rest)[..|b|] == b && (b + rest)[|b|..] == rest;
  }

  lemma ParseBytesExact(data: seq<Byte>)
    ensures ParseBytes(data).Parsed? ==>
      var p := ParseBytes(data); |p.value| < Limit(4) && data == PrintBytes(p.value) + p.rest
  {
    ParseIntExact(4, data);
    if ParseBytes(data).Parsed? {
      var p := ParseBytes(data);
      assert data == Little(4, |p.value|) + (p.value + p.rest);
    }
  }

  /** A cursor over received bytes, as the decoders use it. */
  class Decoder {
    const data: seq<Byte>
    var pos: nat

    constructor (data: seq<Byte>)
      ensures this.data == data && pos == 0
    {
      this.data, pos := data, 0;
    }

    ghost predicate Valid()
      reads this
    {
      pos <= |data|
    }

    ghost function Rest(): seq<Byte>
      reads this
      requires Valid()
    {
      data[pos..]
    }

    method TakeBytes(n: nat) returns (r: Option<seq<Byte>>)
      requires Valid()
      modifies this`pos
      ensures Valid()
      ensures match Take(n, old(Rest()))
        case Parsed(b, rest) => r == Some(b) && Rest() == rest
        case Short => r == None
    {
      if |data| - pos < n { return None; }
      assert data[pos..][..n] == data[pos..pos + n];
      assert data[pos..][n..] == data[pos + n..];
      r := Some(data[pos..pos + n]);
      pos := pos + n;
    }

    /** The bytes are read least significant first. */
    method ReadInt(width: nat) returns (r: Option<nat>)
      requires Valid()
      modifies this`pos
      ensures Valid()
      ensures match ParseInt(width, old(Rest()))
        case Parsed(v, rest) => r == Some(v) && Rest() == rest
        case Short => r == None
    {
      var bytes := TakeBytes(width);
      if bytes.None? { return None; }
      var v := ReadLittle(bytes.value);
      return Some(v);
    }

    method ReadBytes() returns (r: Option<seq<Byte>>)
      requires Valid()
      modifies this`pos
      ensures Valid()
      ensures match ParseBytes(old(Rest()))
        case Parsed(b, rest) => r == Some(b) && Rest() == rest
        case Short => r == None
    {
      var n := ReadInt(4);
      if n.None? { return None; }
      r := TakeBytes(n.value);
    }

    method ReadU64() returns (r: Option<U64>)
      requires Valid()
      modifies this`pos
      ensures Valid()
      ensures match ParseU64(old(Rest()))
        case Parsed(v, rest) => r == Some(v) && Rest() == rest
        case Short => r == None
    {
      ghost var before := Rest();
      var v := ReadInt(8);
      if v.None? { return None; }
      LittleOfValue(before[..8]);
      Limits();
      return Some(v.value);
    }

    /** The bytes of the whole list are taken first and then read eight at a time. */
    method ReadU64List() returns (r: Option<seq<U64>>)
      requires Valid()
      modifies this`pos
      ensures Valid()
      ensures match ParseU64List(old(Rest()))
        case Parsed(vs, rest) => r == Some(vs) && Rest() == rest
        case Short => r == None
    {
      var n := ReadInt(4);
      if n.None? { return None; }
      var bytes := TakeBytes(8 * n.value);
      if bytes.None? { return None; }
      var vs := ReadAll(bytes.value);
      return Some(vs);
    }

    method Remaining() returns (n: nat)
      requires Valid()
      ensures n == |Rest()|
    {
      n := |data| - pos;
    }
  }

  method ReadAll(b: seq<Byte>) returns (vs: seq<U64>)
    requires |b| % 8 == 0
    ensures vs == SplitU64s(b)
  {
    hide Value, Limit;
    vs := [];
    var left := b;
    while left != []
      invariant |left| % 8 == 0
      invariant vs + SplitU64s(left) == SplitU64s(b)
      decreases |left|
    {
      var v := ReadLittle(left[..8]);
      LittleOfValue(left[..8]);
      Limits();
      vs := vs + [v];
      left := left[8..];
    }
  }

  method ReadLittle(b: seq<Byte>) returns (v: nat)
    ensures v == Value(b)
  {
    v := 0;
    var i := |b|;
    while i > 0
      invariant 0 <= i <= |b| && v == Value(b[i..])
    {
      i := i - 1;
      assert b[i..][1..] == b[i + 1..];
      v := b[i] + 256 * v;
    }
    assert b[0..] == b;
  }
}
