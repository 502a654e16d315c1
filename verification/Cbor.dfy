/**
 The encoding of messages: the part of CBOR (RFC 8949, section 3) they use, with
 shortest heads. Bytes are numbers below 256, and texts are counted in bytes.
 */
module Cbor {

  datatype Value =
    | Unsigned(n: nat)
    | Negative(n: nat)                        // stands for -1 - n
    | Blob(bytes: seq<int>)
    | Text(text: string)
    | List(items: seq<Value>)
    | Pairs(pairs: seq<(string, Value)>)      // a map with text keys
    | Flag(on: bool)

  // --- Heads ------------------------------------------------------------------------------

  /** The last `w` bytes of `n`, most significant first. */
  function BigEndian(n: nat, w: nat): (b: seq<int>)
    ensures |b| == w && forall i :: 0 <= i < w ==> 0 <= b[i] < 256
    decreases w
  {
    if w == 0 then [] else BigEndian(n / 256, w - 1) + [n % 256]
  }

  function Big(b: seq<int>): int {
    if b == [] then 0 else 256 * Big(b[..|b| - 1]) + b[|b| - 1]
  }

  function Power256(w: nat): (p: nat)
    ensures p >= 1
  {
    if w == 0 then 1 else 256 * Power256(w - 1)
  }

  lemma {:induction false} BigEndianReads(n: nat, w: nat)
    requires n < Power256(w)
    ensures Big(BigEndian(n, w)) == n
    decreases w
  {
    if w > 0 {
      BigEndianReads(n / 256, w - 1);
      var b := BigEndian(n, w);
      assert b[..|b| - 1] == BigEndian(n / 256, w - 1);
    }
  }

  /** How many bytes follow the first one of a shortest head. */
  function Width(n: nat): nat {
    if n < 24 then 0 else if n < 0x100 then 1 else if n < 0x1_0000 then 2 else if n < 0x1_0000_0000 then 4 else 8
  }

  /** The low five bits of the first byte. */
  function Info(n: nat): nat {
    match Width(n)
    case 0 => n
    case 1 => 24
    case 2 => 25
    case 4 => 26
    case _ => 27
  }

  /** Major type and argument. */
  function Head(major: nat, n: nat): seq<int> {
    [32 * major + Info(n)] + BigEndian(n, Width(n))
  }

  function Following(info: int): int {
    if info < 24 then 0 else if info == 24 then 1 else if info == 25 then 2 else if info == 26 then 4 else if info == 27 then 8 else -1
  }

  datatype Read = Bad | Read(major: int, n: int, rest: seq<int>)

  /** What a reader takes a head for. */
  function ReadHead(b: seq<int>): Read {
    if b == [] then Bad
    else
      var info := b[0] % 32;
      var w := Following(info);
      if w < 0 || |b| < 1 + w then Bad
      else Read(b[0] / 32, if w == 0 then info else Big(b[1..1 + w]), b[1 + w..])
  }

  /** Any argument of 64 bits is read back, with whatever follows. */
  lemma HeadReads(major: nat, n: nat, rest: seq<int>)
    requires n < 0x1_0000_0000_0000_0000
    ensures ReadHead(Head(major, n) + rest) == Read(major, n, rest)
  {
    WidthFits(n);
    if Width(n) > 0 { BigEndianReads(n, Width(n)); }
    ReadOf(Head(major, n) + rest, major, Info(n), BigEndian(n, Width(n)), rest);
  }

  lemma ReadOf(b: seq<int>, major: nat, info: nat, tail: seq<int>, rest: seq<int>)
    requires info < 32 && Following(info) == |tail| && b == [32 * major + info] + tail + rest
    ensures ReadHead(b) == Read(major, if tail == [] then info else Big(tail), rest)
  {
    assert b[0] == 32 * major + info && b[1..1 + |tail|] == tail && b[1 + |tail|..] == rest;
    FirstByte(major, info);
  }

  lemma FirstByte(major: nat, info: nat)
    requires info < 32
    ensures (32 * major + info) / 32 == major && (32 * major + info) % 32 == info
  {
  }

  lemma WidthFits(n: nat)
    requires n < 0x1_0000_0000_0000_0000
    ensures n < Power256(Width(n)) || Width(n) == 0
  {
    assert Power256(1) == 256 * Power256(0);
    assert Power256(2) == 256 * Power256(1);
    assert Power256(4) == 256 * Power256(3) && Power256(3) == 256 * Power256(2);
    assert Power256(8) == 256 * Power256(7) && Power256(7) == 256 * Power256(6) && Power256(6) == 256 * Power256(5) && Power256(5) == 256 * Power256(4);
  }

  // --- Values -----------------------------------------------------------------------------

  function TextBytes(s: string): (b: seq<int>)
    ensures |b| == |s|
  {
    seq(|s|, i requires 0 <= i < |s| => s[i] as int)
  }

  function EncodeText(s: string): seq<int> {
    Head(3, |s|) + TextBytes(s)
  }

  function Count(v: Value): nat {
    match v
    case List(items) => |items| + 1
    case Pairs(pairs) => |pairs| + 1
    case _ => 0
  }

  function Encode(v: Value): seq<int>
    decreases v, Count(v)
  {
    match v
    case Unsigned(n) => Head(0, n)
    case Negative(n) => Head(1, n)
    case Blob(bytes) => Head(2, |bytes|) + bytes
    case Text(text) => EncodeText(text)
    case List(items) => Head(4, |items|) + EncodeItems(v, |items|)
    case Pairs(pairs) => Head(5, |pairs|) + EncodePairs(v, |pairs|)
    case Flag(on) => [if on then 245 else 244]
  }

  function EncodeItems(v: Value, n: nat): seq<int>
    requires v.List? && n <= |v.items|
    decreases v, n
  {
    if n == 0 then [] else EncodeItems(v, n - 1) + Encode(v.items[n - 1])
  }

  function EncodePairs(v: Value, n: nat): seq<int>
    requires v.Pairs? && n <= |v.pairs|
    decreases v, n
  {
    if n == 0 then []
    else EncodePairs(v, n - 1) + EncodeText(v.pairs[n - 1].0) + Encode(v.pairs[n - 1].1)
  }
}
