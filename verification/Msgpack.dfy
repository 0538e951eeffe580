/** The array format family of the MessagePack specification. */
module Msgpack {
  import opened Bytes

  const MAX_HEADER: nat := 5

  /** The header that the encoder writes; the widest form keeps the low 32 bits. */
  function ArrayHeader(n: nat): (h: Text)
    ensures 1 <= |h| <= MAX_HEADER
  {
    if n < 16 then [0x90 + n]
    else if n <= 0xffff then [0xdc, n / 0x100, n % 0x100]
    else
      var m := n % 0x1_0000_0000;
      [0xdd, m / 0x100_0000, m / 0x1_0000 % 0x100, m / 0x100 % 0x100, m % 0x100]
  }

  /** Big-endian digits in base 256. */
  function Number(t: Text): nat
  {
    if t == [] then 0 else 0x100 * Number(t[..|t| - 1]) + t[|t| - 1]
  }

  /** Reads any of the three header forms. */
  function ReadArrayHeader(t: Text): Option<(nat, Text)>
  {
    if t == [] then None
    else if 0x90 <= t[0] < 0xa0 then Some((t[0] - 0x90, t[1..]))
    else if t[0] == 0xdc && |t| >= 3 then Some((Number([t[1], t[2]]), t[3..]))
    else if t[0] == 0xdd && |t| >= 5 then Some((Number(t[1..5]), t[5..]))
    else None
  }

  lemma TwoBytes(n: nat)
    requires n <= 0xffff
    ensures Number([n / 0x100, n % 0x100]) == n
  {
    var a: Byte, b: Byte := n / 0x100, n % 0x100;
    assert [a, b][..1] == [a];
    assert [a][..0] == [];
    assert Number([a]) == a;
  }

  lemma FourBytes(n: nat)
    requires n < 0x1_0000_0000
    ensures Number([n / 0x100_0000, n / 0x1_0000 % 0x100, n / 0x100 % 0x100, n % 0x100]) == n
  {
    var a: Byte, b: Byte := n / 0x100_0000, n / 0x1_0000 % 0x100;
    var c: Byte, d: Byte := n / 0x100 % 0x100, n % 0x100;
    TwoBytes(n / 0x1_0000);
    assert n / 0x1_0000 / 0x100 == n / 0x100_0000;
    assert n / 0x100 / 0x100 == n / 0x1_0000;
    assert [a, b, c, d][..3] == [a, b, c];
    assert [a, b, c][..2] == [a, b];
  }

  /** Below 2^32 elements the header reads back, whatever follows it. */
  lemma ReadHeader(n: nat, rest: Text)
    requires n < 0x1_0000_0000
    ensures ReadArrayHeader(ArrayHeader(n) + rest) == Some((n, rest))
  {
    var t := ArrayHeader(n) + rest;
    assert t[|ArrayHeader(n)|..] == rest;
    if n > 0xffff {
      FourBytes(n);
      assert t[1..5] == ArrayHeader(n)[1..];
    } else if n >= 16 {
      TwoBytes(n);
    }
  }

  /** The three forms at their borders, byte by byte. */
  lemma HeaderForms()
    ensures ArrayHeader(0) == [0x90] && ArrayHeader(15) == [0x9f]
    ensures ArrayHeader(16) == [0xdc, 0x00, 0x10] && ArrayHeader(65535) == [0xdc, 0xff, 0xff]
    ensures ArrayHeader(65536) == [0xdd, 0x00, 0x01, 0x00, 0x00]
  {
  }

  /** No header that reads as n is shorter. */
  lemma ShortestHeader(n: nat, t: Text)
    requires ReadArrayHeader(t) == Some((n, []))
    ensures |ArrayHeader(n)| <= |t|
  {
    if t[0] == 0xdc {
      assert [t[1], t[2]][..1] == [t[1]];
      assert [t[1]][..0] == [];
      assert Number([t[1]]) == t[1];
      assert n == 0x100 * t[1] as int + t[2];
    }
  }

  /** A reader's knowledge of where a value ends: the length of the value that
      starts a text. */
  type Extent = Text -> Option<nat>

  ghost predicate Delimits(extent: Extent, x: Text)
  {
    forall rest: Text :: extent(x + rest) == Some(|x|)
  }

  function ReadValues(extent: Extent, n: nat, t: Text): Option<seq<Text>>
  {
    if n == 0 then if t == [] then Some([]) else None
    else
      match extent(t)
      case None => None
      case Some(k) =>
        if k > |t| then None
        else
          match ReadValues(extent, n - 1, t[k..])
          case None => None
          case Some(vs) => Some([t[..k]] + vs)
  }

  function ReadArray(extent: Extent, t: Text): Option<seq<Text>>
  {
    match ReadArrayHeader(t)
    case None => None
    case Some((n, rest)) => ReadValues(extent, n, rest)
  }

  lemma {:induction false} ConcatFront(parts: seq<Text>)
    requires |parts| > 0
    ensures Concat(parts) == parts[0] + Concat(parts[1..])
  {
    var n := |parts| - 1;
    if n == 0 {
      assert parts[..0] == [] && parts[1..] == [];
    } else {
      ConcatFront(parts[..n]);
      assert parts[..n][1..] == parts[1..][..n - 1];
      assert parts[1..][n - 1] == parts[n];
    }
  }

  lemma {:induction false} ReadConcat(extent: Extent, parts: seq<Text>)
    requires forall i :: 0 <= i < |parts| ==> Delimits(extent, parts[i])
    ensures ReadValues(extent, |parts|, Concat(parts)) == Some(parts)
  {
    if |parts| > 0 {
      ConcatFront(parts);
      ReadConcat(extent, parts[1..]);
      var t := Concat(parts);
      assert extent(parts[0] + Concat(parts[1..])) == Some(|parts[0]|);
      assert t[|parts[0]|..] == Concat(parts[1..]);
      assert t[..|parts[0]|] == parts[0];
      assert parts == [parts[0]] + parts[1..];
    }
  }

  /** Header and concatenated values read back as those values in order. */
  lemma ReadPackedArray(extent: Extent, parts: seq<Text>)
    requires |parts| < 0x1_0000_0000
    requires forall i :: 0 <= i < |parts| ==> Delimits(extent, parts[i])
    ensures ReadArray(extent, ArrayHeader(|parts|) + Concat(parts)) == Some(parts)
  {
    ReadHeader(|parts|, Concat(parts));
    ReadConcat(extent, parts);
  }
}
