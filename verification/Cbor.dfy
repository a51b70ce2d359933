/** The part of CBOR the certificates use: section 3 of RFC 8949, major types 0, 2 and 4, definite lengths. */
module Cbor {
  import opened Common

  function Pow256(k: nat): (r: nat)
    ensures r > 0
  {
    if k == 0 then 1 else 256 * Pow256(k - 1)
  }

  /** The `k` low-order bytes of `n`, most significant first. */
  function ToBytes(n: nat, k: nat): (r: seq<Byte>)
    ensures |r| == k
  {
    if k == 0 then [] else ToBytes(n / 256, k - 1) + [n % 256]
  }

  function FromBytes(s: seq<Byte>): nat {
    if |s| == 0 then 0 else 256 * FromBytes(s[..|s| - 1]) + s[|s| - 1]
  }

  lemma {:induction false} FromToBytes(n: nat, k: nat)
    requires n < Pow256(k)
    ensures FromBytes(ToBytes(n, k)) == n
  {
    if k > 0 {
      FromToBytes(n / 256, k - 1);
      assert ToBytes(n, k)[..k - 1] == ToBytes(n / 256, k - 1);
    }
  }

  /** Byte i of k, counted from the front, has the weight 256 to the power k - 1 - i: network byte order. */
  lemma {:induction false} ToBytesAt(n: nat, k: nat, i: nat)
    requires i < k
    ensures ToBytes(n, k)[i] == n / Pow256(k - 1 - i) % 256
    decreases k
  {
    if i < k - 1 {
      ToBytesAt(n / 256, k - 1, i);
      DivideTwice(n, 256, Pow256(k - 2 - i));
    }
  }

  const UINT := 0
  const BYTES := 2
  const ARRAY := 4

  /** The number of argument bytes that additional information 24..27 announces. */
  function Width(info: nat): (w: nat)
    requires 24 <= info <= 27
    ensures 1 <= w <= 8
  {
    if info == 24 then 1 else if info == 25 then 2 else if info == 26 then 4 else 8
  }

  /** The smallest additional information whose argument can hold `n`. */
  function InfoFor(n: nat): (info: nat)
    requires n < Pow256(8)
    ensures info <= 27
  {
    if n < 24 then n else if n < Pow256(1) then 24 else if n < Pow256(2) then 25 else if n < Pow256(4) then 26 else 27
  }

  function Head(major: nat, n: nat): (r: seq<Byte>)
    requires major < 8 && n < Pow256(8)
    ensures 1 <= |r| <= 9
  {
    var info := InfoFor(n);
    [32 * major + info] + if info < 24 then [] else ToBytes(n, Width(info))
  }

  datatype HeadResult = HeadResult(major: nat, info: nat, argument: nat, rest: seq<Byte>)

  function ParseHead(data: seq<Byte>): (r: Option<HeadResult>)
    ensures r.Some? ==> |r.value.rest| < |data| && r.value.argument < Pow256(8)
  {
    if |data| == 0 then None
    else
      var major, info := data[0] / 32, data[0] % 32;
      if info < 24 then
        assert info < Pow256(8) by { Powers(); }
        Some(HeadResult(major, info, info, data[1..]))
      else if info > 27 || |data| < 1 + Width(info) then None
      else
        ArgumentBound(data[1..1 + Width(info)]);
        Some(HeadResult(major, info, FromBytes(data[1..1 + Width(info)]), data[1 + Width(info)..]))
  }

  lemma {:induction false} FromBytesBound(s: seq<Byte>)
    ensures FromBytes(s) < Pow256(|s|)
  {
    if |s| > 0 {
      FromBytesBound(s[..|s| - 1]);
    }
  }

  lemma {:induction false} PowMonotone(a: nat, b: nat)
    requires a <= b
    ensures Pow256(a) <= Pow256(b)
    decreases b - a
  {
    if a < b {
      PowMonotone(a, b - 1);
    }
  }

  lemma ArgumentBound(s: seq<Byte>)
    requires |s| <= 8
    ensures FromBytes(s) < Pow256(8)
  {
    FromBytesBound(s);
    PowMonotone(|s|, 8);
  }

  lemma Powers()
    ensures Pow256(1) == 256 && Pow256(2) == 65536 && Pow256(4) == 0x1_0000_0000
    ensures Pow256(4) < Pow256(8)
  {
    assert Pow256(1) == 256;
    assert Pow256(2) == 65536;
    assert Pow256(3) == 0x100_0000;
    assert Pow256(4) == 0x1_0000_0000;
    PowMonotone(5, 8);
  }

  /** Reading back a head returns its major type and argument, and leaves what follows. */
  lemma {:induction false} HeadRoundTrip(major: nat, n: nat, rest: seq<Byte>)
    requires major < 8 && n < Pow256(8)
    ensures ParseHead(Head(major, n) + rest) == Some(HeadResult(major, InfoFor(n), n, rest))
  {
    var info := InfoFor(n);
    var argument := if info < 24 then [] else ToBytes(n, Width(info));
    if info >= 24 {
      FromToBytes(n, Width(info));
    }
    ParseParts(major, info, argument, rest);
    assert Head(major, n) + rest == [32 * major + info] + (argument + rest);
  }

  lemma {:induction false} ParseParts(major: nat, info: nat, argument: seq<Byte>, rest: seq<Byte>)
    requires major < 8 && info <= 27 && |argument| == if info < 24 then 0 else Width(info)
    ensures ParseHead([32 * major + info] + (argument + rest))
         == Some(HeadResult(major, info, if info < 24 then info else FromBytes(argument), rest))
  {
    var data := [32 * major + info] + (argument + rest);
    assert data[1..1 + |argument|] == argument;
    assert data[1 + |argument|..] == rest;
  }

  /**
   The bytes of a head, as section 3 of RFC 8949 lays them out: the major type in the high three bits, an
   argument below 24 in the low five, and otherwise 24 to 27 there and the argument in the following 1, 2,
   4 or 8 bytes, the most significant first.
   */
  lemma HeadBytes(major: nat, n: nat)
    requires major < 8 && n < Pow256(8)
    ensures var h := Head(major, n);
            && h[0] / 32 == major
            && (n < 24 ==> h[0] % 32 == n && |h| == 1)
            && (24 <= n < 0x100 ==> h[0] % 32 == 24 && |h| == 2)
            && (0x100 <= n < 0x1_0000 ==> h[0] % 32 == 25 && |h| == 3)
            && (0x1_0000 <= n < 0x1_0000_0000 ==> h[0] % 32 == 26 && |h| == 5)
            && (0x1_0000_0000 <= n ==> h[0] % 32 == 27 && |h| == 9)
            && (forall i :: 1 <= i < |h| ==> h[i] == n / Pow256(|h| - 1 - i) % 256)
  {
    Powers();
    var h, info := Head(major, n), InfoFor(n);
    HighAndLow(major, info);
    forall i | 1 <= i < |h|
      ensures h[i] == n / Pow256(|h| - 1 - i) % 256
    {
      ToBytesAt(n, Width(info), i - 1);
    }
  }

  lemma HighAndLow(major: nat, info: nat)
    requires info < 32
    ensures (32 * major + info) / 32 == major && (32 * major + info) % 32 == info
  {
  }

  /** No head with the same argument is shorter: the encoding is the preferred one of section 4.1 of RFC 8949. */
  lemma HeadIsShortest(major: nat, n: nat, data: seq<Byte>)
    requires major < 8 && n < Pow256(8)
    requires ParseHead(data).Some? && ParseHead(data).value.argument == n
    ensures |Head(major, n)| <= |data| - |ParseHead(data).value.rest|
  {
    Powers();
    HeadBytes(major, n);
    var info := data[0] % 32;
    if info >= 24 {
      FromBytesBound(data[1..1 + Width(info)]);
    }
  }

  /** How many bytes a head with this additional information takes. */
  function HeadSize(info: nat): nat {
    if info < 24 then 1 else if info == 24 then 2 else if info == 25 then 3 else if info == 26 then 5 else 9
  }

  /**
   Whatever the bytes, a head is read if and only if its additional information is at most 27 and the data
   does not end within it. The rest is what follows it, and the bytes read are the major type, the
   information, and the argument in network byte order.
   */
  lemma HeadReadIff(data: seq<Byte>)
    ensures ParseHead(data).Some? <==> |data| > 0 && data[0] % 32 <= 27 && |data| >= HeadSize(data[0] % 32)
    ensures ParseHead(data).Some? ==>
              var (h, size) := (ParseHead(data).value, HeadSize(data[0] % 32));
              && h.major == data[0] / 32 && h.info == data[0] % 32 && h.rest == data[size..]
              && (if size == 1 then h.argument == h.info else data[1..size] == ToBytes(h.argument, size - 1))
  {
    if ParseHead(data).Some? && data[0] % 32 >= 24 {
      ToFromBytes(data[1..HeadSize(data[0] % 32)]);
    }
  }

  lemma {:induction false} ToFromBytes(s: seq<Byte>)
    ensures ToBytes(FromBytes(s), |s|) == s
  {
    if |s| > 0 {
      ToFromBytes(s[..|s| - 1]);
    }
  }

  /** Serial number 1000 takes the three bytes 19 03 E8. */
  lemma HeadOfThousand()
    ensures Pow256(8) > 1000 && Head(UINT, 1000) == [0x19, 0x03, 0xE8]
  {
    Powers();
    HeadBytes(UINT, 1000);
    assert Pow256(0) == 1;
    assert Head(UINT, 1000)[1] == 3 && Head(UINT, 1000)[2] == 0xE8;
  }

  // ---------------------------------------------------------------------------
  // The generic encoder and decoder of the host side (cbor2.dumps and cbor2.loads).
  // ---------------------------------------------------------------------------

  datatype Value = UInt(n: nat) | Bytes(b: seq<Byte>) | Array(items: seq<Value>)

  predicate Encodable(v: Value) {
    match v
    case UInt(n) => n < Pow256(8)
    case Bytes(b) => |b| < Pow256(8)
    case Array(items) => |items| < Pow256(8) && forall i :: 0 <= i < |items| ==> Encodable(items[i])
  }

  function Dumps(v: Value): (r: seq<Byte>)
    requires Encodable(v)
    ensures |r| > 0
    decreases v, 0
  {
    match v
    case UInt(n) => Head(UINT, n)
    case Bytes(b) => Head(BYTES, |b|) + b
    case Array(items) => Head(ARRAY, |items|) + DumpsAll(items)
  }

  function DumpsAll(vs: seq<Value>): seq<Byte>
    requires forall i :: 0 <= i < |vs| ==> Encodable(vs[i])
    decreases vs, 1
  {
    if |vs| == 0 then [] else Dumps(vs[0]) + DumpsAll(vs[1..])
  }

  /** Decodes one item; the result carries the item and the bytes after it. */
  function Loads(data: seq<Byte>): (r: Option<(Value, seq<Byte>)>)
    ensures r.Some? ==> |r.value.1| < |data|
    decreases |data|, 0
  {
    match ParseHead(data)
    case None => None
    case Some(HeadResult(major, _, n, rest)) =>
      if major == UINT then Some((UInt(n), rest))
      else if major == BYTES then
        if |rest| < n then None else Some((Bytes(rest[..n]), rest[n..]))
      else if major == ARRAY then
        match LoadsAll(rest, n)
        case None => None
        case Some((items, after)) => Some((Array(items), after))
      else None
  }

  function LoadsAll(data: seq<Byte>, count: nat): (r: Option<(seq<Value>, seq<Byte>)>)
    ensures r.Some? ==> |r.value.1| <= |data|
    decreases |data|, 1
  {
    if count == 0 then Some(([], data))
    else
      match Loads(data)
      case None => None
      case Some((v, rest)) =>
        match LoadsAll(rest, count - 1)
        case None => None
        case Some((vs, after)) => Some(([v] + vs, after))
  }

  /** Decoding inverts encoding for every value, whatever bytes follow. */
  lemma {:induction false} LoadsDumps(v: Value, rest: seq<Byte>)
    requires Encodable(v)
    ensures Loads(Dumps(v) + rest) == Some((v, rest))
    decreases v, 0
  {
    match v
    case UInt(n) => HeadRoundTrip(UINT, n, rest);
    case Bytes(b) => LoadsBytes(b, rest);
    case Array(items) =>
      LoadsDumpsAll(items, rest);
      LoadsArray(items, DumpsAll(items), rest);
  }

  lemma LoadsBytes(b: seq<Byte>, rest: seq<Byte>)
    requires |b| < Pow256(8)
    ensures Loads(Head(BYTES, |b|) + b + rest) == Some((Bytes(b), rest))
  {
    HeadRoundTrip(BYTES, |b|, b + rest);
    Associate(Head(BYTES, |b|), b, rest);
    assert (b + rest)[..|b|] == b && (b + rest)[|b|..] == rest;
  }

  lemma LoadsArray(items: seq<Value>, body: seq<Byte>, rest: seq<Byte>)
    requires |items| < Pow256(8) && LoadsAll(body + rest, |items|) == Some((items, rest))
    ensures Loads(Head(ARRAY, |items|) + body + rest) == Some((Array(items), rest))
  {
    HeadRoundTrip(ARRAY, |items|, body + rest);
    Associate(Head(ARRAY, |items|), body, rest);
  }

  lemma {:induction false} LoadsDumpsAll(vs: seq<Value>, rest: seq<Byte>)
    requires forall i :: 0 <= i < |vs| ==> Encodable(vs[i])
    ensures LoadsAll(DumpsAll(vs) + rest, |vs|) == Some((vs, rest))
    decreases vs, 1
  {
    if |vs| == 0 {
      assert DumpsAll(vs) + rest == rest;
    } else {
      LoadsDumps(vs[0], DumpsAll(vs[1..]) + rest);
      LoadsDumpsAll(vs[1..], rest);
      LoadsCons(Dumps(vs[0]), DumpsAll(vs[1..]), vs[0], vs[1..], rest);
      assert [vs[0]] + vs[1..] == vs;
    }
  }

  lemma LoadsCons(first: seq<Byte>, body: seq<Byte>, v: Value, vs: seq<Value>, rest: seq<Byte>)
    requires Loads(first + (body + rest)) == Some((v, body + rest))
    requires LoadsAll(body + rest, |vs|) == Some((vs, rest))
    ensures LoadsAll(first + body + rest, |vs| + 1) == Some(([v] + vs, rest))
  {
    Associate(first, body, rest);
  }
}
