/** Certificates on the nodes (wsn/common/crypto/certificate.c) and at the issuer (common/certificate.py). */
module Certificate {
  import opened Common
  import opened Cbor

  const EUI64_LENGTH := 8
  const KEY_LENGTH := 64
  const SIG_LENGTH := 64
  const DEVICE_CLASS_MINIMUM := 1
  const DEVICE_CLASS_MAXIMUM := 8
  const TAGS_CBOR_MAX := 2
  const TBS_CBOR_LENGTH := 1 + 5 + (1 + EUI64_LENGTH) + 11 + (1 + EUI64_LENGTH) + TAGS_CBOR_MAX + (2 + KEY_LENGTH)
  const CERT_CBOR_LENGTH := 1 + TBS_CBOR_LENGTH + (2 + SIG_LENGTH)

  datatype Cert = Cert(
    serial: nat, issuer: seq<Byte>, notBefore: nat, notAfter: nat, subject: seq<Byte>,
    deviceClass: nat, publicKey: seq<Byte>, signature: seq<Byte>)
  {
    /** The field widths of certificate_t. */
    predicate Typed() {
      && serial < 0x1_0000_0000 && notBefore < 0x1_0000_0000 && notAfter < 0x1_0000_0000 && deviceClass < 256
      && |issuer| == |subject| == EUI64_LENGTH && |publicKey| == KEY_LENGTH && |signature| == SIG_LENGTH
    }

    predicate Valid() {
      Typed() && DEVICE_CLASS_MINIMUM <= deviceClass <= DEVICE_CLASS_MAXIMUM
    }
  }

  // ---------------------------------------------------------------------------
  // The streaming encoder of the nodes.
  // ---------------------------------------------------------------------------

  function PutUint(n: nat): seq<Byte>
    requires n < 0x1_0000_0000
  {
    Powers();
    Head(UINT, n)
  }

  function PutArray(n: nat): seq<Byte>
    requires n < 24
  {
    Powers();
    Head(ARRAY, n)
  }

  function PutBytes(b: seq<Byte>): seq<Byte>
    requires |b| < 256
  {
    Powers();
    Head(BYTES, |b|) + b
  }

  function EncodeNaming(c: Cert): seq<Byte>
    requires c.Typed()
  {
    PutArray(6) + PutUint(c.serial) + PutBytes(c.issuer)
  }

  function EncodeValidity(c: Cert): seq<Byte>
    requires c.Typed()
  {
    PutArray(2) + PutUint(c.notBefore) + PutUint(c.notAfter)
  }

  function EncodeSubject(c: Cert): seq<Byte>
    requires c.Typed()
  {
    PutBytes(c.subject) + (PutArray(1) + PutUint(c.deviceClass)) + PutBytes(c.publicKey)
  }

  function EncodeTbs(c: Cert): seq<Byte>
    requires c.Typed()
  {
    EncodeNaming(c) + EncodeValidity(c) + EncodeSubject(c)
  }

  function Encode(c: Cert): seq<Byte>
    requires c.Typed()
  {
    PutArray(2) + EncodeTbs(c) + PutBytes(c.signature)
  }

  /** Encoded lengths never exceed the buffers declared for them. */
  lemma LengthBounds(c: Cert)
    requires c.Typed() && c.deviceClass < 24
    ensures |EncodeTbs(c)| <= TBS_CBOR_LENGTH && |Encode(c)| <= CERT_CBOR_LENGTH
  {
    Powers();
  }

  /** The encoded size of an integer below 2^32. */
  function UintSize(n: nat): nat {
    if n < 24 then 1 else if n < 256 then 2 else if n < 0x1_0000 then 3 else 5
  }

  lemma PutUintSize(n: nat)
    requires n < 0x1_0000_0000
    ensures |PutUint(n)| == UintSize(n)
  {
    Powers();
  }

  lemma TbsSize(c: Cert)
    requires c.Typed()
    ensures |EncodeTbs(c)| ==
            87 + UintSize(c.serial) + UintSize(c.notBefore) + UintSize(c.notAfter) + UintSize(c.deviceClass)
  {
    Powers();
    PutUintSize(c.serial);
    PutUintSize(c.notBefore);
    PutUintSize(c.notAfter);
    PutUintSize(c.deviceClass);
  }

  /**
   For any contents of the fields, valid or not, the TBS part fits its buffer exactly when its four
   integers take at most 16 bytes: the macro leaves the device class a single byte.
   */
  lemma TbsFitsIff(c: Cert)
    requires c.Typed()
    ensures |EncodeTbs(c)| <= TBS_CBOR_LENGTH <==>
            UintSize(c.serial) + UintSize(c.notBefore) + UintSize(c.notAfter) + UintSize(c.deviceClass) <= 16
  {
    TbsSize(c);
  }

  /**
   The encoding written out: the heads of section 3 of RFC 8949 are single literal bytes, but for the four
   integers and the two-byte heads of key and signature.
   */
  lemma EncodingLayout(c: Cert)
    requires c.Typed()
    ensures EncodeTbs(c) == ([0x86] + PutUint(c.serial) + ([0x48] + c.issuer))
                            + ([0x82] + PutUint(c.notBefore) + PutUint(c.notAfter))
                            + (([0x48] + c.subject) + ([0x81] + PutUint(c.deviceClass)) + ([0x58, 0x40] + c.publicKey))
    ensures Encode(c) == [0x82] + EncodeTbs(c) + ([0x58, 0x40] + c.signature)
  {
    LiteralHeads();
  }

  lemma LiteralHeads()
    ensures PutArray(6) == [0x86] && PutArray(2) == [0x82] && PutArray(1) == [0x81]
    ensures forall b: seq<Byte> | |b| == EUI64_LENGTH :: PutBytes(b) == [0x48] + b
    ensures forall b: seq<Byte> | |b| == KEY_LENGTH || |b| == SIG_LENGTH :: PutBytes(b) == [0x58, 0x40] + b
  {
    Powers();
    HeadBytes(ARRAY, 6);
    HeadBytes(ARRAY, 2);
    HeadBytes(ARRAY, 1);
    HeadBytes(BYTES, EUI64_LENGTH);
    HeadBytes(BYTES, KEY_LENGTH);
    assert Pow256(0) == 1;
  }

  /** nanocbor's encoder: counts every byte, stores a piece only when it fits. */
  class Encoder {
    const capacity: nat
    var written: seq<Byte>
    var length: nat

    constructor (capacity: nat)
      ensures this.capacity == capacity && Holds([])
    {
      this.capacity := capacity;
      written := [];
      length := 0;
    }

    /** `all` has been put, and was stored if it fits. */
    ghost predicate Holds(all: seq<Byte>)
      reads this
    {
      |written| <= length == |all| && (length <= capacity ==> written == all)
    }

    method Put(piece: seq<Byte>, ghost all: seq<Byte>) returns (ok: bool)
      requires Holds(all)
      modifies this
      ensures Holds(all + piece)
      ensures !ok ==> |all + piece| > capacity
    {
      length := length + |piece|;
      ok := |written| + |piece| <= capacity;
      if ok {
        written := written + piece;
      }
    }

    /** A byte string is two pieces: its head and its content. */
    method PutBstr(b: seq<Byte>, ghost all: seq<Byte>) returns (ok: bool)
      requires |b| < 256 && Holds(all)
      modifies this
      ensures Holds(all + PutBytes(b))
    {
      Powers();
      ok := Put(Head(BYTES, |b|), all);
      if ok {
        ok := Put(b, all + Head(BYTES, |b|));
      } else {
        var r := Put(b, all + Head(BYTES, |b|));
      }
      assert all + Head(BYTES, |b|) + b == all + PutBytes(b);
    }

    /** serialise_stereotype_tags, the one call whose failure is propagated. */
    method PutTags(deviceClass: nat, ghost all: seq<Byte>) returns (ok: bool)
      requires deviceClass < 256 && Holds(all)
      modifies this
      ensures ok ==> Holds(all + (PutArray(1) + PutUint(deviceClass)))
      ensures !ok ==> |all + (PutArray(1) + PutUint(deviceClass))| > capacity
    {
      ok := Put(PutArray(1), all);
      if ok {
        ok := Put(PutUint(deviceClass), all + PutArray(1));
        assert all + PutArray(1) + PutUint(deviceClass) == all + (PutArray(1) + PutUint(deviceClass));
      }
    }

    /** Three pieces in a row. */
    method PutThree(p1: seq<Byte>, p2: seq<Byte>, p3: seq<Byte>, ghost all: seq<Byte>)
      requires Holds(all)
      modifies this
      ensures Holds(all + (p1 + p2 + p3))
    {
      var r := Put(p1, all);
      r := Put(p2, all + p1);
      r := Put(p3, all + p1 + p2);
      assert all + p1 + p2 + p3 == all + (p1 + p2 + p3);
    }

    /**
     certificate_encode_tbs. The caller's test, success and a length within the buffer, passes exactly
     when the whole encoding fits, and then exactly that encoding was stored.
     */
    method PutTbs(c: Cert, ghost all: seq<Byte>) returns (ok: bool)
      requires c.Typed() && Holds(all)
      modifies this
      ensures ok && length <= capacity <==> |all + EncodeTbs(c)| <= capacity
      ensures ok ==> Holds(all + EncodeTbs(c))
    {
      PutNaming(c, all);
      ghost var a := all + EncodeNaming(c);
      PutThree(PutArray(2), PutUint(c.notBefore), PutUint(c.notAfter), a);
      a := a + EncodeValidity(c);
      ok := PutSubject(c, a);
      Reassociate(all, EncodeNaming(c), EncodeValidity(c), EncodeSubject(c));
    }

    method PutNaming(c: Cert, ghost all: seq<Byte>)
      requires c.Typed() && Holds(all)
      modifies this
      ensures Holds(all + EncodeNaming(c))
    {
      var r := Put(PutArray(6), all);
      r := Put(PutUint(c.serial), all + PutArray(6));
      r := PutBstr(c.issuer, all + PutArray(6) + PutUint(c.serial));
      Reassociate(all, PutArray(6), PutUint(c.serial), PutBytes(c.issuer));
    }

    method PutSubject(c: Cert, ghost all: seq<Byte>) returns (ok: bool)
      requires c.Typed() && Holds(all)
      modifies this
      ensures ok ==> Holds(all + EncodeSubject(c))
      ensures !ok ==> |all + EncodeSubject(c)| > capacity
    {
      var r := PutBstr(c.subject, all);
      ghost var a := all + PutBytes(c.subject);
      ok := PutTags(c.deviceClass, a);
      Reassociate(all, PutBytes(c.subject), PutArray(1) + PutUint(c.deviceClass), PutBytes(c.publicKey));
      if !ok {
        return;
      }
      r := PutBstr(c.publicKey, a + (PutArray(1) + PutUint(c.deviceClass)));
    }
  }

  lemma Reassociate(a: seq<Byte>, p: seq<Byte>, q: seq<Byte>, r: seq<Byte>)
    ensures a + p + q + r == a + (p + q + r)
  {
  }

  // ---------------------------------------------------------------------------
  // The decoder of the nodes.
  // ---------------------------------------------------------------------------

  /** A decoding step: failure, or a value and the bytes not yet consumed. */
  datatype Parse<+T> = Fail | Ok(value: T, rest: seq<Byte>) {
    predicate IsFailure() { Fail? }
    function PropagateFailure<U>(): Parse<U> requires Fail? { Fail }
    function Extract(): (T, seq<Byte>) requires Ok? { (value, rest) }
  }

  /** An unsigned integer whose argument is no wider than additional information `maxInfo` allows. */
  function GetUint(data: seq<Byte>, maxInfo: nat): (r: Parse<nat>) {
    match ParseHead(data)
    case Some(HeadResult(major, info, n, rest)) => if major == UINT && info <= maxInfo then Ok(n, rest) else Fail
    case None => Fail
  }

  /** A byte string of exactly `length` bytes. */
  function GetBytes(data: seq<Byte>, length: nat): (r: Parse<seq<Byte>>)
    ensures r.Ok? ==> |r.value| == length
  {
    match ParseHead(data)
    case Some(HeadResult(major, _, n, rest)) =>
      if major == BYTES && n == length <= |rest| then Ok(rest[..n], rest[n..]) else Fail
    case None => Fail
  }

  /**
   An array of exactly `count` elements: with fewer, one of the reads that follow fails, and with more
   the final at-end test does.
   */
  function GetArray(data: seq<Byte>, count: nat): (r: Parse<()>) {
    match ParseHead(data)
    case Some(HeadResult(major, _, n, rest)) => if major == ARRAY && n == count then Ok((), rest) else Fail
    case None => Fail
  }

  function ParseNaming(data: seq<Byte>): Parse<(nat, seq<Byte>)> {
    var (_, d1) :- GetArray(data, 6);
    var (serial, d2) :- GetUint(d1, 26);
    var (issuer, d3) :- GetBytes(d2, EUI64_LENGTH);
    Ok((serial, issuer), d3)
  }

  function ParseValidity(data: seq<Byte>): Parse<(nat, nat)> {
    var (_, d1) :- GetArray(data, 2);
    var (notBefore, d2) :- GetUint(d1, 26);
    var (notAfter, d3) :- GetUint(d2, 26);
    Ok((notBefore, notAfter), d3)
  }

  /** deserialise_stereotype_tags: a one-byte device class within the known range. */
  function ParseTags(data: seq<Byte>): Parse<nat> {
    var (_, d1) :- GetArray(data, 1);
    var (deviceClass, d2) :- GetUint(d1, 24);
    if DEVICE_CLASS_MINIMUM <= deviceClass <= DEVICE_CLASS_MAXIMUM then Ok(deviceClass, d2) else Fail
  }

  function ParseSubject(data: seq<Byte>): Parse<(seq<Byte>, nat, seq<Byte>)> {
    var (subject, d1) :- GetBytes(data, EUI64_LENGTH);
    var (deviceClass, d2) :- ParseTags(d1);
    var (publicKey, d3) :- GetBytes(d2, KEY_LENGTH);
    Ok((subject, deviceClass, publicKey), d3)
  }

  /** certificate_decode_tbs, with the signature given. */
  function ParseTbs(data: seq<Byte>, signature: seq<Byte>): Parse<Cert> {
    var (naming, d1) :- ParseNaming(data);
    var (validity, d2) :- ParseValidity(d1);
    var (subject, d3) :- ParseSubject(d2);
    Ok(Cert(naming.0, naming.1, validity.0, validity.1, subject.0, subject.1, subject.2, signature), d3)
  }

  /** Entering the outer array, without a look at the result: where there is no array the cursor is stack content. */
  function EnterOuter(data: seq<Byte>, stale: seq<Byte>): Parse<()> {
    match ParseHead(data)
    case Some(HeadResult(major, _, _, _)) => if major == ARRAY then GetArray(data, 2) else Ok((), stale)
    case None => Ok((), stale)
  }

  /** certificate_decode; `stale` is what an uninitialised cursor happens to stand on. */
  function Decode(data: seq<Byte>, stale: seq<Byte>): Parse<Cert> {
    var (_, d1) :- EnterOuter(data, stale);
    var (tbs, d2) :- ParseTbs(d1, []);
    var (signature, d3) :- GetBytes(d2, SIG_LENGTH);
    Ok(tbs.(signature := signature), d3)
  }

  /** An integer is read if and only if its head is whole and not of a wider form than allowed, however small it is. */
  lemma UintReadIff(data: seq<Byte>, maxInfo: nat)
    requires maxInfo <= 27
    ensures GetUint(data, maxInfo).Ok? <==> |data| > 0 && data[0] <= maxInfo && |data| >= HeadSize(data[0])
    ensures GetUint(data, maxInfo).Ok? && data[0] < 24 ==> GetUint(data, maxInfo) == Ok(data[0], data[1..])
    ensures GetUint(data, maxInfo).Ok? && data[0] == 24 ==> GetUint(data, maxInfo) == Ok(data[1], data[2..])
  {
    HeadReadIff(data);
    if |data| > 1 {
      assert FromBytes(data[1..2]) == data[1];
    }
  }

  /** Behind the head of an array of one, the tags are read if and only if the next one or two bytes hold a known class. */
  lemma TagsReadIff(d: seq<Byte>)
    ensures ParseTags([0x81] + d) ==
            if |d| > 0 && 1 <= d[0] <= 8 then Ok(d[0], d[1..])
            else if |d| > 1 && d[0] == 24 && 1 <= d[1] <= 8 then Ok(d[1], d[2..])
            else Fail
  {
    HeadReadIff([0x81] + d);
    assert ([0x81] + d)[1..] == d;
    UintReadIff(d, 24);
  }

  // Each reader undoes the corresponding writer.

  lemma GetUintPut(n: nat, maxInfo: nat, rest: seq<Byte>)
    requires n < 0x1_0000_0000
    requires maxInfo >= 26 || (maxInfo == 24 && n < 256)
    ensures GetUint(PutUint(n) + rest, maxInfo) == Ok(n, rest)
  {
    Powers();
    HeadRoundTrip(UINT, n, rest);
  }

  lemma GetArrayPut(n: nat, rest: seq<Byte>)
    requires n < 24
    ensures GetArray(PutArray(n) + rest, n) == Ok((), rest)
  {
    Powers();
    HeadRoundTrip(ARRAY, n, rest);
  }

  lemma GetBytesPut(b: seq<Byte>, rest: seq<Byte>)
    requires |b| < 256
    ensures GetBytes(PutBytes(b) + rest, |b|) == Ok(b, rest)
  {
    Powers();
    HeadRoundTrip(BYTES, |b|, b + rest);
    assert PutBytes(b) + rest == Head(BYTES, |b|) + (b + rest);
    assert (b + rest)[..|b|] == b && (b + rest)[|b|..] == rest;
  }

  lemma Split3(p: seq<Byte>, q: seq<Byte>, r: seq<Byte>, rest: seq<Byte>)
    ensures p + q + r + rest == p + (q + (r + rest))
  {
  }

  lemma ParseNamingPut(c: Cert, rest: seq<Byte>)
    requires c.Typed()
    ensures ParseNaming(EncodeNaming(c) + rest) == Ok((c.serial, c.issuer), rest)
  {
    Split3(PutArray(6), PutUint(c.serial), PutBytes(c.issuer), rest);
    GetArrayPut(6, PutUint(c.serial) + (PutBytes(c.issuer) + rest));
    GetUintPut(c.serial, 26, PutBytes(c.issuer) + rest);
    GetBytesPut(c.issuer, rest);
  }

  lemma ParseValidityPut(c: Cert, rest: seq<Byte>)
    requires c.Typed()
    ensures ParseValidity(EncodeValidity(c) + rest) == Ok((c.notBefore, c.notAfter), rest)
  {
    Split3(PutArray(2), PutUint(c.notBefore), PutUint(c.notAfter), rest);
    GetArrayPut(2, PutUint(c.notBefore) + (PutUint(c.notAfter) + rest));
    GetUintPut(c.notBefore, 26, PutUint(c.notAfter) + rest);
    GetUintPut(c.notAfter, 26, rest);
  }

  lemma ParseTagsPut(deviceClass: nat, rest: seq<Byte>)
    requires DEVICE_CLASS_MINIMUM <= deviceClass <= DEVICE_CLASS_MAXIMUM
    ensures ParseTags(PutArray(1) + PutUint(deviceClass) + rest) == Ok(deviceClass, rest)
  {
    assert PutArray(1) + PutUint(deviceClass) + rest == PutArray(1) + (PutUint(deviceClass) + rest);
    GetArrayPut(1, PutUint(deviceClass) + rest);
    GetUintPut(deviceClass, 24, rest);
  }

  lemma ParseSubjectPut(c: Cert, rest: seq<Byte>)
    requires c.Valid()
    ensures ParseSubject(EncodeSubject(c) + rest) == Ok((c.subject, c.deviceClass, c.publicKey), rest)
  {
    var tags := PutArray(1) + PutUint(c.deviceClass);
    Split3(PutBytes(c.subject), tags, PutBytes(c.publicKey), rest);
    GetBytesPut(c.subject, tags + (PutBytes(c.publicKey) + rest));
    ParseTagsPut(c.deviceClass, PutBytes(c.publicKey) + rest);
    GetBytesPut(c.publicKey, rest);
  }

  lemma ParseTbsEncode(c: Cert, signature: seq<Byte>, rest: seq<Byte>)
    requires c.Valid()
    ensures ParseTbs(EncodeTbs(c) + rest, signature) == Ok(c.(signature := signature), rest)
  {
    Split3(EncodeNaming(c), EncodeValidity(c), EncodeSubject(c), rest);
    ParseNamingPut(c, EncodeValidity(c) + (EncodeSubject(c) + rest));
    ParseValidityPut(c, EncodeSubject(c) + rest);
    ParseSubjectPut(c, rest);
  }

  /** Decoding undoes encoding, whatever follows on the wire. */
  lemma DecodeEncode(c: Cert, rest: seq<Byte>, stale: seq<Byte>)
    requires c.Valid()
    ensures Decode(Encode(c) + rest, stale) == Ok(c, rest)
  {
    Split3(PutArray(2), EncodeTbs(c), PutBytes(c.signature), rest);
    GetArrayPut(2, EncodeTbs(c) + (PutBytes(c.signature) + rest));
    ParseTbsEncode(c, [], PutBytes(c.signature) + rest);
    GetBytesPut(c.signature, rest);
  }

  /** Whatever the bytes and the stack, a certificate that decodes has the right widths and a known device class. */
  lemma DecodedIsValid(data: seq<Byte>, stale: seq<Byte>)
    requires Decode(data, stale).Ok?
    ensures Decode(data, stale).value.Valid()
  {
    TbsBound(EnterOuter(data, stale).rest);
  }

  lemma TbsBound(data: seq<Byte>)
    ensures ParseTbs(data, []).Ok? ==> ParseTbs(data, []).value.(signature := seq(SIG_LENGTH, _ => 0)).Valid()
  {
    NamingBound(data);
    if ParseNaming(data).Ok? {
      ValidityBound(ParseNaming(data).rest);
      if ParseValidity(ParseNaming(data).rest).Ok? {
        SubjectBound(ParseValidity(ParseNaming(data).rest).rest);
      }
    }
  }

  lemma SubjectBound(data: seq<Byte>)
    ensures ParseSubject(data).Ok? ==>
              && |ParseSubject(data).value.0| == EUI64_LENGTH && |ParseSubject(data).value.2| == KEY_LENGTH
              && DEVICE_CLASS_MINIMUM <= ParseSubject(data).value.1 <= DEVICE_CLASS_MAXIMUM
  {
  }

  lemma NamingBound(data: seq<Byte>)
    ensures ParseNaming(data).Ok? ==>
              ParseNaming(data).value.0 < 0x1_0000_0000 && |ParseNaming(data).value.1| == EUI64_LENGTH
  {
    if GetArray(data, 6).Ok? {
      UintBound(GetArray(data, 6).rest);
    }
  }

  lemma ValidityBound(data: seq<Byte>)
    ensures ParseValidity(data).Ok? ==>
              ParseValidity(data).value.0 < 0x1_0000_0000 && ParseValidity(data).value.1 < 0x1_0000_0000
  {
    if GetArray(data, 2).Ok? {
      var d := GetArray(data, 2).rest;
      UintBound(d);
      if GetUint(d, 26).Ok? {
        UintBound(GetUint(d, 26).rest);
      }
    }
  }

  lemma UintBound(data: seq<Byte>)
    ensures GetUint(data, 26).Ok? ==> GetUint(data, 26).value < 0x1_0000_0000
  {
    var h := ParseHead(data);
    if h.Some? && 24 <= h.value.info <= 26 {
      var w := Width(h.value.info);
      FromBytesBound(data[1..1 + w]);
      PowMonotone(w, 4);
      Powers();
    }
  }

  /** Different to-be-signed contents never share their bytes, even with other bytes after them. */
  lemma TbsInjective(a: Cert, b: Cert, restA: seq<Byte>, restB: seq<Byte>)
    requires a.Valid() && b.Valid() && EncodeTbs(a) + restA == EncodeTbs(b) + restB
    ensures a.(signature := b.signature) == b && restA == restB
  {
    ParseTbsEncode(a, b.signature, restA);
    ParseTbsEncode(b, b.signature, restB);
  }

  // ---------------------------------------------------------------------------
  // The issuer's side: values built field by field and dumped by the generic encoder.
  // ---------------------------------------------------------------------------

  function TbsValue(c: Cert): Value {
    Array([UInt(c.serial), Bytes(c.issuer), Array([UInt(c.notBefore), UInt(c.notAfter)]),
           Bytes(c.subject), Array([UInt(c.deviceClass)]), Bytes(c.publicKey)])
  }

  function CertValue(c: Cert): Value {
    Array([TbsValue(c), Bytes(c.signature)])
  }

  lemma TbsEncodable(c: Cert)
    requires c.Typed()
    ensures Encodable(TbsValue(c)) && Encodable(CertValue(c))
  {
    Powers();
  }

  lemma DumpsAllCons(v: Value, vs: seq<Value>)
    requires Encodable(v) && forall i :: 0 <= i < |vs| ==> Encodable(vs[i])
    ensures DumpsAll([v] + vs) == Dumps(v) + DumpsAll(vs)
  {
    assert ([v] + vs)[1..] == vs;
  }

  lemma DumpsAll2(a: Value, b: Value)
    requires Encodable(a) && Encodable(b)
    ensures DumpsAll([a, b]) == Dumps(a) + Dumps(b)
  {
    DumpsAllCons(a, [b]);
    DumpsAllCons(b, []);
    assert [a, b] == [a] + [b] && [b] == [b] + [];
  }

  lemma DumpsAll3(a: Value, b: Value, c: Value)
    requires Encodable(a) && Encodable(b) && Encodable(c)
    ensures DumpsAll([a, b, c]) == Dumps(a) + Dumps(b) + Dumps(c)
  {
    DumpsAllCons(a, [b, c]);
    DumpsAll2(b, c);
    assert [a, b, c] == [a] + [b, c];
    Associate(Dumps(a), Dumps(b), Dumps(c));
  }

  lemma {:induction false} DumpsAllConcat(a: seq<Value>, b: seq<Value>)
    requires forall i :: 0 <= i < |a| ==> Encodable(a[i])
    requires forall i :: 0 <= i < |b| ==> Encodable(b[i])
    ensures DumpsAll(a + b) == DumpsAll(a) + DumpsAll(b)
  {
    if |a| == 0 {
      assert a + b == b;
    } else {
      DumpsAllConcat(a[1..], b);
      assert a + b == [a[0]] + (a[1..] + b);
      DumpsAllCons(a[0], a[1..] + b);
      Associate(Dumps(a[0]), DumpsAll(a[1..]), DumpsAll(b));
    }
  }

  /** The issuer signs exactly the bytes the nodes rebuild. */
  lemma IssuerAgreesTbs(c: Cert)
    requires c.Typed()
    ensures Encodable(TbsValue(c)) && Dumps(TbsValue(c)) == EncodeTbs(c)
  {
    TbsEncodable(c);
    Powers();
    var head := PutArray(6);
    var v1, v2 := UInt(c.serial), Bytes(c.issuer);
    var v3 := Array([UInt(c.notBefore), UInt(c.notAfter)]);
    var v4, v5, v6 := Bytes(c.subject), Array([UInt(c.deviceClass)]), Bytes(c.publicKey);
    assert TbsValue(c).items == [v1, v2] + [v3] + [v4, v5, v6];
    DumpsAllConcat([v1, v2] + [v3], [v4, v5, v6]);
    DumpsAllConcat([v1, v2], [v3]);
    DumpsAll2(v1, v2);
    DumpsAll3(v4, v5, v6);
    ValidityAgrees(c, v3);
    TagsAgree(c.deviceClass, v5);
    DumpsAllCons(v3, []);
    assert [v3] == [v3] + [];
    Regroup(head, Dumps(v1), Dumps(v2), Dumps(v3), Dumps(v4) + Dumps(v5) + Dumps(v6));
  }

  lemma Regroup(h: seq<Byte>, a: seq<Byte>, b: seq<Byte>, c: seq<Byte>, d: seq<Byte>)
    ensures h + ((a + b) + (c + []) + d) == (h + a + b) + c + d
  {
  }

  lemma ValidityAgrees(c: Cert, v: Value)
    requires c.Typed() && v == Array([UInt(c.notBefore), UInt(c.notAfter)])
    ensures Encodable(v) && Dumps(v) == EncodeValidity(c)
  {
    Powers();
    DumpsAll2(UInt(c.notBefore), UInt(c.notAfter));
    assert PutArray(2) + (PutUint(c.notBefore) + PutUint(c.notAfter)) == EncodeValidity(c);
  }

  lemma TagsAgree(deviceClass: nat, v: Value)
    requires deviceClass < 256 && v == Array([UInt(deviceClass)])
    ensures Encodable(v) && Dumps(v) == PutArray(1) + PutUint(deviceClass)
  {
    Powers();
    DumpsAllCons(UInt(deviceClass), []);
    assert [UInt(deviceClass)] == [UInt(deviceClass)] + [];
  }

  lemma IssuerAgrees(c: Cert)
    requires c.Typed()
    ensures Encodable(CertValue(c)) && Dumps(CertValue(c)) == Encode(c)
  {
    TbsEncodable(c);
    Powers();
    IssuerAgreesTbs(c);
    DumpsAll2(TbsValue(c), Bytes(c.signature));
    assert PutArray(2) + (EncodeTbs(c) + PutBytes(c.signature)) == Encode(c);
  }

  /**
   End to end: a node that decodes the issuer's bytes and re-encodes the to-be-signed part obtains
   exactly the bytes the issuer signed.
   */
  lemma ReencodingMatchesSigned(c: Cert, rest: seq<Byte>, stale: seq<Byte>)
    requires c.Valid()
    ensures Encodable(CertValue(c)) && Encodable(TbsValue(c))
    ensures Decode(Dumps(CertValue(c)) + rest, stale).Ok?
    ensures var d := Decode(Dumps(CertValue(c)) + rest, stale).value;
            d == c && EncodeTbs(d) == Dumps(TbsValue(c))
  {
    IssuerAgrees(c);
    IssuerAgreesTbs(c);
    DecodeEncode(c, rest, stale);
  }

  /** SignedCertificate.decode: indexing into the loaded value, None where that raises or is ill-typed. */
  function FromValue(v: Value): Option<Cert> {
    if !(v.Array? && |v.items| >= 2 && v.items[0].Array? && |v.items[0].items| >= 6 && v.items[1].Bytes?) then None
    else
      var t := v.items[0].items;
      if !(t[0].UInt? && t[1].Bytes? && t[2].Array? && |t[2].items| >= 2 && t[3].Bytes? && t[4].Array?
           && |t[4].items| >= 1 && t[5].Bytes?) then None
      else
        var from, to, deviceClass := t[2].items[0], t[2].items[1], t[4].items[0];
        if from.UInt? && to.UInt? && deviceClass.UInt?
           && DEVICE_CLASS_MINIMUM <= deviceClass.n <= DEVICE_CLASS_MAXIMUM && |t[5].b| == KEY_LENGTH
        then Some(Cert(t[0].n, t[1].b, from.n, to.n, t[3].b, deviceClass.n, t[5].b, v.items[1].b))
        else None
  }

  /** The issuer's own decoder accepts what the nodes encode, and returns the same certificate. */
  lemma IssuerDecodesNodes(c: Cert)
    requires c.Valid()
    ensures Loads(Encode(c)).Some? && FromValue(Loads(Encode(c)).value.0) == Some(c)
  {
    IssuerAgrees(c);
    LoadsDumps(CertValue(c), []);
    assert Encode(c) + [] == Encode(c);
  }

  // ---------------------------------------------------------------------------
  // Whatever a node decodes, the issuer reads in the same way.
  // ---------------------------------------------------------------------------

  ghost predicate Item(data: seq<Byte>, v: Value, after: seq<Byte>) {
    Loads(data) == Some((v, after))
  }

  ghost predicate Items(data: seq<Byte>, vs: seq<Value>, after: seq<Byte>) {
    LoadsAll(data, |vs|) == Some((vs, after))
  }

  lemma UintIsItem(data: seq<Byte>, maxInfo: nat)
    requires GetUint(data, maxInfo).Ok?
    ensures Item(data, UInt(GetUint(data, maxInfo).value), GetUint(data, maxInfo).rest)
  {
  }

  lemma BytesAreItem(data: seq<Byte>, length: nat)
    requires GetBytes(data, length).Ok?
    ensures Item(data, Bytes(GetBytes(data, length).value), GetBytes(data, length).rest)
  {
  }

  lemma ArrayIsItem(data: seq<Byte>, items: seq<Value>, after: seq<Byte>)
    requires GetArray(data, |items|).Ok? && Items(GetArray(data, |items|).rest, items, after)
    ensures Item(data, Array(items), after)
  {
  }

  lemma OneItem(data: seq<Byte>, v: Value, after: seq<Byte>)
    requires Item(data, v, after)
    ensures Items(data, [v], after)
  {
    assert LoadsAll(after, 0) == Some(([], after));
    assert [v] + [] == [v];
  }

  /** One item, and then the items behind it. */
  lemma FirstItem(data: seq<Byte>, v: Value, rest: seq<Byte>, vs: seq<Value>, after: seq<Byte>)
    requires Item(data, v, rest) && Items(rest, vs, after)
    ensures Items(data, [v] + vs, after)
  {
  }

  function ValidityItems(validity: (nat, nat)): seq<Value> { [UInt(validity.0)] + [UInt(validity.1)] }

  lemma ValidityIsItem(data: seq<Byte>)
    requires ParseValidity(data).Ok?
    ensures Item(data, Array(ValidityItems(ParseValidity(data).value)), ParseValidity(data).rest)
  {
    var d1 := GetArray(data, 2).rest;
    var r1 := GetUint(d1, 26);
    var r2 := GetUint(r1.rest, 26);
    UintIsItem(d1, 26);
    UintIsItem(r1.rest, 26);
    OneItem(r1.rest, UInt(r2.value), r2.rest);
    FirstItem(d1, UInt(r1.value), r1.rest, [UInt(r2.value)], r2.rest);
    ArrayIsItem(data, ValidityItems((r1.value, r2.value)), r2.rest);
  }

  lemma TagsAreItem(data: seq<Byte>)
    requires ParseTags(data).Ok?
    ensures Item(data, Array([UInt(ParseTags(data).value)]), ParseTags(data).rest)
  {
    var d1 := GetArray(data, 1).rest;
    UintIsItem(d1, 24);
    OneItem(d1, UInt(GetUint(d1, 24).value), GetUint(d1, 24).rest);
    ArrayIsItem(data, [UInt(GetUint(d1, 24).value)], GetUint(d1, 24).rest);
  }

  function SubjectItems(subject: (seq<Byte>, nat, seq<Byte>)): seq<Value> {
    [Bytes(subject.0)] + ([Array([UInt(subject.1)])] + [Bytes(subject.2)])
  }

  lemma SubjectAreItems(data: seq<Byte>)
    requires ParseSubject(data).Ok?
    ensures Items(data, SubjectItems(ParseSubject(data).value), ParseSubject(data).rest)
  {
    var r1 := GetBytes(data, EUI64_LENGTH);
    var r2 := ParseTags(r1.rest);
    var r3 := GetBytes(r2.rest, KEY_LENGTH);
    BytesAreItem(data, EUI64_LENGTH);
    TagsAreItem(r1.rest);
    BytesAreItem(r2.rest, KEY_LENGTH);
    OneItem(r2.rest, Bytes(r3.value), r3.rest);
    FirstItem(r1.rest, Array([UInt(r2.value)]), r2.rest, [Bytes(r3.value)], r3.rest);
    FirstItem(data, Bytes(r1.value), r1.rest, [Array([UInt(r2.value)])] + [Bytes(r3.value)], r3.rest);
  }

  lemma BodyAreItems(data: seq<Byte>)
    requires ParseValidity(data).Ok? && ParseSubject(ParseValidity(data).rest).Ok?
    ensures var validity, subject := ParseValidity(data), ParseSubject(ParseValidity(data).rest);
            Items(data, [Array(ValidityItems(validity.value))] + SubjectItems(subject.value), subject.rest)
  {
    var validity := ParseValidity(data);
    var subject := ParseSubject(validity.rest);
    ValidityIsItem(data);
    SubjectAreItems(validity.rest);
    FirstItem(data, Array(ValidityItems(validity.value)), validity.rest, SubjectItems(subject.value), subject.rest);
  }

  lemma TbsItems(c: Cert)
    ensures TbsValue(c) ==
            Array([UInt(c.serial)] + ([Bytes(c.issuer)] + ([Array(ValidityItems((c.notBefore, c.notAfter)))]
                  + SubjectItems((c.subject, c.deviceClass, c.publicKey)))))
  {
    assert ValidityItems((c.notBefore, c.notAfter)) == [UInt(c.notBefore), UInt(c.notAfter)];
    assert TbsValue(c).items ==
           [UInt(c.serial)] + ([Bytes(c.issuer)] + ([Array(ValidityItems((c.notBefore, c.notAfter)))]
           + SubjectItems((c.subject, c.deviceClass, c.publicKey))));
  }

  lemma TbsIsItem(data: seq<Byte>)
    requires ParseTbs(data, []).Ok?
    ensures Item(data, TbsValue(ParseTbs(data, []).value), ParseTbs(data, []).rest)
  {
    var d1 := GetArray(data, 6).rest;
    var serial := GetUint(d1, 26);
    var issuer := GetBytes(serial.rest, EUI64_LENGTH);
    var validity := ParseValidity(issuer.rest);
    var subject := ParseSubject(validity.rest);
    var body := [Array(ValidityItems(validity.value))] + SubjectItems(subject.value);
    UintIsItem(d1, 26);
    BytesAreItem(serial.rest, EUI64_LENGTH);
    BodyAreItems(issuer.rest);
    FirstItem(serial.rest, Bytes(issuer.value), issuer.rest, body, subject.rest);
    FirstItem(d1, UInt(serial.value), serial.rest, [Bytes(issuer.value)] + body, subject.rest);
    ArrayIsItem(data, [UInt(serial.value)] + ([Bytes(issuer.value)] + body), subject.rest);
    TbsItems(ParseTbs(data, []).value);
  }

  /** The data begins with the head of an array. */
  predicate BeginsArray(data: seq<Byte>) { ParseHead(data).Some? && ParseHead(data).value.major == ARRAY }

  /**
   Whatever array a node decodes as a certificate, a generic decoder reads as the value the issuer builds for
   that certificate, with the same bytes left over, and the issuer's decoder takes it for the same certificate.
   */
  lemma DecodedIsLoaded(data: seq<Byte>, stale: seq<Byte>)
    requires BeginsArray(data) && Decode(data, stale).Ok?
    ensures Loads(data) == Some((CertValue(Decode(data, stale).value), Decode(data, stale).rest))
    ensures FromValue(CertValue(Decode(data, stale).value)) == Some(Decode(data, stale).value)
  {
    var d1 := GetArray(data, 2).rest;
    var tbs := ParseTbs(d1, []);
    var signature := GetBytes(tbs.rest, SIG_LENGTH);
    TbsIsItem(d1);
    BytesAreItem(tbs.rest, SIG_LENGTH);
    OneItem(tbs.rest, Bytes(signature.value), signature.rest);
    FirstItem(d1, TbsValue(tbs.value), tbs.rest, [Bytes(signature.value)], signature.rest);
    ArrayIsItem(data, [TbsValue(tbs.value)] + [Bytes(signature.value)], signature.rest);
    assert CertValue(Decode(data, stale).value) == Array([TbsValue(tbs.value)] + [Bytes(signature.value)]);
    DecodedIsValid(data, stale);
  }
}
