/**
 Delivering a route to the edge over the serial line: resource_rich/applications/routing.py cuts each
 encoded chunk into base64 lines, wsn/applications/routing/edge/routing-task-response.c puts it
 together again and submits it as one CoAP block.
 */
module Transfer {
  import opened Common
  import opened Base64
  import Cbor

  // ---------------------------------------------------------------------------
  // Lines.
  // ---------------------------------------------------------------------------

  /** str() of a counter. */
  function Decimal(n: nat): string {
    if n < 10 then ['0' + n as char] else Decimal(n / 10) + ['0' + (n % 10) as char]
  }

  predicate IsDigit(c: char) { '0' <= c <= '9' }

  /** strtoul in base ten: the value of the leading digits, and where they end. */
  function Strtoul(s: string, acc: nat): (r: (nat, string))
    ensures |r.1| <= |s|
  {
    if |s| > 0 && IsDigit(s[0]) then Strtoul(s[1..], acc * 10 + (s[0] as int - '0' as int)) else (acc, s)
  }

  /** The counters of one line: packet i of n, piece j of m. */
  datatype Header = Header(i: nat, n: nat, j: nat, m: nat)

  /** The text after "resp2|". */
  function Format(h: Header, body: string): string {
    Decimal(h.i) + ("/" + (Decimal(h.n) + ("|" + (Decimal(h.j) + ("/" + (Decimal(h.m) + ("|" + body)))))))
  }

  /** A number that must be followed by `sep`, and what comes after. */
  function Field(s: string, sep: char): Option<(nat, string)> {
    var (v, rest) := Strtoul(s, 0);
    if |rest| > 0 && rest[0] == sep then Some((v, rest[1..])) else None
  }

  /** The four separators that process_task_resp2 insists on. */
  function Parse(s: string): Option<(Header, string)> {
    match Field(s, '/')
    case None => None
    case Some((i, s1)) =>
      match Field(s1, '|')
      case None => None
      case Some((n, s2)) =>
        match Field(s2, '/')
        case None => None
        case Some((j, s3)) =>
          match Field(s3, '|')
          case None => None
          case Some((m, s4)) => Some((Header(i, n, j, m), s4))
  }

  lemma {:induction false} DecimalReads(n: nat, t: string)
    ensures Strtoul(Decimal(n) + t, 0) == Strtoul(t, n)
  {
    if n < 10 {
      var s := Decimal(n) + t;
      assert s[1..] == t;
    } else {
      var d := ['0' + (n % 10) as char];
      DecimalReads(n / 10, d + t);
      Associate(Decimal(n / 10), d, t);
      assert (d + t)[1..] == t;
    }
  }

  lemma FieldReads(n: nat, sep: char, t: string)
    requires !IsDigit(sep)
    ensures Field(Decimal(n) + ([sep] + t), sep) == Some((n, t))
  {
    DecimalReads(n, [sep] + t);
    assert ([sep] + t)[1..] == t;
  }

  function Pow10(k: nat): (r: nat)
    ensures r > 0
  {
    if k == 0 then 1 else 10 * Pow10(k - 1)
  }

  /** Digit i of a numeral stands for the power of ten that its place says, and no numeral but that of zero begins with 0. */
  lemma {:induction false} DecimalDigit(n: nat, i: nat)
    requires i < |Decimal(n)|
    ensures Decimal(n)[i] as int - '0' as int == n / Pow10(|Decimal(n)| - 1 - i) % 10
    ensures n > 0 ==> Decimal(n)[0] != '0'
    decreases n
  {
    if n >= 10 {
      DecimalIsDigits(n / 10);
      DecimalDigit(n / 10, 0);
      var k := |Decimal(n)| - 1;
      if i < k {
        DecimalDigit(n / 10, i);
        DivideTwice(n, 10, Pow10(k - 1 - i));
      }
    }
  }

  predicate AllDigits(s: string) { forall k :: 0 <= k < |s| ==> IsDigit(s[k]) }

  lemma {:induction false} DecimalIsDigits(n: nat)
    ensures AllDigits(Decimal(n)) && |Decimal(n)| > 0
  {
    if n >= 10 {
      DecimalIsDigits(n / 10);
    }
  }

  lemma {:induction false} StrtoulOfDigits(s: string, acc: nat)
    requires AllDigits(s)
    ensures Strtoul(s, acc).1 == []
    decreases |s|
  {
    if |s| > 0 {
      StrtoulOfDigits(s[1..], acc * 10 + (s[0] as int - '0' as int));
    }
  }

  /** A number and its separator, read from the first r characters. */
  lemma FieldOfCut(n: nat, sep: char, t: string, r: nat)
    requires !IsDigit(sep) && r <= |Decimal(n)| + 1 + |t|
    ensures Field((Decimal(n) + ([sep] + t))[..r], sep) ==
            if r <= |Decimal(n)| then None else Some((n, t[..r - |Decimal(n)| - 1]))
  {
    var d := |Decimal(n)|;
    var s := Decimal(n) + ([sep] + t);
    if r <= d {
      DecimalIsDigits(n);
      assert s[..r] == Decimal(n)[..r];
      StrtoulOfDigits(s[..r], 0);
    } else {
      var u := t[..r - d - 1];
      assert s[..r] == Decimal(n) + ([sep] + u);
      FieldReads(n, sep, u);
    }
  }

  /** The length of the four counters and their separators. */
  function HeadLength(h: Header): nat { |Decimal(h.i)| + |Decimal(h.n)| + |Decimal(h.j)| + |Decimal(h.m)| + 4 }

  lemma FormatLength(h: Header, body: string)
    ensures |Format(h, body)| == HeadLength(h) + |body|
  {
  }

  /** A text cut off inside its counters does not parse; one cut off later loses part of its body. */
  lemma ParseOfCut(h: Header, body: string, r: nat)
    requires r <= HeadLength(h) + |body|
    ensures |Format(h, body)| == HeadLength(h) + |body|
    ensures Parse(Format(h, body)[..r]) ==
            if r < HeadLength(h) then None else Some((h, body[..r - HeadLength(h)]))
  {
    var s3 := Decimal(h.m) + ("|" + body);
    var s2 := Decimal(h.j) + ("/" + s3);
    var s1 := Decimal(h.n) + ("|" + s2);
    FieldOfCut(h.i, '/', s1, r);
    var r1 := r - |Decimal(h.i)| - 1;
    if r1 >= 0 {
      FieldOfCut(h.n, '|', s2, r1);
      var r2 := r1 - |Decimal(h.n)| - 1;
      if r2 >= 0 {
        FieldOfCut(h.j, '/', s3, r2);
        var r3 := r2 - |Decimal(h.j)| - 1;
        if r3 >= 0 {
          FieldOfCut(h.m, '|', body, r3);
        }
      }
    }
  }

  lemma ParseOfFormat(h: Header, body: string)
    ensures Parse(Format(h, body)) == Some((h, body))
  {
    FormatLength(h, body);
    ParseOfCut(h, body, |Format(h, body)|);
    assert Format(h, body)[..|Format(h, body)|] == Format(h, body);
    assert body[..|body|] == body;
  }

  // ---------------------------------------------------------------------------
  // Cutting a chunk into lines.
  // ---------------------------------------------------------------------------

  const MAX_SERIAL_LEN := 127
  const COAP_MAX_CHUNK := 256

  const LINE_PREFIX := "@routing|app|resp2|"

  /** What the sender sets aside per line: prefix, newline, array marker, i/n|, j/m| and padding. */
  const OVERHEAD := |LINE_PREFIX| + 1 + 2 + 6 + 4 + 1

  function Base64Length(len: nat): nat { (len + 2) / 3 * 4 }

  /** elements_per_serial_write, with the original's two divisions. */
  function PieceSize(len: nat): int
    requires len > 0
  {
    DivideReals(len as real, Base64Length(len) as real);
    var writes := Base64Length(len) as real / (MAX_SERIAL_LEN - OVERHEAD) as real;
    (len as real / writes).Floor
  }

  /** more_itertools.chunked. */
  function Pieces(c: seq<Byte>, size: nat): (r: seq<seq<Byte>>)
    requires size > 0
    ensures |c| == 0 <==> |r| == 0
  {
    if |c| == 0 then []
    else if |c| <= size then [c]
    else [c[..size]] + Pieces(c[size..], size)
  }

  lemma DivideReals(len: real, b: real)
    requires b > 0.0
    ensures b / 94.0 != 0.0 && len / (b / 94.0) == len * 94.0 / b
  {
    var w := b / 94.0;
    assert w * 94.0 == b;
    var q := len / w;
    assert q * w == len;
    assert q * b == q * (w * 94.0) == len * 94.0;
  }

  lemma FloorOfQuotient(a: nat, b: nat)
    requires b > 0
    ensures (a as real / b as real).Floor == a / b
  {
    var q, r := a / b, a % b;
    assert a == q * b + r;
    assert a as real == q as real * b as real + r as real;
    var x := a as real / b as real;
    assert x * b as real == a as real;
    assert x - q as real == r as real / b as real;
    FractionBelowOne(r as real, b as real);
  }

  lemma FractionBelowOne(r: real, b: real)
    requires 0.0 <= r < b
    ensures 0.0 <= r / b < 1.0
  {
  }

  lemma PieceSizeIs(len: nat)
    requires len > 0
    ensures PieceSize(len) == len * 94 / Base64Length(len)
  {
    DivideReals(len as real, Base64Length(len) as real);
    FloorOfQuotient(len * 94, Base64Length(len));
  }

  lemma PieceSizeBounds(len: nat)
    requires len > 0
    ensures 23 <= PieceSize(len) <= 70
    ensures len >= 92 ==> PieceSize(len) >= 69
  {
    PieceSizeIs(len);
    DivisionBounds(len * 94, Base64Length(len), if len >= 92 then 69 else 23, 70);
  }

  lemma {:induction false} PieceCount(c: seq<Byte>, size: nat, k: nat)
    requires size > 0 && |c| <= k * size
    ensures |Pieces(c, size)| <= k
    decreases k
  {
    if k == 0 {
      assert |c| == 0;
    } else if |c| > size {
      assert k * size == (k - 1) * size + size;
      PieceCount(c[size..], size, k - 1);
    }
  }

  lemma {:induction false} PiecesAreShort(c: seq<Byte>, size: nat, j: nat)
    requires size > 0 && j < |Pieces(c, size)|
    ensures 0 < |Pieces(c, size)[j]| <= size
  {
    if |c| > size && j > 0 {
      PiecesAreShort(c[size..], size, j - 1);
    }
  }

  /** A chunk of at most 256 bytes needs fewer than ten lines. */
  lemma FewPieces(c: seq<Byte>)
    requires 0 < |c| <= COAP_MAX_CHUNK
    ensures PieceSize(|c|) > 0 && |Pieces(c, PieceSize(|c|))| < 10
  {
    PieceSizeBounds(|c|);
    PieceCount(c, PieceSize(|c|), 9);
  }

  /** A line before its newline. */
  function Text(h: Header, piece: seq<Byte>): string { LINE_PREFIX + Format(h, Encoded(piece)) }

  /** The whole line as it is written to the serial port. */
  function Line(h: Header, piece: seq<Byte>): string { Text(h, piece) + "\n" }

  function Min(a: int, b: int): int { if a < b then a else b }

  /** What a line takes, with one digit in each piece counter, beside the packet counters and the encoded piece. */
  const FIXED := |LINE_PREFIX| + 6

  /** The longest line of chunk i of n, which has `len` bytes in fewer than ten pieces, is within the limit. */
  predicate LongestFits(keep: nat, i: nat, n: nat, len: nat)
    requires len > 0
  {
    FIXED + |Decimal(i)| + |Decimal(n)| + Base64Length(Min(len, PieceSize(len))) <= keep
  }

  lemma TextLength(h: Header, piece: seq<Byte>)
    ensures |Text(h, piece)| == |LINE_PREFIX| + HeadLength(h) + Base64Length(|piece|)
  {
    EncodedLength(piece);
    FormatLength(h, Encoded(piece));
  }

  lemma FirstPiece(c: seq<Byte>, size: nat)
    requires size > 0 && |c| > 0
    ensures |Pieces(c, size)| > 0 && |Pieces(c, size)[0]| == Min(|c|, size)
  {
  }

  lemma PieceText(c: seq<Byte>, i: nat, n: nat, j: nat)
    requires 0 < |c| <= COAP_MAX_CHUNK && PieceSize(|c|) > 0 && j < |Pieces(c, PieceSize(|c|))|
    ensures var pieces := Pieces(c, PieceSize(|c|));
            |Text(Header(i, n, j, |pieces|), pieces[j])| == FIXED + |Decimal(i)| + |Decimal(n)| + Base64Length(|pieces[j]|)
  {
    var pieces := Pieces(c, PieceSize(|c|));
    FewPieces(c);
    TextLength(Header(i, n, j, |pieces|), pieces[j]);
  }

  ghost predicate AllTextsWithin(keep: nat, i: nat, n: nat, pieces: seq<seq<Byte>>) {
    forall j :: 0 <= j < |pieces| ==> |Text(Header(i, n, j, |pieces|), pieces[j])| <= keep
  }

  /**
   For a chunk the host allows, no line has more than `keep` characters before its newline if and only
   if the two packet counters and the first piece leave room for each other.
   */
  lemma LinesWithinIff(keep: nat, c: seq<Byte>, i: nat, n: nat)
    requires 0 < |c| <= COAP_MAX_CHUNK
    ensures PieceSize(|c|) > 0
    ensures AllTextsWithin(keep, i, n, Pieces(c, PieceSize(|c|))) <==> LongestFits(keep, i, n, |c|)
  {
    PieceSizeBounds(|c|);
    var size := PieceSize(|c|);
    var pieces := Pieces(c, size);
    FirstPiece(c, size);
    PieceText(c, i, n, 0);
    if LongestFits(keep, i, n, |c|) {
      forall j | 0 <= j < |pieces|
        ensures |Text(Header(i, n, j, |pieces|), pieces[j])| <= keep
      {
        PiecesAreShort(c, size, j);
        PieceText(c, i, n, j);
        LengthMonotone(|pieces[j]|, Min(|c|, size));
      }
    }
  }

  lemma LengthMonotone(a: nat, b: nat)
    requires a <= b
    ensures Base64Length(a) <= Base64Length(b)
  {
  }

  lemma DecimalLength(n: nat)
    ensures n < 10 ==> |Decimal(n)| == 1
    ensures 10 <= n < 100 ==> |Decimal(n)| == 2
    ensures 100 <= n < 1000 ==> |Decimal(n)| == 3
  {
    if 100 <= n < 1000 {
      assert 10 <= n / 10 < 100;
    }
  }

  /** Every line of a chunk of at most 256 bytes, in a result of up to 100 chunks, fits the serial buffer. */
  lemma LinesFit(c: seq<Byte>, i: nat, n: nat, j: nat)
    requires 0 < |c| <= COAP_MAX_CHUNK && i < n <= 100
    requires PieceSize(|c|) > 0 && j < |Pieces(c, PieceSize(|c|))|
    ensures |Line(Header(i, n, j, |Pieces(c, PieceSize(|c|))|), Pieces(c, PieceSize(|c|))[j])| <= MAX_SERIAL_LEN
  {
    UpToHundred(MAX_SERIAL_LEN - 1, i, n, |c|);
    LinesWithinIff(MAX_SERIAL_LEN - 1, c, i, n);
  }

  lemma UpToHundred(keep: nat, i: nat, n: nat, len: nat)
    requires len > 0 && i < n <= 100 && keep >= MAX_SERIAL_LEN - 1
    ensures LongestFits(keep, i, n, len)
  {
    PieceSizeBounds(len);
    DecimalLength(i);
    DecimalLength(n);
    LengthMonotone(Min(len, PieceSize(len)), 70);
  }

  // ---------------------------------------------------------------------------
  // Room in the reassembly buffer.
  // ---------------------------------------------------------------------------

  /** Whether each of the remaining pieces, `len` bytes in all, finds whole blocks free after `at`. */
  predicate Fits(at: nat, len: nat, size: nat)
    requires size > 0
    decreases len
  {
    if len == 0 then true
    else if len <= size then at + (len + 2) / 3 * 3 <= COAP_MAX_CHUNK
    else at + (size + 2) / 3 * 3 <= COAP_MAX_CHUNK && Fits(at + size, len - size, size)
  }

  lemma {:induction false} FitsWithSlack(at: nat, len: nat, size: nat)
    requires size > 0 && at + len + 2 <= COAP_MAX_CHUNK
    ensures Fits(at, len, size)
    decreases len
  {
    if len > size {
      FitsWithSlack(at + size, len - size, size);
    }
  }

  lemma {:induction false} FitsNeeds(at: nat, len: nat, size: nat)
    requires size > 0 && len > 0 && Fits(at, len, size)
    ensures at + len <= COAP_MAX_CHUNK
    decreases len
  {
    if len > size {
      FitsNeeds(at + size, len - size, size);
    }
  }

  /**
   The lines of a chunk fit the buffer exactly when the chunk has at most 255 bytes: a full
   256-byte chunk is cut so that its last line needs whole blocks beyond the end.
   */
  lemma FitsIff(len: nat)
    requires len > 0
    ensures PieceSize(len) > 0 && (Fits(0, len, PieceSize(len)) <==> len <= 255)
  {
    PieceSizeBounds(len);
    PieceSizeIs(len);
    var size := PieceSize(len);
    if len <= 254 {
      FitsWithSlack(0, len, size);
    } else if len == 255 {
      assert size == 70;
      assert Fits(210, 45, 70);
      assert Fits(140, 115, 70);
      assert Fits(70, 185, 70);
    } else if len == 256 {
      assert size == 69;
      assert !Fits(207, 49, 69);
      assert !Fits(138, 118, 69);
      assert !Fits(69, 187, 69);
    } else if Fits(0, len, size) {
      FitsNeeds(0, len, size);
    }
  }

  // ---------------------------------------------------------------------------
  // The edge as a state machine.
  // ---------------------------------------------------------------------------

  /** A message handed to coap_send_request; a block carries its number and whether more follow. */
  datatype Message = Block(payload: seq<Byte>, num: nat, more: bool) | Status(status: nat)

  /**
   The reassembler: the gathered part of msg_buf, the callback lock, the exchanges in flight, and what
   has been submitted, read and printed so far.
   */
  datatype Edge = Edge(
    gathered: seq<Byte>, locked: bool, flights: nat, submitted: seq<Message>, inputs: nat, acks: nat, cancels: nat)

  const INITIAL := Edge([], false, 0, [], 0, 0, 0)

  /** `accepted` is whether coap_send_request takes the message. */
  function Submit(e: Edge, msg: Message, accepted: bool): (Edge, bool) {
    if e.locked then (e, false)
    else (e.(submitted := e.submitted + [msg],
             locked := accepted,
             flights := e.flights + (if accepted then 1 else 0)), accepted)
  }

  function Ack(e: Edge): Edge { e.(acks := e.acks + 1) }

  /** process_task_resp2. A line that does not decode leaves the buffer as it is. */
  function Resp2(e: Edge, data: string, accepted: bool): (Edge, bool) {
    match Parse(data)
    case None => (e, false)
    case Some((h, body)) =>
      if |e.gathered| > COAP_MAX_CHUNK then (e, false)
      else
        match Decoded(body, COAP_MAX_CHUNK - |e.gathered|)
        case None => (e, false)
        case Some(bytes) => Gather(e.(gathered := e.gathered + bytes), h, accepted)
  }

  /** With a piece added: submit after the last one, acknowledge the others. */
  function Gather(e: Edge, h: Header, accepted: bool): (Edge, bool) {
    if h.j + 1 == h.m then
      var (e1, r) := Submit(e, Block(e.gathered, h.i, h.i + 1 != h.n), accepted);
      (e1.(gathered := []), r)
    else (Ack(e), true)
  }

  /** Storing `bytes` at the start of the message buffer. */
  function Overwrite(gathered: seq<Byte>, bytes: seq<Byte>): (r: seq<Byte>)
    ensures |r| == |gathered|
  {
    if |gathered| <= |bytes| then bytes[..|gathered|] else bytes + gathered[|bytes|..]
  }

  function FindBar(s: string): (r: Option<nat>)
    ensures r.Some? ==> r.value < |s|
  {
    if |s| == 0 then None
    else if s[0] == '|' then Some(0)
    else match FindBar(s[1..]) case None => None case Some(k) => Some(k + 1)
  }

  const ULONG_MAX := 0xffff_ffff

  /** strtoul on a number that does not fit. */
  function Saturated(n: nat): nat { if n > ULONG_MAX then ULONG_MAX else n }

  /**
   process_task_resp1. `conv` is whether the target parses as an address. The status is encoded over
   the start of the message buffer.
   */
  function Resp1(conv: string -> bool, e: Edge, data: string, accepted: bool): (Edge, bool) {
    match FindBar(data)
    case None => (e, false)
    case Some(k) =>
      if !conv(data[..k]) then (e, false)
      else
        match Field(data[k + 1..], '|')
        case None => (e, false)
        case Some((n, rest)) =>
          var status := Saturated(Strtoul(rest, 0).0);
          if e.locked then (e, false)
          else Submit(e.(gathered := Overwrite(e.gathered, Cbor.Head(0, status))), Status(status), accepted)
  }

  predicate HasPrefix(s: string, p: string) { |p| <= |s| && s[..|p|] == p }

  function AckUnless(r: (Edge, bool)): Edge { if r.1 then r.0 else Ack(r.0) }

  /** One more well-formed line has been read. */
  function Received(e: Edge): Edge { e.(inputs := e.inputs + 1) }

  /** routing_taskresp_process_serial_input. */
  function Input(conv: string -> bool, e: Edge, data: string, accepted: bool): Edge {
    if !HasPrefix(data, "|") then e else Dispatch(conv, Received(e), data[1..], accepted)
  }

  function Dispatch(conv: string -> bool, e: Edge, data: string, accepted: bool): Edge {
    if HasPrefix(data, "stats|") then Ack(e)
    else if HasPrefix(data, "resp1|") then AckUnless(Resp1(conv, e, data[6..], accepted))
    else if HasPrefix(data, "resp2|") then AckUnless(Resp2(e, data[6..], accepted))
    else Ack(e)
  }

  /** send_callback with a response. */
  function Respond(e: Edge, badRequest: bool): Edge {
    if badRequest then e.(cancels := e.cancels + 1) else e
  }

  /** send_callback when the exchange is over, successfully or not. */
  function Finish(e: Edge): Edge
    requires e.flights > 0
  {
    Ack(e.(locked := false, flights := e.flights - 1))
  }

  datatype Event = Read(data: string, accepted: bool) | Responded(badRequest: bool) | Finished | Expired

  predicate Enabled(e: Edge, ev: Event) {
    match ev
    case Read(_, _) => true
    case Responded(_) => e.flights > 0
    case Finished => e.flights > 0
    case Expired => e.locked
  }

  function Step(conv: string -> bool, e: Edge, ev: Event): Edge
    requires Enabled(e, ev)
  {
    match ev
    case Read(data, accepted) => Input(conv, e, data, accepted)
    case Responded(badRequest) => Respond(e, badRequest)
    case Finished => Finish(e)
    case Expired => e.(locked := false)
  }

  predicate IsRun(conv: string -> bool, e: Edge, events: seq<Event>)
    decreases |events|
  {
    |events| == 0 || (Enabled(e, events[0]) && IsRun(conv, Step(conv, e, events[0]), events[1..]))
  }

  function Run(conv: string -> bool, e: Edge, events: seq<Event>): Edge
    requires IsRun(conv, e, events)
    decreases |events|
  {
    if |events| == 0 then e else Run(conv, Step(conv, e, events[0]), events[1..])
  }

  /** Every line read has been acknowledged, except one for each exchange in flight. */
  ghost predicate Balanced(e: Edge) { e.inputs == e.acks + e.flights }

  lemma Resp1Balance(conv: string -> bool, e: Edge, data: string, accepted: bool)
    ensures var (e1, r) := Resp1(conv, e, data, accepted);
            e1.inputs == e.inputs && e1.acks + e1.flights == e.acks + e.flights + (if r then 1 else 0)
  {
  }

  lemma Resp2Balance(e: Edge, data: string, accepted: bool)
    ensures var (e1, r) := Resp2(e, data, accepted);
            e1.inputs == e.inputs && e1.acks + e1.flights == e.acks + e.flights + (if r then 1 else 0)
  {
  }

  lemma DispatchBalance(conv: string -> bool, e: Edge, data: string, accepted: bool)
    requires e.inputs == e.acks + e.flights + 1
    ensures Balanced(Dispatch(conv, e, data, accepted))
  {
    if HasPrefix(data, "resp1|") {
      Resp1Balance(conv, e, data[6..], accepted);
    }
    if HasPrefix(data, "resp2|") {
      Resp2Balance(e, data[6..], accepted);
    }
  }

  lemma InputBalances(conv: string -> bool, e: Edge, data: string, accepted: bool)
    requires Balanced(e)
    ensures Balanced(Input(conv, e, data, accepted))
  {
    if HasPrefix(data, "|") {
      DispatchBalance(conv, Received(e), data[1..], accepted);
    }
  }

  /** Every line that begins with a bar counts as an input, whatever it holds, and no other line changes anything. */
  lemma LineCounts(conv: string -> bool, e: Edge, data: string, accepted: bool)
    ensures if |data| > 0 && data[0] == '|' then Input(conv, e, data, accepted).inputs == e.inputs + 1
            else Input(conv, e, data, accepted) == e
  {
    if HasPrefix(data, "|") {
      var text := data[1..];
      if HasPrefix(text, "resp1|") {
        Resp1Balance(conv, Received(e), text[6..], accepted);
      }
      if HasPrefix(text, "resp2|") {
        Resp2Balance(Received(e), text[6..], accepted);
      }
    }
  }

  lemma StepBalances(conv: string -> bool, e: Edge, ev: Event)
    requires Balanced(e) && Enabled(e, ev)
    ensures Balanced(Step(conv, e, ev))
  {
    match ev
    case Read(data, accepted) => InputBalances(conv, e, data, accepted);
    case Responded(_) =>
    case Finished =>
    case Expired =>
  }

  /** Over every run, whatever is read and however exchanges end, acknowledgements balance. */
  lemma {:induction false} RunBalances(conv: string -> bool, e: Edge, events: seq<Event>)
    requires Balanced(e) && IsRun(conv, e, events)
    ensures Balanced(Run(conv, e, events))
    decreases |events|
  {
    if |events| > 0 {
      StepBalances(conv, e, events[0]);
      RunBalances(conv, Step(conv, e, events[0]), events[1..]);
    }
  }

  /** A sender that waits for the acknowledgement of each line before it writes the next. */
  predicate StopAndWait(conv: string -> bool, e: Edge, events: seq<Event>)
    requires IsRun(conv, e, events)
    decreases |events|
  {
    |events| == 0 ||
    (&& (events[0].Read? && HasPrefix(events[0].data, "|") ==> e.inputs == e.acks)
     && StopAndWait(conv, Step(conv, e, events[0]), events[1..]))
  }

  /** At most one exchange is in flight, and the lock is held only while it is. */
  ghost predicate OneAtATime(e: Edge) {
    Balanced(e) && e.flights <= 1 && (e.locked ==> e.flights == 1)
  }

  lemma StepOneAtATime(conv: string -> bool, e: Edge, ev: Event)
    requires OneAtATime(e) && Enabled(e, ev)
    requires ev.Read? && HasPrefix(ev.data, "|") ==> e.inputs == e.acks
    ensures OneAtATime(Step(conv, e, ev))
  {
    StepBalances(conv, e, ev);
  }

  /** In every stop-and-wait run, a line is unacknowledged exactly while an exchange is in flight. */
  lemma {:induction false} StopAndWaitRun(conv: string -> bool, e: Edge, events: seq<Event>)
    requires OneAtATime(e) && IsRun(conv, e, events) && StopAndWait(conv, e, events)
    ensures OneAtATime(Run(conv, e, events))
    ensures Run(conv, e, events).inputs - Run(conv, e, events).acks == if Run(conv, e, events).flights > 0 then 1 else 0
    decreases |events|
  {
    if |events| > 0 {
      StepOneAtATime(conv, e, events[0]);
      StopAndWaitRun(conv, Step(conv, e, events[0]), events[1..]);
    }
  }

  predicate Ends(ev: Event) { ev.Finished? || ev.Expired? }

  /** The lock is given up exactly by the end of an exchange or by its expiry; until then nothing is submitted. */
  lemma LockEndsIff(conv: string -> bool, e: Edge, ev: Event)
    requires Enabled(e, ev) && e.locked
    ensures Step(conv, e, ev).locked <==> !Ends(ev)
    ensures Step(conv, e, ev).submitted == e.submitted
  {
  }

  /** The lock is taken exactly when a message is submitted and accepted. */
  lemma LockTakenIff(conv: string -> bool, e: Edge, ev: Event)
    requires Enabled(e, ev) && !e.locked
    ensures var s := Step(conv, e, ev).submitted;
            && (s == e.submitted || (ev.Read? && |s| == |e.submitted| + 1 && s[..|e.submitted|] == e.submitted))
            && (Step(conv, e, ev).locked <==> s != e.submitted && ev.accepted)
  {
    match ev
    case Read(data, accepted) =>
      if HasPrefix(data, "|") {
        SubmitsOne(conv, Received(e), data[1..], accepted);
      }
    case Responded(_) =>
    case Finished =>
    case Expired =>
  }

  lemma SubmitsOne(conv: string -> bool, e: Edge, data: string, accepted: bool)
    requires !e.locked
    ensures var r := Dispatch(conv, e, data, accepted);
            && (r.submitted == e.submitted ==> !r.locked)
            && (r.submitted != e.submitted ==>
                  (r.locked <==> accepted) && |r.submitted| == |e.submitted| + 1 && r.submitted[..|e.submitted|] == e.submitted)
  {
  }

  /** Over a run in which no exchange ends and none expires, a locked edge submits nothing. */
  lemma {:induction false} LockHolds(conv: string -> bool, e: Edge, events: seq<Event>)
    requires IsRun(conv, e, events) && e.locked && forall i :: 0 <= i < |events| ==> !Ends(events[i])
    ensures Run(conv, e, events).locked && Run(conv, e, events).submitted == e.submitted
    decreases |events|
  {
    if |events| > 0 {
      LockEndsIff(conv, e, events[0]);
      LockHolds(conv, Step(conv, e, events[0]), events[1..]);
    }
  }

  // ---------------------------------------------------------------------------
  // The announcement of a result, read by the edge.
  // ---------------------------------------------------------------------------

  /** What the host writes after "resp1|": who the result is for, how many chunks follow, and the status. */
  function StatusText(dest: string, n: nat, status: nat): string {
    dest + ("|" + (Decimal(n) + ("|" + Decimal(status))))
  }

  lemma {:induction false} FindBarIs(a: string, b: string)
    requires '|' !in a
    ensures FindBar(a + ("|" + b)) == Some(|a|)
    decreases |a|
  {
    var s := a + ("|" + b);
    if |a| > 0 {
      assert s[1..] == a[1..] + ("|" + b);
      FindBarIs(a[1..], b);
    }
  }

  lemma StatusParses(conv: string -> bool, e: Edge, dest: string, n: nat, status: nat, accepted: bool)
    requires '|' !in dest
    ensures Resp1(conv, e, StatusText(dest, n, status), accepted) ==
            if !conv(dest) || e.locked then (e, false)
            else
              var head := Cbor.Head(0, Saturated(status));
              Submit(e.(gathered := Overwrite(e.gathered, head)), Status(Saturated(status)), accepted)
  {
    var text, rest := StatusText(dest, n, status), Decimal(n) + ("|" + Decimal(status));
    FindBarIs(dest, rest);
    assert text[..|dest|] == dest && text[|dest| + 1..] == rest;
    FieldReads(n, '|', Decimal(status));
    DecimalReads(status, "");
    assert Decimal(status) + "" == Decimal(status);
  }

  /**
   The announcement makes the edge submit the status, the last of its two numbers, to the target, unless
   the target is no address or an exchange holds the lock: then it is only acknowledged. The status also
   lands at the start of the message buffer, over what was gathered there.
   */
  lemma StatusRead(conv: string -> bool, e: Edge, dest: string, n: nat, status: nat, accepted: bool)
    requires '|' !in dest
    ensures var r, head := Input(conv, e, "|resp1|" + StatusText(dest, n, status), accepted), Cbor.Head(0, Saturated(status));
            if !conv(dest) || e.locked then r == Ack(Received(e))
            else
              && r.submitted == e.submitted + [Status(Saturated(status))]
              && (r.locked <==> accepted) && r.flights == e.flights + (if accepted then 1 else 0)
              && r.inputs == e.inputs + 1 && r.acks == e.acks + (if accepted then 0 else 1) && r.cancels == e.cancels
              && |r.gathered| == |e.gathered|
              && forall k :: 0 <= k < |r.gathered| ==> r.gathered[k] == if k < |head| then head[k] else e.gathered[k]
  {
    DispatchesStatus(conv, e, StatusText(dest, n, status), accepted);
    StatusParses(conv, Received(e), dest, n, status, accepted);
  }

  lemma DispatchesStatus(conv: string -> bool, e: Edge, text: string, accepted: bool)
    ensures Input(conv, e, "|resp1|" + text, accepted) == AckUnless(Resp1(conv, Received(e), text, accepted))
  {
    var data := "|resp1|" + text;
    assert HasPrefix(data, "|");
    assert data[1..] == "resp1|" + text;
    var d := data[1..];
    assert d[0] == 'r' && "stats|"[0] == 's';
    assert d[..6] == "resp1|" && d[6..] == text;
  }

  // ---------------------------------------------------------------------------
  // One line of a chunk, read by the edge.
  // ---------------------------------------------------------------------------

  const MARKER := "@routing|app"

  /** The part of a line after the application's marker. */
  function Data(h: Header, piece: seq<Byte>): string { "|resp2|" + Format(h, Encoded(piece)) }

  lemma LineIsData(h: Header, piece: seq<Byte>)
    ensures Line(h, piece) == MARKER + Data(h, piece) + "\n"
  {
    assert LINE_PREFIX == MARKER + "|resp2|";
  }

  /**
   How many characters of a line, not counting its newline, the serial driver delivers: it truncates
   longer lines. 126 are delivered if the host's limit of 127 includes the newline.
   */
  type Limit = k: nat | |LINE_PREFIX| <= k witness MAX_SERIAL_LEN

  function Cut(s: string, keep: nat): string { if |s| <= keep then s else s[..keep] }

  /** What the edge sees of a line. */
  function Seen(keep: Limit, h: Header, piece: seq<Byte>): string { Cut(Data(h, piece), keep - |MARKER|) }

  lemma SeenIsCutLine(keep: Limit, h: Header, piece: seq<Byte>)
    ensures Cut(Text(h, piece), keep) == MARKER + Seen(keep, h, piece)
  {
    assert Text(h, piece) == MARKER + Data(h, piece) by {
      assert LINE_PREFIX == MARKER + "|resp2|";
    }
  }

  /** What is left of the encoded piece, nothing if the line was cut off inside its counters. */
  function Body(keep: Limit, h: Header, piece: seq<Byte>): string {
    var r := keep - |LINE_PREFIX| - HeadLength(h);
    if r < 0 then "" else Cut(Encoded(piece), r)
  }

  /** The room left in the message buffer. */
  function Space(g: seq<Byte>): nat { if |g| <= COAP_MAX_CHUNK then COAP_MAX_CHUNK - |g| else 0 }

  /** Reading a line: what is left of it is decoded, whether or not it was cut. */
  lemma LineRead(conv: string -> bool, keep: Limit, e: Edge, h: Header, piece: seq<Byte>, accepted: bool)
    ensures Input(conv, e, Seen(keep, h, piece), accepted) ==
            AckUnless(
              match Decoded(Body(keep, h, piece), Space(e.gathered))
              case None => (Received(e), false)
              case Some(bytes) => Gather(Received(e).(gathered := e.gathered + bytes), h, accepted))
  {
    var seen := Cut(Format(h, Encoded(piece)), keep - |LINE_PREFIX|);
    assert Seen(keep, h, piece) == "|resp2|" + seen;
    Dispatches(conv, e, seen, accepted);
    SeenParses(keep, h, piece);
    assert Decoded("", Space(e.gathered)).None?;
    NoRoom(Body(keep, h, piece));
  }

  lemma NoRoom(body: string)
    ensures Decoded(body, 0).None?
  {
  }

  /** What arrives of the counters and the body. */
  lemma SeenParses(keep: Limit, h: Header, piece: seq<Byte>)
    ensures var seen := Cut(Format(h, Encoded(piece)), keep - |LINE_PREFIX|);
            if Parse(seen).None? then Body(keep, h, piece) == "" else Parse(seen) == Some((h, Body(keep, h, piece)))
  {
    var text := Format(h, Encoded(piece));
    var seen := Cut(text, keep - |LINE_PREFIX|);
    FormatLength(h, Encoded(piece));
    ParseOfCut(h, Encoded(piece), |seen|);
    assert seen == text[..|seen|];
    assert |seen| >= HeadLength(h) ==> Encoded(piece)[..|seen| - HeadLength(h)] == Body(keep, h, piece);
  }

  /** A line that arrives whole leaves its piece as it was encoded, and only such a line does. */
  lemma BodyIsWholeIff(keep: Limit, h: Header, piece: seq<Byte>)
    requires |piece| > 0
    ensures Body(keep, h, piece) == Encoded(piece) <==> |Text(h, piece)| <= keep
    ensures Body(keep, h, piece) != Encoded(piece) ==> |Body(keep, h, piece)| < |Encoded(piece)|
  {
    TextLength(h, piece);
    EncodedLength(piece);
  }

  /** A line that was cut brings fewer bytes than its piece has, or none. */
  lemma CutLineFallsShort(keep: Limit, h: Header, piece: seq<Byte>, cap: nat)
    requires |piece| > 0 && |Text(h, piece)| > keep
    ensures var got := Decoded(Body(keep, h, piece), cap); got.Some? ==> |got.value| < |piece|
  {
    BodyIsWholeIff(keep, h, piece);
    EncodedLength(piece);
    DecodedWithin(Body(keep, h, piece), cap);
    if Decoded(Body(keep, h, piece), cap).Some? {
      FewerBlocks(|Symbols(Body(keep, h, piece))|, |piece|);
    }
  }

  lemma FewerBlocks(symbols: nat, len: nat)
    requires symbols < (len + 2) / 3 * 4 && symbols % 4 == 0 && len > 0
    ensures symbols / 4 * 3 < len
  {
  }

  /** A piece that finds room is appended; the last piece submits the gathered chunk and empties the buffer. */
  lemma PieceRead(conv: string -> bool, keep: Limit, e: Edge, h: Header, piece: seq<Byte>, accepted: bool)
    requires |piece| > 0 && |e.gathered| + (|piece| + 2) / 3 * 3 <= COAP_MAX_CHUNK && !e.locked
    requires |Text(h, piece)| <= keep
    ensures Input(conv, e, Seen(keep, h, piece), accepted) ==
            var all := e.gathered + piece;
            if h.j + 1 != h.m then e.(gathered := all, inputs := e.inputs + 1, acks := e.acks + 1)
            else e.(gathered := [],
                    submitted := e.submitted + [Block(all, h.i, h.i + 1 != h.n)],
                    locked := accepted,
                    flights := e.flights + (if accepted then 1 else 0),
                    inputs := e.inputs + 1,
                    acks := e.acks + (if accepted then 0 else 1))
  {
    LineRead(conv, keep, e, h, piece, accepted);
    BodyIsWholeIff(keep, h, piece);
    RoundTrip(piece, Space(e.gathered));
  }

  lemma Dispatches(conv: string -> bool, e: Edge, text: string, accepted: bool)
    ensures Input(conv, e, "|resp2|" + text, accepted) ==
            AckUnless(Resp2(Received(e), text, accepted))
  {
    var data := "|resp2|" + text;
    assert HasPrefix(data, "|");
    assert data[1..] == "resp2|" + text;
    var d := data[1..];
    assert d[0] == 'r' && d[4] == '2';
    assert "stats|"[0] == 's' && "resp1|"[4] == '1';
    assert d[..6] == "resp2|" && d[6..] == text;
  }
}
