/**
 Whole chunks and whole results over the line of Transfer: what the edge submits and what it is left
 with, for chunks of every length, results of any number of chunks, any limit of the serial line, and
 whatever becomes of the CoAP exchanges.
 */
module Delivery {
  import opened Common
  import opened Base64
  import opened Transfer

  /** What becomes of a submitted message: CoAP refuses it, the exchange fails, or it is answered. */
  datatype Outcome = Refused | Failed | Answered(badRequest: bool)

  /** The callbacks of the exchange in flight, if there is one, up to the acknowledgement. */
  function Settled(e: Edge, outcome: Outcome): Edge {
    if e.flights == 0 then e
    else
      match outcome
      case Refused => e
      case Failed => Finish(e)
      case Answered(bad) => Finish(Respond(e, bad))
  }

  /** Between lines: nothing in flight, every line acknowledged. */
  ghost predicate Ready(e: Edge) {
    !e.locked && e.flights == 0 && e.inputs == e.acks && |e.gathered| <= COAP_MAX_CHUNK
  }

  /** Between chunks, with nothing left over. */
  ghost predicate Idle(e: Edge) { Ready(e) && e.gathered == [] }

  // ---------------------------------------------------------------------------
  // One line.
  // ---------------------------------------------------------------------------

  /** One line of a chunk, written, read as far as it arrives, and acknowledged. */
  function AfterLine(
    conv: string -> bool, keep: Limit, e: Edge, h: Header, piece: seq<Byte>, outcome: Outcome): Edge
  {
    Settled(Input(conv, e, Seen(keep, h, piece), !outcome.Refused?), outcome)
  }

  /** What a text decodes to, given the room for it. The edge's is Base64.Decoded. */
  type Decoder = (string, nat) -> Option<seq<Byte>>

  /** Whether the decoder accepts the body of a line in the room that is left. */
  predicate Accepts(decode: Decoder, g: seq<Byte>, body: string) { decode(body, Space(g)).Some? }

  /** What is gathered after a line. */
  function Keep(decode: Decoder, g: seq<Byte>, body: string): seq<Byte> {
    match decode(body, Space(g))
    case None => g
    case Some(bytes) => g + bytes
  }

  lemma KeepStays(g: seq<Byte>, body: string)
    ensures |g| <= COAP_MAX_CHUNK ==> |Keep(Decoded, g, body)| <= COAP_MAX_CHUNK
  {
    DecodedWithin(body, Space(g));
  }

  /** Whether the decoder finds whole blocks free for a piece. */
  predicate Room(g: seq<Byte>, piece: seq<Byte>) { |g| + (|piece| + 2) / 3 * 3 <= COAP_MAX_CHUNK }

  /** A line that the decoder rejects is acknowledged and changes nothing else: its bytes are lost. */
  lemma RejectedLine(conv: string -> bool, keep: Limit, e: Edge, h: Header, piece: seq<Byte>, accepted: bool)
    requires !Accepts(Decoded, e.gathered, Body(keep, h, piece))
    ensures Input(conv, e, Seen(keep, h, piece), accepted) == e.(inputs := e.inputs + 1, acks := e.acks + 1)
  {
    LineRead(conv, keep, e, h, piece, accepted);
  }

  /** A line that finds no room is such a line. */
  lemma LineWithoutRoom(conv: string -> bool, keep: Limit, e: Edge, h: Header, piece: seq<Byte>, accepted: bool)
    requires |Text(h, piece)| <= keep && !Room(e.gathered, piece)
    ensures Input(conv, e, Seen(keep, h, piece), accepted) == e.(inputs := e.inputs + 1, acks := e.acks + 1)
  {
    RoundTrip(piece, Space(e.gathered));
    if |piece| > 0 {
      BodyIsWholeIff(keep, h, piece);
    }
    RejectedLine(conv, keep, e, h, piece, accepted);
  }

  /** The state after a block has been submitted and its exchange is over. */
  function Delivered(e: Edge, block: Message, outcome: Outcome): Edge {
    e.(gathered := [],
       submitted := e.submitted + [block],
       inputs := e.inputs + 1,
       acks := e.acks + 1,
       cancels := e.cancels + (if outcome == Answered(true) then 1 else 0))
  }

  /** The effect of a line, given its body: the last line submits if it is accepted. */
  function LineEffect(decode: Decoder, e: Edge, h: Header, body: string, outcome: Outcome): Edge {
    if h.j + 1 == h.m && Accepts(decode, e.gathered, body)
    then Delivered(e, Block(Keep(decode, e.gathered, body), h.i, h.i + 1 != h.n), outcome)
    else Kept(e, Keep(decode, e.gathered, body), 1)
  }

  /** The state with `g` gathered, after so many more lines. */
  function Kept(e: Edge, g: seq<Byte>, lines: nat): Edge {
    e.(gathered := g, inputs := e.inputs + lines, acks := e.acks + lines)
  }

  lemma AfterLineIs(conv: string -> bool, keep: Limit, e: Edge, h: Header, piece: seq<Byte>, outcome: Outcome)
    requires Ready(e)
    ensures AfterLine(conv, keep, e, h, piece, outcome) == LineEffect(Decoded, e, h, Body(keep, h, piece), outcome)
    ensures Ready(LineEffect(Decoded, e, h, Body(keep, h, piece), outcome))
  {
    LineRead(conv, keep, e, h, piece, !outcome.Refused?);
    KeepStays(e.gathered, Body(keep, h, piece));
  }

  // ---------------------------------------------------------------------------
  // One chunk.
  // ---------------------------------------------------------------------------

  /** The lines of a chunk from piece j on. */
  function AfterPieces(
    conv: string -> bool, keep: Limit, e: Edge, i: nat, n: nat, pieces: seq<seq<Byte>>, j: nat, outcome: Outcome): Edge
    requires j <= |pieces|
    decreases |pieces| - j
  {
    if j == |pieces| then e
    else
      var e' := AfterLine(conv, keep, e, Header(i, n, j, |pieces|), pieces[j], outcome);
      AfterPieces(conv, keep, e', i, n, pieces, j + 1, outcome)
  }

  /** All the lines of chunk i of n. */
  function AfterChunk(
    conv: string -> bool, keep: Limit, e: Edge, i: nat, n: nat, c: seq<Byte>, outcome: Outcome): Edge
    requires |c| > 0
  {
    PieceSizeBounds(|c|);
    AfterPieces(conv, keep, e, i, n, Pieces(c, PieceSize(|c|)), 0, outcome)
  }

  /** The bodies of a chunk's lines, as they arrive. */
  function Bodies(keep: Limit, i: nat, n: nat, pieces: seq<seq<Byte>>): (r: seq<string>)
    ensures |r| == |pieces|
    ensures forall j :: 0 <= j < |r| ==> r[j] == Body(keep, Header(i, n, j, |pieces|), pieces[j])
  {
    seq(|pieces|, j requires 0 <= j < |pieces| => Body(keep, Header(i, n, j, |pieces|), pieces[j]))
  }

  /** What is gathered after some lines, one after the other. */
  function KeepAll(decode: Decoder, g: seq<Byte>, bodies: seq<string>): seq<Byte> {
    if |bodies| == 0 then g else Keep(decode, KeepAll(decode, g, bodies[..|bodies| - 1]), bodies[|bodies| - 1])
  }

  function BodiesEffect(decode: Decoder, e: Edge, i: nat, n: nat, bodies: seq<string>, j: nat, outcome: Outcome): Edge
    requires j <= |bodies|
    decreases |bodies| - j
  {
    if j == |bodies| then e
    else
      var e' := LineEffect(decode, e, Header(i, n, j, |bodies|), bodies[j], outcome);
      BodiesEffect(decode, e', i, n, bodies, j + 1, outcome)
  }

  lemma {:induction false} AfterPiecesIs(
    conv: string -> bool, keep: Limit, e: Edge, i: nat, n: nat, pieces: seq<seq<Byte>>, j: nat, outcome: Outcome)
    requires Ready(e) && j <= |pieces|
    ensures AfterPieces(conv, keep, e, i, n, pieces, j, outcome) ==
            BodiesEffect(Decoded, e, i, n, Bodies(keep, i, n, pieces), j, outcome)
    ensures Ready(BodiesEffect(Decoded, e, i, n, Bodies(keep, i, n, pieces), j, outcome))
    decreases |pieces| - j
  {
    if j < |pieces| {
      var h := Header(i, n, j, |pieces|);
      AfterLineIs(conv, keep, e, h, pieces[j], outcome);
      AfterPiecesIs(
        conv, keep, LineEffect(Decoded, e, h, Body(keep, h, pieces[j]), outcome), i, n, pieces, j + 1, outcome);
    }
  }

  /** All lines but the last only gather, and every line is acknowledged. */
  lemma {:induction false} BeforeLast(
    decode: Decoder, e: Edge, i: nat, n: nat, bodies: seq<string>, k: nat, outcome: Outcome)
    requires k < |bodies|
    ensures BodiesEffect(decode, e, i, n, bodies, 0, outcome) ==
            BodiesEffect(decode, Kept(e, KeepAll(decode, e.gathered, bodies[..k]), k), i, n, bodies, k, outcome)
    decreases k
  {
    if k == 0 {
      assert Kept(e, KeepAll(decode, e.gathered, bodies[..0]), 0) == e;
    } else {
      BeforeLast(decode, e, i, n, bodies, k - 1, outcome);
      assert bodies[..k][..k - 1] == bodies[..k - 1];
      var g := KeepAll(decode, e.gathered, bodies[..k - 1]);
      assert LineEffect(decode, Kept(e, g, k - 1), Header(i, n, k - 1, |bodies|), bodies[k - 1], outcome) ==
             Kept(e, Keep(decode, g, bodies[k - 1]), k);
    }
  }

  /** What a run of lines leaves: a block if the last line is accepted, and otherwise what was kept. */
  function Leaves(decode: Decoder, e: Edge, i: nat, n: nat, bodies: seq<string>, outcome: Outcome): Edge
    requires |bodies| > 0
  {
    var m := |bodies|;
    var g := KeepAll(decode, e.gathered, bodies[..m - 1]);
    LineEffect(decode, Kept(e, g, m - 1), Header(i, n, m - 1, m), bodies[m - 1], outcome)
  }

  /** Exactly what a chunk of any length does to an edge that is ready for it. */
  lemma ChunkLeaves(conv: string -> bool, keep: Limit, e: Edge, i: nat, n: nat, c: seq<Byte>, outcome: Outcome)
    requires Ready(e) && |c| > 0
    ensures PieceSize(|c|) > 0 && |Pieces(c, PieceSize(|c|))| > 0
    ensures AfterChunk(conv, keep, e, i, n, c, outcome) ==
            Leaves(Decoded, e, i, n, Bodies(keep, i, n, Pieces(c, PieceSize(|c|))), outcome)
    ensures Ready(AfterChunk(conv, keep, e, i, n, c, outcome))
  {
    PieceSizeBounds(|c|);
    var pieces := Pieces(c, PieceSize(|c|));
    AfterPiecesIs(conv, keep, e, i, n, pieces, 0, outcome);
    BeforeLast(Decoded, e, i, n, Bodies(keep, i, n, pieces), |pieces| - 1, outcome);
  }

  // ---------------------------------------------------------------------------
  // When a chunk survives.
  // ---------------------------------------------------------------------------

  lemma {:induction false} KeepAllCons(decode: Decoder, g: seq<Byte>, b: string, rest: seq<string>)
    ensures KeepAll(decode, g, [b] + rest) == KeepAll(decode, Keep(decode, g, b), rest)
    decreases |rest|
  {
    var all := [b] + rest;
    if |rest| == 0 {
      assert all == [b] && all[..0] == [];
    } else {
      var k := |rest| - 1;
      KeepAllCons(decode, g, b, rest[..k]);
      assert all[..|all| - 1] == [b] + rest[..k];
    }
  }

  lemma PiecesCons(c: seq<Byte>, size: nat)
    requires 0 < size < |c|
    ensures Pieces(c, size) == [c[..size]] + Pieces(c[size..], size)
    ensures |Pieces(c, size)| == 1 + |Pieces(c[size..], size)| >= 2
  {
  }

  /** A whole body decodes to its piece where whole blocks are free, and a cut one to fewer bytes. */
  ghost predicate Brings(decode: Decoder, body: string, piece: seq<Byte>, whole: bool) {
    && |piece| > 0
    && forall cap: nat ::
         if whole then decode(body, cap) == (if cap >= (|piece| + 2) / 3 * 3 then Some(piece) else None)
         else decode(body, cap).Some? ==> |decode(body, cap).value| < |piece|
  }

  /** The same for each line of a chunk. */
  ghost predicate AllBring(decode: Decoder, bodies: seq<string>, pieces: seq<seq<Byte>>, whole: seq<bool>) {
    && |bodies| == |pieces| == |whole|
    && forall j :: 0 <= j < |bodies| ==> Brings(decode, bodies[j], pieces[j], whole[j])
  }

  predicate AllTrue(s: seq<bool>) { forall j :: 0 <= j < |s| ==> s[j] }

  lemma AllTrueCons(s: seq<bool>)
    requires |s| > 0
    ensures AllTrue(s) <==> s[0] && AllTrue(s[1..])
  {
    if s[0] && AllTrue(s[1..]) {
      forall j | 0 <= j < |s|
        ensures s[j]
      {
        assert j > 0 ==> s[j] == s[1..][j - 1];
      }
    }
  }

  /** A line keeps its piece if it is whole and finds room, and keeps fewer bytes otherwise. */
  lemma KeepOne(decode: Decoder, g: seq<Byte>, body: string, piece: seq<Byte>, whole: bool)
    requires Brings(decode, body, piece, whole)
    ensures if whole && Room(g, piece) then Accepts(decode, g, body) && Keep(decode, g, body) == g + piece
            else |Keep(decode, g, body)| < |g| + |piece|
    ensures whole && !Room(g, piece) ==> !Accepts(decode, g, body)
  {
  }

  lemma AllBringCons(decode: Decoder, bodies: seq<string>, c: seq<Byte>, size: nat, whole: seq<bool>)
    requires 0 < size < |c| && AllBring(decode, bodies, Pieces(c, size), whole)
    ensures |bodies| == |whole| > 0 && Brings(decode, bodies[0], c[..size], whole[0])
    ensures AllBring(decode, bodies[1..], Pieces(c[size..], size), whole[1..])
  {
    PiecesCons(c, size);
    var pieces, rest := Pieces(c, size), Pieces(c[size..], size);
    assert pieces[0] == c[..size] && pieces[1..] == rest;
    forall j | 0 <= j < |rest|
      ensures Brings(decode, bodies[1..][j], rest[j], whole[1..][j])
    {
      assert rest[j] == pieces[j + 1];
    }
  }

  /** Keeping never gains bytes, and loses some where a line is cut or finds no room. */
  lemma {:induction false} KeepsLess(
    decode: Decoder, g: seq<Byte>, bodies: seq<string>, c: seq<Byte>, size: nat, whole: seq<bool>)
    requires size > 0 && AllBring(decode, bodies, Pieces(c, size), whole)
    ensures |KeepAll(decode, g, bodies)| <= |g| + |c|
    ensures !AllTrue(whole) || !Fits(|g|, |c|, size) ==> |KeepAll(decode, g, bodies)| < |g| + |c|
    decreases |c|
  {
    if |c| > 0 {
      var b, rest := bodies[0], bodies[1..];
      assert bodies == [b] + rest;
      KeepAllCons(decode, g, b, rest);
      AllTrueCons(whole);
      if |c| <= size {
        KeepOne(decode, g, b, c, whole[0]);
        assert rest == [];
      } else {
        AllBringCons(decode, bodies, c, size, whole);
        KeepOne(decode, g, b, c[..size], whole[0]);
        KeepsLess(decode, Keep(decode, g, b), rest, c[size..], size, whole[1..]);
      }
    }
  }

  /** The last line is accepted and completes the chunk. */
  ghost predicate Completes(decode: Decoder, g: seq<Byte>, bodies: seq<string>, c: seq<Byte>)
    requires |bodies| > 0
  {
    var kept := KeepAll(decode, g, bodies[..|bodies| - 1]);
    Accepts(decode, kept, bodies[|bodies| - 1]) && Keep(decode, kept, bodies[|bodies| - 1]) == c
  }

  lemma CompletesCons(decode: Decoder, g: seq<Byte>, bodies: seq<string>, c: seq<Byte>)
    requires |bodies| >= 2
    ensures Completes(decode, g, bodies, c) <==> Completes(decode, Keep(decode, g, bodies[0]), bodies[1..], c)
  {
    var rest := bodies[1..];
    KeepAllCons(decode, g, bodies[0], rest[..|rest| - 1]);
    assert bodies[..|bodies| - 1] == [bodies[0]] + rest[..|rest| - 1];
  }

  /** Where every line is whole and finds room, the last one does and all bytes are kept. */
  lemma {:induction false} KeepsEverything(
    decode: Decoder, g: seq<Byte>, bodies: seq<string>, c: seq<Byte>, size: nat, whole: seq<bool>)
    requires size > 0 && |c| > 0 && Fits(|g|, |c|, size)
    requires AllBring(decode, bodies, Pieces(c, size), whole) && AllTrue(whole)
    ensures Completes(decode, g, bodies, g + c)
    decreases |c|
  {
    if |c| <= size {
      KeepOne(decode, g, bodies[0], c, true);
      assert bodies[..0] == [];
    } else {
      AllBringCons(decode, bodies, c, size, whole);
      KeepOne(decode, g, bodies[0], c[..size], true);
      KeepsEverything(decode, g + c[..size], bodies[1..], c[size..], size, whole[1..]);
      CompletesCons(decode, g, bodies, g + c[..size] + c[size..]);
      assert g + c[..size] + c[size..] == g + c;
    }
  }

  /** A run of lines submits the chunk and leaves nothing exactly when the last one completes it. */
  lemma SubmitsIff(decode: Decoder, e: Edge, i: nat, n: nat, bodies: seq<string>, c: seq<Byte>, outcome: Outcome)
    requires |bodies| > 0
    ensures var e' := Leaves(decode, e, i, n, bodies, outcome);
            e'.submitted == e.submitted + [Block(c, i, i + 1 != n)] && e'.gathered == [] <==>
            Completes(decode, e.gathered, bodies, c)
  {
    var e' := Leaves(decode, e, i, n, bodies, outcome);
    var kept := KeepAll(decode, e.gathered, bodies[..|bodies| - 1]);
    if Accepts(decode, kept, bodies[|bodies| - 1]) {
      assert e'.submitted[|e.submitted|] == Block(Keep(decode, kept, bodies[|bodies| - 1]), i, i + 1 != n);
    } else {
      assert |e'.submitted| == |e.submitted|;
    }
  }

  lemma LastCompletesIff(decode: Decoder, bodies: seq<string>, c: seq<Byte>, size: nat, whole: seq<bool>)
    requires size > 0 && |c| > 0 && AllBring(decode, bodies, Pieces(c, size), whole)
    ensures Completes(decode, [], bodies, c) <==> AllTrue(whole) && Fits(0, |c|, size)
  {
    assert [] + c == c;
    if AllTrue(whole) && Fits(0, |c|, size) {
      KeepsEverything(decode, [], bodies, c, size, whole);
    } else {
      KeepsLess(decode, [], bodies, c, size, whole);
    }
  }

  /** Which lines of a chunk arrive whole. */
  ghost function WholeLines(keep: Limit, i: nat, n: nat, pieces: seq<seq<Byte>>): (r: seq<bool>)
    ensures |r| == |pieces|
    ensures forall j :: 0 <= j < |r| ==> r[j] == (|Text(Header(i, n, j, |pieces|), pieces[j])| <= keep)
  {
    seq(|pieces|, j requires 0 <= j < |pieces| => |Text(Header(i, n, j, |pieces|), pieces[j])| <= keep)
  }

  lemma BodyBrings(keep: Limit, h: Header, piece: seq<Byte>)
    requires |piece| > 0
    ensures Brings(Decoded, Body(keep, h, piece), piece, |Text(h, piece)| <= keep)
  {
    BodyIsWholeIff(keep, h, piece);
    forall cap: nat
      ensures |Text(h, piece)| <= keep ==>
                Decoded(Body(keep, h, piece), cap) == if cap >= (|piece| + 2) / 3 * 3 then Some(piece) else None
      ensures |Text(h, piece)| > keep && Decoded(Body(keep, h, piece), cap).Some? ==>
                |Decoded(Body(keep, h, piece), cap).value| < |piece|
    {
      if |Text(h, piece)| <= keep {
        RoundTrip(piece, cap);
      } else {
        CutLineFallsShort(keep, h, piece, cap);
      }
    }
  }

  /** What arrives of a chunk's lines. */
  lemma BodiesBring(keep: Limit, i: nat, n: nat, c: seq<Byte>, size: nat)
    requires size > 0
    ensures var pieces := Pieces(c, size);
            && AllBring(Decoded, Bodies(keep, i, n, pieces), pieces, WholeLines(keep, i, n, pieces))
            && (AllTrue(WholeLines(keep, i, n, pieces)) <==> AllTextsWithin(keep, i, n, pieces))
  {
    var pieces := Pieces(c, size);
    forall j | 0 <= j < |pieces|
      ensures Brings(
                Decoded, Bodies(keep, i, n, pieces)[j], pieces[j], WholeLines(keep, i, n, pieces)[j])
    {
      PiecesAreShort(c, size, j);
      BodyBrings(keep, Header(i, n, j, |pieces|), pieces[j]);
    }
  }

  /**
   When a chunk arrives as it was sent: it leaves room for whole blocks, and the counters i and n leave
   room for its longest line.
   */
  predicate Deliverable(keep: nat, i: nat, n: nat, len: nat)
    requires len > 0
  {
    len <= 255 && LongestFits(keep, i, n, len)
  }

  lemma CompletesIff(keep: Limit, i: nat, n: nat, c: seq<Byte>)
    requires |c| > 0
    ensures PieceSize(|c|) > 0 && |Pieces(c, PieceSize(|c|))| > 0
    ensures Completes(Decoded, [], Bodies(keep, i, n, Pieces(c, PieceSize(|c|))), c) <==>
            Deliverable(keep, i, n, |c|)
  {
    FitsIff(|c|);
    var size := PieceSize(|c|);
    var pieces := Pieces(c, size);
    BodiesBring(keep, i, n, c, size);
    LastCompletesIff(Decoded, Bodies(keep, i, n, pieces), c, size, WholeLines(keep, i, n, pieces));
    if |c| <= COAP_MAX_CHUNK {
      LinesWithinIff(keep, c, i, n);
    }
  }

  /**
   From an idle edge, the lines of a chunk submit exactly that chunk and leave the buffer empty if
   and only if the chunk has at most 255 bytes and its longest line is not cut.
   */
  lemma ChunkSurvivesIff(
    conv: string -> bool, keep: Limit, e: Edge, i: nat, n: nat, c: seq<Byte>, outcome: Outcome)
    requires Idle(e) && |c| > 0
    ensures var e' := AfterChunk(conv, keep, e, i, n, c, outcome);
            e'.submitted == e.submitted + [Block(c, i, i + 1 != n)] && e'.gathered == [] <==>
            Deliverable(keep, i, n, |c|)
  {
    ChunkLeaves(conv, keep, e, i, n, c, outcome);
    CompletesIff(keep, i, n, c);
    SubmitsIff(Decoded, e, i, n, Bodies(keep, i, n, Pieces(c, PieceSize(|c|))), c, outcome);
  }

  /** The node's answer to a chunk that arrives is seen as one cancellation, or none. */
  lemma ChunkCancels(
    conv: string -> bool, keep: Limit, e: Edge, i: nat, n: nat, c: seq<Byte>, outcome: Outcome)
    requires Idle(e) && |c| > 0 && Deliverable(keep, i, n, |c|)
    ensures AfterChunk(conv, keep, e, i, n, c, outcome).cancels ==
            e.cancels + (if outcome == Answered(true) then 1 else 0)
  {
    ChunkLeaves(conv, keep, e, i, n, c, outcome);
    CompletesIff(keep, i, n, c);
    LeavesCancels(Decoded, e, i, n, Bodies(keep, i, n, Pieces(c, PieceSize(|c|))), c, outcome);
  }

  lemma LeavesCancels(
    decode: Decoder, e: Edge, i: nat, n: nat, bodies: seq<string>, c: seq<Byte>, outcome: Outcome)
    requires |bodies| > 0 && Completes(decode, e.gathered, bodies, c)
    ensures Leaves(decode, e, i, n, bodies, outcome).cancels == e.cancels + (if outcome == Answered(true) then 1 else 0)
  {
  }

  // ---------------------------------------------------------------------------
  // What a chunk of 256 bytes does.
  // ---------------------------------------------------------------------------

  lemma SizeOf(len: nat)
    ensures len == 255 ==> PieceSize(len) == 70
    ensures len == 256 ==> PieceSize(len) == 69
  {
    if len == 255 || len == 256 {
      PieceSizeIs(len);
    }
  }

  /** A chunk cut into four. */
  lemma FourPieces(c: seq<Byte>, size: nat)
    requires 0 < size && 3 * size < |c| <= 4 * size
    ensures Pieces(c, size) == [c[..size], c[size..2 * size], c[2 * size..3 * size], c[3 * size..]]
  {
    var r1, r2, r3 := c[size..], c[2 * size..], c[3 * size..];
    assert Pieces(r3, size) == [r3];
    assert r2[..size] == c[2 * size..3 * size] && r2[size..] == r3;
    assert Pieces(r2, size) == [c[2 * size..3 * size]] + Pieces(r3, size);
    assert r1[..size] == c[size..2 * size] && r1[size..] == r2;
    assert Pieces(r1, size) == [c[size..2 * size]] + Pieces(r2, size);
    assert Pieces(c, size) == [c[..size]] + Pieces(r1, size);
  }

  /** What three lines keep. */
  lemma KeepThree(decode: Decoder, g: seq<Byte>, bodies: seq<string>)
    requires |bodies| == 4
    ensures KeepAll(decode, g, bodies[..3]) ==
            Keep(decode, Keep(decode, Keep(decode, g, bodies[0]), bodies[1]), bodies[2])
  {
    assert bodies[..3][..2] == bodies[..2] && bodies[..2][..1] == bodies[..1] && bodies[..1][..0] == [];
    assert KeepAll(decode, g, bodies[..1]) == Keep(decode, g, bodies[0]);
  }

  /**
   A chunk of 256 bytes is cut into 69, 69, 69 and 49: the last line finds no room, so nothing is
   submitted and 207 bytes stay in the buffer at the next packet boundary.
   */
  lemma Chunk256IsLost(
    conv: string -> bool, keep: Limit, e: Edge, i: nat, n: nat, c: seq<Byte>, outcome: Outcome)
    requires Idle(e) && |c| == 256 && LongestFits(keep, i, n, |c|)
    ensures AfterChunk(conv, keep, e, i, n, c, outcome) == Kept(e, c[..207], 4)
  {
    ChunkLeaves(conv, keep, e, i, n, c, outcome);
    SizeOf(|c|);
    FourPieces(c, 69);
    LinesWithinIff(keep, c, i, n);
    BodiesBring(keep, i, n, c, 69);
    var pieces := Pieces(c, 69);
    LeavesOf256(Decoded, e, i, n, c, pieces, Bodies(keep, i, n, pieces), WholeLines(keep, i, n, pieces), outcome);
  }

  lemma LeavesOf256(
    decode: Decoder, e: Edge, i: nat, n: nat, c: seq<Byte>, pieces: seq<seq<Byte>>, bodies: seq<string>,
    whole: seq<bool>, outcome: Outcome)
    requires e.gathered == [] && |c| == 256
    requires pieces == [c[..69], c[69..138], c[138..207], c[207..]]
    requires AllBring(decode, bodies, pieces, whole) && AllTrue(whole)
    ensures Leaves(decode, e, i, n, bodies, outcome) == Kept(e, c[..207], 4)
  {
    KeepThree(decode, [], bodies);
    KeptOf256(decode, c, bodies[0], bodies[1], bodies[2]);
    KeepOne(decode, c[..207], bodies[3], c[207..], true);
    LastRejected(decode, e, i, n, bodies, outcome);
  }

  lemma KeptOf256(decode: Decoder, c: seq<Byte>, x: string, y: string, z: string)
    requires |c| == 256 && Brings(decode, x, c[..69], true) && Brings(decode, y, c[69..138], true)
    requires Brings(decode, z, c[138..207], true)
    ensures Keep(decode, Keep(decode, Keep(decode, [], x), y), z) == c[..207]
  {
    assert [] + c[..69] == c[..69] && c[..69] + c[69..138] == c[..138] && c[..138] + c[138..207] == c[..207];
    KeepOne(decode, [], x, c[..69], true);
    KeepOne(decode, c[..69], y, c[69..138], true);
    KeepOne(decode, c[..138], z, c[138..207], true);
  }

  lemma LastRejected(decode: Decoder, e: Edge, i: nat, n: nat, bodies: seq<string>, outcome: Outcome)
    requires |bodies| == 4 && !Accepts(decode, KeepAll(decode, e.gathered, bodies[..3]), bodies[3])
    ensures Leaves(decode, e, i, n, bodies, outcome) == Kept(e, KeepAll(decode, e.gathered, bodies[..3]), 4)
  {
  }

  lemma ShortPiece(len: nat)
    requires 0 < len <= 69
    ensures PieceSize(len) >= len
  {
    var b := Base64Length(len);
    PieceSizeIs(len);
    assert b <= 94;
    ProductAtMost(len, b);
    DivisionBounds(len * 94, b, len, 70);
  }

  lemma ProductAtMost(len: nat, b: nat)
    requires b <= 94
    ensures len * b <= len * 94
  {
  }

  /** A short chunk is one line, and is submitted behind whatever the buffer still holds. */
  lemma ShortChunk(
    conv: string -> bool, keep: Limit, e: Edge, i: nat, n: nat, d: seq<Byte>, outcome: Outcome)
    requires Ready(e) && 0 < |d| <= 69 && Room(e.gathered, d) && LongestFits(keep, i, n, |d|)
    ensures AfterChunk(conv, keep, e, i, n, d, outcome) ==
            Delivered(e, Block(e.gathered + d, i, i + 1 != n), outcome)
  {
    ChunkLeaves(conv, keep, e, i, n, d, outcome);
    ShortPiece(|d|);
    var pieces := Pieces(d, PieceSize(|d|));
    var bodies := Bodies(keep, i, n, pieces);
    assert pieces == [d] && |bodies[..0]| == 0;
    LinesWithinIff(keep, d, i, n);
    BodiesBring(keep, i, n, d, PieceSize(|d|));
    assert WholeLines(keep, i, n, pieces)[0];
    KeepOne(Decoded, e.gathered, bodies[0], d, true);
    assert Kept(e, e.gathered, 0) == e;
  }

  /** After a lost chunk, a following one of up to 48 bytes arrives with 207 stray bytes in front. */
  lemma NextIsCorrupted(
    conv: string -> bool, keep: Limit, e: Edge, i: nat, n: nat, c: seq<Byte>, d: seq<Byte>, first: Outcome,
    second: Outcome)
    requires Idle(e) && |c| == 256 && 0 < |d| <= 48
    requires LongestFits(keep, i, n, |c|) && LongestFits(keep, i + 1, n, |d|)
    ensures var e1 := AfterChunk(conv, keep, e, i, n, c, first);
            AfterChunk(conv, keep, e1, i + 1, n, d, second).submitted ==
            e.submitted + [Block(c[..207] + d, i + 1, i + 2 != n)]
  {
    Chunk256IsLost(conv, keep, e, i, n, c, first);
    ShortChunk(conv, keep, AfterChunk(conv, keep, e, i, n, c, first), i + 1, n, d, second);
  }

  // ---------------------------------------------------------------------------
  // What the hundred-and-first chunk does.
  // ---------------------------------------------------------------------------

  /** A body that lost a number of characters other than whole blocks is rejected. */
  lemma CutInsideBlock(piece: seq<Byte>, t: nat, cap: nat)
    requires t <= |Encoded(piece)| && t % 4 != 0
    ensures Decoded(Encoded(piece)[..t], cap).None?
  {
    var s := Groups(piece)[..t];
    SymbolsOfRender(s);
    assert Encoded(piece)[..t] == RenderAll(s);
  }

  /** With three digits in both counters, a piece of 70 bytes loses one character of its encoding. */
  lemma LateLine(i: nat, n: nat, j: nat, m: nat, piece: seq<Byte>, g: seq<Byte>)
    requires 100 <= i < n < 1000 && j < m < 10 && 45 <= |piece| <= 70
    ensures |piece| == 70 ==> Keep(Decoded, g, Body(MAX_SERIAL_LEN - 1, Header(i, n, j, m), piece)) == g
    ensures |piece| == 45 ==> |Text(Header(i, n, j, m), piece)| <= MAX_SERIAL_LEN - 1
  {
    LateHead(i, n, j, m);
    EncodedLength(piece);
    TextLength(Header(i, n, j, m), piece);
    if |piece| == 70 {
      assert Body(MAX_SERIAL_LEN - 1, Header(i, n, j, m), piece) == Encoded(piece)[..95];
      CutInsideBlock(piece, 95, Space(g));
    }
  }

  lemma LateHead(i: nat, n: nat, j: nat, m: nat)
    requires 100 <= i < n < 1000 && j < m < 10
    ensures HeadLength(Header(i, n, j, m)) == 12
  {
    DecimalLength(i);
    DecimalLength(n);
    DecimalLength(j);
    DecimalLength(m);
  }

  /**
   When lines of 126 characters arrive, a chunk of 255 bytes numbered 100 or more is within the host's
   limit, yet the edge submits only its last 45 bytes.
   */
  lemma LateChunkIsBroken(conv: string -> bool, e: Edge, i: nat, n: nat, c: seq<Byte>, outcome: Outcome)
    requires Idle(e) && |c| == 255 && 100 <= i < n < 1000
    ensures AfterChunk(conv, MAX_SERIAL_LEN - 1, e, i, n, c, outcome).submitted ==
            e.submitted + [Block(c[210..], i, i + 1 != n)]
  {
    ChunkLeaves(conv, MAX_SERIAL_LEN - 1, e, i, n, c, outcome);
    SizeOf(|c|);
    FourPieces(c, 70);
    LateLeaves(e, i, n, c, Bodies(MAX_SERIAL_LEN - 1, i, n, Pieces(c, 70)), outcome);
  }

  lemma LateLeaves(e: Edge, i: nat, n: nat, c: seq<Byte>, bodies: seq<string>, outcome: Outcome)
    requires e.gathered == [] && |c| == 255 && 100 <= i < n < 1000
    requires bodies == Bodies(MAX_SERIAL_LEN - 1, i, n, [c[..70], c[70..140], c[140..210], c[210..]])
    ensures Leaves(Decoded, e, i, n, bodies, outcome).submitted == e.submitted + [Block(c[210..], i, i + 1 != n)]
  {
    ThreeAreCut(i, n, c, bodies);
    LateLine(i, n, 3, 4, c[210..], []);
    BodyBrings(MAX_SERIAL_LEN - 1, Header(i, n, 3, 4), c[210..]);
    LastAlone(Decoded, e, i, n, c[210..], bodies, outcome);
  }

  /** The first three lines of such a chunk leave nothing. */
  lemma ThreeAreCut(i: nat, n: nat, c: seq<Byte>, bodies: seq<string>)
    requires |c| == 255 && 100 <= i < n < 1000 && |bodies| == 4
    requires bodies[0] == Body(MAX_SERIAL_LEN - 1, Header(i, n, 0, 4), c[..70])
    requires bodies[1] == Body(MAX_SERIAL_LEN - 1, Header(i, n, 1, 4), c[70..140])
    requires bodies[2] == Body(MAX_SERIAL_LEN - 1, Header(i, n, 2, 4), c[140..210])
    ensures KeepAll(Decoded, [], bodies[..3]) == []
  {
    KeepThree(Decoded, [], bodies);
    LateLine(i, n, 0, 4, c[..70], []);
    LateLine(i, n, 1, 4, c[70..140], []);
    LateLine(i, n, 2, 4, c[140..210], []);
  }

  lemma LastAlone(
    decode: Decoder, e: Edge, i: nat, n: nat, d: seq<Byte>, bodies: seq<string>, outcome: Outcome)
    requires e.gathered == [] && |d| <= 70 && |bodies| == 4 && Brings(decode, bodies[3], d, true)
    requires KeepAll(decode, [], bodies[..3]) == []
    ensures Leaves(decode, e, i, n, bodies, outcome).submitted == e.submitted + [Block(d, i, i + 1 != n)]
  {
    KeepOne(decode, [], bodies[3], d, true);
    assert [] + d == d;
  }

  // ---------------------------------------------------------------------------
  // A whole result.
  // ---------------------------------------------------------------------------

  ghost predicate NonEmptyChunks(chunks: seq<seq<Byte>>) {
    forall i :: 0 <= i < |chunks| ==> |chunks[i]| > 0
  }

  /** The chunks from i on, until the node cancels. */
  ghost function AfterResult(
    conv: string -> bool, keep: Limit, e: Edge, chunks: seq<seq<Byte>>, outcomes: seq<Outcome>, i: nat): Edge
    requires NonEmptyChunks(chunks) && |outcomes| == |chunks| && i <= |chunks|
    decreases |chunks| - i
  {
    if i == |chunks| then e
    else
      var e' := AfterChunk(conv, keep, e, i, |chunks|, chunks[i], outcomes[i]);
      if e'.cancels != e.cancels then e' else AfterResult(conv, keep, e', chunks, outcomes, i + 1)
  }

  /** The blocks of a whole result. */
  function Blocks(chunks: seq<seq<Byte>>): (r: seq<Message>)
    ensures |r| == |chunks|
    ensures forall i :: 0 <= i < |r| ==> r[i] == Block(chunks[i], i, i + 1 != |chunks|)
  {
    seq(|chunks|, i requires 0 <= i < |chunks| => Block(chunks[i], i, i + 1 != |chunks|))
  }

  /** How far sending goes from chunk i on: to the end, or past the first chunk that the node rejects. */
  function Reach(outcomes: seq<Outcome>, i: nat): (k: nat)
    requires i <= |outcomes|
    ensures i <= k <= |outcomes|
    decreases |outcomes| - i
  {
    if i == |outcomes| then i
    else if outcomes[i] == Answered(true) then i + 1
    else Reach(outcomes, i + 1)
  }

  /** The condition of ChunkSurvivesIff, for each of the chunks `from` to `to`. */
  ghost predicate AllDeliverable(keep: Limit, chunks: seq<seq<Byte>>, from: nat, to: nat)
    requires NonEmptyChunks(chunks)
  {
    to <= |chunks| && forall i :: from <= i < to ==> Deliverable(keep, i, |chunks|, |chunks[i]|)
  }

  /** What is submitted from `e` to `e'` are further blocks, numbered i and up. */
  ghost predicate Adds(e: Edge, e': Edge, i: nat) {
    && |e.submitted| <= |e'.submitted| && e'.submitted[..|e.submitted|] == e.submitted
    && forall k :: |e.submitted| <= k < |e'.submitted| ==> e'.submitted[k].Block? && e'.submitted[k].num >= i
  }

  lemma ChunkAdds(conv: string -> bool, keep: Limit, e: Edge, i: nat, n: nat, c: seq<Byte>, outcome: Outcome)
    requires Ready(e) && |c| > 0
    ensures Adds(e, AfterChunk(conv, keep, e, i, n, c, outcome), i)
    ensures Ready(AfterChunk(conv, keep, e, i, n, c, outcome))
  {
    ChunkLeaves(conv, keep, e, i, n, c, outcome);
    LeavesAdds(Decoded, e, i, n, Bodies(keep, i, n, Pieces(c, PieceSize(|c|))), outcome);
  }

  lemma LeavesAdds(decode: Decoder, e: Edge, i: nat, n: nat, bodies: seq<string>, outcome: Outcome)
    requires |bodies| > 0
    ensures Adds(e, Leaves(decode, e, i, n, bodies, outcome), i)
  {
  }

  lemma AddsTransitive(a: Edge, b: Edge, c: Edge, i: nat)
    requires Adds(a, b, i) && Adds(b, c, i + 1)
    ensures Adds(a, c, i)
  {
    assert c.submitted[..|a.submitted|] == c.submitted[..|b.submitted|][..|a.submitted|];
    forall k | |a.submitted| <= k < |b.submitted|
      ensures c.submitted[k] == b.submitted[k]
    {
      assert c.submitted[..|b.submitted|][k] == c.submitted[k];
    }
  }

  /** Sending from chunk i on only adds blocks numbered i and up. */
  lemma {:induction false} LaterNumbers(
    conv: string -> bool, keep: Limit, e: Edge, chunks: seq<seq<Byte>>, outcomes: seq<Outcome>, i: nat)
    requires Ready(e) && NonEmptyChunks(chunks) && |outcomes| == |chunks| && i <= |chunks|
    ensures Adds(e, AfterResult(conv, keep, e, chunks, outcomes, i), i)
    decreases |chunks| - i
  {
    if i < |chunks| {
      var e' := AfterChunk(conv, keep, e, i, |chunks|, chunks[i], outcomes[i]);
      ChunkAdds(conv, keep, e, i, |chunks|, chunks[i], outcomes[i]);
      if e'.cancels == e.cancels {
        LaterNumbers(conv, keep, e', chunks, outcomes, i + 1);
        AddsTransitive(e, e', AfterResult(conv, keep, e', chunks, outcomes, i + 1), i);
      }
    }
  }

  /** A chunk that is not deliverable is submitted wrongly, if at all. */
  lemma WrongBlock(conv: string -> bool, keep: Limit, e: Edge, i: nat, n: nat, c: seq<Byte>, outcome: Outcome)
    requires Idle(e) && |c| > 0 && !Deliverable(keep, i, n, |c|)
    ensures var e' := AfterChunk(conv, keep, e, i, n, c, outcome);
            |e'.submitted| > |e.submitted| ==> e'.submitted[|e.submitted|] != Block(c, i, i + 1 != n)
  {
    ChunkLeaves(conv, keep, e, i, n, c, outcome);
    CompletesIff(keep, i, n, c);
    LeavesWrong(Decoded, e, i, n, Bodies(keep, i, n, Pieces(c, PieceSize(|c|))), c, outcome);
  }

  lemma LeavesWrong(
    decode: Decoder, e: Edge, i: nat, n: nat, bodies: seq<string>, c: seq<Byte>, outcome: Outcome)
    requires |bodies| > 0 && !Completes(decode, e.gathered, bodies, c)
    ensures var e' := Leaves(decode, e, i, n, bodies, outcome);
            |e'.submitted| > |e.submitted| ==> e'.submitted[|e.submitted|] != Block(c, i, i + 1 != n)
  {
  }

  /** A chunk that is submitted wrongly, or not at all, is missing from the result for good. */
  lemma LostForGood(
    conv: string -> bool, keep: Limit, e: Edge, chunks: seq<seq<Byte>>, outcomes: seq<Outcome>, i: nat,
    expected: seq<Message>)
    requires Idle(e) && NonEmptyChunks(chunks) && |outcomes| == |chunks| && i < |chunks|
    requires !Deliverable(keep, i, |chunks|, |chunks[i]|)
    requires |expected| > 0 && expected[0] == Block(chunks[i], i, i + 1 != |chunks|)
    ensures AfterResult(conv, keep, e, chunks, outcomes, i).submitted != e.submitted + expected
  {
    var n := |chunks|;
    var e1 := AfterChunk(conv, keep, e, i, n, chunks[i], outcomes[i]);
    ChunkAdds(conv, keep, e, i, n, chunks[i], outcomes[i]);
    WrongBlock(conv, keep, e, i, n, chunks[i], outcomes[i]);
    if e1.cancels == e.cancels {
      LaterNumbers(conv, keep, e1, chunks, outcomes, i + 1);
      FirstWrong(e, e1, AfterResult(conv, keep, e1, chunks, outcomes, i + 1), i, expected);
    } else {
      FirstWrong(e, e1, e1, i, expected);
    }
  }

  lemma FirstWrong(e: Edge, e1: Edge, e2: Edge, i: nat, expected: seq<Message>)
    requires Adds(e, e1, i) && Adds(e1, e2, i + 1) && |expected| > 0 && expected[0].Block? && expected[0].num == i
    requires |e1.submitted| > |e.submitted| ==> e1.submitted[|e.submitted|] != expected[0]
    ensures e2.submitted != e.submitted + expected
  {
    var k := |e.submitted|;
    assert (e.submitted + expected)[k] == expected[0];
    if k < |e1.submitted| {
      assert e2.submitted[..|e1.submitted|][k] == e2.submitted[k];
    }
  }

  /** The blocks i to k have been submitted, and nothing is left over. */
  ghost predicate Complete(e: Edge, e': Edge, chunks: seq<seq<Byte>>, i: nat, k: nat)
    requires i <= k <= |chunks|
  {
    e'.submitted == e.submitted + Blocks(chunks)[i..k] && e'.gathered == []
  }

  /**
   From an idle edge, a result is delivered in full, as blocks i, i + 1, ... up to the first rejection
   and with nothing left over, if and only if each of the chunks sent has at most 255 bytes and lines
   that are not cut.
   */
  lemma {:induction false} ResultSurvivesIff(
    conv: string -> bool, keep: Limit, e: Edge, chunks: seq<seq<Byte>>, outcomes: seq<Outcome>, i: nat)
    requires Idle(e) && NonEmptyChunks(chunks) && |outcomes| == |chunks| && i <= |chunks|
    ensures Complete(e, AfterResult(conv, keep, e, chunks, outcomes, i), chunks, i, Reach(outcomes, i)) <==>
            AllDeliverable(keep, chunks, i, Reach(outcomes, i))
    decreases |chunks| - i
  {
    if i == |chunks| {
      assert e.submitted + Blocks(chunks)[i..i] == e.submitted;
    } else if !Deliverable(keep, i, |chunks|, |chunks[i]|) {
      NotDelivered(conv, keep, e, chunks, outcomes, i);
    } else if outcomes[i] == Answered(true) {
      DeliveredLast(conv, keep, e, chunks, outcomes, i);
    } else {
      var e1 := DeliveredOnward(conv, keep, e, chunks, outcomes, i);
      ResultSurvivesIff(conv, keep, e1, chunks, outcomes, i + 1);
    }
  }

  lemma DeliveredLast(
    conv: string -> bool, keep: Limit, e: Edge, chunks: seq<seq<Byte>>, outcomes: seq<Outcome>, i: nat)
    requires Idle(e) && NonEmptyChunks(chunks) && |outcomes| == |chunks| && i < |chunks|
    requires Deliverable(keep, i, |chunks|, |chunks[i]|) && outcomes[i] == Answered(true)
    ensures Complete(e, AfterResult(conv, keep, e, chunks, outcomes, i), chunks, i, Reach(outcomes, i))
    ensures AllDeliverable(keep, chunks, i, Reach(outcomes, i))
  {
    var e1 := ChunkArrives(conv, keep, e, i, |chunks|, chunks[i], outcomes[i]);
    OneComplete(e, e1, chunks, i);
    OneDeliverable(keep, chunks, i);
  }

  lemma OneComplete(e: Edge, e1: Edge, chunks: seq<seq<Byte>>, i: nat)
    requires i < |chunks| && e1.submitted == e.submitted + [Blocks(chunks)[i]] && e1.gathered == []
    ensures Complete(e, e1, chunks, i, i + 1)
  {
    assert Blocks(chunks)[i..i + 1] == [Blocks(chunks)[i]];
  }

  lemma OneDeliverable(keep: Limit, chunks: seq<seq<Byte>>, i: nat)
    requires NonEmptyChunks(chunks) && i < |chunks| && Deliverable(keep, i, |chunks|, |chunks[i]|)
    ensures AllDeliverable(keep, chunks, i, i + 1)
  {
  }

  lemma DeliveredOnward(
    conv: string -> bool, keep: Limit, e: Edge, chunks: seq<seq<Byte>>, outcomes: seq<Outcome>, i: nat)
    returns (e1: Edge)
    requires Idle(e) && NonEmptyChunks(chunks) && |outcomes| == |chunks| && i < |chunks|
    requires Deliverable(keep, i, |chunks|, |chunks[i]|) && outcomes[i] != Answered(true)
    ensures Idle(e1) && Reach(outcomes, i) == Reach(outcomes, i + 1)
    ensures AfterResult(conv, keep, e, chunks, outcomes, i) == AfterResult(conv, keep, e1, chunks, outcomes, i + 1)
    ensures var e2, k := AfterResult(conv, keep, e1, chunks, outcomes, i + 1), Reach(outcomes, i + 1);
            && (Complete(e, e2, chunks, i, k) <==> Complete(e1, e2, chunks, i + 1, k))
            && (AllDeliverable(keep, chunks, i, k) <==> AllDeliverable(keep, chunks, i + 1, k))
  {
    e1 := ChunkArrives(conv, keep, e, i, |chunks|, chunks[i], outcomes[i]);
    CompleteStep(
      keep, e, e1, AfterResult(conv, keep, e1, chunks, outcomes, i + 1), chunks, i, Reach(outcomes, i + 1));
  }

  lemma NotDelivered(
    conv: string -> bool, keep: Limit, e: Edge, chunks: seq<seq<Byte>>, outcomes: seq<Outcome>, i: nat)
    requires Idle(e) && NonEmptyChunks(chunks) && |outcomes| == |chunks| && i < |chunks|
    requires !Deliverable(keep, i, |chunks|, |chunks[i]|)
    ensures !Complete(e, AfterResult(conv, keep, e, chunks, outcomes, i), chunks, i, Reach(outcomes, i))
    ensures !AllDeliverable(keep, chunks, i, Reach(outcomes, i))
  {
    var k := Reach(outcomes, i);
    assert i < k;
    assert Blocks(chunks)[i..k][0] == Blocks(chunks)[i];
    LostForGood(conv, keep, e, chunks, outcomes, i, Blocks(chunks)[i..k]);
  }

  lemma CompleteStep(keep: Limit, e: Edge, e1: Edge, e2: Edge, chunks: seq<seq<Byte>>, i: nat, k: nat)
    requires NonEmptyChunks(chunks) && i < k <= |chunks| && Deliverable(keep, i, |chunks|, |chunks[i]|)
    requires e1.submitted == e.submitted + [Blocks(chunks)[i]]
    ensures Complete(e, e2, chunks, i, k) <==> Complete(e1, e2, chunks, i + 1, k)
    ensures AllDeliverable(keep, chunks, i, k) <==> AllDeliverable(keep, chunks, i + 1, k)
  {
    OneBlockFurther(e.submitted, Blocks(chunks), i, k, e2.submitted);
  }

  lemma ChunkArrives(
    conv: string -> bool, keep: Limit, e: Edge, i: nat, n: nat, c: seq<Byte>, outcome: Outcome) returns (e': Edge)
    requires Idle(e) && |c| > 0 && Deliverable(keep, i, n, |c|)
    ensures e' == AfterChunk(conv, keep, e, i, n, c, outcome) && Idle(e')
    ensures e'.submitted == e.submitted + [Block(c, i, i + 1 != n)]
    ensures e'.cancels != e.cancels <==> outcome == Answered(true)
  {
    e' := AfterChunk(conv, keep, e, i, n, c, outcome);
    ChunkSurvivesIff(conv, keep, e, i, n, c, outcome);
    ChunkCancels(conv, keep, e, i, n, c, outcome);
    ChunkLeaves(conv, keep, e, i, n, c, outcome);
  }

  lemma OneBlockFurther(before: seq<Message>, blocks: seq<Message>, i: nat, k: nat, after: seq<Message>)
    requires i < k <= |blocks|
    ensures after == before + blocks[i..k] <==> after == before + [blocks[i]] + blocks[i + 1..k]
  {
    assert blocks[i..k] == [blocks[i]] + blocks[i + 1..k];
    Associate(before, [blocks[i]], blocks[i + 1..k]);
  }

  /**
   For results of up to 100 chunks, over a serial line that takes what the host assumes, only the
   length of the chunks matters.
   */
  lemma SmallResultSurvivesIff(
    conv: string -> bool, keep: Limit, e: Edge, chunks: seq<seq<Byte>>, outcomes: seq<Outcome>)
    requires Idle(e) && NonEmptyChunks(chunks) && |outcomes| == |chunks| <= 100 && keep >= MAX_SERIAL_LEN - 1
    ensures Complete(e, AfterResult(conv, keep, e, chunks, outcomes, 0), chunks, 0, Reach(outcomes, 0)) <==>
            forall i :: 0 <= i < Reach(outcomes, 0) ==> |chunks[i]| <= 255
  {
    ResultSurvivesIff(conv, keep, e, chunks, outcomes, 0);
    forall i | 0 <= i < |chunks|
      ensures Deliverable(keep, i, |chunks|, |chunks[i]|) <==> |chunks[i]| <= 255
    {
      UpToHundred(keep, i, |chunks|, |chunks[i]|);
    }
  }
}
