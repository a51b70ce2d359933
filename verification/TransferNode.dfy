/** The reassembler and the sender of Transfer as the imperative code they are. */
module TransferNode {
  import opened Common
  import opened Base64
  import opened Transfer
  import opened Delivery
  import Cbor

  ghost predicate AllBytes(s: string) { forall k :: 0 <= k < |s| ==> s[k] as int < 256 }

  /** The static state of routing-task-response.c, with what it has submitted and printed. */
  class Reassembler {
    const conv: string -> bool
    const msgBuf: array<Byte>
    var offset: nat
    var locked: bool
    var flights: nat
    var submitted: seq<Message>
    var inputs: nat
    var acks: nat
    var cancels: nat

    ghost predicate Valid()
      reads this
    {
      msgBuf.Length == COAP_MAX_CHUNK && offset <= COAP_MAX_CHUNK
    }

    ghost function State(): Edge
      requires Valid()
      reads this, msgBuf
    {
      Edge(msgBuf[..offset], locked, flights, submitted, inputs, acks, cancels)
    }

    constructor (conv: string -> bool)
      ensures Valid() && fresh(msgBuf) && State() == INITIAL && this.conv == conv
    {
      this.conv := conv;
      msgBuf := new Byte[COAP_MAX_CHUNK];
      offset, locked, flights, submitted := 0, false, 0, [];
      inputs, acks, cancels := 0, 0, 0;
    }

    /** The part shared by both senders: hand a message to CoAP and take the lock if it is accepted. */
    method Send(msg: Message, accepted: bool) returns (r: bool)
      requires Valid() && !locked
      modifies `locked, `flights, `submitted
      ensures Valid() && (State(), r) == Submit(old(State()), msg, accepted)
    {
      submitted := submitted + [msg];
      if accepted {
        locked, flights := true, flights + 1;
      }
      r := accepted;
    }

    /** process_task_resp_send_success. */
    method SendSuccess(i: nat, n: nat, len: nat, accepted: bool) returns (r: bool)
      requires Valid() && len == offset
      modifies `locked, `flights, `submitted
      ensures Valid() && (State(), r) == Submit(old(State()), Block(old(State()).gathered, i, i + 1 != n), accepted)
    {
      if locked {
        return false;
      }
      r := Send(Block(msgBuf[..len], i, i + 1 != n), accepted);
    }

    /** process_task_resp2. */
    method ProcessResp2(data: string, accepted: bool) returns (r: bool)
      requires Valid() && AllBytes(data)
      modifies this, msgBuf
      ensures Valid() && (State(), r) == Resp2(old(State()), data, accepted)
    {
      var parsed := Parse(data);
      if parsed.None? {
        return false;
      }
      var (h, body) := parsed.value;
      ParsedIsPart(data);
      var ok := Append(body);
      if !ok {
        return false;
      }
      r := Collect(h, accepted);
    }

    /** The piece is decoded behind what the buffer holds, if it fits. */
    method Append(body: string) returns (ok: bool)
      requires Valid() && AllBytes(body)
      modifies `offset, msgBuf
      ensures Valid() && (ok <==> Decoded(body, COAP_MAX_CHUNK - |old(State()).gathered|).Some?)
      ensures ok ==> State() == old(State()).(
                                gathered := old(State()).gathered
                                          + Decoded(body, COAP_MAX_CHUNK - |old(State()).gathered|).value)
      ensures !ok ==> State() == old(State())
    {
      ghost var before := msgBuf[..offset];
      var len;
      ok, len := Decode(body, msgBuf, offset, COAP_MAX_CHUNK - offset);
      assert msgBuf[..offset] == before;
      if ok {
        assert msgBuf[..offset + len] == before + msgBuf[offset..offset + len];
        offset := offset + len;
      }
    }

    /** The end of process_task_resp2, with the piece in the buffer. */
    method Collect(h: Header, accepted: bool) returns (r: bool)
      requires Valid()
      modifies this
      ensures Valid() && (State(), r) == Gather(old(State()), h, accepted)
    {
      if h.j + 1 == h.m {
        r := SendSuccess(h.i, h.n, offset, accepted);
        offset := 0;
        assert msgBuf[..0] == [];
      } else {
        acks := acks + 1;
        r := true;
      }
    }

    /** process_task_resp_send_status, with the status encoded at the start of the message buffer. */
    method SendStatus(status: nat, accepted: bool) returns (r: bool)
      requires Valid() && status <= ULONG_MAX
      modifies `locked, `flights, `submitted, msgBuf
      ensures Valid() && (old(locked) ==> !r && State() == old(State()))
      ensures !old(locked) ==>
                (State(), r) == Submit(
                  old(State()).(gathered := Overwrite(old(State()).gathered, Cbor.Head(0, status))), Status(status), accepted)
    {
      if locked {
        return false;
      }
      var enc := Cbor.Head(0, status);
      for k := 0 to |enc|
        invariant Valid() && offset == old(offset)
        invariant msgBuf[..k] == enc[..k]
        invariant forall x :: k <= x < msgBuf.Length ==> msgBuf[x] == old(msgBuf[x])
        invariant State() == old(State()).(gathered := msgBuf[..offset])
      {
        msgBuf[k] := enc[k];
      }
      Overwritten(old(msgBuf[..]), msgBuf[..], enc, offset);
      r := Send(Status(status), accepted);
    }

    /** process_task_resp1. */
    method ProcessResp1(data: string, accepted: bool) returns (r: bool)
      requires Valid()
      modifies `locked, `flights, `submitted, msgBuf
      ensures Valid() && (State(), r) == Resp1(conv, old(State()), data, accepted)
    {
      var bar := FindBar(data);
      if bar.None? || !conv(data[..bar.value]) {
        return false;
      }
      var field := Field(data[bar.value + 1..], '|');
      if field.None? {
        return false;
      }
      var value := Strtoul(field.value.1, 0).0;
      r := SendStatus(Saturated(value), accepted);
    }

    /** routing_taskresp_process_serial_input, from the choice of action on. */
    method Act(data: string, accepted: bool)
      requires Valid() && AllBytes(data)
      modifies this, msgBuf
      ensures Valid() && State() == Dispatch(conv, old(State()), data, accepted)
    {
      var handled := false;
      if HasPrefix(data, "stats|") {
      } else if HasPrefix(data, "resp1|") {
        handled := ProcessResp1(data[6..], accepted);
      } else if HasPrefix(data, "resp2|") {
        handled := ProcessResp2(data[6..], accepted);
      }
      if !handled {
        acks := acks + 1;
      }
    }

    /** routing_taskresp_process_serial_input. */
    method ProcessSerialInput(data: string, accepted: bool)
      requires Valid() && AllBytes(data)
      modifies this, msgBuf
      ensures Valid() && State() == Input(conv, old(State()), data, accepted)
    {
      if !HasPrefix(data, "|") {
        return;
      }
      inputs := inputs + 1;
      ghost var e := State();
      assert e == Received(old(State()));
      Act(data[1..], accepted);
      assert State() == Dispatch(conv, e, data[1..], accepted);
    }

    /** send_callback: a response, then the end of the exchange. */
    method OnResponse(badRequest: bool)
      requires Valid()
      modifies `cancels
      ensures Valid() && State() == Respond(old(State()), badRequest)
    {
      if badRequest {
        cancels := cancels + 1;
      }
    }

    method OnFinished()
      requires Valid() && flights > 0
      modifies `locked, `flights, `acks
      ensures Valid() && State() == Finish(old(State()))
    {
      locked, flights, acks := false, flights - 1, acks + 1;
    }
  }

  lemma Overwritten(before: seq<Byte>, after: seq<Byte>, enc: seq<Byte>, offset: nat)
    requires |enc| <= |before| == |after| && offset <= |before|
    requires after[..|enc|] == enc
    requires forall x :: |enc| <= x < |after| ==> after[x] == before[x]
    ensures after[..offset] == Overwrite(before[..offset], enc)
  {
    if offset <= |enc| {
      assert after[..offset] == after[..|enc|][..offset];
    } else {
      assert after[..offset] == after[..|enc|] + after[|enc|..offset];
      assert after[|enc|..offset] == before[..offset][|enc|..];
    }
  }

  lemma {:induction false} StrtoulIsSuffix(s: string, acc: nat)
    requires AllBytes(s)
    ensures AllBytes(Strtoul(s, acc).1)
    decreases |s|
  {
    if |s| > 0 && IsDigit(s[0]) {
      StrtoulIsSuffix(s[1..], acc * 10 + (s[0] as int - '0' as int));
    }
  }

  lemma FieldIsSuffix(s: string, sep: char)
    requires AllBytes(s)
    ensures Field(s, sep).Some? ==> AllBytes(Field(s, sep).value.1)
  {
    StrtoulIsSuffix(s, 0);
  }

  lemma ParsedIsPart(s: string)
    requires AllBytes(s)
    ensures Parse(s).Some? ==> AllBytes(Parse(s).value.1)
  {
    FieldIsSuffix(s, '/');
    var f1 := Field(s, '/');
    if f1.Some? {
      FieldIsSuffix(f1.value.1, '|');
      var f2 := Field(f1.value.1, '|');
      if f2.Some? {
        FieldIsSuffix(f2.value.1, '/');
        var f3 := Field(f2.value.1, '/');
        if f3.Some? {
          FieldIsSuffix(f3.value.1, '|');
        }
      }
    }
  }

  // ---------------------------------------------------------------------------
  // The sender, running against the edge.
  // ---------------------------------------------------------------------------

  /** The callbacks of the exchange in flight, if there is one, up to the acknowledgement the sender waits for. */
  method Settle(edge: Reassembler, outcome: Outcome)
    requires edge.Valid()
    modifies edge`locked, edge`flights, edge`acks, edge`cancels
    ensures edge.Valid() && edge.State() == Settled(old(edge.State()), outcome)
  {
    if edge.flights > 0 {
      if outcome.Answered? {
        edge.OnResponse(outcome.badRequest);
      }
      if !outcome.Refused? {
        edge.OnFinished();
      }
    }
  }

  lemma {:induction false} DecimalIsText(n: nat)
    ensures AllBytes(Decimal(n))
  {
    if n >= 10 {
      DecimalIsText(n / 10);
    }
  }

  lemma SeenIsText(keep: Limit, h: Header, piece: seq<Byte>)
    ensures AllBytes(Seen(keep, h, piece))
  {
    DecimalIsText(h.i);
    DecimalIsText(h.n);
    DecimalIsText(h.j);
    DecimalIsText(h.m);
    assert AllBytes(Encoded(piece));
    assert AllBytes(Data(h, piece));
  }

  /** One line of a chunk, written over a line that delivers `keep` characters, and acknowledged. */
  method SendPiece(edge: Reassembler, keep: Limit, h: Header, piece: seq<Byte>, outcome: Outcome)
    requires edge.Valid()
    modifies edge, edge.msgBuf
    ensures edge.Valid() && edge.State() == AfterLine(edge.conv, keep, old(edge.State()), h, piece, outcome)
  {
    SeenIsText(keep, h, piece);
    edge.ProcessSerialInput(Seen(keep, h, piece), !outcome.Refused?);
    Settle(edge, outcome);
  }

  /**
   _write_task_result_chunk, for a chunk of any length: the lines are sent one by one, and sending
   stops when the node cancels.
   */
  method SendChunk(edge: Reassembler, keep: Limit, i: nat, n: nat, c: seq<Byte>, outcome: Outcome)
    returns (notCancelled: bool)
    requires edge.Valid() && Ready(edge.State()) && |c| > 0
    modifies edge, edge.msgBuf
    ensures edge.Valid() && edge.State() == AfterChunk(edge.conv, keep, old(edge.State()), i, n, c, outcome)
    ensures Ready(edge.State()) && (notCancelled <==> edge.cancels == old(edge.cancels))
  {
    PieceSizeBounds(|c|);
    var size := PieceSize(|c|);
    var pieces := Pieces(c, size);
    var seen := edge.cancels;
    ghost var start := edge.State();
    ChunkLeaves(edge.conv, keep, start, i, n, c, outcome);
    var j := 0;
    while j < |pieces|
      invariant edge.Valid() && j <= |pieces| && Ready(edge.State()) && edge.cancels == seen
      invariant AfterPieces(edge.conv, keep, edge.State(), i, n, pieces, j, outcome) ==
                AfterPieces(edge.conv, keep, start, i, n, pieces, 0, outcome)
      decreases |pieces| - j
    {
      SendNext(edge, keep, i, n, pieces, j, outcome);
      j := j + 1;
      if edge.cancels != seen {
        return false;
      }
    }
    return true;
  }

  /** The body of the loop over a chunk's pieces: only the last line can bring a cancellation. */
  method SendNext(edge: Reassembler, keep: Limit, i: nat, n: nat, pieces: seq<seq<Byte>>, j: nat, outcome: Outcome)
    requires edge.Valid() && Ready(edge.State()) && j < |pieces|
    modifies edge, edge.msgBuf
    ensures edge.Valid() && Ready(edge.State())
    ensures AfterPieces(edge.conv, keep, edge.State(), i, n, pieces, j + 1, outcome) ==
            AfterPieces(edge.conv, keep, old(edge.State()), i, n, pieces, j, outcome)
    ensures edge.cancels != old(edge.cancels) ==> j + 1 == |pieces|
  {
    AfterLineIs(edge.conv, keep, edge.State(), Header(i, n, j, |pieces|), pieces[j], outcome);
    SendPiece(edge, keep, Header(i, n, j, |pieces|), pieces[j], outcome);
  }

  /**
   The sending loop of _send_result, for chunks of any length and number. From an idle edge, CoAP message i carries
   chunk i as block i, announces more exactly when i + 1 < n, and nothing is left over, if and only if
   every chunk that is sent has at most 255 bytes and lines that are not cut.
   */
  method SendResult(edge: Reassembler, keep: Limit, chunks: seq<seq<Byte>>, outcomes: seq<Outcome>)
    returns (notCancelled: bool)
    requires edge.Valid() && Idle(edge.State())
    requires |outcomes| == |chunks| && NonEmptyChunks(chunks)
    modifies edge, edge.msgBuf
    ensures edge.Valid() && edge.State() == AfterResult(edge.conv, keep, old(edge.State()), chunks, outcomes, 0)
    ensures Complete(old(edge.State()), edge.State(), chunks, 0, Reach(outcomes, 0)) <==>
            AllDeliverable(keep, chunks, 0, Reach(outcomes, 0))
    ensures notCancelled <==> edge.cancels == old(edge.cancels)
  {
    ghost var start := edge.State();
    ResultSurvivesIff(edge.conv, keep, start, chunks, outcomes, 0);
    notCancelled := true;
    for i := 0 to |chunks|
      invariant edge.Valid() && Ready(edge.State()) && edge.cancels == start.cancels
      invariant AfterResult(edge.conv, keep, edge.State(), chunks, outcomes, i) ==
                AfterResult(edge.conv, keep, start, chunks, outcomes, 0)
    {
      var more := SendChunk(edge, keep, i, |chunks|, chunks[i], outcomes[i]);
      if !more {
        return false;
      }
    }
  }
}
