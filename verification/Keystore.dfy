/**
 The keystore, trust-receive and verifier protocol (wsn/common/crypto/keystore.c,
 wsn/common/crypto/crypto-support.c, wsn/node/trust/trust.c) as a state machine.

 Each step is what one process does between two yields. Blocks of the memory pools are numbers; a block
 that is read after it was freed, or a failed assert, is a Fault.
 */
module Keystore {
  import opened Common
  import opened Cbor
  import opened Certificate

  /** Public keys pool block. */
  datatype KeyItem = KeyItem(cert: Cert, pins: nat)

  /** Trust receive pool block. */
  datatype RxItem = RxItem(key: nat, payload: seq<Byte>)

  /** The `data` pointer of a verification request: whose item it is for. */
  datatype Owner = ForKey(slot: nat) | ForTrust(rx: nat)

  /** A request in the verifier's pool. The message and public key are pointers, derived from the owner. */
  datatype Entry = Entry(owner: Owner, messageLen: nat, result: bool)

  /** Received trust that was merged into the database: who it is from, and the message with its signature. */
  datatype Merge = Merge(subject: seq<Byte>, message: seq<Byte>)

  datatype State = State(
    items: map<nat, KeyItem>,
    verified: seq<nat>,
    queued: seq<nat>,
    addBuffer: seq<Byte>,
    addInUse: bool,
    ecdh: Option<nat>,
    rx: map<nat, RxItem>,
    entries: map<nat, Entry>,
    queue: seq<nat>,
    current: Option<nat>,
    posted: seq<nat>,
    merged: seq<Merge>)

  /**
   Compile-time sizes, the root certificate, the certificate encoder, the signature check, and two
   library conventions.
   */
  datatype Env = Env(
    keyCap: nat,
    rxCap: nat,
    entryCap: nat,
    root: Cert,
    tbs: Cert -> seq<Byte>,
    verify: (seq<Byte>, seq<Byte>) -> bool,
    freeReturnsTrue: bool,
    nextSurvivesRemoval: bool)
  {
    ghost predicate Valid() {
      root.Valid() && forall c: Cert :: c.Typed() ==> tbs(c) == EncodeTbs(c)
    }

    /** What the root must have signed for a certificate: its own encoding, then its signature. */
    function Signed(c: Cert): seq<Byte> {
      tbs(c) + c.signature
    }
  }

  datatype Outcome = Next(state: State) | Fault

  // ---------------------------------------------------------------------------
  // Pools and lists.
  // ---------------------------------------------------------------------------

  function Without(s: seq<nat>, x: nat): (r: seq<nat>) {
    if |s| == 0 then [] else if s[0] == x then s[1..] else [s[0]] + Without(s[1..], x)
  }

  ghost predicate NoDup(s: seq<nat>) {
    forall i, j :: 0 <= i < j < |s| ==> s[i] != s[j]
  }

  lemma {:induction false} WithoutProperties(s: seq<nat>, x: nat)
    requires NoDup(s)
    ensures NoDup(Without(s, x))
    ensures forall y :: y in Without(s, x) <==> y in s && y != x
  {
    if |s| > 0 {
      WithoutProperties(s[1..], x);
      assert forall y :: y in s <==> y == s[0] || y in s[1..];
      assert s[0] !in s[1..];
      var w := Without(s[1..], x);
      assert s[0] !in w;
      assert NoDup([s[0]] + w);
    }
  }

  // ---------------------------------------------------------------------------
  // The keystore proper.
  // ---------------------------------------------------------------------------

  /** keystore_find_in_list: it scans the verified list, whichever list it is asked about. */
  function Find(items: map<nat, KeyItem>, verified: seq<nat>, subject: seq<Byte>): (r: Option<nat>)
    ensures r.Some? ==> r.value in verified && r.value in items && items[r.value].cert.subject == subject
    ensures r.None? ==> forall k :: k in verified && k in items ==> items[k].cert.subject != subject
  {
    if |verified| == 0 then None
    else if verified[0] in items && items[verified[0]].cert.subject == subject then Some(verified[0])
    else Find(items, verified[1..], subject)
  }

  predicate Evictable(env: Env, items: map<nat, KeyItem>, k: nat) {
    k in items && items[k].pins == 0 && items[k].cert.subject != env.root.subject
  }

  datatype Freed = Freed(items: map<nat, KeyItem>, verified: seq<nat>, ok: bool)

  /**
   keystore_free_up_space from list position `i` on. Removing an item frees it; whether that reports
   success, and whether the removed item still leads to its successor, are library conventions.
   */
  function FreeUp(env: Env, items: map<nat, KeyItem>, verified: seq<nat>, i: nat): (r: Freed)
    requires i <= |verified|
    decreases |verified| - i
  {
    if i == |verified| then Freed(items, verified, false)
    else if !Evictable(env, items, verified[i]) then FreeUp(env, items, verified, i + 1)
    else
      var items', verified' := items - {verified[i]}, verified[..i] + verified[i + 1..];
      if env.freeReturnsTrue then Freed(items', verified', true)
      else if env.nextSurvivesRemoval then FreeUp(env, items', verified', i)
      else Freed(items', verified', false)
  }

  /** keystore_add. */
  function Add(env: Env, s: State, cert: Cert): State {
    if Find(s.items, s.verified, cert.subject).Some? then s
    else
      match FirstFree(s.items.Keys, 0, env.keyCap)
      case Some(k) => Enqueued(s, k, cert)
      case None =>
        var f := FreeUp(env, s.items, s.verified, 0);
        var s' := s.(items := f.items, verified := f.verified);
        if !f.ok then s'
        else
          match FirstFree(f.items.Keys, 0, env.keyCap)
          case None => s'
          case Some(k) => Enqueued(s', k, cert)
  }

  function Enqueued(s: State, k: nat, cert: Cert): State {
    s.(items := s.items[k := KeyItem(cert, 0)], queued := s.queued + [k])
  }

  function Pin(s: State, k: nat): State
    requires k in s.items
  {
    s.(items := s.items[k := s.items[k].(pins := s.items[k].pins + 1)])
  }

  /** keystore_unpin, with its assert. */
  function Unpin(s: State, k: nat): Outcome {
    if k !in s.items || s.items[k].pins == 0 then Fault
    else Next(s.(items := s.items[k := s.items[k].(pins := s.items[k].pins - 1)]))
  }

  /** keystore_add_start, on a poll; while the key exchange runs the poll is swallowed by its thread. */
  function AddStart(env: Env, s: State): Outcome {
    if s.ecdh.Some? || s.addInUse || |s.queued| == 0 then Next(s)
    else
      var k := s.queued[0];
      if k !in s.items then Fault
      else
        var cert := s.items[k].cert;
        if |env.tbs(cert)| > TBS_CBOR_LENGTH then
          Next(Dropped(s.(addBuffer := env.tbs(cert)[..TBS_CBOR_LENGTH]), k))
        else
          var s' := s.(addBuffer := env.Signed(cert));
          match FirstFree(s.entries.Keys, 0, env.entryCap)
          case None => Next(Dropped(s', k))
          case Some(e) =>
            Next(s'.(entries := s.entries[e := Entry(ForKey(k), |env.Signed(cert)|, false)],
                     queue := s.queue + [e], addInUse := true))
  }

  function Dropped(s: State, k: nat): State {
    s.(queued := Without(s.queued, k), items := s.items - {k})
  }

  // ---------------------------------------------------------------------------
  // Trust messages from neighbours.
  // ---------------------------------------------------------------------------

  const MAX_RX_PAYLOAD := 256

  /** res_trust_post_handler. The identity is the one derived from the sender's address. */
  function TrustPost(env: Env, s: State, subject: seq<Byte>, payload: seq<Byte>): Outcome {
    if |payload| == 0 || |payload| > MAX_RX_PAYLOAD then Next(s)
    else
      match Find(s.items, s.verified, subject)
      case None => Next(s)
      case Some(k) =>
        match FirstFree(s.rx.Keys, 0, env.rxCap)
        case None => Next(s)
        case Some(r) =>
          var s' := Pin(s.(rx := s.rx[r := RxItem(k, payload)]), k);
          match FirstFree(s.entries.Keys, 0, env.entryCap)
          case None => Unpin(s'.(rx := s'.rx - {r}), k)
          case Some(e) =>
            Next(s'.(entries := s'.entries[e := Entry(ForTrust(r), |payload|, false)], queue := s'.queue + [e]))
  }

  // ---------------------------------------------------------------------------
  // The verifier process.
  // ---------------------------------------------------------------------------

  function Take(s: State): State {
    if s.current.Some? || |s.queue| == 0 then s
    else s.(current := Some(s.queue[0]), queue := s.queue[1..])
  }

  /** The bytes an entry's message pointer leads to now, or None if that memory was freed. */
  function MessageBytes(addBuffer: seq<Byte>, rx: map<nat, RxItem>, e: Entry): Option<seq<Byte>> {
    match e.owner
    case ForKey(_) => if e.messageLen <= |addBuffer| then Some(addBuffer[..e.messageLen]) else None
    case ForTrust(r) =>
      if r in rx && e.messageLen <= |rx[r].payload| then Some(rx[r].payload[..e.messageLen]) else None
  }

  /** The key an entry's public key pointer leads to now, or None if that memory was freed. */
  function KeyBytes(env: Env, items: map<nat, KeyItem>, rx: map<nat, RxItem>, e: Entry): Option<seq<Byte>> {
    match e.owner
    case ForKey(_) => Some(env.root.publicKey)
    case ForTrust(r) =>
      if r in rx && rx[r].key in items then Some(items[rx[r].key].cert.publicKey) else None
  }

  /**
   The verification ends. `hardware` is false when the crypto processor reports an error, `posted` is
   false when the event queue is full and the completion event is dropped.
   */
  function Finish(env: Env, s: State, hardware: bool, posted: bool): Outcome {
    match s.current
    case None => Next(s)
    case Some(e) =>
      if e !in s.entries then Fault
      else
        match (KeyBytes(env, s.items, s.rx, s.entries[e]), MessageBytes(s.addBuffer, s.rx, s.entries[e]))
        case (Some(key), Some(message)) =>
          var result := hardware && env.verify(key, message);
          Next(s.(entries := s.entries[e := s.entries[e].(result := result)], current := None,
                  posted := if posted then s.posted + [e] else s.posted))
        case _ => Fault
  }

  /** The next completion event is delivered to the process that asked. */
  function Deliver(env: Env, s: State): Outcome {
    if |s.posted| == 0 then Next(s)
    else
      var e, s' := s.posted[0], s.(posted := s.posted[1..]);
      if e !in s.entries then Fault
      else
        match s.entries[e].owner
        case ForTrust(r) => RxContinue(s', e, r)
        case ForKey(k) => if s.ecdh.Some? then Next(s') else AddContinued(s', e, k)
  }

  /** trust_rx_continue: trust whose signature was good is merged, in the name of the key's subject. */
  function RxContinue(s: State, e: nat, r: nat): Outcome
    requires e in s.entries
  {
    if r !in s.rx then Fault
    else
      match Unpin(s, s.rx[r].key)
      case Fault => Fault
      case Next(s') =>
        Next(s'.(entries := s'.entries - {e}, rx := s'.rx - {r},
                 merged := s.merged + MergeOf(s.items, s.rx[r], s.entries[e].result)))
  }

  function MergeOf(items: map<nat, KeyItem>, item: RxItem, good: bool): seq<Merge> {
    if good && item.key in items then [Merge(items[item.key].cert.subject, item.payload)] else []
  }

  /** keystore_add_continued, and the start of the key exchange when the signature was good. */
  function AddContinued(s: State, e: nat, k: nat): Outcome
    requires e in s.entries
  {
    if k !in s.items then Fault
    else
      var s' := s.(queued := Without(s.queued, k), entries := s.entries - {e}, addInUse := false);
      if s.entries[e].result then
        Next(Pin(s'.(verified := [k] + s'.verified), k).(ecdh := Some(k)))
      else
        Next(s'.(items := s'.items - {k}))
  }

  /** The key exchange ends. */
  function EcdhDone(s: State): Outcome {
    match s.ecdh
    case None => Next(s)
    case Some(k) =>
      match Unpin(s, k)
      case Fault => Fault
      case Next(s') => Next(s'.(ecdh := None))
  }

  // ---------------------------------------------------------------------------
  // Runs.
  // ---------------------------------------------------------------------------

  datatype Event =
    | ReceiveCert(cert: Cert)
    | Poll
    | ReceiveTrust(subject: seq<Byte>, payload: seq<Byte>)
    | TakeRequest
    | FinishRequest(hardware: bool, posted: bool)
    | DeliverEvent
    | FinishEcdh

  /** Certificates reach the keystore only through the decoder, so they are valid. */
  predicate Possible(ev: Event) {
    ev.ReceiveCert? ==> ev.cert.Valid()
  }

  function Step(env: Env, s: State, ev: Event): Outcome {
    match ev
    case ReceiveCert(cert) => Next(Add(env, s, cert))
    case Poll => AddStart(env, s)
    case ReceiveTrust(subject, payload) => TrustPost(env, s, subject, payload)
    case TakeRequest => Next(Take(s))
    case FinishRequest(hardware, posted) => Finish(env, s, hardware, posted)
    case DeliverEvent => Deliver(env, s)
    case FinishEcdh => EcdhDone(s)
  }

  /** keystore_init: everything empty, then the root certificate is queued. */
  function Init(env: Env): State {
    Add(env, State(map[], [], [], [], false, None, map[], map[], [], None, [], []), env.root)
  }

  function RunFrom(env: Env, s: State, events: seq<Event>): Outcome
    decreases |events|
  {
    if |events| == 0 then Next(s)
    else
      match Step(env, s, events[0])
      case Fault => Fault
      case Next(s') => RunFrom(env, s', events[1..])
  }

  /** A run of the firmware: any interleaving of its steps from initialisation on. */
  function Run(env: Env, events: seq<Event>): Outcome {
    RunFrom(env, Init(env), events)
  }

  predicate AllPossible(events: seq<Event>) {
    forall i :: 0 <= i < |events| ==> Possible(events[i])
  }
}
