/** The keystore never gets stuck: unless a completion was lost, its own steps finish everything. */
module KeystoreProgress {
  import opened Common
  import opened Certificate
  import opened Keystore
  import opened KeystoreSafety
  import opened KeystoreLoss

  /** The shared buffer is in use only for a request. */
  ghost predicate BufferHeld(entries: map<nat, Entry>, addInUse: bool) {
    addInUse ==> exists e :: e in entries && entries[e].owner.ForKey?
  }

  /** A step without new input, whose completion, if it makes one, is posted. */
  predicate Internal(ev: Event) {
    match ev
    case Poll => true
    case TakeRequest => true
    case FinishRequest(_, posted) => posted
    case DeliverEvent => true
    case FinishEcdh => true
    case ReceiveCert(_) => false
    case ReceiveTrust(_, _) => false
  }

  ghost predicate AllInternal(events: seq<Event>) {
    forall i :: 0 <= i < |events| ==> Internal(events[i])
  }

  /** Nothing is waiting, nothing is held and no key is pinned. */
  ghost predicate Drained(s: State) {
    && s.queued == [] && s.entries == map[] && s.rx == map[] && Pending(s) == []
    && s.ecdh.None? && !s.addInUse && forall k :: k in s.items ==> s.items[k].pins == 0
  }

  // ---------------------------------------------------------------------------
  // The shared buffer is in use only for a request.
  // ---------------------------------------------------------------------------

  /** The requests of one state have the owners they had in another. */
  ghost predicate OwnersStay(entries: map<nat, Entry>, entries': map<nat, Entry>) {
    forall e :: e in entries && entries[e].owner.ForKey? ==> e in entries' && entries'[e].owner.ForKey?
  }

  lemma HeldStays(entries: map<nat, Entry>, entries': map<nat, Entry>, inUse: bool, inUse': bool)
    requires BufferHeld(entries, inUse) && OwnersStay(entries, entries') && (inUse' ==> inUse)
    ensures BufferHeld(entries', inUse')
  {
    if inUse' {
      var e :| e in entries && entries[e].owner.ForKey?;
      assert e in entries' && entries'[e].owner.ForKey?;
    }
  }

  lemma PollHolds(env: Env, s: State)
    requires BufferHeld(s.entries, s.addInUse) && AddStart(env, s).Next?
    ensures BufferHeld(AddStart(env, s).state.entries, AddStart(env, s).state.addInUse)
  {
    var s' := AddStart(env, s).state;
    if s'.addInUse && !s.addInUse {
      var e := FirstFree(s.entries.Keys, 0, env.entryCap).value;
      assert e in s'.entries && s'.entries[e].owner.ForKey?;
    }
  }

  lemma DeliverHolds(env: Env, s: State)
    requires BufferHeld(s.entries, s.addInUse) && Deliver(env, s).Next?
    ensures BufferHeld(Deliver(env, s).state.entries, Deliver(env, s).state.addInUse)
  {
    var s' := Deliver(env, s).state;
    if s'.addInUse {
      HeldStays(s.entries, s'.entries, s.addInUse, s'.addInUse);
    }
  }

  lemma StepHolds(env: Env, s: State, ev: Event)
    requires BufferHeld(s.entries, s.addInUse) && Step(env, s, ev).Next?
    ensures BufferHeld(Step(env, s, ev).state.entries, Step(env, s, ev).state.addInUse)
  {
    match ev
    case Poll => PollHolds(env, s);
    case DeliverEvent => DeliverHolds(env, s);
    case ReceiveCert(_) =>
    case ReceiveTrust(_, _) => OthersHold(env, s, ev);
    case TakeRequest =>
    case FinishRequest(_, _) => OthersHold(env, s, ev);
    case FinishEcdh =>
  }

  lemma OthersHold(env: Env, s: State, ev: Event)
    requires ev.ReceiveTrust? || ev.FinishRequest?
    requires BufferHeld(s.entries, s.addInUse) && Step(env, s, ev).Next?
    ensures BufferHeld(Step(env, s, ev).state.entries, Step(env, s, ev).state.addInUse)
  {
    HeldStays(s.entries, Step(env, s, ev).state.entries, s.addInUse, s.addInUse);
  }

  lemma {:induction false} RunHolds(env: Env, s: State, events: seq<Event>)
    requires BufferHeld(s.entries, s.addInUse) && RunFrom(env, s, events).Next?
    ensures BufferHeld(RunFrom(env, s, events).state.entries, RunFrom(env, s, events).state.addInUse)
    decreases |events|
  {
    if |events| > 0 {
      StepHolds(env, s, events[0]);
      RunHolds(env, Step(env, s, events[0]).state, events[1..]);
    }
  }

  // ---------------------------------------------------------------------------
  // A schedule that finishes everything.
  // ---------------------------------------------------------------------------

  /** What the scheduler runs next, or nothing when all is done. */
  function Due(s: State): Option<Event> {
    if s.ecdh.Some? then Some(FinishEcdh)
    else if |s.posted| > 0 then Some(DeliverEvent)
    else if s.current.Some? then Some(FinishRequest(true, true))
    else if |s.queue| > 0 then Some(TakeRequest)
    else if |s.queued| > 0 then Some(Poll)
    else None
  }

  /**
   How much is left to do: a queued certificate may be requested, taken, finished, delivered and
   exchanged, and the one under verification has been requested.
   */
  function Work(s: State): int {
    6 * |s.queued| - (if s.addInUse then 5 else 0) + 3 * |s.queue| + (if s.current.Some? then 2 else 0)
    + |s.posted| + (if s.ecdh.Some? then 1 else 0)
  }

  /** Where nothing was lost: what progress needs, and what every step keeps. */
  ghost predicate Sound(env: Env, s: State) {
    Inv(env, s) && NothingLost(s) && BufferHeld(s.entries, s.addInUse)
  }

  lemma WorkIsNat(env: Env, s: State)
    requires AddOk(env, s.entries, s.items, s.queued, s.addBuffer, s.addInUse, s.ecdh)
    requires BufferHeld(s.entries, s.addInUse)
    ensures Work(s) >= 0
  {
    if s.addInUse {
      var e :| e in s.entries && s.entries[e].owner.ForKey?;
      assert |s.queued| > 0;
    }
  }

  /** With no request in the queues there is no request, so the buffer is free. */
  lemma NoRequests(s: State)
    requires NothingLost(s) && BufferHeld(s.entries, s.addInUse)
    requires s.posted == [] && s.current.None? && s.queue == []
    ensures s.entries == map[] && s.rx == map[] && !s.addInUse
  {
    assert Pending(s) == [];
    assert forall e :: e !in s.entries;
    assert forall r :: r !in s.rx;
  }

  lemma PollWorks(env: Env, s: State)
    requires s.ecdh.None? && !s.addInUse && |s.queued| > 0 && AddStart(env, s).Next?
    ensures Work(AddStart(env, s).state) < Work(s)
  {
  }

  lemma DeliverWorks(env: Env, s: State)
    requires |s.posted| > 0 && s.ecdh.None? && Deliver(env, s).Next?
    requires EntriesOk(Pending(s), s.entries)
    requires AddOk(env, s.entries, s.items, s.queued, s.addBuffer, s.addInUse, s.ecdh)
    ensures Work(Deliver(env, s).state) < Work(s)
  {
    var e := s.posted[0];
    assert e in s.entries;
    match s.entries[e].owner
    case ForTrust(r) =>
    case ForKey(k) =>
      assert s.queued[0] == k && |Without(s.queued, k)| == |s.queued| - 1;
  }

  lemma OtherWorks(env: Env, s: State, ev: Event)
    requires Due(s) == Some(ev) && (ev.FinishEcdh? || ev.FinishRequest? || ev.TakeRequest?) && Step(env, s, ev).Next?
    ensures Work(Step(env, s, ev).state) < Work(s)
  {
  }

  /** Every step of the schedule keeps all is needed and leaves less to do. */
  lemma DueStep(env: Env, s: State)
    requires Sound(env, s) && Due(s).Some?
    ensures Internal(Due(s).value) && Step(env, s, Due(s).value).Next?
    ensures Sound(env, Step(env, s, Due(s).value).state) && Work(Step(env, s, Due(s).value).state) < Work(s)
  {
    var ev := Due(s).value;
    StepKeeps(env, s, ev);
    KeepsAll(env, s, ev);
    StepHolds(env, s, ev);
    if ev.Poll? {
      NoRequests(s);
      PollWorks(env, s);
    } else if ev.DeliverEvent? {
      DeliverWorks(env, s);
    } else {
      OtherWorks(env, s, ev);
    }
  }

  lemma NothingDue(env: Env, s: State)
    requires Sound(env, s) && Due(s).None?
    ensures Drained(s)
  {
    NoRequests(s);
    forall k | k in s.items
      ensures s.items[k].pins == 0
    {
      assert Holders(s.rx, k) == {};
    }
  }

  /** From every state where nothing was lost, the keystore's own steps reach one with nothing left to do. */
  lemma {:induction false} Drains(env: Env, s: State) returns (events: seq<Event>)
    requires Sound(env, s)
    ensures AllInternal(events) && RunFrom(env, s, events).Next? && Drained(RunFrom(env, s, events).state)
    decreases if Work(s) >= 0 then Work(s) + 1 else 0
  {
    WorkIsNat(env, s);
    if Due(s).None? {
      NothingDue(env, s);
      events := [];
    } else {
      var ev := Due(s).value;
      DueStep(env, s);
      var s1 := Step(env, s, ev).state;
      WorkIsNat(env, s1);
      var rest := Drains(env, s1);
      events := [ev] + rest;
      assert events[1..] == rest;
    }
  }

  lemma LostIsNotDrained(env: Env, s: State, events: seq<Event>, e: nat)
    requires Inv(env, s) && Lost(s, e) && AllInternal(events)
    ensures RunFrom(env, s, events).Next? && !Drained(RunFrom(env, s, events).state)
  {
    LostForever(env, s, events, e);
  }

  /**
   After any run of the firmware, its own steps can still finish every request, empty the queue,
   release every receive item and unpin every key, if and only if no completion was lost.
   */
  lemma DrainsIff(env: Env, events: seq<Event>)
    requires env.root.Valid() && AllPossible(events)
    ensures Run(env, events).Next?
    ensures (exists more :: AllInternal(more) && RunFrom(env, Run(env, events).state, more).Next?
                            && Drained(RunFrom(env, Run(env, events).state, more).state))
       <==> NoDrops(env, Init(env), events)
  {
    InitOk(env);
    FirmwareLossIff(env, events);
    var s := Run(env, events).state;
    if NoDrops(env, Init(env), events) {
      RunFromIsSafe(env, Init(env), events);
      RunHolds(env, Init(env), events);
      var more := Drains(env, s);
      assert AllInternal(more);
    } else {
      RunFromIsSafe(env, Init(env), events);
      var e := RunLoses(env, Init(env), events);
      forall more | AllInternal(more)
        ensures RunFrom(env, s, more).Next? && !Drained(RunFrom(env, s, more).state)
      {
        LostIsNotDrained(env, s, more, e);
      }
    }
  }
}
