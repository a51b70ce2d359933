/** What follows when the event queue is full and a completion is lost. */
module KeystoreLoss {
  import opened Common
  import opened Certificate
  import opened Keystore
  import opened KeystoreSafety

  /** A request that is still allocated, although no completion for it will ever come. */
  ghost predicate Lost(s: State, e: nat) { e in s.entries && e !in Pending(s) }

  /** Every request is pending, and every receive item has its request. */
  ghost predicate NothingLost(s: State) {
    && (forall e :: e in s.entries ==> e in Pending(s))
    && (forall r :: r in s.rx ==> exists e :: e in s.entries && s.entries[e].owner == ForTrust(r))
  }

  /** The step at which a completion is lost: the verifier finishes and its event cannot be posted. */
  ghost predicate Drops(s: State, ev: Event) { ev.FinishRequest? && !ev.posted && s.current.Some? }

  // ---------------------------------------------------------------------------
  // What each step does to the requests.
  // ---------------------------------------------------------------------------

  /** The step leaves the requests alone. */
  ghost predicate Quiet(s: State, s': State) {
    s'.entries == s.entries && Pending(s') == Pending(s) && s'.rx == s.rx
  }

  /** The step makes request e, and its receive item if it is for trust. */
  ghost predicate Requests(s: State, s': State, e: nat) {
    && e !in s.entries && e in s'.entries && s'.entries == s.entries[e := s'.entries[e]]
    && Pending(s') == Pending(s) + [e]
    && match s'.entries[e].owner
       case ForKey(_) => s'.rx == s.rx
       case ForTrust(r) => r !in s.rx && r in s'.rx && s'.rx == s.rx[r := s'.rx[r]]
  }

  /** The step ends the verification of request e, which stays pending or not. */
  ghost predicate Ends(s: State, s': State, e: nat, posted: bool) {
    && e in s.entries && e in s'.entries && s'.entries == s.entries[e := s'.entries[e]]
    && s'.entries[e].owner == s.entries[e].owner && s'.rx == s.rx && e in Pending(s)
    && (if posted then Pending(s') == Pending(s)
        else forall x :: x in Pending(s') <==> x in Pending(s) && x != e)
  }

  /** The step delivers the completion of request e and frees what belongs to it. */
  ghost predicate Answers(s: State, s': State, e: nat) {
    && e in s.entries && s'.entries == s.entries - {e}
    && e in Pending(s) && (forall x :: x in Pending(s') <==> x in Pending(s) && x != e)
    && match s.entries[e].owner
       case ForKey(_) => s'.rx == s.rx
       case ForTrust(r) => s'.rx == s.rx - {r}
  }

  /** What a step may do to the requests; `kept` is false if it loses a completion. */
  ghost predicate Effect(s: State, s': State, kept: bool) {
    || (kept && Quiet(s, s'))
    || (kept && exists e :: Requests(s, s', e))
    || (exists e :: Ends(s, s', e, kept))
    || (kept && exists e :: Answers(s, s', e))
  }

  lemma AddIsQuiet(env: Env, s: State, cert: Cert)
    ensures Effect(s, Add(env, s, cert), true)
  {
  }

  lemma PollEffect(env: Env, s: State)
    requires AddStart(env, s).Next?
    ensures Effect(s, AddStart(env, s).state, true)
  {
    var s' := AddStart(env, s).state;
    if s'.addInUse != s.addInUse {
      var e := FirstFree(s.entries.Keys, 0, env.entryCap).value;
      assert Pending(s') == Pending(s) + [e];
      assert Requests(s, s', e);
    }
  }

  lemma TrustEffect(env: Env, s: State, subject: seq<Byte>, payload: seq<Byte>)
    requires TrustPost(env, s, subject, payload).Next?
    ensures Effect(s, TrustPost(env, s, subject, payload).state, true)
  {
    var s' := TrustPost(env, s, subject, payload).state;
    match FirstFree(s.entries.Keys, 0, env.entryCap)
    case None =>
      var k, r := Find(s.items, s.verified, subject), FirstFree(s.rx.Keys, 0, env.rxCap);
      if k.Some? && r.Some? {
        assert s.rx[r.value := RxItem(k.value, payload)] - {r.value} == s.rx;
      }
    case Some(e) =>
      if s'.entries != s.entries {
        assert Pending(s') == Pending(s) + [e];
        assert Requests(s, s', e);
      }
  }

  lemma FinishEffect(env: Env, s: State, hardware: bool, posted: bool)
    requires EntriesOk(Pending(s), s.entries) && Finish(env, s, hardware, posted).Next?
    ensures var s' := Finish(env, s, hardware, posted).state;
            if s.current.None? then Quiet(s, s') else Ends(s, s', s.current.value, posted)
    ensures Effect(s, Finish(env, s, hardware, posted).state, posted || s.current.None?)
  {
    var s' := Finish(env, s, hardware, posted).state;
    if s.current.Some? {
      EndsCurrent(s, s', s.current.value, posted);
      assert Ends(s, s', s.current.value, posted);
    }
  }

  lemma EndsCurrent(s: State, s': State, e: nat, posted: bool)
    requires EntriesOk(Pending(s), s.entries) && s.current == Some(e) && s'.current.None? && s'.queue == s.queue
    requires s'.posted == if posted then s.posted + [e] else s.posted
    ensures e in Pending(s)
    ensures posted ==> Pending(s') == Pending(s)
    ensures !posted ==> forall x :: x in Pending(s') <==> x in Pending(s) && x != e
  {
    var p, q := Pending(s), Pending(s');
    var n := |s.posted|;
    assert p[n] == e;
    if !posted {
      assert forall i :: 0 <= i < |q| ==> q[i] == p[if i < n then i else i + 1];
      assert forall i :: 0 <= i < |p| && i != n ==> p[i] == q[if i < n then i else i - 1];
    }
  }

  lemma DeliverEffect(env: Env, s: State)
    requires Inv(env, s) && Deliver(env, s).Next?
    ensures Effect(s, Deliver(env, s).state, true)
  {
    if |s.posted| > 0 {
      DeliverAnswers(env, s);
      assert Answers(s, Deliver(env, s).state, s.posted[0]);
    }
  }

  lemma DeliverAnswers(env: Env, s: State)
    requires EntriesOk(Pending(s), s.entries) && |s.posted| > 0 && Deliver(env, s).Next?
    requires AddOk(env, s.entries, s.items, s.queued, s.addBuffer, s.addInUse, s.ecdh)
    ensures Answers(s, Deliver(env, s).state, s.posted[0])
  {
    AnswersFirst(s, Deliver(env, s).state);
  }

  lemma AnswersFirst(s: State, s': State)
    requires EntriesOk(Pending(s), s.entries) && |s.posted| > 0
    requires s'.posted == s.posted[1..] && s'.current == s.current && s'.queue == s.queue
    ensures s.posted[0] in Pending(s)
    ensures forall x :: x in Pending(s') <==> x in Pending(s) && x != s.posted[0]
  {
    var p, q := Pending(s), Pending(s');
    assert p[0] == s.posted[0] && q == p[1..];
    assert forall i :: 0 <= i < |q| ==> q[i] == p[i + 1];
    assert forall i :: 0 < i < |p| ==> p[i] == q[i - 1];
  }

  lemma TakeIsQuiet(s: State)
    ensures Effect(s, Take(s), true)
  {
    assert Pending(Take(s)) == Pending(s);
  }

  lemma EcdhIsQuiet(s: State)
    requires EcdhDone(s).Next?
    ensures Effect(s, EcdhDone(s).state, true)
  {
  }

  lemma StepEffect(env: Env, s: State, ev: Event)
    requires Inv(env, s) && Possible(ev)
    ensures Step(env, s, ev).Next? && Effect(s, Step(env, s, ev).state, !Drops(s, ev))
  {
    NeverFaults(env, s, ev);
    match ev
    case ReceiveCert(cert) => AddIsQuiet(env, s, cert);
    case Poll => PollEffect(env, s);
    case ReceiveTrust(subject, payload) => TrustEffect(env, s, subject, payload);
    case TakeRequest => TakeIsQuiet(s);
    case FinishRequest(hardware, posted) => FinishEffect(env, s, hardware, posted);
    case DeliverEvent => DeliverEffect(env, s);
    case FinishEcdh => EcdhIsQuiet(s);
  }

  // ---------------------------------------------------------------------------
  // A lost request stays lost.
  // ---------------------------------------------------------------------------

  /** The request, and the receive item it is for, are exactly as they were. */
  ghost predicate StillHeld(s: State, s': State, e: nat)
    requires e in s.entries
  {
    && e in s'.entries && s'.entries[e].owner == s.entries[e].owner
    && (s.entries[e].owner.ForTrust? && s.entries[e].owner.rx in s.rx ==>
          s.entries[e].owner.rx in s'.rx && s'.rx[s.entries[e].owner.rx] == s.rx[s.entries[e].owner.rx])
  }

  lemma EffectKeepsLost(s: State, s': State, kept: bool, e: nat)
    requires Effect(s, s', kept) && Lost(s, e) && EntriesOk(Pending(s), s.entries)
    ensures Lost(s', e) && StillHeld(s, s', e)
  {
    if x :| Requests(s, s', x) {
      assert x != e;
    } else if x :| Ends(s, s', x, kept) {
      assert x != e;
    } else if x :| Answers(s, s', x) {
      assert x != e;
    }
  }

  /** While a certificate's request is lost nothing joins the verified list. */
  lemma NothingVerified(env: Env, s: State, ev: Event, e: nat)
    requires Inv(env, s) && Possible(ev) && Lost(s, e) && s.entries[e].owner.ForKey?
    ensures Step(env, s, ev).Next?
    ensures forall k :: k in Step(env, s, ev).state.verified ==> k in s.verified
  {
    NeverFaults(env, s, ev);
    if ev.ReceiveCert? {
      FreeUpEvicts(env, s.items, s.verified, s.queued, 0);
    } else if ev.DeliverEvent? && |s.posted| > 0 {
      NoKeyEntryLeft(env, s, e);
      AnswersFirst(s, s.(posted := s.posted[1..]));
      assert s.posted[0] != e && s.posted[0] in s.entries;
    }
  }

  /** Request e is still lost and held, and if it is for a certificate nothing has been verified since. */
  ghost predicate Frozen(s: State, s': State, e: nat)
    requires e in s.entries
  {
    && Lost(s', e) && StillHeld(s, s', e)
    && (s.entries[e].owner.ForKey? ==> forall k :: k in s'.verified ==> k in s.verified)
  }

  lemma StepFreezes(env: Env, s: State, ev: Event, e: nat)
    requires Inv(env, s) && Possible(ev) && Lost(s, e)
    ensures Step(env, s, ev).Next? && Frozen(s, Step(env, s, ev).state, e)
  {
    StepEffect(env, s, ev);
    EffectKeepsLost(s, Step(env, s, ev).state, !Drops(s, ev), e);
    if s.entries[e].owner.ForKey? {
      NothingVerified(env, s, ev, e);
    }
  }

  lemma FrozenTransitive(a: State, b: State, c: State, e: nat)
    requires e in a.entries && Frozen(a, b, e) && Frozen(b, c, e)
    ensures Frozen(a, c, e)
  {
  }

  lemma {:induction false} RunFreezes(env: Env, s: State, events: seq<Event>, e: nat)
    requires Inv(env, s) && AllPossible(events) && Lost(s, e)
    ensures RunFrom(env, s, events).Next? && Frozen(s, RunFrom(env, s, events).state, e)
    decreases |events|
  {
    if |events| > 0 {
      StepKeeps(env, s, events[0]);
      StepFreezes(env, s, events[0], e);
      var s1 := Step(env, s, events[0]).state;
      RunFreezes(env, s1, events[1..], e);
      FrozenTransitive(s, s1, RunFrom(env, s1, events[1..]).state, e);
    }
  }

  /**
   A lost completion is final. If it was for a certificate, the shared buffer stays in use and no
   certificate is verified in any continuation; if it was for received trust, the request, the receive
   item and the pin on its key are never released.
   */
  lemma LostForever(env: Env, s: State, events: seq<Event>, e: nat)
    requires Inv(env, s) && AllPossible(events) && Lost(s, e)
    ensures RunFrom(env, s, events).Next?
    ensures var s' := RunFrom(env, s, events).state;
            && Lost(s', e)
            && (s.entries[e].owner.ForKey? ==> s'.addInUse && forall k :: k in s'.verified ==> k in s.verified)
            && (s.entries[e].owner.ForTrust? ==>
                  var r := s.entries[e].owner.rx;
                  r in s.rx && r in s'.rx && s'.rx[r] == s.rx[r]
                  && s'.rx[r].key in s'.items && s'.items[s'.rx[r].key].pins > 0)
  {
    RunFreezes(env, s, events, e);
    RunFromIsSafe(env, s, events);
    HeldResources(env, s, e);
    HeldResources(env, RunFrom(env, s, events).state, e);
  }

  /** What any request holds while it is allocated. */
  lemma HeldResources(env: Env, s: State, e: nat)
    requires Inv(env, s) && e in s.entries
    ensures s.entries[e].owner.ForKey? ==> s.addInUse
    ensures s.entries[e].owner.ForTrust? ==>
              var r := s.entries[e].owner.rx;
              r in s.rx && s.rx[r].key in s.items && s.items[s.rx[r].key].pins > 0
  {
    if s.entries[e].owner.ForTrust? {
      HoldersSome(s.rx, s.entries[e].owner.rx);
    }
  }

  // ---------------------------------------------------------------------------
  // Exactly when something is lost.
  // ---------------------------------------------------------------------------

  lemma EffectKeepsAll(s: State, s': State)
    requires Effect(s, s', true) && NothingLost(s) && EntriesOk(Pending(s), s.entries)
    ensures NothingLost(s')
  {
    if x :| Requests(s, s', x) {
      RequestsKeepsAll(s, s', x);
    } else if x :| Ends(s, s', x, true) {
      EndsKeepsAll(s, s', x);
    } else if x :| Answers(s, s', x) {
      AnswersKeepsAll(s, s', x);
    }
  }

  lemma RequestsKeepsAll(s: State, s': State, x: nat)
    requires Requests(s, s', x) && NothingLost(s)
    ensures NothingLost(s')
  {
    assert Pending(s')[|Pending(s)|] == x;
    forall r | r in s'.rx
      ensures exists e :: e in s'.entries && s'.entries[e].owner == ForTrust(r)
    {
      if r in s.rx {
        var e :| e in s.entries && s.entries[e].owner == ForTrust(r);
        assert s'.entries[e] == s.entries[e];
      } else {
        assert s'.entries[x].owner == ForTrust(r);
      }
    }
  }

  lemma EndsKeepsAll(s: State, s': State, x: nat)
    requires Ends(s, s', x, true) && NothingLost(s)
    ensures NothingLost(s')
  {
    forall r | r in s'.rx
      ensures exists e :: e in s'.entries && s'.entries[e].owner == ForTrust(r)
    {
      var e :| e in s.entries && s.entries[e].owner == ForTrust(r);
      assert s'.entries[e].owner == s.entries[e].owner;
    }
  }

  lemma AnswersKeepsAll(s: State, s': State, x: nat)
    requires Answers(s, s', x) && NothingLost(s)
    ensures NothingLost(s')
  {
    forall r | r in s'.rx
      ensures exists e :: e in s'.entries && s'.entries[e].owner == ForTrust(r)
    {
      var e :| e in s.entries && s.entries[e].owner == ForTrust(r);
      assert e != x && s'.entries[e] == s.entries[e];
    }
  }

  lemma EndsLost(s: State, s': State, x: nat)
    requires Ends(s, s', x, false)
    ensures Lost(s', x) && !NothingLost(s')
  {
  }

  /** A step that drops a completion loses its request. */
  lemma DropLoses(env: Env, s: State, ev: Event)
    requires EntriesOk(Pending(s), s.entries) && Drops(s, ev) && Step(env, s, ev).Next?
    ensures Lost(Step(env, s, ev).state, s.current.value) && !NothingLost(Step(env, s, ev).state)
  {
    FinishEffect(env, s, ev.hardware, ev.posted);
    EndsLost(s, Step(env, s, ev).state, s.current.value);
  }

  /** A step that drops none loses nothing. */
  lemma KeepsAll(env: Env, s: State, ev: Event)
    requires Inv(env, s) && NothingLost(s) && Possible(ev) && !Drops(s, ev)
    ensures Step(env, s, ev).Next? && NothingLost(Step(env, s, ev).state)
  {
    StepEffect(env, s, ev);
    EffectKeepsAll(s, Step(env, s, ev).state);
  }

  /** No completion is lost along the run. */
  ghost predicate NoDrops(env: Env, s: State, events: seq<Event>)
    decreases |events|
  {
    |events| == 0 ||
    (!Drops(s, events[0]) && (Step(env, s, events[0]).Next? ==> NoDrops(env, Step(env, s, events[0]).state, events[1..])))
  }

  lemma {:induction false} RunKeepsAll(env: Env, s: State, events: seq<Event>)
    requires Inv(env, s) && NothingLost(s) && AllPossible(events) && NoDrops(env, s, events)
    ensures RunFrom(env, s, events).Next? && NothingLost(RunFrom(env, s, events).state)
    decreases |events|
  {
    if |events| > 0 {
      StepKeeps(env, s, events[0]);
      KeepsAll(env, s, events[0]);
      RunKeepsAll(env, Step(env, s, events[0]).state, events[1..]);
    }
  }

  lemma {:induction false} RunLoses(env: Env, s: State, events: seq<Event>) returns (e: nat)
    requires Inv(env, s) && AllPossible(events) && !NoDrops(env, s, events)
    ensures RunFrom(env, s, events).Next? && Lost(RunFrom(env, s, events).state, e)
    decreases |events|
  {
    if Drops(s, events[0]) {
      e := s.current.value;
      DropStays(env, s, events);
    } else {
      StepKeeps(env, s, events[0]);
      e := RunLoses(env, Step(env, s, events[0]).state, events[1..]);
    }
  }

  lemma DropStays(env: Env, s: State, events: seq<Event>)
    requires Inv(env, s) && AllPossible(events) && |events| > 0 && Drops(s, events[0])
    ensures RunFrom(env, s, events).Next? && Lost(RunFrom(env, s, events).state, s.current.value)
  {
    StepKeeps(env, s, events[0]);
    DropLoses(env, s, events[0]);
    RunFreezes(env, Step(env, s, events[0]).state, events[1..], s.current.value);
  }

  /**
   After a run every request is pending and every receive item has its request, if and only if no
   completion was lost on the way.
   */
  lemma RunLossIff(env: Env, s: State, events: seq<Event>)
    requires Inv(env, s) && NothingLost(s) && AllPossible(events)
    ensures RunFrom(env, s, events).Next?
    ensures NothingLost(RunFrom(env, s, events).state) <==> NoDrops(env, s, events)
  {
    if NoDrops(env, s, events) {
      RunKeepsAll(env, s, events);
    } else {
      var e := RunLoses(env, s, events);
      assert Lost(RunFrom(env, s, events).state, e);
    }
  }

  /** The same for the runs of the firmware, which start with nothing lost. */
  lemma FirmwareLossIff(env: Env, events: seq<Event>)
    requires env.root.Valid() && AllPossible(events)
    ensures Run(env, events).Next?
    ensures NothingLost(Run(env, events).state) <==> NoDrops(env, Init(env), events)
  {
    InitOk(env);
    RunLossIff(env, Init(env), events);
  }
}
