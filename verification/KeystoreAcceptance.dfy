/** What the keystore accepts: genuine certificates become verified and genuine trust is merged, and nothing else. */
module KeystoreAcceptance {
  import opened Common
  import opened Cbor
  import opened Certificate
  import opened Keystore
  import opened KeystoreSafety
  import opened KeystoreLoss
  import opened KeystoreProgress

  /** The root signed this certificate. */
  predicate RootSigned(env: Env, c: Cert) {
    env.verify(env.root.publicKey, env.Signed(c))
  }

  // ---------------------------------------------------------------------------
  // Admission.
  // ---------------------------------------------------------------------------

  /** A certificate with this subject is on the verified list. */
  predicate Known(s: State, subject: seq<Byte>) {
    exists k :: k in s.verified && k in s.items && s.items[k].cert.subject == subject
  }

  lemma KnownIffFound(s: State, subject: seq<Byte>)
    ensures Known(s, subject) <==> Find(s.items, s.verified, subject).Some?
  {
  }

  /** A key nobody is using, and not the root's. */
  predicate Idle(env: Env, items: map<nat, KeyItem>, k: nat) {
    k in items && items[k].pins == 0 && items[k].cert.subject != env.root.subject
  }

  /** Where freeing does not report success, the walk goes on past an evicted key if the list allows. */
  predicate EvictsAll(env: Env) { !env.freeReturnsTrue && env.nextSurvivesRemoval }

  /** Eviction reports success if and only if freeing does and some key is idle. */
  lemma {:induction false} FreeUpIff(env: Env, items: map<nat, KeyItem>, verified: seq<nat>, i: nat)
    requires i <= |verified|
    ensures FreeUp(env, items, verified, i).ok <==>
            env.freeReturnsTrue && exists j :: i <= j < |verified| && Idle(env, items, verified[j])
    decreases |verified| - i
  {
    if i < |verified| {
      if !Idle(env, items, verified[i]) {
        FreeUpIff(env, items, verified, i + 1);
      } else if EvictsAll(env) {
        FreeUpIff(env, items - {verified[i]}, verified[..i] + verified[i + 1..], i);
      }
    }
  }

  /** An idle key goes if none before it on the list is idle, or if all idle keys do. */
  predicate Goes(env: Env, items: map<nat, KeyItem>, verified: seq<nat>, i: nat, k: nat)
    requires i <= |verified|
  {
    && Idle(env, items, k)
    && exists j :: i <= j < |verified| && verified[j] == k
                   && (EvictsAll(env) || forall m :: i <= m < j ==> !Idle(env, items, verified[m]))
  }

  /** Eviction removes the first idle key of the list and no other, or under one of the conventions all of them. */
  lemma {:induction false} FreeUpRemoves(env: Env, items: map<nat, KeyItem>, verified: seq<nat>, i: nat)
    requires i <= |verified| && NoDup(verified)
    ensures forall k :: k in FreeUp(env, items, verified, i).items <==> k in items && !Goes(env, items, verified, i, k)
    decreases |verified| - i
  {
    if i < |verified| {
      if !Idle(env, items, verified[i]) {
        FreeUpRemoves(env, items, verified, i + 1);
        forall k
          ensures Goes(env, items, verified, i, k) <==> Goes(env, items, verified, i + 1, k)
        {
          GoesLater(env, items, verified, i, k);
        }
      } else {
        forall k
          ensures Goes(env, items, verified, i, k) <==>
                  k == verified[i] || (EvictsAll(env) && Goes(env, items - {verified[i]}, Rest(verified, i), i, k))
        {
          GoesFirst(env, items, verified, i, k);
        }
        if EvictsAll(env) {
          RestNoDup(verified, i);
          FreeUpRemoves(env, items - {verified[i]}, Rest(verified, i), i);
        }
      }
    }
  }

  function Rest(verified: seq<nat>, i: nat): seq<nat>
    requires i < |verified|
  {
    verified[..i] + verified[i + 1..]
  }

  lemma RestNoDup(verified: seq<nat>, i: nat)
    requires i < |verified| && NoDup(verified)
    ensures NoDup(Rest(verified, i))
  {
    var r := Rest(verified, i);
    assert forall j :: 0 <= j < |r| ==> r[j] == verified[if j < i then j else j + 1];
  }

  lemma GoesLater(env: Env, items: map<nat, KeyItem>, verified: seq<nat>, i: nat, k: nat)
    requires i < |verified| && !Idle(env, items, verified[i])
    ensures Goes(env, items, verified, i, k) <==> Goes(env, items, verified, i + 1, k)
  {
    if Goes(env, items, verified, i, k) {
      var j :| i <= j < |verified| && verified[j] == k
               && (EvictsAll(env) || forall m :: i <= m < j ==> !Idle(env, items, verified[m]));
      assert i + 1 <= j;
    }
    if Goes(env, items, verified, i + 1, k) {
      var j :| i + 1 <= j < |verified| && verified[j] == k
               && (EvictsAll(env) || forall m :: i + 1 <= m < j ==> !Idle(env, items, verified[m]));
      assert forall m :: i <= m < j && m != i ==> !Idle(env, items, verified[m]) || EvictsAll(env);
    }
  }

  lemma GoesFirst(env: Env, items: map<nat, KeyItem>, verified: seq<nat>, i: nat, k: nat)
    requires i < |verified| && NoDup(verified) && Idle(env, items, verified[i])
    ensures Goes(env, items, verified, i, k) <==>
            k == verified[i] || (EvictsAll(env) && Goes(env, items - {verified[i]}, Rest(verified, i), i, k))
  {
    var rest := Rest(verified, i);
    if EvictsAll(env) {
      if j :| i < j < |verified| && verified[j] == k {
        assert rest[j - 1] == k && verified[i] != verified[j];
      }
      if j :| i <= j < |rest| && rest[j] == k {
        assert verified[j + 1] == k;
      }
    } else if Goes(env, items, verified, i, k) {
      var j :| i <= j < |verified| && verified[j] == k && forall m :: i <= m < j ==> !Idle(env, items, verified[m]);
      assert j == i;
    }
  }

  /** The certificate is queued behind the others, in a block of its own. */
  ghost predicate Queues(s: State, s': State, cert: Cert) {
    exists k :: QueuedAs(s, s', cert, k)
  }

  ghost predicate QueuedAs(s: State, s': State, cert: Cert, k: nat) {
    k in s'.items && s'.items[k] == KeyItem(cert, 0) && s'.queued == s.queued + [k]
  }

  /** A block is free, or can be freed. */
  ghost predicate HasSpace(env: Env, s: State) {
    || (exists k: nat :: k < env.keyCap && k !in s.items)
    || (env.freeReturnsTrue && exists k :: k in s.verified && Idle(env, s.items, k))
  }

  lemma AddWithSpace(env: Env, s: State, cert: Cert)
    requires ListsOk(env, s.items, s.verified, s.queued) && !Known(s, cert.subject) && HasSpace(env, s)
    ensures Queues(s, Add(env, s, cert), cert)
  {
    KnownIffFound(s, cert.subject);
    match FirstFree(s.items.Keys, 0, env.keyCap)
    case Some(k) => assert QueuedAs(s, Add(env, s, cert), cert, k);
    case None =>
      var f := FreeUp(env, s.items, s.verified, 0);
      FreeUpIff(env, s.items, s.verified, 0);
      FreeUpRemoves(env, s.items, s.verified, 0);
      var k := FirstIdle(env, s.items, s.verified);
      assert k in s.items && k !in f.items && k < env.keyCap;
      assert QueuedAs(s, Add(env, s, cert), cert, FirstFree(f.items.Keys, 0, env.keyCap).value);
  }

  lemma FirstIdle(env: Env, items: map<nat, KeyItem>, verified: seq<nat>) returns (k: nat)
    requires exists j :: 0 <= j < |verified| && Idle(env, items, verified[j])
    ensures Goes(env, items, verified, 0, k)
  {
    var j := 0;
    while !Idle(env, items, verified[j])
      invariant j < |verified| && forall m :: 0 <= m < j ==> !Idle(env, items, verified[m])
      decreases |verified| - j
    {
      j := j + 1;
    }
    k := verified[j];
  }

  lemma AddWithoutSpace(env: Env, s: State, cert: Cert)
    requires Known(s, cert.subject) || !HasSpace(env, s)
    ensures Add(env, s, cert).queued == s.queued
  {
    KnownIffFound(s, cert.subject);
    FreeUpIff(env, s.items, s.verified, 0);
  }

  /**
   A received certificate is queued if and only if its subject is not verified yet and a block is free
   or can be freed; otherwise the queue stays as it is.
   */
  lemma AddQueuesIff(env: Env, s: State, cert: Cert)
    requires ListsOk(env, s.items, s.verified, s.queued)
    ensures Queues(s, Add(env, s, cert), cert) <==> !Known(s, cert.subject) && HasSpace(env, s)
    ensures !Queues(s, Add(env, s, cert), cert) ==> Add(env, s, cert).queued == s.queued
  {
    if !Known(s, cert.subject) && HasSpace(env, s) {
      AddWithSpace(env, s, cert);
    } else {
      AddWithoutSpace(env, s, cert);
      assert forall k :: |s.queued + [k]| != |s.queued|;
    }
  }

  /** A message of a neighbour becomes the last request, with a receive item that holds its bytes. */
  ghost predicate Takes(s: State, s': State, subject: seq<Byte>, payload: seq<Byte>) {
    exists e, r :: TakenAs(s, s', subject, payload, e, r)
  }

  ghost predicate TakenAs(s: State, s': State, subject: seq<Byte>, payload: seq<Byte>, e: nat, r: nat) {
    && e in s'.entries && s'.entries[e] == Entry(ForTrust(r), |payload|, false)
    && s'.queue == s.queue + [e]
    && r in s'.rx && s'.rx[r].payload == payload
    && s'.rx[r].key in s'.verified && s'.rx[r].key in s'.items && s'.items[s'.rx[r].key].cert.subject == subject
  }

  /** Both pools have a free block. */
  ghost predicate PoolsHaveRoom(env: Env, s: State) {
    (exists r: nat :: r < env.rxCap && r !in s.rx) && (exists e: nat :: e < env.entryCap && e !in s.entries)
  }

  lemma TrustTaken(env: Env, s: State, subject: seq<Byte>, payload: seq<Byte>)
    requires ListsOk(env, s.items, s.verified, s.queued) && 0 < |payload| <= MAX_RX_PAYLOAD
    requires Known(s, subject) && PoolsHaveRoom(env, s)
    ensures TrustPost(env, s, subject, payload).Next?
    ensures Takes(s, TrustPost(env, s, subject, payload).state, subject, payload)
  {
    var r, e := FirstFree(s.rx.Keys, 0, env.rxCap), FirstFree(s.entries.Keys, 0, env.entryCap);
    assert TakenAs(s, TrustPost(env, s, subject, payload).state, subject, payload, e.value, r.value);
  }

  lemma TrustNotTaken(env: Env, s: State, subject: seq<Byte>, payload: seq<Byte>)
    requires ListsOk(env, s.items, s.verified, s.queued)
    requires !(0 < |payload| <= MAX_RX_PAYLOAD) || !Known(s, subject) || !PoolsHaveRoom(env, s)
    ensures TrustPost(env, s, subject, payload) == Next(s)
  {
    KnownIffFound(s, subject);
    var k, r := Find(s.items, s.verified, subject), FirstFree(s.rx.Keys, 0, env.rxCap);
    if k.Some? && r.Some? {
      assert s.rx[r.value := RxItem(k.value, payload)] - {r.value} == s.rx;
      var pinned := s.items[k.value := s.items[k.value].(pins := s.items[k.value].pins + 1)];
      assert pinned[k.value := pinned[k.value].(pins := pinned[k.value].pins - 1)] == s.items;
    }
  }

  /**
   A message is taken if and only if it has an allowed length, the sender's certificate is verified and
   both pools have room; otherwise nothing changes.
   */
  lemma TrustTakenIff(env: Env, s: State, subject: seq<Byte>, payload: seq<Byte>)
    requires ListsOk(env, s.items, s.verified, s.queued)
    ensures TrustPost(env, s, subject, payload).Next?
    ensures var s' := TrustPost(env, s, subject, payload).state;
            && (Takes(s, s', subject, payload) <==>
                  0 < |payload| <= MAX_RX_PAYLOAD && Known(s, subject) && PoolsHaveRoom(env, s))
            && (!Takes(s, s', subject, payload) ==> s' == s)
  {
    if 0 < |payload| <= MAX_RX_PAYLOAD && Known(s, subject) && PoolsHaveRoom(env, s) {
      TrustTaken(env, s, subject, payload);
    } else {
      TrustNotTaken(env, s, subject, payload);
      assert forall e :: |s.queue + [e]| != |s.queue|;
    }
  }

  // ---------------------------------------------------------------------------
  // The answer to one request.
  // ---------------------------------------------------------------------------

  /** The verifier ends with the current request and its completion is delivered. */
  function Answered(env: Env, s: State, hardware: bool): Outcome {
    RunFrom(env, s, [FinishRequest(hardware, true), DeliverEvent])
  }

  lemma AnsweredIs(env: Env, s: State, hardware: bool)
    ensures Answered(env, s, hardware) ==
            match Finish(env, s, hardware, true) case Fault => Fault case Next(s1) => Deliver(env, s1)
  {
    var events := [FinishRequest(hardware, true), DeliverEvent];
    assert events[1..] == [DeliverEvent];
    if Finish(env, s, hardware, true).Next? {
      var s1 := Finish(env, s, hardware, true).state;
      assert RunFrom(env, s1, [DeliverEvent]) == Deliver(env, s1);
    }
  }

  /**
   A certificate under verification ends up verified, pinned for the key exchange, if and only if the
   hardware works and the root signed it; otherwise its item is freed. Either way its request and the
   shared buffer are released and the next certificate is first in the queue.
   */
  lemma KeyAnswer(env: Env, s: State, e: nat, k: nat, hardware: bool)
    requires Inv(env, s) && s.current == Some(e) && s.posted == []
    requires e in s.entries && s.entries[e].owner == ForKey(k)
    ensures k in s.items && Answered(env, s, hardware).Next?
    ensures var s' := Answered(env, s, hardware).state;
            && (k in s'.verified <==> hardware && RootSigned(env, s.items[k].cert))
            && s'.verified == (if k in s'.verified then [k] + s.verified else s.verified)
            && s'.items == (if k in s'.verified then s.items[k := KeyItem(s.items[k].cert, 1)] else s.items - {k})
            && s'.ecdh == (if k in s'.verified then Some(k) else None)
            && s'.queued == s.queued[1..] && s'.entries == s.entries - {e} && !s'.addInUse
  {
    AnsweredIs(env, s, hardware);
    FinishIs(env, s, e, hardware);
    assert k == s.queued[0] && k in s.queued && k !in s.verified;
    NotHeld(env, s, k);
    KeyDelivered(env, s, Finish(env, s, hardware, true).state, e, k);
  }

  /** The delivery of the one completion posted, for the certificate at the head of the queue. */
  lemma KeyDelivered(env: Env, s: State, s1: State, e: nat, k: nat)
    requires e in s.entries && e in s1.entries && s1.entries[e].owner == ForKey(k)
    requires s1.entries == s.entries[e := s1.entries[e]] && s1.posted == [e]
    requires s1.ecdh.None? && |s1.queued| > 0 && s1.queued[0] == k && k in s1.items && s1.items[k].pins == 0
    ensures Deliver(env, s1).Next?
    ensures var s', good := Deliver(env, s1).state, s1.entries[e].result;
            && s'.verified == (if good then [k] + s1.verified else s1.verified)
            && s'.items == (if good then s1.items[k := KeyItem(s1.items[k].cert, 1)] else s1.items - {k})
            && s'.ecdh == (if good then Some(k) else None)
            && s'.queued == s1.queued[1..] && s'.entries == s.entries - {e} && !s'.addInUse
  {
    assert s1.entries - {e} == s.entries - {e};
  }

  /** A queued key is not pinned. */
  lemma NotHeld(env: Env, s: State, k: nat)
    requires Inv(env, s) && k in s.queued && s.ecdh.None?
    ensures k in s.items && s.items[k].pins == 0
  {
    assert Holders(s.rx, k) == {};
  }

  /** The request is answered with the check of the bytes it is for. */
  lemma FinishIs(env: Env, s: State, e: nat, hardware: bool)
    requires Inv(env, s) && s.current == Some(e)
    ensures e in s.entries && Finish(env, s, hardware, true).Next?
    ensures Finish(env, s, hardware, true).state ==
            s.(entries := s.entries[e := s.entries[e].(result := hardware && Genuine(env, s, e))],
               current := None, posted := s.posted + [e])
  {
    assert Pending(s)[|s.posted|] == e;
    ReferencesLive(env, s, e);
    if s.entries[e].owner.ForKey? {
      assert s.addBuffer[..|s.addBuffer|] == s.addBuffer;
    } else {
      var message := s.rx[s.entries[e].owner.rx].payload;
      assert message[..|message|] == message;
    }
  }

  /** The signature that request e is about is good. */
  ghost predicate Genuine(env: Env, s: State, e: nat)
    requires e in s.entries
  {
    match s.entries[e].owner
    case ForKey(k) => k in s.items && RootSigned(env, s.items[k].cert)
    case ForTrust(r) =>
      r in s.rx && s.rx[r].key in s.items && env.verify(s.items[s.rx[r].key].cert.publicKey, s.rx[r].payload)
  }

  /**
   Received trust under verification is merged, in the name of the key's subject, if and only if the
   hardware works and the signature is good; either way its item, request and pin are released.
   */
  lemma TrustAnswer(env: Env, s: State, e: nat, r: nat, hardware: bool)
    requires Inv(env, s) && s.current == Some(e) && s.posted == []
    requires e in s.entries && s.entries[e].owner == ForTrust(r)
    ensures r in s.rx && s.rx[r].key in s.items && Answered(env, s, hardware).Next?
    ensures var s', item, key := Answered(env, s, hardware).state, s.rx[r], s.items[s.rx[r].key];
            && s'.merged == s.merged + (if hardware && env.verify(key.cert.publicKey, item.payload)
                                        then [Merge(key.cert.subject, item.payload)] else [])
            && s'.rx == s.rx - {r} && s'.entries == s.entries - {e}
            && key.pins > 0 && s'.items == s.items[item.key := KeyItem(key.cert, key.pins - 1)]
            && s'.verified == s.verified && s'.queued == s.queued
  {
    AnsweredIs(env, s, hardware);
    FinishIs(env, s, e, hardware);
    RequestHeld(env, s, e, r);
    var s1 := Finish(env, s, hardware, true).state;
    assert s1.entries - {e} == s.entries - {e};
    assert s1.posted == [e];
  }

  // ---------------------------------------------------------------------------
  // Only signed trust is merged.
  // ---------------------------------------------------------------------------

  /** The message verifies under the key of a certificate for this subject that the root signed. */
  ghost predicate Justified(env: Env, m: Merge) {
    exists c: Cert :: c.Valid() && c.subject == m.subject && RootSigned(env, c) && env.verify(c.publicKey, m.message)
  }

  ghost predicate AllJustified(env: Env, merged: seq<Merge>) {
    forall i :: 0 <= i < |merged| ==> Justified(env, merged[i])
  }

  lemma StepJustifies(env: Env, s: State, ev: Event)
    requires Inv(env, s) && Possible(ev) && AllJustified(env, s.merged)
    ensures Step(env, s, ev).Next? && AllJustified(env, Step(env, s, ev).state.merged)
  {
    NeverFaults(env, s, ev);
    if ev.DeliverEvent? {
      DeliverJustifies(env, s);
    } else {
      OthersMergeNothing(env, s, ev);
    }
  }

  lemma OthersMergeNothing(env: Env, s: State, ev: Event)
    requires !ev.DeliverEvent? && Step(env, s, ev).Next?
    ensures Step(env, s, ev).state.merged == s.merged
  {
  }

  lemma DeliverJustifies(env: Env, s: State)
    requires Inv(env, s) && AllJustified(env, s.merged) && Deliver(env, s).Next?
    ensures AllJustified(env, Deliver(env, s).state.merged)
  {
    if |s.posted| > 0 {
      var e := s.posted[0];
      assert Pending(s)[0] == e && e in s.entries;
      if s.entries[e].owner.ForTrust? {
        RequestHeld(env, s, e, s.entries[e].owner.rx);
        RxContinueResult(s, e, s.entries[e].owner.rx);
        if s.entries[e].result {
          ResultJustifies(env, s, e, s.entries[e].owner.rx);
        }
      }
    }
  }

  lemma ResultJustifies(env: Env, s: State, e: nat, r: nat)
    requires Inv(env, s) && e in s.entries && s.entries[e].owner == ForTrust(r) && s.entries[e].result
    ensures r in s.rx && s.rx[r].key in s.items
    ensures Justified(env, Merge(s.items[s.rx[r].key].cert.subject, s.rx[r].payload))
  {
    RequestHeld(env, s, e, r);
    assert ResultOk(env, s.entries[e], s.items, s.rx, s.addBuffer);
    var item := s.rx[r];
    assert item.payload[..|item.payload|] == item.payload;
    assert item.key in s.verified;
    assert env.verify(s.items[item.key].cert.publicKey, item.payload);
  }

  lemma {:induction false} RunJustifies(env: Env, s: State, events: seq<Event>)
    requires Inv(env, s) && AllPossible(events) && AllJustified(env, s.merged)
    ensures RunFrom(env, s, events).Next? && AllJustified(env, RunFrom(env, s, events).state.merged)
    decreases |events|
  {
    if |events| > 0 {
      StepKeeps(env, s, events[0]);
      StepJustifies(env, s, events[0]);
      RunJustifies(env, Step(env, s, events[0]).state, events[1..]);
    }
  }

  /**
   Over every run, whatever trust was merged is signed under the key of a certificate for that very
   subject, and that certificate is signed by the root.
   */
  lemma MergedBySignature(env: Env, events: seq<Event>, i: nat)
    requires env.root.Valid() && AllPossible(events)
    requires Run(env, events).Next? && i < |Run(env, events).state.merged|
    ensures Justified(env, Run(env, events).state.merged[i])
  {
    InitOk(env);
    RunJustifies(env, Init(env), events);
  }

  // ---------------------------------------------------------------------------
  // What a state is bound to accept.
  // ---------------------------------------------------------------------------

  /** The verifier has already said no, for instance because the hardware failed. */
  ghost predicate Refused(s: State, k: nat) {
    exists e :: e in s.posted && e in s.entries && s.entries[e].owner == ForKey(k) && !s.entries[e].result
  }

  /** The key is verified, or is queued, signed by the root and not refused. */
  ghost predicate Destined(env: Env, s: State, k: nat) {
    k in s.verified || (k in s.queued && k in s.items && RootSigned(env, s.items[k].cert) && !Refused(s, k))
  }

  /** The answer request e has, or will have if the hardware works. */
  ghost predicate AnswerOf(env: Env, s: State, e: nat)
    requires e in s.entries
  {
    if e in s.posted then s.entries[e].result else Genuine(env, s, e)
  }

  /** What request e will merge. */
  ghost function MergesOf(env: Env, s: State, e: nat): seq<Merge> {
    if e in s.entries && s.entries[e].owner.ForTrust? && s.entries[e].owner.rx in s.rx
    then MergeOf(s.items, s.rx[s.entries[e].owner.rx], AnswerOf(env, s, e)) else []
  }

  ghost function MergesFrom(env: Env, s: State, es: seq<nat>): seq<Merge> {
    if |es| == 0 then [] else MergesOf(env, s, es[0]) + MergesFrom(env, s, es[1..])
  }

  /** All trust that has been merged, or will be, in the order in which it was received. */
  ghost function DestinedMerges(env: Env, s: State): seq<Merge> {
    s.merged + MergesFrom(env, s, Pending(s))
  }

  /** An internal step of working hardware; a request that is due finds room. */
  ghost predicate Works(env: Env, s: State, ev: Event) {
    && Internal(ev) && (ev.FinishRequest? ==> ev.hardware)
    && (ev.Poll? ==> exists e: nat :: e < env.entryCap && e !in s.entries)
  }

  /** The same keys are destined, with the same certificates. */
  ghost predicate SameKeys(env: Env, s: State, s': State) {
    forall k :: (Destined(env, s', k) <==> Destined(env, s, k)) && (Destined(env, s, k) ==> SameCert(s.items, s'.items, k))
  }

  /** The same keys are destined, and the same trust in the same order. */
  ghost predicate SameDestiny(env: Env, s: State, s': State) {
    SameKeys(env, s, s') && DestinedMerges(env, s') == DestinedMerges(env, s)
  }

  lemma {:induction false} MergesAppend(env: Env, s: State, es: seq<nat>, fs: seq<nat>)
    ensures MergesFrom(env, s, es + fs) == MergesFrom(env, s, es) + MergesFrom(env, s, fs)
    decreases |es|
  {
    if |es| == 0 {
      assert es + fs == fs;
    } else {
      MergesAppend(env, s, es[1..], fs);
      assert (es + fs)[1..] == es[1..] + fs;
      Associate(MergesOf(env, s, es[0]), MergesFrom(env, s, es[1..]), MergesFrom(env, s, fs));
    }
  }

  lemma {:induction false} MergesSame(env: Env, s: State, s': State, es: seq<nat>)
    requires forall e :: e in es ==> MergesOf(env, s', e) == MergesOf(env, s, e)
    ensures MergesFrom(env, s', es) == MergesFrom(env, s, es)
    decreases |es|
  {
    if |es| > 0 {
      assert es[0] in es && forall e :: e in es[1..] ==> e in es;
      MergesSame(env, s, s', es[1..]);
    }
  }

  /** Request e, the item it is for and the key of that item are as they were. */
  ghost predicate SameRequest(s: State, s': State, e: nat)
    requires e in s.entries
  {
    && e in s'.entries && s'.entries[e] == s.entries[e] && (e in s'.posted <==> e in s.posted)
    && (s.entries[e].owner.ForTrust? && s.entries[e].owner.rx in s.rx ==>
          var r := s.entries[e].owner.rx;
          r in s'.rx && s'.rx[r] == s.rx[r] && SameCert(s.items, s'.items, s.rx[r].key))
  }

  lemma SameRequestMerges(env: Env, s: State, s': State, e: nat)
    requires e in s.entries && SameRequest(s, s', e)
    requires s.entries[e].owner.ForTrust? ==> s.entries[e].owner.rx in s.rx
    ensures MergesOf(env, s', e) == MergesOf(env, s, e)
  {
  }

  /** A step that leaves lists, certificates and refusals alone leaves the destined keys alone. */
  lemma KeysFrame(env: Env, s: State, s': State)
    requires ListsOk(env, s.items, s.verified, s.queued)
    requires s'.verified == s.verified && s'.queued == s.queued && forall k :: k in s.items ==> SameCert(s.items, s'.items, k)
    requires forall k :: k in s.queued ==> (Refused(s', k) <==> Refused(s, k))
    ensures SameKeys(env, s, s')
  {
  }

  lemma SameRefusals(s: State, s': State)
    requires s'.posted == s.posted && forall e :: e in s.posted ==> e in s.entries && e in s'.entries && s'.entries[e] == s.entries[e]
    ensures forall k :: Refused(s', k) <==> Refused(s, k)
  {
  }

  /** Requests still to be answered are allocated, with the items and keys they are for. */
  ghost predicate Linked(s: State) {
    && (forall e :: e in s.posted ==> e in Pending(s))
    && (forall e :: e in Pending(s) ==> e in s.entries)
    && (forall e :: e in s.entries && s.entries[e].owner.ForTrust? ==> s.entries[e].owner.rx in s.rx)
    && (forall r :: r in s.rx ==> s.rx[r].key in s.items && s.rx[r].key in s.verified)
  }

  lemma PendingRequests(env: Env, s: State)
    requires ListsOk(env, s.items, s.verified, s.queued) && EntriesOk(Pending(s), s.entries)
    requires TrustOk(s.entries, s.rx) && RxOk(env, s.rx, s.verified)
    ensures Linked(s)
  {
  }

  lemma SamePending(env: Env, s: State, s': State)
    requires Linked(s) && s'.merged == s.merged && Pending(s') == Pending(s)
    requires forall e :: e in Pending(s) && e in s.entries ==> SameRequest(s, s', e)
    ensures DestinedMerges(env, s') == DestinedMerges(env, s)
  {
    forall e | e in Pending(s)
      ensures MergesOf(env, s', e) == MergesOf(env, s, e)
    {
      SameRequestMerges(env, s, s', e);
    }
    MergesSame(env, s, s', Pending(s));
  }

  /** With a valid certificate and room, a poll makes the request for the head of the queue. */
  lemma PollStarts(env: Env, s: State)
    requires Inv(env, s) && env.Valid() && Works(env, s, Poll)
    requires s.ecdh.None? && !s.addInUse && |s.queued| > 0
    ensures FirstFree(s.entries.Keys, 0, env.entryCap).Some? && s.queued[0] in s.items
    ensures AddStart(env, s) == Next(Started(env, s, FirstFree(s.entries.Keys, 0, env.entryCap).value))
  {
    assert s.queued[0] in s.queued;
    LengthBounds(s.items[s.queued[0]].cert);
  }

  /** Request e is for the head of the queue. */
  ghost function Started(env: Env, s: State, e: nat): State
    requires |s.queued| > 0 && s.queued[0] in s.items
  {
    var k := s.queued[0];
    var m := env.Signed(s.items[k].cert);
    s.(addBuffer := m, entries := s.entries[e := Entry(ForKey(k), |m|, false)], queue := s.queue + [e], addInUse := true)
  }

  /**
   When nothing is being verified or exchanged, a poll requests the verification of the head of the queue
   if and only if a request is free; otherwise that certificate is given up.
   */
  lemma PollIff(env: Env, s: State)
    requires Inv(env, s) && env.Valid() && s.ecdh.None? && !s.addInUse && |s.queued| > 0
    ensures AddStart(env, s).Next? && s.queued[0] in s.items
    ensures var s', k := AddStart(env, s).state, s.queued[0];
            if exists e: nat :: e < env.entryCap && e !in s.entries
            then exists e :: e !in s.entries && s' == Started(env, s, e)
            else s'.queued == s.queued[1..] && s'.items == s.items - {k} && s'.entries == s.entries && !s'.addInUse
  {
    assert s.queued[0] in s.queued;
    if exists e: nat :: e < env.entryCap && e !in s.entries {
      PollStarts(env, s);
      var e := FirstFree(s.entries.Keys, 0, env.entryCap).value;
      assert e !in s.entries && AddStart(env, s).state == Started(env, s, e);
    } else {
      LengthBounds(s.items[s.queued[0]].cert);
      PollGivesUp(env, s, s.queued[0]);
    }
  }

  lemma PollGivesUp(env: Env, s: State, k: nat)
    requires s.ecdh.None? && !s.addInUse && |s.queued| > 0 && k == s.queued[0] && k in s.items
    requires |env.tbs(s.items[k].cert)| <= TBS_CBOR_LENGTH && FirstFree(s.entries.Keys, 0, env.entryCap).None?
    ensures AddStart(env, s) == Next(Dropped(s.(addBuffer := env.Signed(s.items[k].cert)), k))
    ensures Without(s.queued, k) == s.queued[1..]
  {
  }

  lemma StartedDestiny(env: Env, s: State, e: nat)
    requires ListsOk(env, s.items, s.verified, s.queued) && Linked(s)
    requires |s.queued| > 0 && s.queued[0] in s.items && e !in s.entries
    ensures SameDestiny(env, s, Started(env, s, e))
  {
    SameRefusals(s, Started(env, s, e));
    KeysFrame(env, s, Started(env, s, e));
    StartedMerges(env, s, e);
  }

  lemma StartedMerges(env: Env, s: State, e: nat)
    requires Linked(s) && |s.queued| > 0 && s.queued[0] in s.items && e !in s.entries
    ensures DestinedMerges(env, Started(env, s, e)) == DestinedMerges(env, s)
  {
    var s' := Started(env, s, e);
    assert Pending(s') == Pending(s) + [e];
    forall x | x in Pending(s)
      ensures MergesOf(env, s', x) == MergesOf(env, s, x)
    {
      SameRequestMerges(env, s, s', x);
    }
    MergesSame(env, s, s', Pending(s));
    MergesAppend(env, s', Pending(s), [e]);
    assert MergesFrom(env, s', [e]) == [];
  }

  lemma PollDestiny(env: Env, s: State)
    requires Inv(env, s) && env.Valid() && Works(env, s, Poll)
    ensures AddStart(env, s).Next? && SameDestiny(env, s, AddStart(env, s).state)
  {
    if s.ecdh.None? && !s.addInUse && |s.queued| > 0 {
      PollStarts(env, s);
      PendingRequests(env, s);
      StartedDestiny(env, s, FirstFree(s.entries.Keys, 0, env.entryCap).value);
    } else {
      KeysFrame(env, s, s);
    }
  }

  lemma TakeDestiny(env: Env, s: State)
    requires ListsOk(env, s.items, s.verified, s.queued) && Linked(s)
    ensures SameDestiny(env, s, Take(s))
  {
    SameRefusals(s, Take(s));
    KeysFrame(env, s, Take(s));
    TakeMerges(env, s);
  }

  lemma TakeMerges(env: Env, s: State)
    requires Linked(s)
    ensures DestinedMerges(env, Take(s)) == DestinedMerges(env, s)
  {
    assert Pending(Take(s)) == Pending(s);
    SamePending(env, s, Take(s));
  }

  /** The verifier has answered request e. */
  ghost function Judged(env: Env, s: State, e: nat): State
    requires e in s.entries
  {
    s.(entries := s.entries[e := s.entries[e].(result := Genuine(env, s, e))], current := None, posted := s.posted + [e])
  }

  lemma FinishDestiny(env: Env, s: State, e: nat)
    requires ListsOk(env, s.items, s.verified, s.queued) && Linked(s) && EntriesOk(Pending(s), s.entries)
    requires s.current == Some(e) && e in s.entries
    ensures SameDestiny(env, s, Judged(env, s, e))
  {
    FinishRefuses(env, s, e);
    JudgedKeys(env, s, e);
    assert Pending(Judged(env, s, e)) == Pending(s);
    forall x | x in Pending(s)
      ensures MergesOf(env, Judged(env, s, e), x) == MergesOf(env, s, x)
    {
      JudgedMerges(env, s, e, x);
    }
    MergesSame(env, s, Judged(env, s, e), Pending(s));
  }

  lemma JudgedMerges(env: Env, s: State, e: nat, x: nat)
    requires e in s.entries && x in s.entries && e !in s.posted
    ensures MergesOf(env, Judged(env, s, e), x) == MergesOf(env, s, x)
  {
    assert x in Judged(env, s, e).posted <==> x in s.posted || x == e;
  }

  /** Finishing a request refuses its certificate exactly when that is not genuine. */
  lemma FinishRefuses(env: Env, s: State, e: nat)
    requires EntriesOk(Pending(s), s.entries) && s.current == Some(e) && e in s.entries
    ensures e !in s.posted
    ensures forall k :: Refused(Judged(env, s, e), k) <==>
                        Refused(s, k) || (s.entries[e].owner == ForKey(k) && !Genuine(env, s, e))
  {
    var s' := Judged(env, s, e);
    assert Pending(s)[|s.posted|] == e;
    assert forall i :: 0 <= i < |s.posted| ==> Pending(s)[i] == s.posted[i];
    forall k
      ensures Refused(s', k) <==> Refused(s, k) || (s.entries[e].owner == ForKey(k) && !Genuine(env, s, e))
    {
      if Refused(s, k) {
        var x :| x in s.posted && x in s.entries && s.entries[x].owner == ForKey(k) && !s.entries[x].result;
        assert x in s'.posted && s'.entries[x] == s.entries[x];
      }
      if s.entries[e].owner == ForKey(k) && !Genuine(env, s, e) {
        assert e in s'.posted && !s'.entries[e].result;
      }
    }
  }

  lemma JudgedKeys(env: Env, s: State, e: nat)
    requires ListsOk(env, s.items, s.verified, s.queued) && e in s.entries
    requires forall k :: Refused(Judged(env, s, e), k) <==>
                         Refused(s, k) || (s.entries[e].owner == ForKey(k) && !Genuine(env, s, e))
    ensures SameKeys(env, s, Judged(env, s, e))
  {
  }

  /** The delivered completion is not among the others. */
  lemma PostedFirst(s: State, e: nat)
    requires NoDup(Pending(s)) && |s.posted| > 0 && e == s.posted[0]
    ensures forall x :: x in s.posted[1..] <==> x in s.posted && x != e
  {
    assert forall i :: 0 <= i < |s.posted| ==> Pending(s)[i] == s.posted[i];
    assert s.posted == [e] + s.posted[1..];
  }

  /** Delivering a completion merges what it was bound to, and the others keep what they are bound to. */
  lemma DeliveryMerges(env: Env, s: State, s': State, e: nat)
    requires Linked(s) && EntriesOk(Pending(s), s.entries) && |s.posted| > 0 && e == s.posted[0]
    requires s'.posted == s.posted[1..] && s'.current == s.current && s'.queue == s.queue
    requires s'.merged == s.merged + MergesOf(env, s, e)
    requires forall x :: x in Pending(s) && x in s.entries && x != e ==> SameRequest(s, s', x)
    ensures DestinedMerges(env, s') == DestinedMerges(env, s)
  {
    AnswersFirst(s, s');
    forall x | x in Pending(s')
      ensures MergesOf(env, s', x) == MergesOf(env, s, x)
    {
      SameRequestMerges(env, s, s', x);
    }
    MergesSame(env, s, s', Pending(s'));
    FirstMerges(env, s, s', e);
  }

  lemma FirstMerges(env: Env, s: State, s': State, e: nat)
    requires |s.posted| > 0 && e == s.posted[0]
    requires s'.posted == s.posted[1..] && s'.current == s.current && s'.queue == s.queue
    requires s'.merged == s.merged + MergesOf(env, s, e)
    ensures s'.merged + MergesFrom(env, s, Pending(s')) == DestinedMerges(env, s)
  {
    assert Pending(s)[0] == e && Pending(s)[1..] == Pending(s');
    Associate(s.merged, MergesOf(env, s, e), MergesFrom(env, s, Pending(s')));
  }

  lemma TrustDeliveryDestiny(env: Env, s: State, e: nat, r: nat)
    requires ListsOk(env, s.items, s.verified, s.queued) && Linked(s) && EntriesOk(Pending(s), s.entries)
    requires |s.posted| > 0 && e == s.posted[0] && Held(s, e, r) && s.entries[e].owner == ForTrust(r)
    ensures SameDestiny(env, s, Released(s, e, r))
  {
    PostedFirst(s, e);
    ReleasedRefusals(s, e, r);
    KeysFrame(env, s, Released(s, e, r));
    ReleasedMerges(env, s, e, r);
  }

  lemma ReleasedMerges(env: Env, s: State, e: nat, r: nat)
    requires Linked(s) && EntriesOk(Pending(s), s.entries)
    requires |s.posted| > 0 && e == s.posted[0] && Held(s, e, r) && s.entries[e].owner == ForTrust(r)
    requires forall x :: x in s.posted[1..] <==> x in s.posted && x != e
    ensures DestinedMerges(env, Released(s, e, r)) == DestinedMerges(env, s)
  {
    var s' := Released(s, e, r);
    forall x | x in Pending(s) && x in s.entries && x != e
      ensures SameRequest(s, s', x)
    {
      assert s.entries[x].owner != ForTrust(r);
    }
    DeliveryMerges(env, s, s', e);
  }

  lemma ReleasedRefusals(s: State, e: nat, r: nat)
    requires |s.posted| > 0 && Held(s, e, r) && s.entries[e].owner == ForTrust(r)
    requires forall x :: x in s.posted[1..] <==> x in s.posted && x != e
    ensures forall k :: Refused(Released(s, e, r), k) <==> Refused(s, k)
  {
    forall k
      ensures Refused(Released(s, e, r), k) <==> Refused(s, k)
    {
      if Refused(s, k) {
        var x :| x in s.posted && x in s.entries && s.entries[x].owner == ForKey(k) && !s.entries[x].result;
        assert x != e && x in s.posted[1..] && x in s.entries - {e};
      }
    }
  }

  lemma KeyDeliveryDestiny(env: Env, s: State, e: nat, k: nat)
    requires Inv(env, s) && |s.posted| > 0 && e == s.posted[0] && e in s.entries && s.entries[e].owner == ForKey(k)
    ensures Deliver(env, s).Next? && SameDestiny(env, s, Deliver(env, s).state)
  {
    DeliverKeeps(env, s);
    var s' := Deliver(env, s).state;
    PendingRequests(env, s);
    PostedFirst(s, e);
    assert k == s.queued[0] && k in s.queued && k !in s.verified;
    WithoutProperties(s.queued, k);
    NoKeyEntryLeft(env, s, e);
    KeyDeliveryKeys(env, s, e, k);
    forall x | x in Pending(s) && x in s.entries && x != e
      ensures SameRequest(s, s', x)
    {
      assert x in s.entries - {e} && s.entries[x].owner.ForTrust?;
    }
    assert s'.merged == s.merged + [];
    DeliveryMerges(env, s, s', e);
  }

  lemma KeyDeliveryKeys(env: Env, s: State, e: nat, k: nat)
    requires Inv(env, s) && |s.posted| > 0 && e == s.posted[0] && e in s.entries && s.entries[e].owner == ForKey(k)
    requires Deliver(env, s).Next? && k in s.queued && k !in s.verified
    requires forall y :: y in Without(s.queued, k) <==> y in s.queued && y != k
    requires forall x :: x in s.entries - {e} ==> s.entries[x].owner.ForTrust?
    ensures SameKeys(env, s, Deliver(env, s).state)
  {
    var s' := Deliver(env, s).state;
    OnlyRefusal(s, e, k);
    NoRefusal(s', s, e);
    if s.entries[e].result {
      ReferencesLive(env, s, e);
      assert ResultOk(env, s.entries[e], s.items, s.rx, s.addBuffer);
      assert s.addBuffer[..|s.addBuffer|] == s.addBuffer;
      assert RootSigned(env, s.items[k].cert);
      AcceptedKeys(env, s, s', k);
    } else {
      RejectedKeys(env, s, s', k);
    }
  }

  lemma OnlyRefusal(s: State, e: nat, k: nat)
    requires e in s.posted && e in s.entries && s.entries[e].owner == ForKey(k)
    requires forall x :: x in s.entries - {e} ==> s.entries[x].owner.ForTrust?
    ensures forall y :: Refused(s, y) <==> y == k && !s.entries[e].result
  {
    assert forall x :: x in s.entries && s.entries[x].owner.ForKey? ==> x == e;
  }

  lemma NoRefusal(s': State, s: State, e: nat)
    requires s'.entries == s.entries - {e}
    requires forall x :: x in s.entries - {e} ==> s.entries[x].owner.ForTrust?
    ensures forall y :: !Refused(s', y)
  {
  }

  lemma AcceptedKeys(env: Env, s: State, s': State, k: nat)
    requires ListsOk(env, s.items, s.verified, s.queued) && k in s.queued && k !in s.verified
    requires RootSigned(env, s.items[k].cert) && (forall y :: !Refused(s, y)) && forall y :: !Refused(s', y)
    requires s'.verified == [k] + s.verified && forall y :: y in s'.queued <==> y in s.queued && y != k
    requires s'.items.Keys == s.items.Keys && forall y :: y in s.items ==> s'.items[y].cert == s.items[y].cert
    ensures SameKeys(env, s, s')
  {
    assert forall y :: y in s'.verified <==> y in s.verified || y == k;
  }

  lemma RejectedKeys(env: Env, s: State, s': State, k: nat)
    requires ListsOk(env, s.items, s.verified, s.queued) && k in s.queued && k !in s.verified
    requires (forall y :: Refused(s, y) <==> y == k) && forall y :: !Refused(s', y)
    requires s'.verified == s.verified && forall y :: y in s'.queued <==> y in s.queued && y != k
    requires s'.items == s.items - {k}
    ensures SameKeys(env, s, s')
  {
  }

  lemma DeliverDestiny(env: Env, s: State)
    requires Inv(env, s)
    ensures Deliver(env, s).Next? && SameDestiny(env, s, Deliver(env, s).state)
  {
    if |s.posted| > 0 {
      var e := s.posted[0];
      assert Pending(s)[0] == e && e in s.entries;
      match s.entries[e].owner
      case ForTrust(r) =>
        RequestHeld(env, s, e, r);
        RxContinueResult(s, e, r);
        PendingRequests(env, s);
        TrustDeliveryDestiny(env, s, e, r);
      case ForKey(k) => KeyDeliveryDestiny(env, s, e, k);
    } else {
      KeysFrame(env, s, s);
    }
  }

  /** A step that changes nothing but pins and the key exchange. */
  lemma PinsDestiny(env: Env, s: State, items: map<nat, KeyItem>, ecdh: Option<nat>)
    requires ListsOk(env, s.items, s.verified, s.queued) && Linked(s)
    requires forall k :: k in s.items ==> SameCert(s.items, items, k)
    ensures SameDestiny(env, s, s.(items := items, ecdh := ecdh))
  {
    var s' := s.(items := items, ecdh := ecdh);
    SameRefusals(s, s');
    KeysFrame(env, s, s');
    assert Pending(s') == Pending(s);
    SamePending(env, s, s');
  }

  lemma EcdhDestiny(env: Env, s: State)
    requires ListsOk(env, s.items, s.verified, s.queued) && Linked(s) && EcdhDone(s).Next?
    ensures SameDestiny(env, s, EcdhDone(s).state)
  {
    match s.ecdh
    case None => KeysFrame(env, s, s);
    case Some(k) => PinsDestiny(env, s, s.items[k := s.items[k].(pins := s.items[k].pins - 1)], None);
  }

  /** No internal step of working hardware changes what the state is bound to accept. */
  lemma StepKeepsDestiny(env: Env, s: State, ev: Event)
    requires Inv(env, s) && env.Valid() && Works(env, s, ev)
    ensures Step(env, s, ev).Next? && SameDestiny(env, s, Step(env, s, ev).state)
  {
    NeverFaults(env, s, ev);
    PendingRequests(env, s);
    match ev
    case Poll => PollDestiny(env, s);
    case TakeRequest => TakeDestiny(env, s);
    case FinishRequest(_, _) =>
      if s.current.Some? {
        FinishIs(env, s, s.current.value, true);
        FinishDestiny(env, s, s.current.value);
      } else {
        KeysFrame(env, s, s);
      }
    case DeliverEvent => DeliverDestiny(env, s);
    case FinishEcdh => EcdhDestiny(env, s);
  }

  // ---------------------------------------------------------------------------
  // Everything genuine is accepted.
  // ---------------------------------------------------------------------------

  /** Every step along the run is one of working hardware, and finds room. */
  ghost predicate AllWork(env: Env, s: State, events: seq<Event>)
    decreases |events|
  {
    |events| == 0 ||
    (Works(env, s, events[0]) && (Step(env, s, events[0]).Next? ==> AllWork(env, Step(env, s, events[0]).state, events[1..])))
  }

  lemma DestinyTransitive(env: Env, a: State, b: State, c: State)
    requires SameDestiny(env, a, b) && SameDestiny(env, b, c)
    ensures SameDestiny(env, a, c)
  {
  }

  /** Along every such run, in whatever order the steps are taken, what will be accepted does not change. */
  lemma {:induction false} RunKeepsDestiny(env: Env, s: State, events: seq<Event>)
    requires Inv(env, s) && env.Valid() && AllWork(env, s, events)
    ensures RunFrom(env, s, events).Next? && SameDestiny(env, s, RunFrom(env, s, events).state)
    decreases |events|
  {
    if |events| == 0 {
      KeysFrame(env, s, s);
    } else {
      StepKeeps(env, s, events[0]);
      StepKeepsDestiny(env, s, events[0]);
      var s1 := Step(env, s, events[0]).state;
      RunKeepsDestiny(env, s1, events[1..]);
      DestinyTransitive(env, s, s1, RunFrom(env, s1, events[1..]).state);
    }
  }

  /** When nothing is left to do, what was destined has happened. */
  lemma DrainedDestiny(env: Env, s: State)
    requires Drained(s)
    ensures forall k :: Destined(env, s, k) <==> k in s.verified
    ensures DestinedMerges(env, s) == s.merged
  {
    assert MergesFrom(env, s, Pending(s)) == [];
  }

  /**
   If a run of such steps leaves nothing to do, exactly the keys that were verified, and the queued ones
   that the root signed and the verifier had not refused, are verified; and all trust with a good
   signature has been merged, in the order in which it came.
   */
  lemma GenuineIsAccepted(env: Env, s: State, events: seq<Event>)
    requires Inv(env, s) && env.Valid() && AllWork(env, s, events)
    ensures RunFrom(env, s, events).Next?
    ensures var s' := RunFrom(env, s, events).state;
            Drained(s') ==>
              && (forall k :: k in s'.verified <==> Destined(env, s, k))
              && (forall k :: k in s'.verified ==> SameCert(s.items, s'.items, k))
              && s'.merged == s.merged + MergesFrom(env, s, Pending(s))
  {
    RunKeepsDestiny(env, s, events);
    var s' := RunFrom(env, s, events).state;
    if Drained(s') {
      DrainedDestiny(env, s');
    }
  }

  lemma DueWorks(env: Env, s: State)
    requires Sound(env, s) && Due(s).Some? && env.entryCap > 0
    ensures Works(env, s, Due(s).value)
  {
    if Due(s).value.Poll? {
      NoRequests(s);
      assert 0 < env.entryCap && 0 !in s.entries;
    }
  }

  /** The schedule of Drains is such a run. */
  lemma {:induction false} AcceptsAll(env: Env, s: State) returns (events: seq<Event>)
    requires Sound(env, s) && env.entryCap > 0
    ensures AllWork(env, s, events) && AllInternal(events)
    ensures RunFrom(env, s, events).Next? && Drained(RunFrom(env, s, events).state)
    decreases if Work(s) >= 0 then Work(s) + 1 else 0
  {
    WorkIsNat(env, s);
    if Due(s).None? {
      NothingDue(env, s);
      events := [];
    } else {
      var ev := Due(s).value;
      DueStep(env, s);
      DueWorks(env, s);
      var s1 := Step(env, s, ev).state;
      WorkIsNat(env, s1);
      var rest := AcceptsAll(env, s1);
      events := [ev] + rest;
      assert events[1..] == rest;
    }
  }

  /**
   After every run of the firmware that lost no completion, its own steps can finish so that every queued
   certificate the root signed is verified, unless the verifier had already refused it, no other
   certificate is, and all genuine trust received is merged in order.
   */
  lemma FirmwareAccepts(env: Env, events: seq<Event>) returns (more: seq<Event>)
    requires env.Valid() && AllPossible(events) && env.entryCap > 0 && NoDrops(env, Init(env), events)
    ensures Run(env, events).Next? && AllInternal(more) && RunFrom(env, Run(env, events).state, more).Next?
    ensures var s, s' := Run(env, events).state, RunFrom(env, Run(env, events).state, more).state;
            && Drained(s') && (forall k :: k in s'.verified <==> Destined(env, s, k))
            && s'.merged == s.merged + MergesFrom(env, s, Pending(s))
  {
    InitOk(env);
    FirmwareLossIff(env, events);
    RunFromIsSafe(env, Init(env), events);
    RunHolds(env, Init(env), events);
    more := AcceptsAll(env, Run(env, events).state);
    GenuineIsAccepted(env, Run(env, events).state, more);
  }

  /** A node with room for one key and one request verifies its own root certificate, if that is signed by itself. */
  lemma RootIsAccepted(env: Env)
    requires env.Valid() && env.keyCap > 0 && env.entryCap > 0
    ensures var events := [Poll, TakeRequest, FinishRequest(true, true), DeliverEvent];
            && Run(env, events).Next?
            && (0 in Run(env, events).state.verified <==> RootSigned(env, env.root))
  {
    var s0 := Init(env);
    InitOk(env);
    assert FirstFree({}, 0, env.keyCap) == Some(0);
    var empty: map<nat, KeyItem> := map[];
    assert empty.Keys == {};
    assert s0.queued == [0] && s0.items[0].cert == env.root;
    assert Works(env, s0, Poll) by {
      assert 0 < env.entryCap && 0 !in s0.entries;
    }
    PollStarts(env, s0);
    var s1 := AddStart(env, s0).state;
    StepKeeps(env, s0, Poll);
    var s2 := Take(s1);
    StepKeeps(env, s1, TakeRequest);
    KeyAnswer(env, s2, s2.current.value, 0, true);
    RunIs(env, s0, s1, s2);
  }

  lemma RunIs(env: Env, s0: State, s1: State, s2: State)
    requires Step(env, s0, Poll) == Next(s1) && Take(s1) == s2
    ensures RunFrom(env, s0, [Poll, TakeRequest, FinishRequest(true, true), DeliverEvent]) == Answered(env, s2, true)
  {
    var events := [Poll, TakeRequest, FinishRequest(true, true), DeliverEvent];
    assert events[1..] == [TakeRequest, FinishRequest(true, true), DeliverEvent];
    assert events[1..][1..] == [FinishRequest(true, true), DeliverEvent];
    assert RunFrom(env, s1, events[1..]) == RunFrom(env, s2, events[1..][1..]);
  }
}
