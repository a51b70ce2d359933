/** What every run of the keystore protocol keeps. */
module KeystoreSafety {
  import opened Common
  import opened Cbor
  import opened Certificate
  import opened Keystore

  /** Blocks in use are exactly those on the two lists, each on one list and once. */
  ghost predicate ListsOk(env: Env, items: map<nat, KeyItem>, verified: seq<nat>, queued: seq<nat>) {
    && NoDup(verified) && NoDup(queued)
    && (forall k :: k in verified ==> k !in queued)
    && (forall k :: k in items <==> k in verified || k in queued)
    && (forall k :: k in items ==> k < env.keyCap && items[k].cert.Valid())
  }

  /** The requests still to be answered, oldest first. */
  ghost function Pending(s: State): seq<nat> {
    s.posted + (if s.current.Some? then [s.current.value] else []) + s.queue
  }

  ghost predicate EntriesOk(pending: seq<nat>, entries: map<nat, Entry>) {
    && NoDup(pending)
    && (forall e :: e in pending ==> e in entries)
    && (forall e, e' :: e in entries && e' in entries && entries[e].owner == entries[e'].owner ==> e == e')
  }

  /** Every trust request has its receive item, with the same message. */
  ghost predicate TrustOk(entries: map<nat, Entry>, rx: map<nat, RxItem>) {
    forall e :: e in entries && entries[e].owner.ForTrust? ==>
      entries[e].owner.rx in rx && entries[e].messageLen == |rx[entries[e].owner.rx].payload|
  }

  /** The key of every receive item is on the verified list. */
  ghost predicate RxOk(env: Env, rx: map<nat, RxItem>, verified: seq<nat>) {
    forall r :: r in rx ==> r < env.rxCap && rx[r].key in verified
  }

  ghost function Holders(rx: map<nat, RxItem>, k: nat): set<nat> {
    set r | r in rx && rx[r].key == k
  }

  /** The pin count is the number of outstanding receive items plus one for a running key exchange. */
  ghost predicate PinsOk(items: map<nat, KeyItem>, rx: map<nat, RxItem>, ecdh: Option<nat>) {
    forall k :: k in items ==> items[k].pins == |Holders(rx, k)| + (if ecdh == Some(k) then 1 else 0)
  }

  /** At most one certificate is being verified: the head of the queue, and the buffer holds its bytes. */
  ghost predicate AddOk(
    env: Env, entries: map<nat, Entry>, items: map<nat, KeyItem>, queued: seq<nat>, addBuffer: seq<Byte>,
    addInUse: bool, ecdh: Option<nat>)
  {
    forall e :: e in entries && entries[e].owner.ForKey? ==>
      && addInUse && ecdh.None?
      && |queued| > 0 && entries[e].owner.slot == queued[0] && queued[0] in items
      && addBuffer == env.Signed(items[queued[0]].cert) && entries[e].messageLen == |addBuffer|
  }

  ghost predicate EcdhOk(ecdh: Option<nat>, verified: seq<nat>, addInUse: bool) {
    ecdh.Some? ==> ecdh.value in verified && !addInUse
  }

  /** A positive result was computed on the message and key that the pointers still lead to. */
  ghost predicate ResultsOk(
    env: Env, entries: map<nat, Entry>, items: map<nat, KeyItem>, rx: map<nat, RxItem>, addBuffer: seq<Byte>)
  {
    forall e :: e in entries && entries[e].result ==> ResultOk(env, entries[e], items, rx, addBuffer)
  }

  ghost predicate ResultOk(
    env: Env, e: Entry, items: map<nat, KeyItem>, rx: map<nat, RxItem>, addBuffer: seq<Byte>)
  {
    && KeyBytes(env, items, rx, e).Some? && MessageBytes(addBuffer, rx, e).Some?
    && env.verify(KeyBytes(env, items, rx, e).value, MessageBytes(addBuffer, rx, e).value)
  }

  ghost predicate VerifiedOk(env: Env, items: map<nat, KeyItem>, verified: seq<nat>) {
    forall k :: k in verified ==> k in items && env.verify(env.root.publicKey, env.Signed(items[k].cert))
  }

  ghost predicate Inv(env: Env, s: State) {
    && ListsOk(env, s.items, s.verified, s.queued)
    && EntriesOk(Pending(s), s.entries)
    && TrustOk(s.entries, s.rx)
    && RxOk(env, s.rx, s.verified)
    && PinsOk(s.items, s.rx, s.ecdh)
    && AddOk(env, s.entries, s.items, s.queued, s.addBuffer, s.addInUse, s.ecdh)
    && EcdhOk(s.ecdh, s.verified, s.addInUse)
    && ResultsOk(env, s.entries, s.items, s.rx, s.addBuffer)
    && VerifiedOk(env, s.items, s.verified)
  }

  // ---------------------------------------------------------------------------
  // Pin counting.
  // ---------------------------------------------------------------------------

  lemma HoldersAdded(rx: map<nat, RxItem>, r: nat, item: RxItem, k: nat)
    requires r !in rx
    ensures |Holders(rx[r := item], k)| == |Holders(rx, k)| + (if item.key == k then 1 else 0)
  {
    if item.key == k {
      assert Holders(rx[r := item], k) == Holders(rx, k) + {r};
    } else {
      assert Holders(rx[r := item], k) == Holders(rx, k);
    }
  }

  lemma HoldersRemoved(rx: map<nat, RxItem>, r: nat, k: nat)
    requires r in rx
    ensures |Holders(rx - {r}, k)| + (if rx[r].key == k then 1 else 0) == |Holders(rx, k)|
  {
    var rest := rx - {r};
    HoldersAdded(rest, r, rx[r], k);
    assert rest[r := rx[r]] == rx;
  }

  lemma HoldersSome(rx: map<nat, RxItem>, r: nat)
    requires r in rx
    ensures |Holders(rx, rx[r].key)| > 0
  {
    assert r in Holders(rx, rx[r].key);
  }

  // ---------------------------------------------------------------------------
  // Eviction.
  // ---------------------------------------------------------------------------

  /** Eviction removes only evictable items, keeps the lists and the pool in step, and changes nothing else. */
  ghost predicate Evicted(env: Env, items: map<nat, KeyItem>, verified: seq<nat>, f: Freed) {
    && (forall k :: k in f.items ==> k in items && f.items[k] == items[k])
    && (forall k :: k in f.verified ==> k in verified)
    && (forall k :: k in items && k !in f.items ==> k in verified && Evictable(env, items, k))
    && (forall k :: k in verified && k in f.items ==> k in f.verified)
  }

  lemma {:induction false} FreeUpEvicts(env: Env, items: map<nat, KeyItem>, verified: seq<nat>, queued: seq<nat>, i: nat)
    requires i <= |verified| && ListsOk(env, items, verified, queued)
    ensures var f := FreeUp(env, items, verified, i);
            ListsOk(env, f.items, f.verified, queued) && Evicted(env, items, verified, f)
    decreases |verified| - i
  {
    if i == |verified| {
    } else if !Evictable(env, items, verified[i]) {
      FreeUpEvicts(env, items, verified, queued, i + 1);
    } else {
      RemoveOne(env, items, verified, queued, i);
      var items', verified' := items - {verified[i]}, verified[..i] + verified[i + 1..];
      if !env.freeReturnsTrue && env.nextSurvivesRemoval {
        FreeUpEvicts(env, items', verified', queued, i);
        EvictedTransitive(env, items, verified, Freed(items', verified', true), FreeUp(env, items', verified', i));
      }
    }
  }

  lemma EvictedTransitive(env: Env, items: map<nat, KeyItem>, verified: seq<nat>, f: Freed, g: Freed)
    requires Evicted(env, items, verified, f) && Evicted(env, f.items, f.verified, g)
    ensures Evicted(env, items, verified, g)
  {
    forall k | k in items && k !in g.items
      ensures k in verified && Evictable(env, items, k)
    {
      if k in f.items {
        assert k in f.verified && Evictable(env, f.items, k);
      }
    }
  }

  lemma RemoveOne(env: Env, items: map<nat, KeyItem>, verified: seq<nat>, queued: seq<nat>, i: nat)
    requires i < |verified| && ListsOk(env, items, verified, queued) && Evictable(env, items, verified[i])
    ensures var f := Freed(items - {verified[i]}, verified[..i] + verified[i + 1..], true);
            ListsOk(env, f.items, f.verified, queued) && Evicted(env, items, verified, f)
  {
    var v := verified[..i] + verified[i + 1..];
    forall k
      ensures k in v <==> k in verified && k != verified[i]
    {
      if k in verified && k != verified[i] {
        var j :| 0 <= j < |verified| && verified[j] == k;
        assert v[if j < i then j else j - 1] == k;
      }
      if k in v {
        var j :| 0 <= j < |v| && v[j] == k;
        assert verified[if j < i then j else j + 1] == k;
      }
    }
    forall a, b | 0 <= a < b < |v|
      ensures v[a] != v[b]
    {
      assert v[a] == verified[if a < i then a else a + 1];
      assert v[b] == verified[if b < i then b else b + 1];
    }
  }

  // ---------------------------------------------------------------------------
  // Each step keeps the invariant and never faults.
  // ---------------------------------------------------------------------------

  /** A key that a receive item or the key exchange refers to is pinned. */
  lemma ReferencedIsPinned(env: Env, s: State)
    requires ListsOk(env, s.items, s.verified, s.queued) && RxOk(env, s.rx, s.verified)
    requires PinsOk(s.items, s.rx, s.ecdh) && EcdhOk(s.ecdh, s.verified, s.addInUse)
    ensures forall r :: r in s.rx ==> s.rx[r].key in s.items && s.items[s.rx[r].key].pins > 0
    ensures s.ecdh.Some? ==> s.ecdh.value in s.items && s.items[s.ecdh.value].pins > 0
  {
    forall r | r in s.rx
      ensures s.rx[r].key in s.items && s.items[s.rx[r].key].pins > 0
    {
      HoldersSome(s.rx, r);
    }
  }

  /** `items'` still holds the same certificate in block k. */
  ghost predicate SameCert(items: map<nat, KeyItem>, items': map<nat, KeyItem>, k: nat) {
    k in items && k in items' && items'[k].cert == items[k].cert
  }

  lemma ResultsFrame(
    env: Env, entries: map<nat, Entry>, items: map<nat, KeyItem>, items': map<nat, KeyItem>,
    rx: map<nat, RxItem>, buffer: seq<Byte>)
    requires ResultsOk(env, entries, items, rx, buffer) && TrustOk(entries, rx)
    requires forall r :: r in rx ==> SameCert(items, items', rx[r].key)
    ensures ResultsOk(env, entries, items', rx, buffer)
  {
    forall e | e in entries && entries[e].result
      ensures ResultOk(env, entries[e], items', rx, buffer)
    {
      assert ResultOk(env, entries[e], items, rx, buffer);
    }
  }

  lemma AddFrame(
    env: Env, entries: map<nat, Entry>, items: map<nat, KeyItem>, items': map<nat, KeyItem>,
    queued: seq<nat>, queued': seq<nat>, buffer: seq<Byte>, inUse: bool, ecdh: Option<nat>)
    requires AddOk(env, entries, items, queued, buffer, inUse, ecdh)
    requires |queued| > 0 ==> |queued'| > 0 && queued'[0] == queued[0] && SameCert(items, items', queued[0])
    ensures AddOk(env, entries, items', queued', buffer, inUse, ecdh)
  {
  }

  lemma VerifiedFrame(
    env: Env, items: map<nat, KeyItem>, items': map<nat, KeyItem>, verified: seq<nat>, verified': seq<nat>)
    requires VerifiedOk(env, items, verified)
    requires forall k :: k in verified' ==> k in verified && SameCert(items, items', k)
    ensures VerifiedOk(env, items', verified')
  {
  }

  lemma EvictKeeps(env: Env, s: State, f: Freed)
    requires Inv(env, s) && Evicted(env, s.items, s.verified, f) && ListsOk(env, f.items, f.verified, s.queued)
    ensures Inv(env, s.(items := f.items, verified := f.verified))
  {
    ReferencedIsPinned(env, s);
    assert forall r :: r in s.rx ==> SameCert(s.items, f.items, s.rx[r].key);
    assert |s.queued| > 0 ==> s.queued[0] in s.queued;
    ResultsFrame(env, s.entries, s.items, f.items, s.rx, s.addBuffer);
    AddFrame(env, s.entries, s.items, f.items, s.queued, s.queued, s.addBuffer, s.addInUse, s.ecdh);
    VerifiedFrame(env, s.items, f.items, s.verified, f.verified);
  }

  lemma EnqueueLists(env: Env, items: map<nat, KeyItem>, verified: seq<nat>, queued: seq<nat>, k: nat, item: KeyItem)
    requires ListsOk(env, items, verified, queued) && k !in items && k < env.keyCap && item.cert.Valid()
    ensures ListsOk(env, items[k := item], verified, queued + [k])
  {
    assert k !in verified && k !in queued;
  }

  lemma EnqueueKeeps(env: Env, s: State, k: nat, cert: Cert)
    requires Inv(env, s) && k !in s.items && k < env.keyCap && cert.Valid()
    ensures Inv(env, Enqueued(s, k, cert))
  {
    var items' := s.items[k := KeyItem(cert, 0)];
    EnqueueLists(env, s.items, s.verified, s.queued, k, KeyItem(cert, 0));
    assert |s.queued| > 0 ==> s.queued[0] in s.queued && (s.queued + [k])[0] == s.queued[0];
    assert forall r :: r in s.rx ==> s.rx[r].key in s.items;
    assert Holders(s.rx, k) == {};
    assert PinsOk(items', s.rx, s.ecdh);
    assert forall r :: r in s.rx ==> SameCert(s.items, items', s.rx[r].key);
    ResultsFrame(env, s.entries, s.items, items', s.rx, s.addBuffer);
    AddFrame(env, s.entries, s.items, items', s.queued, s.queued + [k], s.addBuffer, s.addInUse, s.ecdh);
    VerifiedFrame(env, s.items, items', s.verified, s.verified);
  }

  lemma AddKeeps(env: Env, s: State, cert: Cert)
    requires Inv(env, s) && cert.Valid()
    ensures Inv(env, Add(env, s, cert))
  {
    if Find(s.items, s.verified, cert.subject).None? {
      match FirstFree(s.items.Keys, 0, env.keyCap)
      case Some(k) =>
        EnqueueKeeps(env, s, k, cert);
      case None =>
        var f := FreeUp(env, s.items, s.verified, 0);
        FreeUpEvicts(env, s.items, s.verified, s.queued, 0);
        EvictKeeps(env, s, f);
        if f.ok {
          match FirstFree(f.items.Keys, 0, env.keyCap)
          case None =>
          case Some(k) => EnqueueKeeps(env, s.(items := f.items, verified := f.verified), k, cert);
        }
    }
  }

  /** Dropping the head of the queue when nothing is being verified. */
  lemma DropQueuedKeeps(env: Env, s: State, buffer: seq<Byte>)
    requires Inv(env, s) && !s.addInUse && |s.queued| > 0
    ensures Inv(env, Dropped(s.(addBuffer := buffer), s.queued[0]))
  {
    var k := s.queued[0];
    WithoutProperties(s.queued, k);
    var s' := Dropped(s.(addBuffer := buffer), k);
    assert Pending(s') == Pending(s);
    assert k !in s.verified;
  }

  lemma StartKeeps(env: Env, s: State, e: nat)
    requires Inv(env, s) && s.ecdh.None? && !s.addInUse && |s.queued| > 0 && e !in s.entries
    ensures s.queued[0] in s.items
    ensures var k := s.queued[0]; var m := env.Signed(s.items[k].cert);
            Inv(env, s.(addBuffer := m, entries := s.entries[e := Entry(ForKey(k), |m|, false)],
                        queue := s.queue + [e], addInUse := true))
  {
    var k := s.queued[0];
    assert k in s.queued;
    var m := env.Signed(s.items[k].cert);
    var s' := s.(addBuffer := m, entries := s.entries[e := Entry(ForKey(k), |m|, false)],
                 queue := s.queue + [e], addInUse := true);
    assert Pending(s') == Pending(s) + [e];
  }

  lemma AddStartKeeps(env: Env, s: State)
    requires Inv(env, s)
    ensures AddStart(env, s).Next? && Inv(env, AddStart(env, s).state)
  {
    if s.ecdh.None? && !s.addInUse && |s.queued| > 0 {
      var k := s.queued[0];
      assert k in s.queued;
      var cert := s.items[k].cert;
      if |env.tbs(cert)| > TBS_CBOR_LENGTH {
        DropQueuedKeeps(env, s, env.tbs(cert)[..TBS_CBOR_LENGTH]);
      } else {
        match FirstFree(s.entries.Keys, 0, env.entryCap)
        case None => DropQueuedKeeps(env, s, env.Signed(cert));
        case Some(e) => StartKeeps(env, s, e);
      }
    }
  }

  lemma TrustPostKeeps(env: Env, s: State, subject: seq<Byte>, payload: seq<Byte>)
    requires Inv(env, s)
    ensures TrustPost(env, s, subject, payload).Next? && Inv(env, TrustPost(env, s, subject, payload).state)
  {
    var found := Find(s.items, s.verified, subject);
    if 0 < |payload| <= MAX_RX_PAYLOAD && found.Some? {
      var k := found.value;
      match FirstFree(s.rx.Keys, 0, env.rxCap)
      case None =>
      case Some(r) =>
        match FirstFree(s.entries.Keys, 0, env.entryCap)
        case None => RejectTrust(s, k, r, payload);
        case Some(e) => AcceptPost(env, s, k, r, e, payload);
    }
  }

  lemma AcceptPost(env: Env, s: State, k: nat, r: nat, e: nat, payload: seq<Byte>)
    requires Inv(env, s) && k in s.verified && k in s.items && r !in s.rx && r < env.rxCap && e !in s.entries
    ensures var s' := Pin(s.(rx := s.rx[r := RxItem(k, payload)]), k);
            Inv(env, s'.(entries := s'.entries[e := Entry(ForTrust(r), |payload|, false)], queue := s'.queue + [e]))
  {
    AcceptTrustKeeps(
      env, s, k, r, e, RxItem(k, payload), s.items[k := s.items[k].(pins := s.items[k].pins + 1)]);
  }

  /** When the request pool is full, pinning and unpinning cancel out. */
  lemma RejectTrust(s: State, k: nat, r: nat, payload: seq<Byte>)
    requires k in s.items && r !in s.rx
    ensures var s' := Pin(s.(rx := s.rx[r := RxItem(k, payload)]), k);
            Unpin(s'.(rx := s'.rx - {r}), k) == Next(s)
  {
    var s' := Pin(s.(rx := s.rx[r := RxItem(k, payload)]), k);
    assert s'.rx - {r} == s.rx;
    assert Unpin(s'.(rx := s.rx), k).state.items == s.items;
  }

  lemma AppendPending(pending: seq<nat>, entries: map<nat, Entry>, e: nat, entry: Entry)
    requires EntriesOk(pending, entries) && e !in entries
    requires forall x :: x in entries ==> entries[x].owner != entry.owner
    ensures EntriesOk(pending + [e], entries[e := entry])
  {
  }

  /** Changing pin counts leaves everything about certificates alone. */
  lemma PinFrame(env: Env, s: State, k: nat, pins: nat, items': map<nat, KeyItem>)
    requires k in s.items && items' == s.items[k := s.items[k].(pins := pins)]
    requires ListsOk(env, s.items, s.verified, s.queued) && VerifiedOk(env, s.items, s.verified)
    requires AddOk(env, s.entries, s.items, s.queued, s.addBuffer, s.addInUse, s.ecdh)
    ensures ListsOk(env, items', s.verified, s.queued) && VerifiedOk(env, items', s.verified)
    ensures AddOk(env, s.entries, items', s.queued, s.addBuffer, s.addInUse, s.ecdh)
  {
    assert |s.queued| > 0 ==> s.queued[0] in s.queued;
    AddFrame(env, s.entries, s.items, items', s.queued, s.queued, s.addBuffer, s.addInUse, s.ecdh);
    VerifiedFrame(env, s.items, items', s.verified, s.verified);
  }

  lemma AcceptTrustKeeps(env: Env, s: State, k: nat, r: nat, e: nat, item: RxItem, items': map<nat, KeyItem>)
    requires Inv(env, s) && k in s.verified && k in s.items && r !in s.rx && r < env.rxCap && e !in s.entries
    requires item.key == k && items' == s.items[k := s.items[k].(pins := s.items[k].pins + 1)]
    ensures Inv(env, s.(items := items', rx := s.rx[r := item],
                        entries := s.entries[e := Entry(ForTrust(r), |item.payload|, false)], queue := s.queue + [e]))
  {
    var entry := Entry(ForTrust(r), |item.payload|, false);
    assert Pending(s.(queue := s.queue + [e])) == Pending(s) + [e];
    NewOwner(s.entries, s.rx, r);
    AppendPending(Pending(s), s.entries, e, entry);
    AcceptPins(s.items, s.rx, s.ecdh, k, r, item);
    AcceptLinks(env, s, r, e, item, entry);
    AcceptResults(env, s, k, r, e, item, entry, items');
    PinFrame(env, s, k, s.items[k].pins + 1, items');
    AddTrustEntry(env, s, e, entry, items');
  }

  lemma AcceptPins(items: map<nat, KeyItem>, rx: map<nat, RxItem>, ecdh: Option<nat>, k: nat, r: nat, item: RxItem)
    requires PinsOk(items, rx, ecdh) && k in items && r !in rx && item.key == k
    ensures PinsOk(items[k := items[k].(pins := items[k].pins + 1)], rx[r := item], ecdh)
  {
    var items' := items[k := items[k].(pins := items[k].pins + 1)];
    forall x | x in items'
      ensures items'[x].pins == |Holders(rx[r := item], x)| + (if ecdh == Some(x) then 1 else 0)
    {
      HoldersAdded(rx, r, item, x);
    }
  }

  lemma AcceptLinks(env: Env, s: State, r: nat, e: nat, item: RxItem, entry: Entry)
    requires TrustOk(s.entries, s.rx) && RxOk(env, s.rx, s.verified)
    requires r !in s.rx && r < env.rxCap && e !in s.entries && item.key in s.verified
    requires entry.owner == ForTrust(r) && entry.messageLen == |item.payload|
    ensures TrustOk(s.entries[e := entry], s.rx[r := item]) && RxOk(env, s.rx[r := item], s.verified)
  {
  }

  lemma AddTrustEntry(env: Env, s: State, e: nat, entry: Entry, items: map<nat, KeyItem>)
    requires AddOk(env, s.entries, items, s.queued, s.addBuffer, s.addInUse, s.ecdh) && entry.owner.ForTrust?
    ensures AddOk(env, s.entries[e := entry], items, s.queued, s.addBuffer, s.addInUse, s.ecdh)
  {
  }

  lemma NewOwner(entries: map<nat, Entry>, rx: map<nat, RxItem>, r: nat)
    requires TrustOk(entries, rx) && r !in rx
    ensures forall x :: x in entries ==> entries[x].owner != ForTrust(r)
  {
  }

  lemma AcceptResults(
    env: Env, s: State, k: nat, r: nat, e: nat, item: RxItem, entry: Entry, items': map<nat, KeyItem>)
    requires ResultsOk(env, s.entries, s.items, s.rx, s.addBuffer) && TrustOk(s.entries, s.rx)
    requires k in s.items && r !in s.rx && e !in s.entries && !entry.result
    requires items' == s.items[k := s.items[k].(pins := s.items[k].pins + 1)]
    ensures ResultsOk(env, s.entries[e := entry], items', s.rx[r := item], s.addBuffer)
  {
    forall x | x in s.entries && s.entries[x].result
      ensures ResultOk(env, s.entries[x], items', s.rx[r := item], s.addBuffer)
    {
      assert ResultOk(env, s.entries[x], s.items, s.rx, s.addBuffer);
    }
  }

  lemma TakeKeeps(env: Env, s: State)
    requires Inv(env, s)
    ensures Inv(env, Take(s))
  {
    assert Pending(Take(s)) == Pending(s);
  }

  /** Removing the request at the end of the pending list, or moving it, keeps the others. */
  lemma FinishPending(s: State, s': State, e: nat, entry: Entry)
    requires EntriesOk(Pending(s), s.entries) && s.current == Some(e) && e in s.entries
    requires entry.owner == s.entries[e].owner
    requires s'.current.None? && s'.queue == s.queue && (s'.posted == s.posted + [e] || s'.posted == s.posted)
    ensures EntriesOk(Pending(s'), s.entries[e := entry])
  {
    if s'.posted == s.posted + [e] {
      assert Pending(s') == Pending(s);
    } else {
      assert Pending(s) == s.posted + [e] + s.queue && Pending(s') == s.posted + s.queue;
      var p, q := Pending(s), Pending(s');
      assert forall i :: 0 <= i < |q| ==> q[i] == p[if i < |s.posted| then i else i + 1];
    }
  }

  lemma FinishResults(env: Env, s: State, e: nat, result: bool)
    requires ResultsOk(env, s.entries, s.items, s.rx, s.addBuffer) && e in s.entries
    requires result ==> ResultOk(env, s.entries[e].(result := result), s.items, s.rx, s.addBuffer)
    ensures ResultsOk(env, s.entries[e := s.entries[e].(result := result)], s.items, s.rx, s.addBuffer)
  {
  }

  lemma FinishKeeps(env: Env, s: State, hardware: bool, posted: bool)
    requires Inv(env, s)
    ensures Finish(env, s, hardware, posted).Next? && Inv(env, Finish(env, s, hardware, posted).state)
  {
    if s.current.Some? {
      var e := s.current.value;
      assert e in Pending(s);
      ReferencesLive(env, s, e);
      var s' := Finish(env, s, hardware, posted).state;
      FinishPending(s, s', e, s'.entries[e]);
      FinishResults(env, s, e, s'.entries[e].result);
      RelabelEntry(env, s, e, s'.entries[e].result);
    }
  }

  /** The pointers of a live request lead to memory that is still allocated. */
  lemma ReferencesLive(env: Env, s: State, e: nat)
    requires Inv(env, s) && e in s.entries
    ensures KeyBytes(env, s.items, s.rx, s.entries[e]).Some? && MessageBytes(s.addBuffer, s.rx, s.entries[e]).Some?
    ensures s.entries[e].owner.ForKey? ==> MessageBytes(s.addBuffer, s.rx, s.entries[e]).value == s.addBuffer
  {
  }

  lemma RelabelEntry(env: Env, s: State, e: nat, result: bool)
    requires Inv(env, s) && e in s.entries
    ensures var entries' := s.entries[e := s.entries[e].(result := result)];
            && TrustOk(entries', s.rx)
            && AddOk(env, entries', s.items, s.queued, s.addBuffer, s.addInUse, s.ecdh)
  {
  }

  /** Delivering the oldest event takes it off the pending list and frees its request. */
  lemma DeliverPending(s: State, s': State)
    requires EntriesOk(Pending(s), s.entries) && |s.posted| > 0
    requires s'.posted == s.posted[1..] && s'.current == s.current && s'.queue == s.queue
    requires s'.entries == s.entries - {s.posted[0]}
    ensures s.posted[0] in s.entries && EntriesOk(Pending(s'), s'.entries)
  {
    var p := Pending(s);
    assert p[0] == s.posted[0] && Pending(s') == p[1..];
    assert p[0] in p;
    forall x | x in p[1..]
      ensures x in s'.entries
    {
      var i :| 0 <= i < |p| - 1 && p[1..][i] == x;
      assert p[i + 1] == x && x in p;
    }
  }

  lemma RemovePins(items: map<nat, KeyItem>, rx: map<nat, RxItem>, ecdh: Option<nat>, k: nat, r: nat)
    requires PinsOk(items, rx, ecdh) && r in rx && rx[r].key == k && k in items && items[k].pins > 0
    ensures PinsOk(items[k := items[k].(pins := items[k].pins - 1)], rx - {r}, ecdh)
  {
    var items' := items[k := items[k].(pins := items[k].pins - 1)];
    forall x | x in items'
      ensures items'[x].pins == |Holders(rx - {r}, x)| + (if ecdh == Some(x) then 1 else 0)
    {
      HoldersRemoved(rx, r, x);
    }
  }

  lemma RemoveLinks(env: Env, s: State, e: nat, r: nat, k: nat, pins: nat, items': map<nat, KeyItem>)
    requires Inv(env, s) && e in s.entries && s.entries[e].owner == ForTrust(r)
    requires k in s.items && items' == s.items[k := s.items[k].(pins := pins)]
    ensures TrustOk(s.entries - {e}, s.rx - {r}) && RxOk(env, s.rx - {r}, s.verified)
    ensures ResultsOk(env, s.entries - {e}, items', s.rx - {r}, s.addBuffer)
  {
    var entries', rx' := s.entries - {e}, s.rx - {r};
    forall x | x in entries' && entries'[x].result
      ensures ResultOk(env, entries'[x], items', rx', s.addBuffer)
    {
      assert ResultOk(env, s.entries[x], s.items, s.rx, s.addBuffer);
      assert s.entries[x].owner != ForTrust(r);
    }
  }

  /** The state after a completion for trust: its request and receive item are gone and its key has one pin less. */
  ghost function Released(s: State, e: nat, r: nat): State
    requires |s.posted| > 0 && Held(s, e, r)
  {
    var k := s.rx[r].key;
    s.(posted := s.posted[1..], items := s.items[k := s.items[k].(pins := s.items[k].pins - 1)],
       entries := s.entries - {e}, rx := s.rx - {r},
       merged := s.merged + MergeOf(s.items, s.rx[r], s.entries[e].result))
  }

  ghost predicate Held(s: State, e: nat, r: nat) {
    e in s.entries && r in s.rx && s.rx[r].key in s.items && s.items[s.rx[r].key].pins > 0
  }

  lemma RxContinueResult(s: State, e: nat, r: nat)
    requires |s.posted| > 0 && Held(s, e, r)
    ensures RxContinue(s.(posted := s.posted[1..]), e, r) == Next(Released(s, e, r))
  {
  }

  lemma RequestHeld(env: Env, s: State, e: nat, r: nat)
    requires Inv(env, s) && e in s.entries && s.entries[e].owner == ForTrust(r)
    ensures Held(s, e, r)
  {
    ReferencedIsPinned(env, s);
  }

  lemma RxContinueKeeps(env: Env, s: State, e: nat, r: nat)
    requires Inv(env, s) && |s.posted| > 0 && e == s.posted[0] && e in s.entries && s.entries[e].owner == ForTrust(r)
    ensures RxContinue(s.(posted := s.posted[1..]), e, r).Next?
    ensures Inv(env, RxContinue(s.(posted := s.posted[1..]), e, r).state)
  {
    RequestHeld(env, s, e, r);
    RxContinueResult(s, e, r);
    ReleaseKeeps(env, s, e, r);
  }

  lemma ReleaseKeeps(env: Env, s: State, e: nat, r: nat)
    requires Inv(env, s) && |s.posted| > 0 && e == s.posted[0] && e in s.entries && s.entries[e].owner == ForTrust(r)
    requires Held(s, e, r)
    ensures Inv(env, Released(s, e, r))
  {
    var k := s.rx[r].key;
    DeliverPending(s, Released(s, e, r));
    RemovePins(s.items, s.rx, s.ecdh, k, r);
    ReleaseFrames(env, s, e, r, k, s.items[k := s.items[k].(pins := s.items[k].pins - 1)]);
  }

  /** The parts of the invariant that speak of the key, the request and the receive item being released. */
  lemma ReleaseFrames(env: Env, s: State, e: nat, r: nat, k: nat, items': map<nat, KeyItem>)
    requires Inv(env, s) && e in s.entries && s.entries[e].owner == ForTrust(r)
    requires k in s.items && s.items[k].pins > 0 && items' == s.items[k := s.items[k].(pins := s.items[k].pins - 1)]
    ensures ListsOk(env, items', s.verified, s.queued) && VerifiedOk(env, items', s.verified)
    ensures AddOk(env, s.entries - {e}, items', s.queued, s.addBuffer, s.addInUse, s.ecdh)
    ensures TrustOk(s.entries - {e}, s.rx - {r}) && RxOk(env, s.rx - {r}, s.verified)
    ensures ResultsOk(env, s.entries - {e}, items', s.rx - {r}, s.addBuffer)
  {
    PinFrame(env, s, k, s.items[k].pins - 1, items');
    RemoveLinks(env, s, e, r, k, s.items[k].pins - 1, items');
    AddRemoveEntry(env, s, e, items');
  }

  lemma AddRemoveEntry(env: Env, s: State, e: nat, items: map<nat, KeyItem>)
    requires AddOk(env, s.entries, items, s.queued, s.addBuffer, s.addInUse, s.ecdh)
    ensures AddOk(env, s.entries - {e}, items, s.queued, s.addBuffer, s.addInUse, s.ecdh)
  {
  }

  /** After the delivery no certificate is being verified any more. */
  lemma NoKeyEntryLeft(env: Env, s: State, e: nat)
    requires Inv(env, s) && e in s.entries && s.entries[e].owner.ForKey?
    ensures forall x :: x in s.entries - {e} ==> s.entries[x].owner.ForTrust?
  {
  }

  lemma ResultsRemoveEntry(env: Env, s: State, e: nat, items': map<nat, KeyItem>)
    requires Inv(env, s) && e in s.entries
    requires forall r :: r in s.rx ==> SameCert(s.items, items', s.rx[r].key)
    ensures ResultsOk(env, s.entries - {e}, items', s.rx, s.addBuffer) && TrustOk(s.entries - {e}, s.rx)
  {
    ResultsFrame(env, s.entries, s.items, items', s.rx, s.addBuffer);
  }

  lemma AcceptKeyKeeps(env: Env, s: State, e: nat, k: nat)
    requires Inv(env, s) && |s.posted| > 0 && e == s.posted[0] && e in s.entries && s.entries[e].owner == ForKey(k)
    requires s.entries[e].result
    ensures AddContinued(s.(posted := s.posted[1..]), e, k).Next?
    ensures Inv(env, AddContinued(s.(posted := s.posted[1..]), e, k).state)
  {
    assert k == s.queued[0] && k in s.queued;
    var s' := AddContinued(s.(posted := s.posted[1..]), e, k).state;
    DeliverPending(s, s');
    NoKeyEntryLeft(env, s, e);
    MoveToVerified(env, s.items, s.verified, s.queued, k, s'.items);
    ResultsRemoveEntry(env, s, e, s'.items);
    ReferencesLive(env, s, e);
    assert ResultOk(env, s.entries[e], s.items, s.rx, s.addBuffer);
    assert env.verify(env.root.publicKey, env.Signed(s.items[k].cert));
    StartExchangePins(env, s, k);
  }

  lemma StartExchangePins(env: Env, s: State, k: nat)
    requires Inv(env, s) && s.ecdh.None? && k in s.queued
    ensures k in s.items && PinsOk(s.items[k := s.items[k].(pins := s.items[k].pins + 1)], s.rx, Some(k))
  {
    assert Holders(s.rx, k) == {};
  }

  lemma MoveToVerified(
    env: Env, items: map<nat, KeyItem>, verified: seq<nat>, queued: seq<nat>, k: nat, items': map<nat, KeyItem>)
    requires ListsOk(env, items, verified, queued) && k in queued
    requires items' == items[k := items[k].(pins := items[k].pins + 1)]
    ensures ListsOk(env, items', [k] + verified, Without(queued, k))
  {
    WithoutProperties(queued, k);
  }

  lemma RejectKeyKeeps(env: Env, s: State, e: nat, k: nat)
    requires Inv(env, s) && |s.posted| > 0 && e == s.posted[0] && e in s.entries && s.entries[e].owner == ForKey(k)
    requires !s.entries[e].result
    ensures AddContinued(s.(posted := s.posted[1..]), e, k).Next?
    ensures Inv(env, AddContinued(s.(posted := s.posted[1..]), e, k).state)
  {
    assert k == s.queued[0] && k in s.queued;
    var s' := AddContinued(s.(posted := s.posted[1..]), e, k).state;
    DeliverPending(s, s');
    NoKeyEntryLeft(env, s, e);
    WithoutProperties(s.queued, k);
    assert forall r :: r in s.rx ==> SameCert(s.items, s'.items, s.rx[r].key);
    ResultsRemoveEntry(env, s, e, s'.items);
    VerifiedFrame(env, s.items, s'.items, s.verified, s.verified);
  }

  lemma DeliverKeeps(env: Env, s: State)
    requires Inv(env, s)
    ensures Deliver(env, s).Next? && Inv(env, Deliver(env, s).state)
  {
    if |s.posted| > 0 {
      var e := s.posted[0];
      assert Pending(s)[0] == e && e in Pending(s);
      match s.entries[e].owner
      case ForTrust(r) => RxContinueKeeps(env, s, e, r);
      case ForKey(k) =>
        if s.entries[e].result {
          AcceptKeyKeeps(env, s, e, k);
        } else {
          RejectKeyKeeps(env, s, e, k);
        }
    }
  }

  lemma EcdhDoneKeeps(env: Env, s: State)
    requires Inv(env, s)
    ensures EcdhDone(s).Next? && Inv(env, EcdhDone(s).state)
  {
    if s.ecdh.Some? {
      ReferencedIsPinned(env, s);
      var k := s.ecdh.value;
      var s' := EcdhDone(s).state;
      PinFrame(env, s, k, s.items[k].pins - 1, s'.items);
      ResultsFrame(env, s.entries, s.items, s'.items, s.rx, s.addBuffer);
      NoKeyEntries(env, s);
    }
  }

  lemma NoKeyEntries(env: Env, s: State)
    requires Inv(env, s) && s.ecdh.Some?
    ensures forall x :: x in s.entries ==> s.entries[x].owner.ForTrust?
  {
  }

  lemma StepKeeps(env: Env, s: State, ev: Event)
    requires Inv(env, s) && Possible(ev)
    ensures Step(env, s, ev).Next? && Inv(env, Step(env, s, ev).state)
  {
    match ev
    case ReceiveCert(cert) => AddKeeps(env, s, cert);
    case Poll => AddStartKeeps(env, s);
    case ReceiveTrust(subject, payload) => TrustPostKeeps(env, s, subject, payload);
    case TakeRequest => TakeKeeps(env, s);
    case FinishRequest(hardware, posted) => FinishKeeps(env, s, hardware, posted);
    case DeliverEvent => DeliverKeeps(env, s);
    case FinishEcdh => EcdhDoneKeeps(env, s);
  }

  lemma InitOk(env: Env)
    requires env.root.Valid()
    ensures Inv(env, Init(env))
  {
    var empty := State(map[], [], [], [], false, None, map[], map[], [], None, [], []);
    assert Inv(env, empty);
    AddKeeps(env, empty, env.root);
  }

  lemma {:induction false} RunFromIsSafe(env: Env, s: State, events: seq<Event>)
    requires Inv(env, s) && AllPossible(events)
    ensures RunFrom(env, s, events).Next? && Inv(env, RunFrom(env, s, events).state)
    decreases |events|
  {
    if |events| > 0 {
      StepKeeps(env, s, events[0]);
      RunFromIsSafe(env, Step(env, s, events[0]).state, events[1..]);
    }
  }

  /** Safety of every interleaving: no assert fails, no freed block is read, and the invariant holds. */
  lemma RunIsSafe(env: Env, events: seq<Event>)
    requires env.root.Valid() && AllPossible(events)
    ensures Run(env, events).Next? && Inv(env, Run(env, events).state)
  {
    InitOk(env);
    RunFromIsSafe(env, Init(env), events);
  }

  // ---------------------------------------------------------------------------
  // What the invariant means.
  // ---------------------------------------------------------------------------

  /** The 16-bit pin counter cannot overflow: it is at most the receive pool size plus one. */
  lemma PinBound(env: Env, events: seq<Event>, k: nat)
    requires env.root.Valid() && AllPossible(events)
    requires Run(env, events).Next? && k in Run(env, events).state.items
    ensures var s := Run(env, events).state;
            && s.items[k].pins == |Holders(s.rx, k)| + (if s.ecdh == Some(k) then 1 else 0)
            && s.items[k].pins <= env.rxCap + 1
  {
    RunIsSafe(env, events);
    var s := Run(env, events).state;
    assert Holders(s.rx, k) <= PoolBlocks(env.rxCap);
    SubsetSize(Holders(s.rx, k), PoolBlocks(env.rxCap));
  }

  /** Whatever is on the verified list was checked with the root key on its own encoding and signature. */
  lemma VerifiedBySignature(env: Env, events: seq<Event>, k: nat)
    requires env.Valid() && AllPossible(events)
    requires Run(env, events).Next? && k in Run(env, events).state.verified
    ensures var s := Run(env, events).state;
            && k in s.items && s.items[k].cert.Valid()
            && env.verify(env.root.publicKey, EncodeTbs(s.items[k].cert) + s.items[k].cert.signature)
  {
    RunIsSafe(env, events);
  }

  /** No encoding fails: a queued certificate is never dropped for its length. */
  lemma EncodingAlwaysFits(env: Env, events: seq<Event>, k: nat)
    requires env.Valid() && AllPossible(events)
    requires Run(env, events).Next? && k in Run(env, events).state.items
    ensures |env.tbs(Run(env, events).state.items[k].cert)| <= TBS_CBOR_LENGTH
  {
    RunIsSafe(env, events);
    LengthBounds(Run(env, events).state.items[k].cert);
  }

  lemma NeverFaults(env: Env, s: State, ev: Event)
    requires Inv(env, s) && Possible(ev)
    ensures Step(env, s, ev).Next?
  {
    StepKeeps(env, s, ev);
  }

  /** A verified key that is pinned, or is the root's, stays verified with the same certificate. */
  lemma ProtectedKeysStay(env: Env, s: State, ev: Event, k: nat)
    requires Inv(env, s) && Possible(ev) && k in s.verified
    requires s.items[k].pins > 0 || s.items[k].cert.subject == env.root.subject
    ensures Step(env, s, ev).Next?
    ensures var s' := Step(env, s, ev).state; k in s'.verified && SameCert(s.items, s'.items, k)
  {
    NeverFaults(env, s, ev);
    match ev
    case ReceiveCert(cert) => AddKeepsKey(env, s, cert, k);
    case Poll => PollKeepsKey(env, s, k);
    case ReceiveTrust(subject, payload) => TrustPostKeepsKey(env, s, subject, payload, k);
    case TakeRequest =>
    case FinishRequest(hardware, posted) =>
    case DeliverEvent => DeliverKeepsKey(env, s, k);
    case FinishEcdh =>
  }

  lemma AddKeepsKey(env: Env, s: State, cert: Cert, k: nat)
    requires ListsOk(env, s.items, s.verified, s.queued) && k in s.verified && !Evictable(env, s.items, k)
    ensures k in Add(env, s, cert).verified && SameCert(s.items, Add(env, s, cert).items, k)
  {
    FreeUpEvicts(env, s.items, s.verified, s.queued, 0);
  }

  lemma PollKeepsKey(env: Env, s: State, k: nat)
    requires ListsOk(env, s.items, s.verified, s.queued) && k in s.verified && AddStart(env, s).Next?
    ensures k in AddStart(env, s).state.verified && SameCert(s.items, AddStart(env, s).state.items, k)
  {
    assert |s.queued| > 0 ==> s.queued[0] in s.queued;
  }

  lemma TrustPostKeepsKey(env: Env, s: State, subject: seq<Byte>, payload: seq<Byte>, k: nat)
    requires k in s.verified && k in s.items && TrustPost(env, s, subject, payload).Next?
    ensures var s' := TrustPost(env, s, subject, payload).state; k in s'.verified && SameCert(s.items, s'.items, k)
  {
  }

  lemma DeliverKeepsKey(env: Env, s: State, k: nat)
    requires Inv(env, s) && k in s.verified && Deliver(env, s).Next?
    ensures k in Deliver(env, s).state.verified && SameCert(s.items, Deliver(env, s).state.items, k)
  {
    if |s.posted| > 0 {
      var e := s.posted[0];
      if s.entries[e].owner.ForKey? {
        assert s.queued[0] in s.queued;
      }
    }
  }

  /** The root certificate, once verified, is never evicted, however the run continues. */
  lemma {:induction false} RootStays(env: Env, s: State, events: seq<Event>, k: nat)
    requires Inv(env, s) && AllPossible(events)
    requires k in s.verified && k in s.items && s.items[k].cert.subject == env.root.subject
    ensures RunFrom(env, s, events).Next?
    ensures var s' := RunFrom(env, s, events).state; k in s'.verified && SameCert(s.items, s'.items, k)
    decreases |events|
  {
    if |events| > 0 {
      StepKeeps(env, s, events[0]);
      ProtectedKeysStay(env, s, events[0], k);
      RootStays(env, Step(env, s, events[0]).state, events[1..], k);
    }
  }

  /** `s'` still has request `e`, for the same certificate, with the same bytes to verify. */
  ghost predicate StillVerifying(s: State, s': State, e: nat)
    requires e in s.entries && |s.queued| > 0
  {
    && e in s'.entries && s'.entries[e].owner == s.entries[e].owner
    && s'.addBuffer == s.addBuffer && |s'.queued| > 0 && s'.queued[0] == s.queued[0]
    && SameCert(s.items, s'.items, s.queued[0])
  }

  /** Until its completion is delivered, a certificate's request, buffer and queue place do not change. */
  lemma BufferUnchanged(env: Env, s: State, ev: Event, e: nat)
    requires Inv(env, s) && Possible(ev) && e in s.entries && s.entries[e].owner.ForKey?
    requires !(ev.DeliverEvent? && |s.posted| > 0 && s.posted[0] == e)
    ensures Step(env, s, ev).Next? && StillVerifying(s, Step(env, s, ev).state, e)
  {
    NeverFaults(env, s, ev);
    assert s.queued[0] in s.queued;
    match ev
    case ReceiveCert(cert) => AddKeepsRequest(env, s, cert, e);
    case Poll =>
    case ReceiveTrust(subject, payload) => TrustPostKeepsRequest(env, s, subject, payload, e);
    case TakeRequest =>
    case FinishRequest(hardware, posted) =>
    case DeliverEvent => DeliverKeepsRequest(env, s, e);
    case FinishEcdh =>
  }

  lemma AddKeepsRequest(env: Env, s: State, cert: Cert, e: nat)
    requires ListsOk(env, s.items, s.verified, s.queued) && e in s.entries && |s.queued| > 0
    ensures StillVerifying(s, Add(env, s, cert), e)
  {
    assert s.queued[0] in s.queued;
    FreeUpEvicts(env, s.items, s.verified, s.queued, 0);
  }

  lemma TrustPostKeepsRequest(env: Env, s: State, subject: seq<Byte>, payload: seq<Byte>, e: nat)
    requires TrustPost(env, s, subject, payload).Next? && e in s.entries && |s.queued| > 0 && s.queued[0] in s.items
    ensures StillVerifying(s, TrustPost(env, s, subject, payload).state, e)
  {
  }

  lemma DeliverKeepsRequest(env: Env, s: State, e: nat)
    requires Inv(env, s) && e in s.entries && s.entries[e].owner.ForKey? && |s.queued| > 0
    requires Deliver(env, s).Next? && (|s.posted| > 0 ==> s.posted[0] != e)
    ensures StillVerifying(s, Deliver(env, s).state, e)
  {
    assert s.queued[0] in s.queued;
    NoKeyEntryLeft(env, s, e);
  }

  /** Two certificate verifications are never in flight together. */
  lemma OneVerificationInFlight(env: Env, events: seq<Event>, e: nat, e': nat)
    requires env.root.Valid() && AllPossible(events)
    requires Run(env, events).Next? && e in Run(env, events).state.entries && e' in Run(env, events).state.entries
    requires Run(env, events).state.entries[e].owner.ForKey? && Run(env, events).state.entries[e'].owner.ForKey?
    ensures e == e'
  {
    RunIsSafe(env, events);
  }
}
