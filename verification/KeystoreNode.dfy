/** The keystore protocol as the firmware runs it: static variables updated in place, one method per handler. */
module KeystoreNode {
  import opened Common
  import opened Cbor
  import opened Certificate
  import opened Keystore
  import opened KeystoreSafety

  class Node {
    const env: Env
    var items: map<nat, KeyItem>
    var verified: seq<nat>
    var queued: seq<nat>
    var addBuffer: seq<Byte>
    var addInUse: bool
    var ecdh: Option<nat>
    var rx: map<nat, RxItem>
    var entries: map<nat, Entry>
    var queue: seq<nat>
    var current: Option<nat>
    var posted: seq<nat>
    var merged: seq<Merge>

    ghost function View(): State
      reads this
    {
      State(items, verified, queued, addBuffer, addInUse, ecdh, rx, entries, queue, current, posted, merged)
    }

    ghost predicate Valid()
      reads this
    {
      Inv(env, View())
    }

    /** keystore_init. */
    constructor (env: Env)
      requires env.root.Valid()
      ensures this.env == env && Valid() && View() == Init(env)
    {
      this.env := env;
      items, verified, queued := map[], [], [];
      addBuffer, addInUse, ecdh := [], false, None;
      rx, entries, queue, current, posted, merged := map[], map[], [], None, [], [];
      new;
      InitOk(env);
      var _ := AddCert(env.root);
    }

    /** keystore_find_in_list, over the verified list. */
    method FindKey(subject: seq<Byte>) returns (r: Option<nat>)
      ensures r == Find(items, verified, subject)
    {
      var i := 0;
      while i < |verified|
        invariant i <= |verified| && Find(items, verified[i..], subject) == Find(items, verified, subject)
      {
        if verified[i] in items && items[verified[i]].cert.subject == subject {
          return Some(verified[i]);
        }
        assert verified[i..][1..] == verified[i + 1..];
        i := i + 1;
      }
      return None;
    }

    /** keystore_free_up_space. */
    method FreeUpSpace() returns (ok: bool)
      modifies this`items, this`verified
      ensures Freed(items, verified, ok) == FreeUp(env, old(items), old(verified), 0)
    {
      var i := 0;
      ghost var goal := FreeUp(env, items, verified, 0);
      while i < |verified|
        invariant i <= |verified| && FreeUp(env, items, verified, i) == goal
        decreases |verified| - i
      {
        var k := verified[i];
        if k !in items || items[k].cert.subject == env.root.subject || items[k].pins > 0 {
          i := i + 1;
        } else {
          items := items - {k};
          verified := verified[..i] + verified[i + 1..];
          if env.freeReturnsTrue {
            return true;
          }
          if !env.nextSurvivesRemoval {
            return false;
          }
        }
      }
      return false;
    }

    /** keystore_add; the result says whether the certificate is present or queued. */
    method AddCert(cert: Cert) returns (ok: bool)
      modifies this`items, this`verified, this`queued
      ensures View() == Add(env, old(View()), cert)
      ensures ok ==> exists k :: k in items && items[k].cert.subject == cert.subject
    {
      var found := FindKey(cert.subject);
      if found.Some? {
        assert found.value in items;
        return true;
      }
      var slot := Alloc(items.Keys, env.keyCap);
      if slot.None? {
        var freed := FreeUpSpace();
        if !freed {
          return false;
        }
        slot := Alloc(items.Keys, env.keyCap);
        if slot.None? {
          return false;
        }
      }
      items := items[slot.value := KeyItem(cert, 0)];
      queued := queued + [slot.value];
      assert slot.value in items;
      return true;
    }

    method PinKey(k: nat)
      requires k in items
      modifies this`items
      ensures View() == Pin(old(View()), k)
    {
      items := items[k := items[k].(pins := items[k].pins + 1)];
    }

    method UnpinKey(k: nat)
      requires k in items && items[k].pins > 0
      modifies this`items
      ensures Next(View()) == Unpin(old(View()), k)
    {
      assert items[k].pins > 0;
      items := items[k := items[k].(pins := items[k].pins - 1)];
    }

    /** keystore_add_start. */
    method OnPoll()
      requires AddStart(env, View()).Next?
      modifies this
      ensures Next(View()) == AddStart(env, old(View()))
    {
      if ecdh.Some? || addInUse || |queued| == 0 {
        return;
      }
      var k := queued[0];
      var cert := items[k].cert;
      if |env.tbs(cert)| > TBS_CBOR_LENGTH {
        addBuffer := env.tbs(cert)[..TBS_CBOR_LENGTH];
        queued, items := Without(queued, k), items - {k};
        return;
      }
      addBuffer := env.Signed(cert);
      var e := Alloc(entries.Keys, env.entryCap);
      if e.None? {
        queued, items := Without(queued, k), items - {k};
        return;
      }
      entries := entries[e.value := Entry(ForKey(k), |addBuffer|, false)];
      queue := queue + [e.value];
      addInUse := true;
    }

    /** res_trust_post_handler. */
    method OnTrust(subject: seq<Byte>, payload: seq<Byte>)
      requires TrustPost(env, View(), subject, payload).Next?
      modifies this
      ensures Next(View()) == TrustPost(env, old(View()), subject, payload)
    {
      if |payload| == 0 || |payload| > MAX_RX_PAYLOAD {
        return;
      }
      var key := FindKey(subject);
      if key.None? {
        return;
      }
      var r := Alloc(rx.Keys, env.rxCap);
      if r.None? {
        return;
      }
      rx := rx[r.value := RxItem(key.value, payload)];
      PinKey(key.value);
      var e := Alloc(entries.Keys, env.entryCap);
      if e.None? {
        rx := rx - {r.value};
        UnpinKey(key.value);
        return;
      }
      entries := entries[e.value := Entry(ForTrust(r.value), |payload|, false)];
      queue := queue + [e.value];
    }

    method OnTake()
      modifies this
      ensures View() == Take(old(View()))
    {
      if current.None? && |queue| > 0 {
        current, queue := Some(queue[0]), queue[1..];
      }
    }

    method OnFinish(hardware: bool, postOk: bool)
      requires Finish(env, View(), hardware, postOk).Next?
      modifies this
      ensures Next(View()) == Finish(env, old(View()), hardware, postOk)
    {
      if current.Some? {
        var e := current.value;
        var key, message := KeyBytes(env, items, rx, entries[e]), MessageBytes(addBuffer, rx, entries[e]);
        entries := entries[e := entries[e].(result := hardware && env.verify(key.value, message.value))];
        current := None;
        if postOk {
          posted := posted + [e];
        }
      }
    }

    /** The event loops of the two client processes. */
    method OnDeliver()
      requires Deliver(env, View()).Next?
      modifies this
      ensures Next(View()) == Deliver(env, old(View()))
    {
      if |posted| > 0 {
        var e := posted[0];
        posted := posted[1..];
        match entries[e].owner
        case ForTrust(r) => ContinueTrust(e, r);
        case ForKey(k) =>
          if ecdh.None? {
            ContinueKey(e, k);
          }
      }
    }

    /** trust_rx_continue. */
    method ContinueTrust(e: nat, r: nat)
      requires e in entries && RxContinue(View(), e, r).Next?
      modifies this
      ensures Next(View()) == RxContinue(old(View()), e, r)
    {
      if entries[e].result {
        merged := merged + [Merge(items[rx[r].key].cert.subject, rx[r].payload)];
      }
      UnpinKey(rx[r].key);
      entries := entries - {e};
      rx := rx - {r};
    }

    /** keystore_add_continued, then the start of the key exchange. */
    method ContinueKey(e: nat, k: nat)
      requires e in entries && AddContinued(View(), e, k).Next?
      modifies this
      ensures Next(View()) == AddContinued(old(View()), e, k)
    {
      queued := Without(queued, k);
      var success := entries[e].result;
      if success {
        verified := [k] + verified;
      } else {
        items := items - {k};
      }
      entries := entries - {e};
      addInUse := false;
      if success {
        PinKey(k);
        ecdh := Some(k);
      }
    }

    method OnEcdhDone()
      requires EcdhDone(View()).Next?
      modifies this
      ensures Next(View()) == EcdhDone(old(View()))
    {
      if ecdh.Some? {
        UnpinKey(ecdh.value);
        ecdh := None;
      }
    }

    /** Any step the processes can take, from any reachable state: it completes and the invariant survives. */
    method Execute(ev: Event)
      requires Valid() && Possible(ev)
      modifies this
      ensures Valid() && Next(View()) == Step(env, old(View()), ev)
    {
      StepKeeps(env, View(), ev);
      match ev
      case ReceiveCert(cert) => var _ := AddCert(cert);
      case Poll => OnPoll();
      case ReceiveTrust(subject, payload) => OnTrust(subject, payload);
      case TakeRequest => OnTake();
      case FinishRequest(hardware, postOk) => OnFinish(hardware, postOk);
      case DeliverEvent => OnDeliver();
      case FinishEcdh => OnEcdhDone();
    }
  }
}
