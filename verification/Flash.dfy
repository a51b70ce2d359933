/** Writing a firmware image through the serial bootloader (tools/deploy/flash_backend/cc2538-bsl.py). */
module Flash {
  import opened Common

  /** Flash before programming. */
  const ERASED: bv8 := 0xff

  /** Data bytes per packet. */
  const TRANSFER_SIZE := 248

  ghost predicate Erased(f: seq<bv8>, from: nat, to: nat) {
    from <= to <= |f| && forall k :: from <= k < to ==> f[k] == ERASED
  }

  /** Programming clears bits and never sets any. */
  function Program(f: seq<bv8>, at: nat, data: seq<bv8>): (r: seq<bv8>)
    requires at + |data| <= |f|
    ensures |r| == |f|
    ensures forall k :: 0 <= k < |f| ==> r[k] == if at <= k < at + |data| then f[k] & data[k - at] else f[k]
  {
    seq(|f|, k requires 0 <= k < |f| => if at <= k < at + |data| then f[k] & data[k - at] else f[k])
  }

  /** The contents with `image` placed at `at`. */
  function Placed(f: seq<bv8>, at: nat, image: seq<bv8>): (r: seq<bv8>)
    requires at + |image| <= |f|
    ensures |r| == |f|
  {
    f[..at] + image + f[at + |image|..]
  }

  /** A packet as it is programmed: where, and what. */
  datatype Packet = Packet(at: nat, data: seq<bv8>)

  /** The bootloader: a write pointer, how much the last download announced, and the packets it has taken. */
  class Device {
    var flash: seq<bv8>
    var pointer: nat
    var remaining: nat
    var taken: seq<Packet>

    /** cmdDownload; false is the exception for a size that is not a multiple of four. */
    method Download(addr: nat, size: nat) returns (ok: bool)
      modifies `pointer, `remaining
      ensures ok <==> size % 4 == 0
      ensures ok ==> pointer == addr && remaining == size
      ensures !ok ==> pointer == old(pointer) && remaining == old(remaining)
    {
      ok := size % 4 == 0;
      if ok {
        pointer, remaining := addr, size;
      }
    }

    /** cmdSendData: programs at the pointer and advances it, unless more is sent than was announced. */
    method SendData(data: seq<bv8>) returns (ok: bool)
      modifies this
      ensures ok <==> |data| <= old(remaining) && old(pointer) + |data| <= |old(flash)|
      ensures ok ==>
                && flash == Program(old(flash), old(pointer), data)
                && pointer == old(pointer) + |data| && remaining == old(remaining) - |data|
                && taken == old(taken) + [Packet(old(pointer), data)]
      ensures !ok ==> flash == old(flash) && pointer == old(pointer) && remaining == old(remaining) && taken == old(taken)
    {
      ok := |data| <= remaining && pointer + |data| <= |flash|;
      if ok {
        flash, taken := Program(flash, pointer, data), taken + [Packet(pointer, data)];
        pointer, remaining := pointer + |data|, remaining - |data|;
      }
    }
  }

  lemma AndErased(x: bv8)
    ensures ERASED & x == x
  {
  }

  /** Programming erased cells right after what is already placed extends the placement. */
  lemma ProgramExtends(f: seq<bv8>, at: nat, done: seq<bv8>, packet: seq<bv8>)
    requires at + |done| + |packet| <= |f| && Erased(f, at + |done|, at + |done| + |packet|)
    ensures Program(Placed(f, at, done), at + |done|, packet) == Placed(f, at, done + packet)
  {
    var g := Placed(f, at, done);
    var p := at + |done|;
    forall k | 0 <= k < |f|
      ensures Program(g, p, packet)[k] == Placed(f, at, done + packet)[k]
    {
      if p <= k < p + |packet| {
        assert g[k] == f[k] == ERASED;
        AndErased(packet[k - p]);
      }
    }
  }

  /** Skipping a blank packet over erased cells extends it as well. */
  lemma SkipExtends(f: seq<bv8>, at: nat, done: seq<bv8>, packet: seq<bv8>)
    requires at + |done| + |packet| <= |f| && Erased(f, at + |done|, at + |done| + |packet|)
    requires forall k :: 0 <= k < |packet| ==> packet[k] == ERASED
    ensures Placed(f, at, done) == Placed(f, at, done + packet)
  {
    forall k | 0 <= k < |f|
      ensures Placed(f, at, done)[k] == Placed(f, at, done + packet)[k]
    {
    }
  }

  predicate Blank(packet: seq<bv8>) { forall k :: 0 <= k < |packet| ==> packet[k] == ERASED }

  /** What is sent of the image from offset `offs` on: packets that are not blank, and the last one in any case. */
  function Packets(addr: nat, data: seq<bv8>, offs: nat): seq<Packet>
    requires offs <= |data|
    decreases |data| - offs
  {
    if |data| - offs <= TRANSFER_SIZE then [Packet(addr + offs, data[offs..])]
    else Sent(addr + offs, data[offs..offs + TRANSFER_SIZE]) + Packets(addr, data, offs + TRANSFER_SIZE)
  }

  function Sent(at: nat, packet: seq<bv8>): seq<Packet> { if Blank(packet) then [] else [Packet(at, packet)] }

  /** Every packet sent but the last holds something other than blanks. */
  lemma {:induction false} PacketsAreNeeded(addr: nat, data: seq<bv8>, offs: nat)
    requires offs <= |data|
    ensures var ps := Packets(addr, data, offs); |ps| > 0 && forall i :: 0 <= i < |ps| - 1 ==> !Blank(ps[i].data)
    decreases |data| - offs
  {
    if |data| - offs > TRANSFER_SIZE {
      PacketsAreNeeded(addr, data, offs + TRANSFER_SIZE);
      NeededStep(addr + offs, data[offs..offs + TRANSFER_SIZE], Packets(addr, data, offs + TRANSFER_SIZE));
    }
  }

  lemma NeededStep(at: nat, packet: seq<bv8>, rest: seq<Packet>)
    requires |rest| > 0 && forall i :: 0 <= i < |rest| - 1 ==> !Blank(rest[i].data)
    ensures var ps := Sent(at, packet) + rest; |ps| > 0 && forall i :: 0 <= i < |ps| - 1 ==> !Blank(ps[i].data)
  {
    assert !Blank(packet) ==> forall i :: 0 < i <= |rest| ==> (Sent(at, packet) + rest)[i] == rest[i - 1];
  }

  /** Every byte of the image that is not blank is in a packet sent, at its own address. */
  lemma {:induction false} ByteIsSent(addr: nat, data: seq<bv8>, offs: nat, k: nat)
    requires offs <= k < |data| && data[k] != ERASED
    ensures Sends(Packets(addr, data, offs), addr + k, data[k])
    decreases |data| - offs
  {
    if |data| - offs <= TRANSFER_SIZE {
      assert Holds(Packets(addr, data, offs)[0], addr + k, data[k]);
    } else {
      var packet, rest := data[offs..offs + TRANSFER_SIZE], Packets(addr, data, offs + TRANSFER_SIZE);
      if k < offs + TRANSFER_SIZE {
        SendsFirst(addr + offs, packet, rest, k - offs);
      } else {
        ByteIsSent(addr, data, offs + TRANSFER_SIZE, k);
        SendsLater(Sent(addr + offs, packet), rest, addr + k, data[k]);
      }
    }
  }

  lemma SendsFirst(at: nat, packet: seq<bv8>, rest: seq<Packet>, k: nat)
    requires k < |packet| && packet[k] != ERASED
    ensures Sends(Sent(at, packet) + rest, at + k, packet[k])
  {
    assert !Blank(packet);
    assert Holds((Sent(at, packet) + rest)[0], at + k, packet[k]);
  }

  lemma SendsLater(first: seq<Packet>, rest: seq<Packet>, at: nat, x: bv8)
    requires Sends(rest, at, x)
    ensures Sends(first + rest, at, x)
  {
    var i :| 0 <= i < |rest| && Holds(rest[i], at, x);
    assert (first + rest)[|first| + i] == rest[i];
  }

  ghost predicate Holds(p: Packet, at: nat, x: bv8) {
    p.at <= at < p.at + |p.data| && p.data[at - p.at] == x
  }

  ghost predicate Sends(ps: seq<Packet>, at: nat, x: bv8) {
    exists i :: 0 <= i < |ps| && Holds(ps[i], at, x)
  }

  datatype Outcome = Aborted | BadSize | Written

  /** Whether the 512K image leaves the bootloader backdoor disabled. */
  predicate LocksOut(data: seq<bv8>) {
    |data| == 524288 && (data[524247] & 0x10) >> 4 == 0
  }

  /** Bit 4 of the byte 41 before the end of a 512K image enables the backdoor. */
  lemma LocksOutIff(data: seq<bv8>)
    ensures LocksOut(data) <==> |data| == 512 * 1024 && data[|data| - 41] & 0x10 != 0x10
  {
    if |data| == 512 * 1024 {
      BitFour(data[524247]);
    }
  }

  lemma BitFour(x: bv8)
    ensures (x & 0x10) >> 4 == 0 <==> x & 0x10 != 0x10
  {
  }

  /**
   The state between packets: the image up to here is in place, the rest is erased, and if `addrSet`
   then the device will write where the host thinks it will.
   */
  ghost predicate InStep(dev: Device, f: seq<bv8>, addr: nat, data: seq<bv8>, offs: nat, addrSet: bool)
    reads dev
  {
    && offs <= |data| && addr + |data| <= |f| && Erased(f, addr, addr + |data|)
    && dev.flash == Placed(f, addr, data[..offs])
    && (addrSet ==> dev.pointer == addr + offs && dev.remaining >= |data| - offs && |data| % 4 == 0)
  }

  /** One turn of the loop: send a packet, setting the address first where it is not set, or skip it. */
  method SendPacket(
    dev: Device, ghost f: seq<bv8>, ghost addr: nat, at: nat, data: seq<bv8>, offs: nat, lng: nat, addrSet: bool)
    returns (addrSet': bool, ok: bool)
    requires InStep(dev, f, addr, data, offs, addrSet)
    requires at == addr + offs && lng == |data| - offs > TRANSFER_SIZE && lng % 4 == |data| % 4
    modifies dev
    ensures ok ==> InStep(dev, f, addr, data, offs + TRANSFER_SIZE, addrSet')
    ensures ok ==> dev.taken == old(dev.taken) + Sent(at, data[offs..offs + TRANSFER_SIZE])
    ensures !ok ==> lng % 4 != 0 && dev.taken == old(dev.taken)
    ensures lng % 4 != 0 ==> dev.flash == old(dev.flash)
  {
    var packet := data[offs..offs + TRANSFER_SIZE];
    assert data[..offs] + packet == data[..offs + TRANSFER_SIZE];
    addrSet', ok := addrSet, true;
    if !Blank(packet) {
      if !addrSet {
        ok := dev.Download(at, lng);
        if !ok {
          return;
        }
        addrSet' := true;
      }
      ProgramExtends(f, addr, data[..offs], packet);
      var sent := dev.SendData(packet);
    } else {
      addrSet' := false;
      SkipExtends(f, addr, data[..offs], packet);
    }
  }

  lemma PacketsFrom(taken: seq<Packet>, addr: nat, data: seq<bv8>, offs: nat)
    requires offs + TRANSFER_SIZE < |data|
    ensures taken + Packets(addr, data, offs) ==
            taken + Sent(addr + offs, data[offs..offs + TRANSFER_SIZE]) + Packets(addr, data, offs + TRANSFER_SIZE)
  {
    Associate(taken, Sent(addr + offs, data[offs..offs + TRANSFER_SIZE]), Packets(addr, data, offs + TRANSFER_SIZE));
  }

  lemma SameRemainder(lng: nat)
    ensures (lng - TRANSFER_SIZE) % 4 == lng % 4
  {
    assert lng - TRANSFER_SIZE == 4 * (lng / 4 - TRANSFER_SIZE / 4) + lng % 4;
  }

  /** The same, with `goal` the packets taken at the end if nothing is refused. */
  method SendNext(
    dev: Device, ghost f: seq<bv8>, ghost addr: nat, at: nat, data: seq<bv8>, offs: nat, lng: nat, addrSet: bool,
    ghost goal: seq<Packet>)
    returns (addrSet': bool, ok: bool)
    requires InStep(dev, f, addr, data, offs, addrSet) && dev.taken + Packets(addr, data, offs) == goal
    requires at == addr + offs && lng == |data| - offs > TRANSFER_SIZE && lng % 4 == |data| % 4
    modifies dev
    ensures ok ==> InStep(dev, f, addr, data, offs + TRANSFER_SIZE, addrSet')
    ensures ok ==> dev.taken + Packets(addr, data, offs + TRANSFER_SIZE) == goal
    ensures (lng - TRANSFER_SIZE) % 4 == |data| % 4
    ensures !ok ==> |data| % 4 != 0
    ensures |data| % 4 != 0 ==> dev.flash == old(dev.flash)
  {
    PacketsFrom(dev.taken, addr, data, offs);
    SameRemainder(lng);
    addrSet', ok := SendPacket(dev, f, addr, at, data, offs, lng, addrSet);
  }

  /** The last packet, which is sent even if it is blank. */
  method SendLast(dev: Device, ghost f: seq<bv8>, ghost addr: nat, at: nat, data: seq<bv8>, offs: nat, lng: nat)
    returns (ok: bool)
    requires InStep(dev, f, addr, data, offs, false)
    requires at == addr + offs && lng == |data| - offs <= TRANSFER_SIZE
    modifies dev
    ensures ok <==> lng % 4 == 0
    ensures ok ==> dev.flash == Placed(f, addr, data) && dev.taken == old(dev.taken) + [Packet(at, data[offs..])]
    ensures !ok ==> dev.flash == old(dev.flash) && dev.taken == old(dev.taken)
  {
    ok := dev.Download(at, lng);
    if ok {
      var packet := data[offs..offs + lng];
      assert data[..offs] + packet == data;
      ProgramExtends(f, addr, data[..offs], packet);
      var sent := dev.SendData(packet);
    }
  }

  /** The loop of writeMemory: every packet but the last. */
  method SendFull(dev: Device, ghost f: seq<bv8>, addr: nat, data: seq<bv8>, ghost goal: seq<Packet>)
    returns (offs: nat, at: nat, lng: nat, ok: bool)
    requires InStep(dev, f, addr, data, 0, false) && dev.taken + Packets(addr, data, 0) == goal && dev.flash == f
    modifies dev
    ensures at == addr + offs && lng == |data| - offs
    ensures ok ==> lng <= TRANSFER_SIZE && lng % 4 == |data| % 4 && dev.taken + Packets(addr, data, offs) == goal
    ensures ok ==> InStep(dev, f, addr, data, offs, false)
    ensures !ok ==> |data| % 4 != 0
    ensures |data| % 4 != 0 ==> dev.flash == f
  {
    var addrSet := false;
    offs, at, lng, ok := 0, addr, |data|, true;
    while lng > TRANSFER_SIZE
      invariant offs + lng == |data| && at == addr + offs && lng % 4 == |data| % 4
      invariant InStep(dev, f, addr, data, offs, addrSet)
      invariant dev.taken + Packets(addr, data, offs) == goal
      invariant |data| % 4 != 0 ==> dev.flash == f
    {
      addrSet, ok := SendNext(dev, f, addr, at, data, offs, lng, addrSet, goal);
      if !ok {
        return;
      }
      offs, at, lng := offs + TRANSFER_SIZE, at + TRANSFER_SIZE, lng - TRANSFER_SIZE;
    }
    ok := true;
  }

  /** The part of writeMemory that writes: packet by packet, and the last one. */
  method WriteImage(dev: Device, addr: nat, data: seq<bv8>) returns (ok: bool)
    requires addr + |data| <= |dev.flash| && Erased(dev.flash, addr, addr + |data|)
    modifies dev
    ensures ok <==> |data| % 4 == 0
    ensures ok ==> dev.flash == Placed(old(dev.flash), addr, data)
    ensures ok ==> dev.taken == old(dev.taken) + Packets(addr, data, 0)
    ensures !ok ==> dev.flash == old(dev.flash)
  {
    ghost var f, goal := dev.flash, dev.taken + Packets(addr, data, 0);
    PlaceNothing(f, addr, data);
    var offs, at, lng;
    offs, at, lng, ok := SendFull(dev, f, addr, data, goal);
    if ok {
      LastPacket(addr, data, offs);
      ok := SendLast(dev, f, addr, at, data, offs, lng);
    }
  }

  lemma PlaceNothing(f: seq<bv8>, addr: nat, data: seq<bv8>)
    requires addr + |data| <= |f|
    ensures Placed(f, addr, data[..0]) == f
  {
  }

  lemma LastPacket(addr: nat, data: seq<bv8>, offs: nat)
    requires offs <= |data| <= offs + TRANSFER_SIZE
    ensures Packets(addr, data, offs) == [Packet(addr + offs, data[offs..])]
  {
  }

  /**
   writeMemory into erased flash; `force` stands for the user's consent. An image whose length is a
   multiple of four ends up in flash exactly, although of all packets but the last the blank ones are not
   sent; any other length is refused by the first download command.
   */
  method WriteMemory(dev: Device, addr: nat, data: seq<bv8>, force: bool) returns (r: Outcome)
    requires addr + |data| <= |dev.flash| && Erased(dev.flash, addr, addr + |data|)
    modifies dev
    ensures r == if LocksOut(data) && !force then Aborted else if |data| % 4 != 0 then BadSize else Written
    ensures r == Written ==> dev.flash == Placed(old(dev.flash), addr, data)
    ensures r == Written ==> dev.taken == old(dev.taken) + Packets(addr, data, 0)
    ensures r != Written ==> dev.flash == old(dev.flash)
  {
    if LocksOut(data) && !force {
      return Aborted;
    }
    var ok := WriteImage(dev, addr, data);
    r := if ok then Written else BadSize;
  }
}
