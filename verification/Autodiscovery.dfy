/** Autodiscovery as the firmware runs it: two byte assemblers with receive buffers filled in place, and the manager
    that probes, listens and picks the winner. Every handler is proved to take exactly one step of the
    transition system. */
module Autodiscovery {
  import opened Common
  import opened Framing
  import opened AutodiscoverySpec

  class Assembler {
    const buffer: array<Byte>
    var crc: nat
    var count: nat
    var escaped: bool
    var started: bool

    ghost predicate Valid()
      reads this
    {
      buffer.Length == RX_SIZE && count <= RX_SIZE
    }

    ghost function State(): Link
      requires Valid()
      reads this, buffer
    {
      Link(Rx(crc, buffer[..count], escaped, started), buffer[..])
    }

    constructor ()
      ensures Valid() && State() == Clean() && fresh(buffer)
    {
      buffer := new Byte[RX_SIZE](_ => 0);
      crc, count, escaped, started := 0, 0, false, false;
      new;
      assert buffer[..] == Zeros(RX_SIZE);
    }

    method Reset()
      requires Valid()
      modifies this, buffer
      ensures Valid() && State() == Clean()
    {
      for i := 0 to RX_SIZE
        invariant Valid() && forall k | 0 <= k < i :: buffer[k] == 0
      {
        buffer[i] := 0;
      }
      assert buffer[..] == Zeros(RX_SIZE);
      crc, count, escaped, started := 0, 0, false, false;
    }

    method BufferByte(w: Wire, b: Byte)
      requires Valid()
      modifies this, buffer
      ensures Valid() && State().rx == Buffer(w, old(State()).rx, b)
      ensures count == old(count) + if old(count) < RX_SIZE then 1 else 0
      ensures buffer[..] == if old(count) < RX_SIZE then old(buffer[..])[old(count) := b] else old(buffer[..])
    {
      if count < RX_SIZE {
        buffer[count] := b;
        count := count + 1;
        crc := w.crcStep(crc, b);
        assert buffer[..count] == old(buffer[..count]) + [b];
      }
    }

    /** One received byte; at the end of a frame, the board that answered if the frame passes the check. */
    method Receive(u: Setup, p: Protocol, b: Byte) returns (source: Option<Byte>)
      requires Valid() && WireOk(u.wire)
      modifies this, buffer
      ensures Valid() && State() == FeedLink(u.wire, old(State()), b)
      ensures source == Heard(u, p, old(State()), b)
    {
      source := None;
      if escaped {
        escaped := false;
        BufferByte(u.wire, b);
      } else if b == u.wire.esc {
        escaped := true;
      } else if b == u.wire.stx {
        count, crc, started := 0, u.wire.crcSeed, true;
      } else if b == u.wire.etx {
        if !started {
          return;
        }
        started := false;
        source := Verdict(u.rules, u.client, p, buffer[..], count, crc);
        count := 0;
      } else {
        BufferByte(u.wire, b);
      }
    }
  }

  class AutodiscoveryManager {
    const setup: Setup
    const gea3: Assembler
    const gea2: Assembler
    var stage: Stage
    var target: Option<Byte>
    var active: Option<Protocol>
    var host: Byte
    var gea2Active: bool
    var timerArmed: bool

    ghost const Repr: set<object>

    function Ear(p: Protocol): Assembler {
      if p == Gea3 then gea3 else gea2
    }

    ghost predicate Separate()
      reads this
    {
      && Repr == {this, gea3, gea2, gea3.buffer, gea2.buffer}
      && gea3 != gea2 && gea3.buffer != gea2.buffer
    }

    /** The window timer runs exactly while a link is listened to. */
    ghost predicate Valid()
      reads this, gea3, gea2, gea3.buffer, gea2.buffer
    {
      && Separate() && gea3.Valid() && gea2.Valid()
      && (timerArmed <==> stage.Waiting?)
      && Ok(setup, State())
    }

    ghost function State(): Auto
      requires gea3.Valid() && gea2.Valid()
      reads this, gea3, gea2, gea3.buffer, gea2.buffer
    {
      Auto(stage, target, active, host, gea2Active, gea3.State(), gea2.State())
    }

    constructor (setup: Setup)
      requires WireOk(setup.wire)
      ensures Valid() && this.setup == setup && State() == Initial() && fresh(Repr)
    {
      this.setup := setup;
      var a := new Assembler();
      var b := new Assembler();
      gea3, gea2 := a, b;
      stage, target, active, host, gea2Active, timerArmed := Idle, None, None, 0, false, false;
      Repr := {this, a, b, a.buffer, b.buffer};
    }

    method SetTargetAddress(address: Byte)
      requires Valid()
      modifies this`target
      ensures Valid() && State() == Step(setup, old(State()), Targeted(address))
    {
      target := Some(address);
    }

    /** Sends the probe; the window opens even if the client's queue was full. */
    method Probe(p: Protocol)
      requires Separate()
      modifies this`stage, this`timerArmed
      ensures stage == Waiting(p) && timerArmed
    {
      var queued: bool := *;
      timerArmed := true;
      stage := Waiting(p);
    }

    /** GEA3 first where it exists; does nothing once started or without any link. */
    method Start()
      requires Valid()
      modifies this`stage, this`timerArmed
      ensures Valid() && State() == Step(setup, old(State()), Started)
    {
      if stage != Idle {
        return;
      }
      if !setup.hasGea3 && !setup.hasGea2 {
        return;
      }
      Probe(if setup.hasGea3 then Gea3 else Gea2);
    }

    /** The end of a listening window: completion if a board answered, otherwise clean assemblers and the next
        probe. */
    method TimerCallback() returns (completed: bool)
      requires Valid() && timerArmed
      modifies Repr
      ensures Valid() && State() == Step(setup, old(State()), WindowOver)
      ensures completed <==> stage == Complete
    {
      StepKeepsOk(setup, State(), WindowOver);
      timerArmed := false;
      if active.Some? {
        if stage == Waiting(Gea2) {
          gea2Active := true;
        }
        stage := Complete;
        return true;
      }
      gea3.Reset();
      gea2.Reset();
      if setup.hasGea3 && setup.hasGea2 {
        Probe(if stage == Waiting(Gea3) then Gea2 else Gea3);
      } else {
        Probe(if setup.hasGea3 then Gea3 else Gea2);
      }
      return false;
    }

    /** A byte counts only on the link being listened to and only until a board has won. */
    method ProcessByte(b: Byte, p: Protocol)
      requires Valid()
      modifies Repr
      ensures Valid() && State() == Step(setup, old(State()), Received(b, p))
    {
      hide Feed, Verdict, Presented, LinkOk;
      StepKeepsOk(setup, State(), Received(b, p));
      if active.Some? || stage != Waiting(p) {
        return;
      }
      var source := Ear(p).Receive(setup, p, b);
      if source.Some? {
        OnBroadcastResponse(source.value, p);
      }
    }

    /** Takes the board as the winner unless another address is wanted. */
    method OnBroadcastResponse(address: Byte, p: Protocol)
      modifies this`active, this`host
      ensures if stage == Waiting(p) && old(active).None? && (target.None? || target == Some(address))
              then active == Some(p) && host == address
              else active == old(active) && host == old(host)
    {
      if stage == Complete || active.Some? {
        return;
      }
      if target.Some? && address != target.value {
        return;
      }
      if stage == Waiting(p) {
        host, active := address, Some(p);
      }
    }
  }
}
