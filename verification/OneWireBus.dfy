/** A wired-AND 1-Wire bus during a ROM search, with a fault script. */
module OneWireBus {
  import opened ByteBits
  import opened RomOrder

  /** What happens to one bus operation. A `Lossy` reset or write is not reported, but every device drops off. */
  datatype Fault = Fine | Reported | Lossy

  datatype Presence = Present | Absent | ResetFailed

  /** What the participating devices expect next: to send a bit, to send its complement, to hear the direction. */
  datatype Phase = SendBit | SendComplement | HearDirection

  class Bus {
    const devices: set<Rom>
    const faults: nat -> Fault
    var ops: nat
    var active: set<Rom>
    var pos: nat
    var phase: Phase
    /** The byte frames written to selected devices. */
    var sent: seq<Bytes>

    constructor (devices: set<Rom>, faults: nat -> Fault)
      ensures this.devices == devices && this.faults == faults && ops == 0
    {
      this.devices := devices;
      this.faults := faults;
      ops, active, pos, phase, sent := 0, {}, 0, SendBit, [];
    }

    ghost predicate AllFine(from: nat) {
      forall n: nat :: from <= n ==> faults(n) == Fine
    }

    /** Reset pulse; some device answers unless there is none or it fails silently. */
    method Reset() returns (r: Presence)
      modifies this
      ensures ops == old(ops) + 1
      ensures faults(old(ops)) == Fine ==> r == if devices == {} then Absent else Present
      ensures r == ResetFailed <==> faults(old(ops)) == Reported
      ensures r == Present ==> devices != {}
      ensures sent == old(sent)
    {
      r := match faults(ops)
        case Reported => ResetFailed
        case Lossy => Absent
        case Fine => if devices == {} then Absent else Present;
      active := {};
      ops := ops + 1;
    }

    /** The ROM search command: every device joins. */
    method StartSearch() returns (ok: bool)
      modifies this
      ensures sent == old(sent)
      ensures ops == old(ops) + 1 && (ok <==> faults(old(ops)) != Reported)
      ensures ok ==> pos == 0 && phase == SendBit && active == if faults(old(ops)) == Fine then devices else {}
    {
      ok := faults(ops) != Reported;
      active := if faults(ops) == Fine then devices else {};
      pos, phase := 0, SendBit;
      ops := ops + 1;
    }

    /** A read slot: the wire is high unless some participant pulls it low. */
    method ReadBit() returns (ok: bool, bit: bool)
      requires pos < 64 && phase != HearDirection
      modifies this
      ensures sent == old(sent)
      ensures ops == old(ops) + 1 && (ok <==> faults(old(ops)) == Fine)
      ensures ok ==> active == old(active) && pos == old(pos)
      ensures ok && old(phase) == SendBit ==>
                phase == SendComplement && (bit <==> forall c :: c in active ==> Bit(c, pos))
      ensures ok && old(phase) == SendComplement ==>
                phase == HearDirection && (bit <==> forall c :: c in active ==> !Bit(c, pos))
    {
      ok := faults(ops) == Fine;
      if phase == SendBit {
        bit := forall c | c in active :: Bit(c, pos);
        phase := SendComplement;
      } else {
        bit := forall c | c in active :: !Bit(c, pos);
        phase := HearDirection;
      }
      ops := ops + 1;
    }

    /** A write slot: the participants whose bit differs drop out. */
    method WriteBit(direction: bool) returns (ok: bool)
      requires pos < 64 && phase == HearDirection
      modifies this
      ensures sent == old(sent)
      ensures ops == old(ops) + 1 && (ok <==> faults(old(ops)) != Reported)
      ensures ok ==> pos == old(pos) + 1 && phase == SendBit
      ensures ok && faults(old(ops)) == Fine ==> active == set c | c in old(active) && Bit(c, old(pos)) == direction
      ensures ok && faults(old(ops)) != Fine ==> active == {}
    {
      ok := faults(ops) != Reported;
      active := if faults(ops) == Fine then set c | c in active && Bit(c, pos) == direction else {};
      pos, phase := pos + 1, SendBit;
      ops := ops + 1;
    }

    /** Bytes addressed to a selected device; no device takes part in a search afterwards. */
    method WriteBytes(data: Bytes) returns (ok: bool)
      modifies this
      ensures ops == old(ops) + 1 && (ok <==> faults(old(ops)) != Reported)
      ensures sent == if ok then old(sent) + [data] else old(sent)
    {
      ok := faults(ops) != Reported;
      if ok {
        sent := sent + [data];
      }
      active := {};
      ops := ops + 1;
    }
  }
}
