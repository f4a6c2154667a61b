/**
  The host's status reader: byte by byte out of the port, packet by packet into state drops.
*/
module StatusHost {
  import opened Words
  import opened Wrappers
  import CommandStream
  import opened StatusFrames
  import opened StatusSender
  import opened StatusLink

  datatype Phase = InHeader | InData | InFlag

  class SerialLink {
    // What the port will deliver before it fails.
    var input: seq<uint8>
    var phase: Phase
    var i: nat
    const data: array<uint8>

    ghost predicate Valid() {
      data.Length == STATE_LENGTH
    }

    ghost predicate InStep()
      reads this`phase, this`i
    {
      Valid() && if phase == InHeader then i < |CommandStream.HEADER| else i < STATE_LENGTH
    }

    ghost function State(): (l: Link)
      requires InStep()
      reads this`phase, this`i, data
      ensures Possible(l)
    {
      match phase
      case InHeader => Seeking(i)
      case InData => Collecting(data[..i])
      case InFlag => Escaped(data[..i])
    }

    constructor (input: seq<uint8>)
      ensures InStep() && fresh(data) && this.input == input && State() == Seeking(0)
    {
      this.input, phase, i := input, InHeader, 0;
      data := new uint8[79](_ => 0);
    }

    // Keeps one byte; true when it completes the packet.
    method StoreByte(buf: uint8) returns (complete: bool)
      requires InStep() && !State().Seeking?
      modifies this`i, this`phase, data
      ensures InStep()
      ensures var f := Store(old(State()).got, buf);
              State() == f.link && f.packets == if complete then [data[..]] else []
    {
      data[i] := buf;
      i := i + 1;
      assert data[..i] == old(data[..i]) + [buf];
      if i == STATE_LENGTH {
        assert data[..i] == data[..];
        i := 0;
        phase := InHeader;
        return true;
      }
      phase := InData;
      return false;
    }

    method ParseByte(buf: uint8) returns (complete: bool)
      requires InStep()
      modifies this, data
      ensures InStep()
      ensures var (f, rest) := Parse1(old(State()), [buf] + old(input));
              State() == f.link && input == rest && f.packets == if complete then [data[..]] else []
    {
      hide Store;
      ghost var bytes := [buf] + input;
      assert bytes[1..] == input;
      match phase {
        case InHeader =>
          if buf == CommandStream.HEADER[i] {
            if i >= 3 {
              i := 0;
              phase := InData;
            } else {
              i := i + 1;
            }
          }
          return false;
        case InData =>
          if buf == 0xFF {
            phase := InFlag;
            return false;
          }
          complete := StoreByte(buf);
        case InFlag =>
          if buf == 0xFF {
            complete := StoreByte(buf);
          } else if buf == 0x00 {
            if input != [] {
              input := input[1..];
            }
            phase := InHeader;
            i := 0;
            return false;
          } else {
            i := 0;
            phase := InHeader;
            return false;
          }
      }
    }

    // The next packet, decoded, or nothing when the port fails first.
    method ReadStateDrop() returns (r: Option<StateDrop>, ghost packet: seq<uint8>)
      requires InStep()
      modifies this, data
      ensures InStep() && |packet| == STATE_LENGTH
      ensures ParseAll(old(State()), old(input))
           == Before(if r.Some? then [packet] else [], ParseAll(State(), input))
      ensures r == None ==> input == []
      ensures r.Some? ==> r.value == Decode(packet) && |input| < |old(input)|
    {
      hide Decode, Parse1, ParseAll, Before, Possible, SerialLink.State;
      packet := data[..];
      ghost var l, all := State(), input;
      NoneBefore(ParseAll(l, all));
      while input != []
        invariant InStep() && |packet| == STATE_LENGTH
        invariant ParseAll(l, all) == ParseAll(State(), input)
        invariant |input| <= |all|
        decreases |input|
      {
        ParseOneMore(State(), input);
        var buf := input[0];
        assert [buf] + input[1..] == input;
        input := input[1..];
        var complete := ParseByte(buf);
        if complete {
          packet := data[..];
          var drop := ParseDataToDrop(data);
          return Some(drop), packet;
        }
        NoneBefore(ParseAll(State(), input));
      }
      return None, packet;
    }
  }

  lemma ParseOneMore(l: Link, bytes: seq<uint8>)
    requires Possible(l) && bytes != []
    ensures var (f, rest) := Parse1(l, bytes);
            ParseAll(l, bytes) == Before(f.packets, ParseAll(f.link, rest))
  {
    hide Parse1, Before;
  }

  // Unpacks a packet, walking through it.
  method ParseDataToDrop(buf: array<uint8>) returns (drop: StateDrop)
    requires buf.Length == STATE_LENGTH
    ensures drop == Decode(buf[..])
  {
    hide Merge, Or, Field, ToInt8;
    ghost var b := buf[..];
    var motors := [
      Motor(ToInt8(buf[5]), ToInt8(buf[6]), buf[7], buf[8]),
      Motor(ToInt8(buf[9]), ToInt8(buf[10]), buf[11], buf[12]),
      Motor(ToInt8(buf[13]), ToInt8(buf[14]), buf[15], buf[16])];
    var x := ToInt8(buf[17]) * 16;
    var y := ToInt8(buf[18]) * 16;
    var z := ToInt8(buf[19]) * 16;
    var accel := [Or(x, buf[20] / 16), Or(y, buf[20] % 16), Or(z, buf[21] / 16)];
    var mag := ReadScaled(buf, 22, 3, 4);
    var rotation := ToInt8(buf[25]) * 4;
    mag := Merge(mag, 0, buf[26]);
    rotation := Or(rotation, Field(buf[26], 3));
    var distance := ReadScaled(buf, 27, 10, 1);
    distance := Merge(distance, 0, buf[37]);
    distance := Merge(distance, 4, buf[38]);
    distance := Merge(distance, 8, buf[39]);
    var light := ReadScaled(buf, 40, 4, 4);
    light := Merge(light, 0, buf[44]);
    var thermal := ReadThermal(buf, 45);
    var irLight := ReadScaled(buf, 61, 8, 4);
    irLight := Merge(irLight, 0, buf[69]);
    irLight := Merge(irLight, 4, buf[70]);
    var errors := buf[71] as int * 0x100_0000;
    errors := Or(errors, buf[72] as int * 0x1_0000);
    errors := Or(errors, buf[73] as int * 0x100);
    errors := Or(errors, buf[74]);
    drop := StateDrop(buf[0], buf[1], buf[2], buf[3], buf[4], motors, accel, mag, rotation,
                      distance, light, thermal, irLight, errors, buf[75], buf[76], buf[0] > 170);
  }

  method ReadScaled(buf: array<uint8>, from: nat, n: nat, unit: int) returns (values: seq<int>)
    requires from + n <= buf.Length
    ensures values == Scaled(buf[..], from, n, unit)
  {
    values := [];
    var i := from;
    while i < from + n
      invariant from <= i <= from + n && |values| == i - from
      invariant forall k | 0 <= k < |values| :: values[k] == buf[from + k] * unit
    {
      values := values + [buf[i] * unit];
      i := i + 1;
    }
  }

  method ReadThermal(buf: array<uint8>, from: nat) returns (values: seq<int>)
    requires from + 16 <= buf.Length
    ensures values == ThermalAt(buf[..], from)
  {
    hide Or;
    values := [];
    var i := from;
    for j := 0 to 8
      invariant i == from + 2 * j && |values| == j
      invariant forall k | 0 <= k < j :: values[k] == Or(buf[from + 2 * k], buf[from + 2 * k + 1] as int * 0x100)
    {
      var low := buf[i];
      i := i + 1;
      values := values + [Or(low, buf[i] as int * 0x100)];
      i := i + 1;
    }
  }

  /* Both ends together. */

  function Packets(rs: seq<Readings>): (ps: seq<seq<uint8>>)
    requires forall r | r in rs :: Complete(r)
    ensures |ps| == |rs| && forall k | 0 <= k < |rs| :: ps[k] == Packet(rs[k])
  {
    seq(|rs|, k requires 0 <= k < |rs| => Packet(rs[k]))
  }

  lemma {:induction false} TransmissionIsFrames(rs: seq<Readings>)
    requires forall r | r in rs :: Complete(r)
    ensures Transmission(rs) == FramesOf(Packets(rs))
  {
    hide Packet;
    if rs != [] {
      TransmissionIsFrames(rs[1..]);
      assert Packets(rs)[1..] == Packets(rs[1..]);
    }
  }

  // Whatever readings the robot sends, the parser finds their packets, and those only.
  lemma StatusArrives(rs: seq<Readings>)
    requires forall r | r in rs :: Complete(r)
    ensures ParseAll(Seeking(0), Terminal(Goods(Transmission(rs)))) == Fed(Seeking(0), Packets(rs))
  {
    hide ParseAll, TakeAll, Packet, Terminal, Goods;
    TransmissionIsFrames(rs);
    ParserSeesTheLine(Seeking(0), Goods(Transmission(rs)));
    FramesReceived(0, Packets(rs));
  }

  // Reads until the port fails: every packet found is decoded.
  method ReadAll(link: SerialLink) returns (drops: seq<StateDrop>)
    requires link.InStep()
    modifies link, link.data
    ensures var packets := ParseAll(old(link.State()), old(link.input)).packets;
            && |drops| == |packets|
            && forall k | 0 <= k < |drops| :: |packets[k]| == STATE_LENGTH && drops[k] == Decode(packets[k])
  {
    hide ParseAll, Decode, Possible, Before, SerialLink.State;
    drops := [];
    ghost var all := ParseAll(link.State(), link.input);
    ghost var packets: seq<seq<uint8>> := [];
    NoneBefore(all);
    while true
      invariant link.InStep()
      invariant all == Before(packets, ParseAll(link.State(), link.input))
      invariant |drops| == |packets|
      invariant forall k | 0 <= k < |drops| :: |packets[k]| == STATE_LENGTH && drops[k] == Decode(packets[k])
      decreases |link.input|
    {
      var r, packet := link.ReadStateDrop();
      if r == None {
        NoneBefore(ParseAll(link.State(), link.input));
        break;
      }
      drops := drops + [r.value];
      BeforeBoth(packets, [packet], ParseAll(link.State(), link.input));
      packets := packets + [packet];
    }
    ParseNothing(link.State());
    NothingAfter(packets, link.State());
  }

  lemma NoneBefore(f: Fed)
    ensures Before([], f) == f
  {
  }

  lemma NothingAfter(packets: seq<seq<uint8>>, l: Link)
    ensures Before(packets, Fed(l, [])).packets == packets
  {
  }

  lemma BeforeBoth(a: seq<seq<uint8>>, b: seq<seq<uint8>>, f: Fed)
    ensures Before(a, Before(b, f)) == Before(a + b, f)
  {
  }

  // The whole link: each drop read delivers the readings it was sent for, in order.
  method ReceiveAll(link: SerialLink, ghost rs: seq<Readings>) returns (drops: seq<StateDrop>)
    requires link.InStep() && link.State() == Seeking(0)
    requires forall r | r in rs :: Complete(r)
    requires link.input == Terminal(Goods(Transmission(rs)))
    modifies link, link.data
    ensures |drops| == |rs|
    ensures forall k | 0 <= k < |rs| :: Delivers(drops[k], rs[k])
  {
    hide ParseAll, Decode, Delivers, Packet, Terminal, Transmission, Payload, Goods;
    StatusArrives(rs);
    drops := ReadAll(link);
    ghost var packets := Packets(rs);
    forall k | 0 <= k < |rs| ensures Delivers(drops[k], rs[k]) {
      PacketDelivers(rs[k], packets[k]);
    }
  }
}
