/** The Modbus client module's update handler: which writes an update message causes. */
module ModbusClient {
  import opened Bytes
  import opened GoRuntime
  import opened ModbusRegister
  import opened MessageBus

  datatype Request =
    | WriteSingleCoil(addr: nat, value: nat)
    | WriteMultipleRegisters(addr: nat, quantity: nat, data: seq<byte>)

  type Registers = map<string, Register>

  /** The request for one updated point, if the client has a writable register under its tag. */
  function RequestFor(p: Platform, registers: Registers, q: Point): seq<Request> {
    if q.tag !in registers then []
    else
      var r := registers[q.tag];
      match r.registerType
      case Coil => [WriteSingleCoil(r.addr % 0x1_0000, if q.value != 0.0 then 0xFF00 else 0)]
      case Holding =>
        (match Encode(p, r, q.value)
         case Ok(d) => [WriteMultipleRegisters(r.addr % 0x1_0000, r.count % 0x1_0000, d)]
         case _ => [])
      case _ => []
  }

  function Requests(p: Platform, registers: Registers, points: seq<Point>): seq<Request> {
    if points == [] then [] else RequestFor(p, registers, points[0]) + Requests(p, registers, points[1..])
  }

  /** The frame of a request, after the function code (MODBUS Application Protocol V1.1b3, sections 6.5 and 6.12). */
  function Frame(q: Request): seq<byte> {
    match q
    case WriteSingleCoil(addr, value) => U16(addr) + U16(value)
    case WriteMultipleRegisters(addr, quantity, data) => U16(addr) + U16(quantity) + [|data| % 256] + data
  }

  class ModbusClient {
    const platform: Platform
    const name: string
    const registers: Registers

    /** The requests sent to the remote device, oldest first; their outcome is only logged. */
    var sent: seq<Request>

    constructor (platform: Platform, name: string, registers: Registers)
      ensures this.platform == platform && this.name == name && this.registers == registers && sent == []
    {
      this.platform := platform;
      this.name := name;
      this.registers := registers;
      sent := [];
    }

    /** None stands for a message of any other kind. */
    method HandleMsgBusUpdate(sender: string, update: Option<seq<Point>>)
      modifies this`sent
      ensures sent
         == old(sent) + if sender == name || update.None? then [] else Requests(platform, registers, update.value)
    {
      if sender == name || update.None? {
        assert old(sent) + [] == old(sent);
        return;
      }
      var points := update.value;
      for i := 0 to |points|
        invariant old(sent) + Requests(platform, registers, points) == sent + Requests(platform, registers, points[i..])
      {
        var point := points[i];
        ghost var before := sent;
        assert points[i..][0] == point && points[i..][1..] == points[i + 1..];
        if point.tag in registers {
          var register := registers[point.tag];
          match register.registerType {
            case Coil =>
              var value := if point.value != 0.0 then 0xFF00 else 0;
              sent := sent + [WriteSingleCoil(register.addr % 0x1_0000, value)];
            case Holding =>
              match Encode(platform, register, point.value) {
                case Ok(data) =>
                  sent := sent + [WriteMultipleRegisters(register.addr % 0x1_0000, register.count % 0x1_0000, data)];
                case _ =>
              }
            case _ =>
          }
        }
        assert sent == before + RequestFor(platform, registers, point);
        Concatenate(before, RequestFor(platform, registers, point), Requests(platform, registers, points[i + 1..]));
      }
      assert sent + [] == sent;
    }
  }

  lemma Concatenate(a: seq<Request>, b: seq<Request>, c: seq<Request>)
    ensures a + (b + c) == (a + b) + c
  {
  }
}
