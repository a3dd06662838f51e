# ot-sim in Dafny

A model of the parts of ot-sim where its behaviour is most intricate, and proofs of what that behaviour amounts to:

- **SunSpec** (`SunSpec*.dfy`). The server lays a list of models out as a flat register map; the client confirms the
  identifier and walks the model chain back. `SunSpecDevice` is the configuration step by step, `SunSpecServer` the
  module with its loops, `SunSpecLayout` what configuration makes of the map, `SunSpecClient` the walk,
  `SunSpecDiscovery` the two against each other over the wire and `SunSpecReadings` the values that this brings back.
  `SunSpecTermination` says against which devices the walk ends, `SunSpecAnswers` what the client makes of any answers,
  `SunSpecAcceptance` which lists the server accepts, `SunSpecContents` what its registers then hold and send,
  `SunSpecCases` what discovery makes of such a list, `SunSpecWire` what the point types mean in figures.
- **Modbus** (`Modbus*.dfy`, `BitPacking.dfy`, `RegisterWalk.dfy`, `Gateways.dfy`). The register codec
  (`ModbusRegister`, in figures in `ModbusWire`), the server's eight handlers over its register and tag tables
  (`ModbusServer`, `ModbusLaws`, and `ModbusEffects` for what writes announce), the client's update handler, and chains
  of gateways.
- **The logic engine** (`LogicEngine.dfy`) and the wind turbine's yaw program that it runs (`YawController.dfy`).
- **Step machines**: update coalescing in the I/O module (`IoModule.dfy`), the CPU's process supervisor
  (`Supervisor.dfy`) with the control messages it obeys (`ControlHandler.dfy`), and confirmations over the bus
  (`Confirmation.dfy`).

Modules that change state step by step are classes whose methods have the loops of the source. Each method is
proved to compute a function of its inputs and the old state (`Configured`, `ReadResponse`, `WriteWalk`, `Explored`,
`Script.From`, ...), and the laws are lemmas about those functions. Concurrent parts are state machines over atomic
steps, taken in any order.

Numbers: `float64` values are exact reals. A conversion that does not fit its integer type, the bit patterns of
floating-point registers, powers of ten with a real exponent and the bytes of a string are left to an arbitrary
`Platform`; results about SunSpec scaling ask of it only the laws of powers (`ExactPowers`). A Go run-time panic is an
outcome of its own (`Panic`, `Crash`). Other modules, the network, timers and random draws are parameters.

Main results: `SunSpecDiscovery.DiscoveryInvertsLayout` and `ModelDataRead`, `SunSpecReadings.DiscoveredReadings` and
`DiscoveredValues`, `SunSpecTermination.EndlessIffReturns`, `SunSpecAnswers.DiscoveryOutcome`,
`SunSpecContents.ConfiguredContents` and `ContentsOnWire`, `SunSpecCases.FreshDiscovery`,
`SunSpecLayout.ConfigureTiles`, `SunSpecAcceptance.ConfigureAccepts`, `Gateways.ChainCollapses`,
`ModbusLaws.WriteRequestThenRead`, `WriteWalkPoints`, `LengthByteWrong` and `CoilWriteThenRead`,
`ModbusSharedTags.SharedTagLosesData`, `ModbusEffects.HoldingsWritten` and `CoilsWritten`,
`ModbusRegister.EncodeDecoded` and `ReadBack`, `BitPacking.PackUnpack` and `UnpackPack`,
`LogicEngine.ChangesAreReported`, `ValuesPublished`, `ReportExact`, `UpdateWithinStatus` and `HiddenUpdate`,
`YawController.Converges` and `ComesToRest`, `IoModule.RunDelivers`, `RunPublishes` and `RepublishesLatest`,
`Supervisor.OneSupervisor`, `NoRestartIsForever` and `DisableServed`, `Confirmation.DeliveredRightly`, `StuckIffLate`
and `OverlookedIffClash`.

## Where the code departs from what one would expect

Each of these is stated as a lemma with the exact condition or a concrete case.

- A read delivers its last register whole, and the length byte has room for 127 words: it is right iff the registers
  on the request's path end within 127 words of its start (`RegisterWalk.LengthByte`, `SunSpecDiscovery.ReadLength`). A
  Modbus read of at most 125 registers gets a wrong one iff it asks for 125 and the last word begins a four-word value
  (`ModbusLaws.LengthByteWrong`, an instance in `LengthByteAt125`); with SunSpec's 16-word strings this starts at 113
  (`SunSpecCases.LengthByteAt113`).
- A range of holding registers returns what is written to it exactly if no two share a tag
  (`ModbusSharedTags.SharedTagLosesData`).
- The SunSpec server accepts model 1 anywhere in its list (`SunSpecAcceptance.ConfigureAccepts`); the client needs it
  first (`SunSpecCases.Model1NotFirst`, `Model1Second`). It also needs that each model has some data, fits into one
  read and has no numeric scale factor from its schema's JSON, where numbers are floating point (`FreshDiscovery`).
- An empty element on a numeric SunSpec point makes a tag without a name (`SunSpecAcceptance.FollowedTags`,
  `SunSpecCases.NamelessTagArises`). Then every numeric register without a tag of its own, the identifier first, reads
  as that tag (`SunSpecDiscovery.NamelessShows`, `NamelessTagHidesDevice`), and a read that reaches an untagged string
  register crashes the handler (`NamelessCrash`).
- The client's discovery loop need not end: it goes on for ever iff the device is confirmed, opens with model 1 and the
  walk returns to an address it has seen, modulo 2^16; it does so if 65536 rounds do not end it
  (`SunSpecTermination.EndlessIffReturns`, an instance in `EndlessDevice`).
- The client counts bytes where the map counts words: a writable point is recorded with its own address only if it is
  the first of its model (`SunSpecAnswers.WriteAddress`).
- A logic variable that a program assigns on two lines can be reported as updated although the run left it as it was
  (`LogicEngine.ReportExact`), and with shared tags an update can contradict the status of the same tick
  (`LogicEngine.HiddenUpdate`).
- The yaw program takes an angle of exactly zero as unset and jumps to the set point; otherwise it only comes to rest
  from whole tenths (`YawController.ComesToRest`).
- An I/O module with both publications and endpoints starves its endpoints (`IoModule.PublishingStarvesSending`).
- Two requests to start a module, the second before the first supervisor has made its canceler, give two supervisors
  (`Supervisor.OneSupervisor`). A disable during a restart is answered as done and lost (`DisableServed`,
  `DisableLost`). A module that exits asking not to be restarted is "already enabled" for good, unless another
  supervisor was left (`NoRestartIsForever`). A second disable before the first is served ends the CPU process
  (`SecondDisableCrashes`).
- A confirmation that arrives after its waiter has left blocks the subscriber's only loop for good
  (`Confirmation.StuckIffLate`, `StuckForever`). A confirmation request under an id of which an earlier waiter has not
  received yet, and only that, overlooks a waiter (`OverlookedIffClash`).

## Model

| member | source | states |
|---|---|---|
| Bytes.WordRoundTrip | src/go/modbus/util/register.go:113-119 | a word written high byte first in n bytes reads back as itself |
| Bytes.BytesRoundTrip | src/go/modbus/util/register.go:132-182 | any n bytes are the bytes of the word they read as |
| GoRuntime.IntegerReadBack | src/go/modbus/util/register.go:91-182 | putting a value in steps and getting it back lands within one step, towards zero, iff the value fits the type, and is exact iff it is a whole number of steps |
| Bytes.SignBit | src/go/modbus/util/register.go:132-182 | an integer read from bytes is the big-endian word, less a full turn exactly if the type has negative values and the first byte its top bit |
| BitPacking.BytesToBits | src/go/modbus/util/bytes.go:7-28 | fills the array with the bits of each byte, least significant first, though the source reverses the byte and shifts it left |
| BitPacking.BitsToBytes | src/go/modbus/util/bytes.go:30-55 | sets in place exactly the bits whose input is not zero, in as many bytes as needed |
| BitPacking.PackUnpack | src/go/modbus/util/bytes.go:7-55 | packing the bits of any bytes restores the bytes |
| BitPacking.UnpackPack | src/go/modbus/util/bytes.go:7-55 | unpacking packed bits gives them normalised to 0 and 1, then zeros up to a multiple of eight |
| RegisterWalk.WalkVerdict | src/go/modbus/server/holding.go:25-45 | a read succeeds iff everything on its path is readable, delivers the concatenation, and is otherwise refused for the first thing that is not |
| RegisterWalk.WalkSplit | src/go/modbus/server/holding.go:25-45 | reading a range is reading its two halves one after the other, whenever the first half ends on a register boundary |
| RegisterWalk.WalkSize | src/go/modbus/server/holding.go:18-45 | a successful read delivers at least 2 * count bytes, less than one widest register more, and exactly 2 * count iff it ends on a boundary |
| RegisterWalk.LengthByte | src/go/modbus/server/holding.go:18-45 | a successful answer carries two bytes for each word from the start of the request to where its path ends, and the length byte counts them iff that is at most 127 words |
| RegisterWalk.ReadAnswered | src/go/modbus/server/holding.go:11-46 | the answer to a read on every path: a panic without two fields, all bytes on the path behind their length, or the exception of the first register without any |
| RegisterWalk.TailWalk | src/go/modbus/server/holding.go:25-43 | a read that ends on the first word of a long register delivers all of it |
| MessageBus.StoredValue | src/go/modbus/server/server.go:257-260 | each tag ends with the value of the last point that mentions it, and all others keep theirs |
| ModbusRegister.InitChecks | src/go/modbus/util/register.go:27-55 | an input or holding register is accepted iff its data type is known, and is then at least one word wide with a scaling that is not negative |
| ModbusRegister.ScalingSign | src/go/modbus/util/register.go:51-52 | scaling k and -k configure the same register |
| ModbusRegister.EncodeDecoded | src/go/modbus/util/register.go:91-182 | for every integer type and scaling, every pattern of bytes is the encoding of the value it decodes to |
| ModbusRegister.ReadBack | src/go/modbus/util/register.go:91-182 | a value read back is within one step, towards zero, iff it fits the type; it is unchanged iff it is a whole number of steps |
| ModbusRegister.CoilReadBack | src/go/modbus/util/register.go:75-130 | a coil reads back as 1 for every non-zero value written |
| ModbusWire.FitsInFigures | src/go/modbus/util/register.go:91-104 | a value fits each of the six integer types iff its whole steps lie in the interval of that type, written out |
| ModbusWire.EncodedInFigures | src/go/modbus/util/register.go:91-126 | a value that fits is sent as its whole number of steps, two's complement for the int types, in 2, 4 or 8 bytes |
| ModbusWire.DecodedInFigures | src/go/modbus/util/register.go:132-182 | bytes are read as that integer times the step: negative iff the type is int16, int32 or int64 and the first byte is 128 or more; too few bytes are an error |
| ModbusWire.FloatsUnscaled | src/go/modbus/util/register.go:106-109 | float and double are not scaled: what survives its bit pattern survives the wire |
| ModbusWire.CoilInFigures | src/go/modbus/util/register.go:75-130 | a coil is sent as FF 00 or 00 00 and read from the lowest bit of its first byte |
| ModbusWire.BitsInFigures | src/go/modbus/util/bytes.go:7-28 | the eight bits of a byte, least significant first, written out |
| ModbusServer.ModbusServer.Configure | src/go/modbus/server/server.go:52-182 | the tables and the outcome after a list of register elements, up to the first that is rejected |
| ModbusServer.ModbusServer.ReadHoldingRegisters | src/go/modbus/server/holding.go:11-46 | answers with the walk over the configured registers under the current tags, or with the exception |
| ModbusServer.ModbusServer.WriteHoldingRegister | src/go/modbus/server/holding.go:48-90 | response, tags and pushed updates after a single-register write, with every refusal |
| ModbusServer.ModbusServer.WriteHoldingRegisters | src/go/modbus/server/holding.go:92-148 | response, tags and pushed updates after a multi-register write: tags keep the decoded prefix, only a complete walk is pushed |
| ModbusServer.ModbusServer.ReadInputRegisters | src/go/modbus/server/input.go:10-45 | the same walk over the input registers |
| ModbusServer.ModbusServer.ReadCoilRegisters | src/go/modbus/server/coil.go:13-47 | answers with the packed bits of the coils, or with the exception |
| ModbusServer.ModbusServer.WriteCoilRegister | src/go/modbus/server/coil.go:49-91 | response, tags and pushed updates after a single-coil write |
| ModbusServer.ModbusServer.WriteCoilRegisters | src/go/modbus/server/coil.go:93-142 | response, tags and pushed updates after a multi-coil write |
| ModbusServer.ModbusServer.ReadDiscreteRegisters | src/go/modbus/server/discrete.go:10-49 | answers with the same specification as the coil reader, although it packs inline |
| ModbusServer.ModbusServer.HandleMsgBusStatus | src/go/modbus/server/server.go:239-263 | a status from another module sets every tag that it mentions, in order |
| ModbusServer.ReadRegisters | src/go/modbus/server/holding.go:16-45 | the loop computes the walk, its size byte and its exceptions |
| ModbusServer.StoreRegisters | src/go/modbus/server/holding.go:97-130 | the loop decodes what the write walk decodes and stores exactly those points, in order |
| ModbusServer.StoreBits | src/go/modbus/server/coil.go:97-124 | the loop stores one bit per address, in order, up to the first missing coil or the end of the data |
| ModbusServer.ReadBits | src/go/modbus/server/discrete.go:15-48 | setting bits in place gives the packing of the bits collected first |
| ModbusLaws.ConfigureEstablishes | src/go/modbus/server/server.go:122-178 | every configured register sits at its own address under its own type, has a tag in the table and its type's width; configuration succeeds iff every element is acceptable |
| ModbusLaws.ElementGives | src/go/modbus/server/server.go:122-165 | an element is accepted iff it has type, address and tag and known types; its register has that type, address, tag and data type (uint16 if none is given), and the scaling without its sign (none for float) |
| ModbusLaws.TagsConfigured | src/go/modbus/server/server.go:169-177 | the tag table holds exactly the tags of the elements, each at zero |
| ModbusLaws.FirstRejected | src/go/modbus/server/server.go:122-182 | the first element that is rejected ends configuration and leaves everything before it in place |
| ModbusLaws.LastElementServed | src/go/modbus/server/server.go:131-177 | of several elements for one address of one type the last is served, with the parts that it gives |
| ModbusLaws.ReadOne | src/go/modbus/server/holding.go:25-43 | reading exactly one register delivers its encoded tag value |
| ModbusLaws.ReadLength | src/go/modbus/server/holding.go:18-45 | a successful read delivers between 2 * count and 2 * count + 6 bytes and its length byte is right for every count up to 124 |
| ModbusLaws.LengthByteAt125 | src/go/modbus/server/holding.go:39-45 | at 125 registers the length byte can announce 256 bytes as 0 |
| ModbusLaws.LengthByteWrong | src/go/modbus/server/holding.go:18-45 | a successful read of 1 to 125 registers has a wrong length byte iff it asks for 125 and the 125th is the first word of a four-word register on its path |
| ModbusLaws.WriteWalkPoints | src/go/modbus/server/holding.go:107-130 | a write decodes the registers on its path in order, each from its own bytes; it is complete iff all decode and the path reaches the end; otherwise exactly the prefix before the first failure is kept, with that failure's exception |
| ModbusLaws.WriteFrame | src/go/modbus/server/holding.go:107-130 | whatever its outcome, a write leaves every tag outside its range alone |
| ModbusLaws.WriteThenRead | src/go/modbus/server/holding.go:25-130 | an aligned write over integer registers with distinct tags succeeds, and a read of the range returns the bytes written |
| ModbusLaws.WriteRequestThenRead | src/go/modbus/server/holding.go:11-148 | the same for whole requests: the echo of the write, sent as a read, returns the data of the write |
| ModbusSharedTags.SharedTagLosesData | src/go/modbus/server/holding.go:25-130 | a range of integer registers returns every frame written to it, from any tags, iff no two of its registers share a tag |
| ModbusLaws.SingleWrite | src/go/modbus/server/holding.go:48-90 | a single-register write is refused for every type wider than a word and takes effect, byte for byte, for the one-word types |
| ModbusLaws.BitWalkBits | src/go/modbus/server/coil.go:26-41 | a bit read succeeds iff every address is configured and gives one bit per address, 1 iff the tag is not zero |
| ModbusLaws.DiscreteLikeCoil | src/go/modbus/server/discrete.go:21-48 | coils and discrete inputs whose tags are zero together give the same response |
| ModbusLaws.BitWritePoints | src/go/modbus/server/coil.go:108-124 | a coil write decodes one point per address in order; it is complete iff all coils are configured and the data has enough bits |
| ModbusLaws.CoilsStored | src/go/modbus/server/coil.go:108-124 | after a complete coil write over distinct tags the coils read as the bits written |
| ModbusLaws.CoilWriteThenRead | src/go/modbus/server/coil.go:13-142 | coils written and read back: the bits written, with the padding of the last byte cleared |
| ModbusLaws.PaddingCleared | src/go/modbus/util/bytes.go:30-55 | packing the first count bits of some bytes only clears the bits after them |
| ModbusEffects.HoldingsWritten | src/go/modbus/server/holding.go:92-148 | a multi-register write, on every path: registers decoded in order from their own bytes and stored, up to the first without a value; one message with all of them goes out iff the answer is a success and there are any |
| ModbusEffects.OneWritten | src/go/modbus/server/holding.go:48-90 | a single write, on every path: its value is stored and announced in a message of its own, or nothing changes |
| ModbusEffects.CoilsWritten | src/go/modbus/server/coil.go:93-142 | a multi-coil write, on every path: each address takes its own bit, up to the first that is missing or beyond the data; all are stored, and announced in one message with a successful answer |
| ModbusEffects.BitsRead | src/go/modbus/server/coil.go:13-47 | a bit read answers with the packed bits and their byte count iff every address is configured, and else with the address exception |
| ModbusEffects.CoilWritten | src/go/modbus/server/coil.go:49-91 | FF 00 stores and announces 1, 00 00 stores and announces 0, and a read of the coil shows it |
| ModbusEffects.StatusShown | src/go/modbus/server/server.go:239-263 | after a status message a read of a register delivers the last value for its tag, in whole steps |
| ModbusEffects.FreshZero | src/go/modbus/server/server.go:169-177 | at zero, as configuration leaves it, every integer register reads as zero |
| ModbusEffects.SetpointAnnounced | config/wind-turbine/yaw-controller.xml:20-24 | a write of any word to the shipped set point register stores it as hundredths and announces exactly that to the other modules |
| ModbusClient.ModbusClient.HandleMsgBusUpdate | src/go/modbus/client/client.go:300-346 | sends exactly one write per updated point with a writable register, in order, with the encoded value |
| Gateways.HopRounds | src/go/modbus/client/client.go:316-344 | over one hop (client encodes, server decodes and announces) the message that goes out on the far side carries the value truncated to the hop's decimals under the server's tag, whatever else the two modules have configured |
| Gateways.CoilHop | src/go/modbus/client/client.go:316-330 | over a coil the far side hears 1 for every value but zero, and 0 for that |
| Gateways.RequestSent | src/go/modbus/client/client.go:316-344 | the frame sent for one point: FF 00 or 00 00 to a coil, address, count, size and encoding to a holding register, nothing otherwise |
| Gateways.RequestsInOrder | src/go/modbus/client/client.go:300-346 | the requests for several points are those of each point, in order |
| Gateways.FitsAll | src/go/modbus/util/register.go:91-104 | a chain is in range at each hop whenever the original value fits every hop's type |
| Gateways.ChainCollapses | src/go/modbus/server/holding.go:113-126 | any chain of hops, each in range for what it receives, does to a value exactly what its coarsest hop alone does |
| Gateways.ChainError | src/go/modbus/server/holding.go:113-126 | the error of a chain is less than one step of its coarsest hop and towards zero, whatever its length |
| Gateways.RoundedTwice | src/go/modbus/util/register.go:91-182 | truncating to s and then to t decimals is truncating to the fewer of the two |
| Gateways.PollResponse | src/go/modbus/client/client.go:249-260 | polling one register is answered with its encoded tag value and a correct length |
| Gateways.PollRounds | src/go/modbus/client/client.go:249-269 | a client that polls a register configured like the server's publishes the server's value, truncated to its decimals |
| SunSpecRegister.InitChecks | src/go/sunspec/common/register.go:28-47 | a register is accepted iff its type is known; the sign of the scaling does not matter |
| SunSpecRegister.EncodedLength | src/go/sunspec/common/register.go:49-107 | everything encodes to two bytes a word except a string register with a numeric tag value |
| SunSpecRegister.EncodeDecoded | src/go/sunspec/common/register.go:49-196 | every pattern of bytes is the encoding of the value it decodes to, for every integer type and scaling, with the shared fallback of a zero scaling |
| SunSpecRegister.ReadBack | src/go/sunspec/common/register.go:49-196 | a value read back is within one step, towards zero, iff it fits; unchanged iff it is a whole number of steps |
| SunSpecWire.FitsInFigures | src/go/sunspec/common/register.go:70-100 | a value fits each integer type iff its whole steps lie in the interval of that type, written out; which types are scaled is written out too |
| SunSpecWire.EncodedInFigures | src/go/sunspec/common/register.go:49-107 | a value that fits is sent as its whole number of steps, in two's complement for int16, int32, pad and sunssf, in the bytes of its type |
| SunSpecWire.DecodedInFigures | src/go/sunspec/common/register.go:109-196 | bytes are read as that integer, times the step for the scaled types; too few bytes are an error |
| SunSpecWire.FloatUnscaled | src/go/sunspec/common/register.go:80-81 | float32 is not scaled: what survives its bit pattern survives the wire |
| SunSpecWire.TextInFigures | src/go/sunspec/common/register.go:86-97 | a text is sent from its start, cut off or filled up with zeros; with a tag value the handler panics |
| SunSpecServer.GetModelLength | src/go/sunspec/common/schema.go:27-39 | the sum of the sizes after the first two points |
| SunSpecServer.SunSpecServer.Configure | src/go/sunspec/server/server.go:67-183 | registers, both lookup tables, tags and the error after a list of models, on every path |
| SunSpecServer.SunSpecServer.CreatePoints | src/go/sunspec/server/server.go:99-146 | the registers of a model's schema placed one after the other, up to the first bad point |
| SunSpecServer.SunSpecServer.ApplyElements | src/go/sunspec/server/server.go:148-167 | the configured texts, numbers and tags applied to the points last created under their names |
| SunSpecServer.SunSpecServer.ReadHoldingRegisters | src/go/sunspec/server/server.go:221-274 | answers with the walk over the register map under the current tags |
| SunSpecServer.ReadRegisters | src/go/sunspec/server/server.go:222-273 | the loop computes that walk, with the scale factor of another point, and its exceptions |
| SunSpecServer.SunSpecServer.HandleMsgBusStatus | src/go/sunspec/server/server.go:349-376 | a status from another module sets the tags that are already known |
| SunSpecServer.FollowedKeys | src/go/sunspec/server/server.go:363-375 | status messages never add or remove a tag |
| SunSpecServer.FollowedLikeStored | src/go/sunspec/server/server.go:363-375 | a known tag ends with the value of the last point that mentions it |
| SunSpecLayout.PlaceKeeps | src/go/sunspec/server/server.go:142-145 | adding a point keeps every register at its start and takes the entry left by an override |
| SunSpecLayout.OverrideKeeps | src/go/sunspec/server/server.go:148-166 | applying an element keeps the layout; its extra entry stands at the next free address only |
| SunSpecLayout.EntryLeft | src/go/sunspec/server/server.go:148-166 | the extra entry is that of the register named last; it stays only where configuration fails behind it |
| SunSpecLayout.ConfigureTiles | src/go/sunspec/server/server.go:67-183 | configuration lays the identifier, every point of every model in order and the end marker end to end from 40000, with no gap, overlap or leftover entry |
| SunSpecLayout.ExactlyOneOwner | src/go/sunspec/server/server.go:142-145 | every address from 40000 to the end of the map belongs to exactly one register |
| SunSpecLayout.ConfiguredTags | src/go/sunspec/server/server.go:157-163 | whatever its outcome, configuration makes tags only of non-numeric texts of its elements, each at zero |
| SunSpecAcceptance.ConfigureAccepts | src/go/sunspec/server/server.go:83-182 | a list of models is accepted iff each has a schema of good points and its elements name points that exist by then, and a model 1 is among them, anywhere |
| SunSpecAcceptance.FollowedTags | src/go/sunspec/server/server.go:148-164 | the tags of an accepted list are exactly the non-numeric texts of elements whose point is not a string, each at zero |
| SunSpecContents.SchemaGives | src/go/sunspec/server/server.go:99-140 | what a schema point gives its register: name, model, type, width, scale factor or scale point, and the id or the length for ID and L |
| SunSpecContents.ConfiguredContents | src/go/sunspec/server/server.go:95-167 | after every accepted list each register holds its schema's content changed by the elements that name it: the last text that is no number is its tag, the last number its value, the last text of a string point its text; a name means the last point so far that bears it |
| SunSpecContents.ContentsOnWire | src/go/sunspec/server/server.go:240-265 | so a read encodes, in figures, the value of the tag that a point follows, or else its own; a string point sends its last text |
| SunSpecContents.ScaleFactorShown | src/go/sunspec/server/server.go:240-254 | the exponent is the own value of the scale point, never that of a tag; a name that no point bears is an error |
| SunSpecContents.ConfigurationStops | src/go/sunspec/server/server.go:83-167 | a list that is not accepted is configured up to its first fault, which decides the error; the registers are those before it, without an end marker |
| SunSpecContents.FirstFault | src/go/sunspec/server/server.go:83-167 | every list that is not accepted for its models has such a fault |
| SunSpecClient.SunSpecClient.ReadModel | src/go/sunspec/client/util.go:56-115 | the loop slices the data of a model point by point, with its errors and its slice panics |
| SunSpecClient.SunSpecClient.Discover | src/go/sunspec/client/client.go:100-145 | any number of rounds of the discovery loop compute the exploration of the remote device, on every path |
| SunSpecTermination.DiscoveryEnds | src/go/sunspec/client/client.go:110-145 | against a device that answers nothing below 40000 and no read above 125 registers the loop ends within 13000 rounds |
| SunSpecTermination.EndlessIffReturns | src/go/sunspec/client/client.go:100-145 | discovery goes on for every number of rounds iff the device is confirmed, opens with model 1 and the walk returns to an address modulo 2^16; otherwise it is over within 65536 rounds |
| SunSpecTermination.EndlessDevice | src/go/sunspec/client/client.go:110-145 | a device that shows a model header wherever it is asked keeps the loop going forever, as the requested addresses wrap around |
| SunSpecDiscovery.ReadRange | src/go/sunspec/server/server.go:221-274 | a read from the start of one register to the start of another, over the wire, gives the bytes of the registers between, or fails if one has none |
| SunSpecDiscovery.IdentifierConfirmed | src/go/sunspec/client/util.go:10-28 | a configured server is confirmed as a SunSpec device |
| SunSpecDiscovery.HeaderRead | src/go/sunspec/client/util.go:30-54 | two registers that hold an id and a length are read as that id and that length |
| SunSpecDiscovery.LinkBounded | src/go/sunspec/server/server.go:231-239 | a configured server answers nothing below its map, and the library no read above the limit: the condition under which discovery ends |
| SunSpecDiscovery.ModelDataRead | src/go/sunspec/client/util.go:56-115 | reading a model succeeds iff it can be fetched, and then each point's register is the server's without its contents, its raw slice, byte for byte, what the server encodes for that point, and the slices together are the payload |
| SunSpecDiscovery.ExploresChain | src/go/sunspec/client/client.go:104-145 | the loop reaches the end marker of a chain iff the chain opens with model 1 and every model can be fetched; then it has recorded exactly the chain's models in order |
| SunSpecDiscovery.DevicePresents | src/go/sunspec/server/server.go:67-183 | a device laid out from a list of models presents exactly that chain to a client |
| SunSpecDiscovery.DiscoveryInvertsLayout | src/go/sunspec/client/client.go:104-145 | against a configured server, under any values of its named tags, discovery ends at the end marker iff model 1 comes first and every model can be fetched, and then has recorded the configured models, in order, at their true addresses and lengths |
| SunSpecDiscovery.SettingsOf | src/go/sunspec/client/client.go:128-133 | with distinct ids each model is recorded two words past the sum of what precedes it |
| SunSpecDiscovery.StatusKeepsService | src/go/sunspec/server/server.go:363-375 | whatever points a status message carries, the server stays one that discovery gets through |
| SunSpecDiscovery.NamelessTagHidesDevice | src/go/sunspec/client/util.go:10-28 | with a nameless tag of any value the device is confirmed iff that value encodes as the identifier, in range iff it truncates to it |
| SunSpecReadings.DiscoveredReadings | src/go/sunspec/client/client.go:104-145 | after a finished discovery the points recorded are those named on the walk, and under each name are the register of the server (type, width, scale factor) and, byte for byte, what the server encodes for the last register of that name on the walk |
| SunSpecReadings.DiscoveredValues | src/go/sunspec/client/util.go:82-109 | so decoding what is recorded gives the server's value within one step, towards zero, for every integer type and value in range |
| SunSpecReadings.ScaleFactorRead | src/go/sunspec/client/util.go:92-101 | a scale factor travels exactly: the client decodes the very exponent that the server uses |
| SunSpecAnswers.SlicesVerdict | src/go/sunspec/client/util.go:74-112 | for any answer of any device, cutting up succeeds iff every point is acceptable and reached by the data; each point then has its own bytes, and otherwise the first that fails decides between an error and a panic |
| SunSpecAnswers.WriteAddress | src/go/sunspec/client/util.go:88-109 | a writable point is recorded with its own address iff it is the first of its model; further on the offset is counted twice |
| SunSpecAnswers.HopMeans | src/go/sunspec/client/client.go:110-145 | the loop gets through a model iff the device answers with a header of a known id and with data that reach all its points |
| SunSpecAnswers.DiscoveryOutcome | src/go/sunspec/client/client.go:100-145 | how discovery ends against any device: what it finds behind the models that it gets through decides between finishing, failing and a run-time panic |
| SunSpecDiscovery.NamelessShows | src/go/sunspec/server/server.go:247-263 | with a nameless tag every untagged numeric register is encoded from that tag's value, and every untagged string register panics |
| SunSpecDiscovery.NamelessCrash | src/go/sunspec/server/server.go:226-273 | with a nameless tag a read crashes when it reaches an untagged string register, everything before it on its path being readable |
| SunSpecDiscovery.ReadLength | src/go/sunspec/server/server.go:226-273 | a successful read delivers between 2 * count and 2 * count + 30 bytes and its length byte is right iff the path ends within 127 words of the start, so for every count up to 112 |
| SunSpecDiscovery.LinkAnswers | src/go/sunspec/client/util.go:10-60 | a client gets the payload of an answer iff it asks for 1 to 125 registers and the answer ends within 127 words; a wrong length byte costs it the whole read |
| SunSpecCases.FreshDiscovery | src/go/sunspec/client/client.go:100-145 | for every accepted list of standard models, discovery of the fresh server ends at the end marker iff no empty text makes a point follow a nameless tag, model 1 comes first and every model can be fetched |
| SunSpecCases.Model1NotFirst | src/go/sunspec/client/client.go:116-122 | every accepted list with model 1 not in front is never discovered to the end |
| SunSpecCases.Model1Second | src/go/sunspec/server/server.go:169-180 | a list of model 2 and model 1 is accepted and not discovered |
| SunSpecCases.NamelessTagArises | src/go/sunspec/server/server.go:148-164 | one empty element on a numeric point is accepted and hides the server |
| SunSpecCases.LengthByteAt113 | src/go/sunspec/server/server.go:267-273 | a configured server answers a read of 113 registers with 256 bytes announced as 0 |
| LogicEngine.ChangesAreReported | src/go/logic/logic.go:397-428 | for every program and environment: a tagged variable that ends a run changed is reported, the report names exactly those that some line changed, and variables that no line assigns are untouched |
| LogicEngine.OnceReportedExactly | src/go/logic/logic.go:416-424 | of a variable assigned on one line only, it is reported iff the run changed it |
| LogicEngine.RevertedYetReported | src/go/logic/logic.go:416-424 | in every program that assigns a tagged variable on two lines, constants and variables as code suffice for a run that reports it and restores everything |
| LogicEngine.ReportExact | src/go/logic/logic.go:416-424 | the report on a variable is exact for all such code and all environments iff the program assigns it on one line at most |
| LogicEngine.PointsSpoken | src/go/logic/logic.go:203-231 | the points of a tick carry, under each tag, the value of the last variable with that tag |
| LogicEngine.ValuesPublished | src/go/logic/logic.go:201-295 | under each tag the status carries the last variable's value at the end of the run, and the update that of the last one reported: true as 1, false as 0, numbers as they are, a text as 0 |
| LogicEngine.UpdateWithinStatus | src/go/logic/logic.go:201-295 | where each assigned variable is the last under its tag, every update point is in the status of the same tick with the same value |
| LogicEngine.HiddenUpdate | src/go/logic/logic.go:201-295 | the condition is exact: with the variables and tags of any program where it fails, constants and variables as code suffice for a run that sends an update which contradicts its status |
| LogicEngine.ZerosYield | src/go/logic/logic.go:114-144 | the initial environment does not depend on whether program or variables come first |
| LogicEngine.TablesInverse | src/go/logic/logic.go:125-129 | the tables between variables and tags are inverse to each other iff no two variables share a tag |
| LogicEngine.ReceivedLast | src/go/logic/logic.go:446-451 | the last point for a variable decides its value, as a floating-point number; without one it keeps its own |
| LogicEngine.VariablesZeroed | src/go/logic/logic.go:103-122 | after a program exactly the variables that it assigns are there besides the earlier ones, at zero unless they had a value |
| LogicEngine.VariableValued | src/go/logic/logic.go:125-145 | the last element for a variable that has a value gives it |
| LogicEngine.OutputsApart | src/go/logic/logic.go:92-102 | lines that only log have names of their own, each different, which no variable is assigned under |
| LogicEngine.Logic.LoadProgram | src/go/logic/logic.go:76-123 | the order, the code and the zeroed variables after a program, up to the first line that does not compile |
| LogicEngine.Logic.LoadVariables | src/go/logic/logic.go:124-145 | the tables and initial values after the variables, up to the first without a value, which is still entered in the tables |
| LogicEngine.Logic.Execute | src/go/logic/logic.go:397-428 | the loop computes the run of the loaded script: environment and report |
| LogicEngine.Logic.Tick | src/go/logic/logic.go:199-297 | what one tick publishes as status and as update |
| LogicEngine.Logic.HandleMsgBusStatus | src/go/logic/logic.go:430-454 | a status from another module sets the variables of the tags it mentions |
| LogicEngine.Logic.HandleMsgBusUpdate | src/go/logic/logic.go:456-480 | an update from another module does the same |
| YawController.Configured | config/wind-turbine/yaw-controller.xml:25-38 | loading the configuration gives the yaw program, its tags and both angles at zero |
| YawController.Arithmetic | config/wind-turbine/yaw-controller.xml:30-33 | sums and products in the program are those of the numbers, whole iff both sides are |
| YawController.TickTurns | config/wind-turbine/yaw-controller.xml:28-33 | one tick turns the nacelle one step, keeps the set point, and sends the new angle as an update iff it moved |
| YawController.TicksTurn | config/wind-turbine/yaw-controller.xml:28-33 | running the program tick by tick is iterating the step |
| YawController.Approach | config/wind-turbine/yaw-controller.xml:30-32 | until it passes through zero the nacelle approaches in steps of a tenth |
| YawController.Converges | config/wind-turbine/yaw-controller.xml:28-33 | the gap is below a tenth after floor(10 * gap) ticks and in every tick from then on, and not earlier unless the nacelle passes through zero |
| YawController.ComesToRest | config/wind-turbine/yaw-controller.xml:28-33 | the nacelle ever rests on the set point iff the gap is a whole number of tenths or whole tenths lead it through zero |
| YawController.TurnsForever | config/wind-turbine/yaw-controller.xml:30-32 | otherwise it goes to and fro across the set point with period two |
| IoModule.ReceiveLatest | src/python/otsim/io/io.py:159-161 | the dictionary of updated tags holds each tag once, with its latest value |
| IoModule.TopicsPublished | src/python/otsim/helics_helper/__init__.py:393-425 | exactly the topics that have a value are published, each with that value |
| IoModule.EachTopicOnce | src/python/otsim/helics_helper/__init__.py:393-425 | no topic is published twice in one action |
| IoModule.UntaggedStaysEmpty | src/python/otsim/io/io.py:183-205 | a topic without a tag is never published |
| IoModule.MessagesDeliver | src/python/otsim/io/io.py:213-239 | one message per endpoint, in which each routed tag stands exactly once with its value |
| IoModule.NothingElseSent | src/python/otsim/io/io.py:213-239 | nothing is sent on a route that no tag has |
| IoModule.RunDelivers | src/python/otsim/io/io.py:208-241 | over a whole run, in any interleaving, a route delivers exactly the latest value of each stretch before a send, in order, each once |
| IoModule.RunPublishes | src/python/otsim/io/io.py:183-205 | over a whole run, each publishing action shows under a topic exactly the latest value found so far, cast to its type |
| IoModule.EveryPointOnce | src/python/otsim/helics_helper/__init__.py:287-330 | every point received falls into the stretch of exactly one action or is still pending, and the outputs of the run, on every route and topic, are what those stretches ask for |
| IoModule.SendDelivers | src/python/otsim/io/io.py:208-241 | a send delivers under every route the latest pending value exactly once, and nothing if none is pending |
| IoModule.DataIsTaken | src/python/otsim/io/io.py:183-205 | a topic holds the latest value that publishing found for its tag, cast to its type |
| IoModule.OnlySending | src/python/otsim/helics_helper/__init__.py:299-313 | without publications, after a send the last value that a route has delivered is the latest ever received |
| IoModule.RepublishesLatest | src/python/otsim/helics_helper/__init__.py:299-305 | without endpoints each publishing action publishes under each topic exactly the latest value ever received, cast to its type |
| IoModule.PublishingStarvesSending | src/python/otsim/helics_helper/__init__.py:299-313 | with both, the messages of a send carry exactly the latest of what came in since the publishing of its own step |
| IoModule.IO.HandleMsgBusUpdate | src/python/otsim/io/io.py:153-161 | coalesces an update into the dictionary |
| IoModule.IO.ActionPublications | src/python/otsim/io/io.py:183-205 | refreshes the values of the updated tags' topics, keeps the others and clears the dictionary |
| IoModule.IO.Publish | src/python/otsim/helics_helper/__init__.py:299-305 | the first half of a step: its new state and what is published |
| IoModule.IO.ActionEndpointsSend | src/python/otsim/io/io.py:208-241 | the messages for the dictionary, which is cleared |
| IoModule.IO.Send | src/python/otsim/helics_helper/__init__.py:307-313 | the second half of a step: its new state and what is sent |
| Supervisor.EveryRunAccounts | src/go/cpu/execute.go:78-258 | in every run the process waits for exactly the supervisors that are left, and a supervisor's only child not yet reaped is its current one, so that it starts another only after reaping |
| Supervisor.OneSupervisor | src/go/cpu/internal.go:47-52 | at most one supervisor is outside its drain phase at any time of a run iff no accepted enable comes before the last supervisor has made its canceler |
| Supervisor.CancelerInForce | src/go/cpu/execute.go:210-223 | in such runs a waiting supervisor has made the canceler in force |
| Supervisor.SupervisorLives | src/go/cpu/execute.go:78-258 | a supervisor is there from a granted request until its child fails to start, asks not to be restarted or is stopped |
| Supervisor.GoneForever | src/go/cpu/execute.go:78-258 | one that is gone never comes back |
| Supervisor.DeathRestarts | src/go/cpu/execute.go:210-222 | after a death without that request the supervisor starts another child |
| Supervisor.CancelerIsLastMade | src/go/cpu/execute.go:208-230 | in every run the canceler is the channel last made, unless one was served since; deaths, failed starts and stops never take it back |
| Supervisor.ClosedByRequest | src/go/cpu/internal.go:65-68 | the channels closed are exactly those in force at some request to disable |
| Supervisor.StoppedAfterStop | src/go/cpu/execute.go:241-256 | supervisors stop for the process only after it was asked to |
| Supervisor.ChildrenConserved | src/go/cpu/execute.go:119-240 | in every run the children started are those reaped and those still to be reaped |
| Supervisor.StopFinishes | src/go/cpu/execute.go:241-256 | from every reachable state the process, once asked to stop, can bring all supervisors to an end |
| Supervisor.DeadForever | src/go/cpu/internal.go:47-60 | a canceler without a supervisor refuses every later enable, and no child is ever started again |
| Supervisor.NoRestartIsForever | src/go/cpu/execute.go:213-219 | in any reachable state, a module that exits asking not to be restarted never runs again, under any later requests, iff no other supervisor is left and its canceler is still in force |
| Supervisor.OneServes | src/go/cpu/execute.go:210-223 | where there is one supervisor at a time throughout, that condition holds |
| Supervisor.NoRestartArises | src/go/cpu/execute.go:210-219 | it holds right after a first start |
| Supervisor.DisableServed | src/go/cpu/internal.go:65-73 | in a run with one supervisor at a time, a disable answered as done is ever served, without another, iff the supervisor is waiting just then |
| Supervisor.DisableLost | src/go/cpu/internal.go:65-73 | a disable right after a child died is answered as done and never served |
| Supervisor.SecondDisableCrashes | src/go/cpu/internal.go:65-70 | after an accepted disable the next one closes a closed channel iff nothing has served or replaced the canceler in between, whatever else happened |
| ControlHandler.Cpu.HandleControl | src/go/cpu/internal.go:32-77 | modules, results and errors after a control message, the two loops in order, or that the process ended |
| ControlHandler.EachModuleItsOwn | src/go/cpu/internal.go:47-77 | a message does to each module exactly what the requests that name it do, in order |
| ControlHandler.AllAnswered | src/go/cpu/internal.go:32-77 | everything asked for is answered among results or errors, and nothing else |
| ControlHandler.EveryModuleListed | src/go/cpu/internal.go:37-45 | a list request reports every module not otherwise named as enabled iff it has a canceler, and as disabled iff it has none |
| ControlHandler.LastAnswer | src/go/cpu/internal.go:47-77 | the last request that names a module is answered by the canceler that the ones before it have left; an unknown name does not exist |
| ControlHandler.AnswersStay | src/go/cpu/internal.go:32-77 | no request takes back an answer given before |
| ControlHandler.CrashMeans | src/go/cpu/internal.go:65-70 | a message ends the process iff one of its requests to disable meets a canceler already closed |
| ControlHandler.NamedTwiceStartsTwice | src/go/cpu/internal.go:47-63 | a module named twice in one message gets two supervisors, reported as enabled |
| ControlHandler.DeadListedEnabled | src/go/cpu/internal.go:37-58 | a module whose process asked not to be restarted is ever after listed as enabled and refused as already enabled, although nobody supervises it |
| Confirmation.DeliveredRightly | src/go/msgbus/subscriber.go:124-137 | in every run a confirmation reaches only a waiter that asked under its id, no waiter gets two, and each confirmation that came in is delivered or in hand at most once |
| Confirmation.StuckIffLate | src/go/msgbus/subscriber.go:130-137 | the dispatch loop gets stuck iff a confirmation comes after its waiter left, or the waiter leaves while the loop hands over to it |
| Confirmation.StuckForever | src/go/msgbus/subscriber.go:93-138 | once stuck it never takes another message of any kind |
| Confirmation.StuckArises | src/go/msgbus/subscriber.go:130-137 | a timeout while the confirmation is handed over leads there |
| Confirmation.WaiterSteps | src/go/telnet/modules.go:18-43 | a waiter sends once and gives up only while it waits, whatever the loop is doing |
| Confirmation.LoopGoesOn | src/go/msgbus/subscriber.go:124-137 | while not stuck, at most the waiter's next step stands between the loop and its next message |
| Confirmation.NobodyOverlooked | src/go/telnet/modules.go:18-43 | with unique ids every waiter that has received nothing is the one registered under its id |
| Confirmation.OverlookedIffClash | src/go/msgbus/subscriber.go:71-76 | every waiter that has received nothing stays registered throughout a run iff no request comes under an id of which an earlier waiter has received nothing |
| Confirmation.RepeatedIdOverlooks | src/go/msgbus/subscriber.go:71-76 | with a repeated id the first waiter is overlooked |

## Left out

- IEEE 754 rounding, NaN and infinities: values are exact reals, so neither the last bits of a scaled value nor the tick that cannot be encoded as JSON (and then keeps its lock) is modelled.
- `float`, `double` and `float32` registers: their bit patterns are opaque, so only the integer types have round trips.
- Locks and the interleaving of handlers of one module: each handler is atomic. Unsynchronised Go map accesses are not modelled.
- SunSpec server: the write handler, which never advances. SunSpec client: writing, scaled publishing, the push of values during discovery (taken to succeed) and the polling after it.
- SunSpecClient.SunSpecClient.Discover: the loop is followed for any given number of rounds, since in the source it need not end.
- SunSpecDiscovery.DiscoveryInvertsLayout: the tags keep their values during one walk; between walks they may take any.
- Modbus client: the poll over all registers in map order and the choice of endpoint; one polled register is covered by `Gateways.PollRounds`. The client library's own checks (quantity 1 to 125, length byte) are taken from the MODBUS Application Protocol Specification V1.1b3, section 6.3.
- Go slices beyond their length but within their capacity: a slice past the end of a frame is modelled as a panic.
- XML, JSON and message envelopes: configuration elements and messages come parsed; a part that is missing or unreadable is `None`.
- Metrics, logging, ports, serial and TLS options, and modules other than those named above.
- LogicEngine.Logic.Execute: code is run by an arbitrary partial function; list values, which only the helper functions make and whose comparison panics in Go, are not among the values, and those helper functions are not modelled.
- YawController.Configured: of the expression language only the operators of the yaw program are modelled; a missing variable is a run-time error in the model.
- I/O module: publications of a type other than boolean and double. Such a type becomes `None`, with which their registration at HELICS fails and the module does not start.
- The I/O module's subscriptions, HELICS time requests and grants, and a second I/O device in one process, which would share the class-level defaults: actions may come in any order and number, the source's own order among them.
- Supervisor: log shipping and the reasons for which a child dies. The steps are on values; whether a child starts is a choice of the run.
- ControlHandler.Cpu.HandleControl: no supervisor steps in between the requests of one message, which `Supervisor` does allow; the confirmation that the message asks for is sent by its caller.
- Confirmation: the content of control messages and the bus itself; confirmations may come at any time, also repeatedly or never.
