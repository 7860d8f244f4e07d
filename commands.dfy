/**
 * The command handlers of the interactive shell (`src/ctmodbus/commands.py`):
 * the host/port parser, the range-driven read commands and the two write
 * commands. The device session is a parameter (`None` when no session is
 * open); the handlers' dialogs are represented by the data they would show.
 */
module Commands {
  import opened Wrappers
  import opened Text
  import opened OrderedMap
  import opened Common
  import opened Device
  import opened Layout
  import opened Summary

  /** Why a command is refused: the exception that ends it in the source. */
  datatype CommandError =
    | BadHostFormat           // "Must be in format ip or host or ip:port or host:port"
    | PortNotInteger          // int() of the port text
    | NoSession               // no open session
    | NoArguments             // an empty argument text has no range text
    | MaxCountNotDigits       // "max_count must be a digit"
    | BadRange(error: RangeError)
    | ZeroChunkSize           // a chunk size of 0 is a zero `range` step
    | NoValues(kind: ReadKind, start: int, count: int)  // a response without bits or registers
    | MissingAddress          // an address of the chunk has no value
    | EmptyResults            // the summary of an empty dict
    | NotTwoArguments         // the write text is not "<start> <values>"
    | StartNotDigits          // "start must be an integer"
    | ValuesNotDecimals       // "List of values to write must be decimals"

  // ---------------------------------------------------------------------
  // parse_ip_port
  // ---------------------------------------------------------------------

  /** `parse_ip_port`: "host" or "host:port"; the port defaults to 502. */
  function ParseIpPort(ipPort: string): (r: Result<(string, int), CommandError>)
    ensures r.Success? ==> ':' !in r.value.0
  {
    var parts := Split(ipPort, ':');
    SplitParts(ipPort, ':');
    assert parts[0] in parts;
    if !(0 < |parts| < 3) then Failure(BadHostFormat)
    else if |parts| == 2 then
      match PyInt(parts[1])
      case None => Failure(PortNotInteger)
      case Some(port) => Success((parts[0], port))
    else Success((parts[0], 502))
  }

  /** A host without a port gets the Modbus/TCP port 502. */
  lemma ParseIpPortDefault(host: string)
    requires ':' !in host
    ensures ParseIpPort(host) == Success((host, 502))
  {
    SplitJoin([host], ':');
  }

  /** Writing a host and a port as "host:port" and parsing it gives them back. */
  lemma ParseIpPortRoundTrip(host: string, port: nat)
    requires ':' !in host
    ensures ParseIpPort(host + ":" + NatToString(port)) == Success((host, port))
  {
    var p := NatToString(port);
    NatToStringRoundTrip(port);
    NatToStringHasNoSeparator(port, ':');
    SplitJoin([host], ':');
    SplitJoin([p], ':');
    SplitSeparatorConcat(host, p, ':');
    assert host + ":" + p == host + [':'] + p;
  }

  /** Text with two or more colons is refused. */
  lemma ParseIpPortTooManyColons(ipPort: string)
    requires Count(ipPort, ':') >= 2
    ensures ParseIpPort(ipPort) == Failure(BadHostFormat)
  {
    SplitParts(ipPort, ':');
  }

  // ---------------------------------------------------------------------
  // read_common
  // ---------------------------------------------------------------------

  /** The chunk size of a read command: the optional second word, 100 without one. */
  function MaxCountArgument(parts: seq<string>): (r: Result<nat, CommandError>)
    requires 1 <= |parts| <= 2
    ensures |parts| == 1 ==> r == Success(100)
    ensures |parts| == 2 ==> (r.Success? <==> IsDigits(parts[1]))
  {
    if |parts| == 2 then
      if IsDigits(parts[1]) then Success(DigitsValue(parts[1])) else Failure(MaxCountNotDigits)
    else Success(100)
  }

  /**
   * `read_common`: the chunks a read command requests, in order. The first
   * word is the range text, parsed with bounds 0 and 65535; the optional
   * second word is the chunk size. Every refusal happens before the first
   * chunk is produced, so the chunks are computed as a whole.
   */
  function ReadCommon(connected: bool, args: string): (r: Result<seq<Loop>, CommandError>)
    ensures !connected ==> r == Failure(NoSession)
    ensures connected && SplitMax1(args) == [] ==> r == Failure(NoArguments)
  {
    if !connected then Failure(NoSession)
    else
      var parts := SplitMax1(args);
      if parts == [] then Failure(NoArguments)
      else
        match MaxCountArgument(parts)
        case Failure(e) => Failure(e)
        case Success(maxCount) =>
          match ParseCsr(parts[0], 0, 65535)
          case Failure(e) => Failure(BadRange(e))
          case Success(loops) =>
            // `loops` holds one record per token, so it is never empty here
            if maxCount == 0 then Failure(ZeroChunkSize)
            else Success(MaxCount(loops, maxCount))
  }

  /**
   * A successful `read_common` requests exactly the addresses the range text
   * names, in the text's order, in chunks of 1 to `m` addresses within
   * 0..65535, where `m` is the chunk size argument (100 by default).
   */
  lemma ReadCommonSpec(connected: bool, args: string)
    requires ReadCommon(connected, args).Success?
    ensures var parts := SplitMax1(args);
      && |parts| >= 1
      && ParseCsr(parts[0], 0, 65535).Success?
      && MaxCountArgument(parts).Success?
      && var m := MaxCountArgument(parts).value;
      && var chunks := ReadCommon(connected, args).value;
      && m > 0
      && Enum(chunks) == Enum(ParseCsr(parts[0], 0, 65535).value)
      && forall c <- chunks :: HalfOpen(c) && 1 <= c.count <= m && 0 <= c.start && c.stop <= 65536
  {
    var parts := SplitMax1(args);
    var m := MaxCountArgument(parts).value;
    var tokens := Split(parts[0], ',');
    var loops := ParseCsr(parts[0], 0, 65535).value;
    ParseTokensSpec(tokens, 0, 65535);
    assert AllHalfOpen(loops) by {
      forall l <- loops ensures HalfOpen(l) {
        var i :| 0 <= i < |loops| && loops[i] == l;
        assert l == ParseToken(tokens[i], 0, 65535).value;
      }
    }
    MaxCountSpec(loops, m);
    MaxCountBounds(loops, m);
  }

  /** Chunks stay inside the bounds of the records they are cut from. */
  lemma {:induction false} MaxCountBounds(loops: seq<Loop>, m: int)
    requires m > 0
    requires forall l <- loops :: HalfOpen(l) && 0 <= l.start && l.stop <= 65536
    ensures forall c <- MaxCount(loops, m) :: 0 <= c.start && c.stop <= 65536
    decreases |loops|
  {
    if loops != [] {
      assert loops[0] in loops;
      assert forall l <- loops[1..] :: l in loops;
      MaxCountBounds(loops[1..], m);
      ChunksFromBounds(loops[0], m, 0);
    }
  }

  lemma {:induction false} ChunksFromBounds(l: Loop, m: int, i: int)
    requires m > 0 && i >= 0 && HalfOpen(l) && 0 <= l.start && l.stop <= 65536
    ensures forall c <- ChunksFrom(l, m, i) :: 0 <= c.start && c.stop <= 65536
    decreases l.count - i
  {
    if i < l.count {
      ChunksFromBounds(l, m, i + m);
    }
  }

  // ---------------------------------------------------------------------
  // do_read_*: one chunk after the other
  // ---------------------------------------------------------------------

  function ReadDescription(kind: ReadKind): string {
    match kind
    case Coils => "Modbus Function 1, Read Coils"
    case DiscreteInputs => "Modbus Function 2, Read Discrete Inputs"
    case HoldingRegisters => "Modbus Function 3, Read Holding Registers"
    case InputRegisters => "Modbus Function 4, Read Input Registers"
  }

  /** Bits are laid out 32 to a line, registers 8 to a line. */
  function StyleOf(kind: ReadKind): Style {
    if IsBitKind(kind) then BitStyle else WordStyle
  }

  /**
   * The values a response contributes: `int(bit)` for each bit of a bit
   * read, the registers unchanged for a register read, nothing when the
   * response has no such field.
   */
  function ResponseValues(kind: ReadKind, response: Response): (r: Option<seq<int>>)
    ensures IsBitKind(kind) ==> (r.Some? <==> response.BitsResponse?)
    ensures !IsBitKind(kind) ==> r == Registers(response)
    ensures IsBitKind(kind) && r.Some? ==>
      |r.value| == |response.bits| &&
      forall i | 0 <= i < |r.value| :: r.value[i] == (if response.bits[i] then 1 else 0)
  {
    if IsBitKind(kind) then
      match Bits(response)
      case None => None
      case Some(bits) => Some(seq(|bits|, i requires 0 <= i < |bits| => BoolToInt(bits[i])))
    else Registers(response)
  }

  /**
   * One chunk: request it, then store the values under their addresses (as
   * many as both the chunk and the response have). Logging the chunk then
   * needs a value at every address of the chunk, which an earlier chunk
   * may have supplied.
   */
  function StoreChunk(kind: ReadKind, session: Session, c: Loop, m: seq<Entry<int>>): Result<seq<Entry<int>>, CommandError> {
    match ResponseValues(kind, session(kind, c.start, c.count))
    case None => Failure(NoValues(kind, c.start, c.count))
    case Some(vals) =>
      var r := Fill(m, c.start, vals, ZipLen(c.stop - c.start, |vals|));
      if Covers(r, c.start, c.stop) then Success(r) else Failure(MissingAddress)
  }

  /** The results dict after the chunks, in order, starting from an empty dict. */
  function ReadResults(kind: ReadKind, session: Session, chunks: seq<Loop>): Result<seq<Entry<int>>, CommandError> {
    if chunks == [] then Success([])
    else match ReadResults(kind, session, chunks[..|chunks| - 1])
      case Failure(e) => Failure(e)
      case Success(m) => StoreChunk(kind, session, chunks[|chunks| - 1], m)
  }

  /** A successful read also succeeds on every prefix of its chunks. */
  lemma {:induction false} ReadResultsPrefix(kind: ReadKind, session: Session, chunks: seq<Loop>, k: nat)
    requires k <= |chunks|
    requires ReadResults(kind, session, chunks).Success?
    ensures ReadResults(kind, session, chunks[..k]).Success?
    decreases |chunks| - k
  {
    if k < |chunks| {
      ReadResultsPrefix(kind, session, chunks, k + 1);
      assert chunks[..k + 1][..k] == chunks[..k];
    } else {
      assert chunks[..k] == chunks;
    }
  }

  /**
   * The text logged for the chunks: for each chunk, a header stamped
   * `clock(k)` (the date and time when chunk `k` is logged) and the chunk's
   * values as the dict holds them right after that chunk.
   */
  function ReadText(kind: ReadKind, session: Session, chunks: seq<Loop>, clock: nat -> string): string
    requires ReadResults(kind, session, chunks).Success?
  {
    if chunks == [] then ""
    else
      var n := |chunks| - 1;
      var c := chunks[n];
      ReadResultsPrefix(kind, session, chunks, n);
      assert chunks[..n] == chunks[..|chunks| - 1];
      ReadText(kind, session, chunks[..n], clock) +
      ChunkText(StyleOf(kind), clock(n), ReadDescription(kind), c.start, c.stop, ReadResults(kind, session, chunks).value)
  }

  /** Once a chunk is refused, the read is refused with that chunk's error: no partial results. */
  lemma {:induction false} ReadResultsFailureStays(kind: ReadKind, session: Session, chunks: seq<Loop>, k: nat)
    requires k <= |chunks|
    requires ReadResults(kind, session, chunks[..k]).Failure?
    ensures ReadResults(kind, session, chunks) == ReadResults(kind, session, chunks[..k])
    decreases |chunks| - k
  {
    if k < |chunks| {
      assert chunks[..k + 1][..k] == chunks[..k];
      ReadResultsFailureStays(kind, session, chunks, k + 1);
    } else {
      assert chunks[..k] == chunks;
    }
  }

  /**
   * What a stored chunk does to the dict: the addresses `zip` pairs with a
   * value hold that value (a later chunk overwrites an earlier one), every
   * other address keeps its value, and the keys are the old keys together
   * with every address of the chunk.
   */
  lemma StoreChunkSpec(kind: ReadKind, session: Session, c: Loop, m: seq<Entry<int>>)
    requires StoreChunk(kind, session, c, m).Success?
    ensures var vals := ResponseValues(kind, session(kind, c.start, c.count));
      var r := StoreChunk(kind, session, c, m).value;
      var k := ZipLen(c.stop - c.start, |vals.value|);
      && vals.Some?
      && (forall a | c.start <= a < c.start + k :: Lookup(r, a) == Some(vals.value[a - c.start]))
      && (forall a | !(c.start <= a < c.start + k) :: Lookup(r, a) == Lookup(m, a))
      && (forall a :: a in Keys(r) <==> a in Keys(m) || c.start <= a < c.stop)
  {
    var vals := ResponseValues(kind, session(kind, c.start, c.count)).value;
    var r := Fill(m, c.start, vals, ZipLen(c.stop - c.start, |vals|));
    assert Covers(r, c.start, c.stop);
  }

  /**
   * After a successful read the dict's keys are exactly the addresses of
   * the chunks.
   */
  lemma {:induction false} ReadResultsKeys(kind: ReadKind, session: Session, chunks: seq<Loop>)
    requires ReadResults(kind, session, chunks).Success?
    ensures forall a :: a in Keys(ReadResults(kind, session, chunks).value) <==> a in Enum(chunks)
    decreases |chunks|
  {
    if chunks != [] {
      var init, c := chunks[..|chunks| - 1], chunks[|chunks| - 1];
      assert chunks == init + [c];
      ReadResultsKeys(kind, session, init);
      var m := ReadResults(kind, session, init).value;
      StoreChunkSpec(kind, session, c, m);
      EnumSnoc(init, c);
      forall a ensures a in Enum(chunks) <==> a in Enum(init) || c.start <= a < c.stop {
        InEnumLoop(c, a);
      }
    }
  }

  /** A bit read stores only 0 and 1. */
  predicate BinaryValues(m: seq<Entry<int>>) {
    forall a | a in Keys(m) :: Lookup(m, a).value == 0 || Lookup(m, a).value == 1
  }

  lemma {:induction false} ReadResultsBits(kind: ReadKind, session: Session, chunks: seq<Loop>)
    requires IsBitKind(kind)
    requires ReadResults(kind, session, chunks).Success?
    ensures BinaryValues(ReadResults(kind, session, chunks).value)
    decreases |chunks|
  {
    if chunks != [] {
      var init, c := chunks[..|chunks| - 1], chunks[|chunks| - 1];
      ReadResultsBits(kind, session, init);
      StoreChunkSpec(kind, session, c, ReadResults(kind, session, init).value);
    }
  }

  /** What `do_read_*` hands on: the output text, the results dict and the summary dialog. */
  datatype ReadOutput = ReadOutput(text: string, results: seq<Entry<int>>, rows: seq<Row>, message: string)

  /** The chunks of a read command and the dict they produce, or why it is refused. */
  function ReadPlan(kind: ReadKind, session: Option<Session>, args: string): Result<(seq<Loop>, seq<Entry<int>>), CommandError> {
    match ReadCommon(session.Some?, args)
    case Failure(e) => Failure(e)
    case Success(chunks) =>
      match ReadResults(kind, session.value, chunks)
      case Failure(e) => Failure(e)
      case Success(m) => if m == [] then Failure(EmptyResults) else Success((chunks, m))
  }

  lemma ReadResultsStep(kind: ReadKind, session: Session, chunks: seq<Loop>, k: nat, m: seq<Entry<int>>)
    requires k < |chunks|
    requires ReadResults(kind, session, chunks[..k]) == Success(m)
    ensures ReadResults(kind, session, chunks[..k + 1]) == StoreChunk(kind, session, chunks[k], m)
  {
    assert chunks[..k + 1][..k] == chunks[..k];
  }

  lemma ReadTextStep(kind: ReadKind, session: Session, chunks: seq<Loop>, k: nat, clock: nat -> string, r: seq<Entry<int>>)
    requires k < |chunks|
    requires ReadResults(kind, session, chunks[..k]).Success?
    requires ReadResults(kind, session, chunks[..k + 1]) == Success(r)
    requires Covers(r, chunks[k].start, chunks[k].stop)
    ensures ReadText(kind, session, chunks[..k + 1], clock) ==
      ReadText(kind, session, chunks[..k], clock) +
      ChunkText(StyleOf(kind), clock(k), ReadDescription(kind), chunks[k].start, chunks[k].stop, r)
  {
    assert chunks[..k + 1][..k] == chunks[..k];
  }

  /** The results dict and the output text of a read. */
  datatype Progress = Progress(results: seq<Entry<int>>, text: string)

  /** One chunk of a read: request it, store its values, log it under `stamp`. */
  method ReadOneChunk(kind: ReadKind, session: Session, c: Loop, results: seq<Entry<int>>, text: string, stamp: string)
    returns (r: Result<Progress, CommandError>)
    ensures var expected := StoreChunk(kind, session, c, results);
      && (expected.Failure? ==> r == Failure(expected.error))
      && (expected.Success? ==>
            && Covers(expected.value, c.start, c.stop)
            && r == Success(Progress(expected.value,
                 text + ChunkText(StyleOf(kind), stamp, ReadDescription(kind), c.start, c.stop, expected.value))))
  {
    var response := session(kind, c.start, c.count);
    var vals := ResponseValues(kind, response);
    if vals.None? {
      return Failure(NoValues(kind, c.start, c.count));
    }
    var stored := FillZip(results, c.start, c.stop, vals.value);
    StoreChunkFilled(kind, session, c, results, vals.value, stored);
    var logged := LogAndOutput(StyleOf(kind), stamp, ReadDescription(kind), c.start, c.stop, stored);
    if logged.None? {
      return Failure(MissingAddress);
    }
    return Success(Progress(stored, text + logged.value));
  }

  /** A response with values: the chunk's outcome is the filled dict, when it covers the chunk. */
  lemma StoreChunkFilled(kind: ReadKind, session: Session, c: Loop, m: seq<Entry<int>>, vals: seq<int>, stored: seq<Entry<int>>)
    requires ResponseValues(kind, session(kind, c.start, c.count)) == Some(vals)
    requires stored == Fill(m, c.start, vals, ZipLen(c.stop - c.start, |vals|))
    ensures StoreChunk(kind, session, c, m) ==
      if Covers(stored, c.start, c.stop) then Success(stored) else Failure(MissingAddress)
  {
  }

  /** After `k` chunks the loop holds the dict and the text of those `k` chunks. */
  predicate ReadSoFar(kind: ReadKind, session: Session, chunks: seq<Loop>, k: nat, clock: nat -> string, outputText: string, p: Progress) {
    && k <= |chunks|
    && ReadResults(kind, session, chunks[..k]) == Success(p.results)
    && p.text == outputText + ReadText(kind, session, chunks[..k], clock)
  }

  lemma ReadAdvance(kind: ReadKind, session: Session, chunks: seq<Loop>, k: nat, clock: nat -> string, outputText: string, p: Progress, next: Progress)
    requires k < |chunks| && ReadSoFar(kind, session, chunks, k, clock, outputText, p)
    requires var c := chunks[k];
      var stored := StoreChunk(kind, session, c, p.results);
      && stored.Success? && Covers(stored.value, c.start, c.stop)
      && next == Progress(stored.value, p.text + ChunkText(StyleOf(kind), clock(k), ReadDescription(kind), c.start, c.stop, stored.value))
    ensures ReadSoFar(kind, session, chunks, k + 1, clock, outputText, next)
  {
    ReadResultsStep(kind, session, chunks, k, p.results);
    ReadTextStep(kind, session, chunks, k, clock, next.results);
    var c := chunks[k];
    AppendAssoc(outputText, ReadText(kind, session, chunks[..k], clock),
      ChunkText(StyleOf(kind), clock(k), ReadDescription(kind), c.start, c.stop, next.results));
  }

  /** Appending logged text is associative; stated apart to keep `ReadAdvance` small. */
  lemma AppendAssoc(a: string, b: string, c: string)
    ensures (a + b) + c == a + (b + c)
  {
  }

  lemma ReadRefused(kind: ReadKind, session: Session, chunks: seq<Loop>, k: nat, clock: nat -> string, outputText: string, p: Progress)
    requires k < |chunks| && ReadSoFar(kind, session, chunks, k, clock, outputText, p)
    requires StoreChunk(kind, session, chunks[k], p.results).Failure?
    ensures ReadResults(kind, session, chunks) == StoreChunk(kind, session, chunks[k], p.results)
  {
    ReadResultsStep(kind, session, chunks, k, p.results);
    ReadResultsFailureStays(kind, session, chunks, k + 1);
  }

  lemma ReadFinished(kind: ReadKind, session: Session, chunks: seq<Loop>, clock: nat -> string, outputText: string, p: Progress)
    requires ReadSoFar(kind, session, chunks, |chunks|, clock, outputText, p)
    ensures ReadResults(kind, session, chunks) == Success(p.results)
    ensures p.text == outputText + ReadText(kind, session, chunks, clock)
  {
    assert chunks[..|chunks|] == chunks;
  }

  /**
   * The loop over the chunks of a read: request each chunk, store its
   * values, append its log text. It stops at the first refused chunk.
   */
  method ReadAllChunks(kind: ReadKind, session: Session, chunks: seq<Loop>, outputText: string, clock: nat -> string)
    returns (r: Result<Progress, CommandError>)
    ensures var expected := ReadResults(kind, session, chunks);
      && (expected.Failure? ==> r == Failure(expected.error))
      && (expected.Success? ==> r == Success(Progress(expected.value, outputText + ReadText(kind, session, chunks, clock))))
  {
    var p := Progress([], outputText);
    var k: nat := 0;
    while k < |chunks|
      invariant ReadSoFar(kind, session, chunks, k, clock, outputText, p)
      decreases |chunks| - k
    {
      var next := ReadStep(kind, session, chunks, k, clock, outputText, p);
      if next.Failure? {
        return next;
      }
      p := next.value;
      k := k + 1;
    }
    ReadFinished(kind, session, chunks, clock, outputText, p);
    return Success(p);
  }

  /** One turn of the chunk loop: the next chunk is read, or the read ends with its error. */
  method ReadStep(kind: ReadKind, session: Session, chunks: seq<Loop>, k: nat, clock: nat -> string, outputText: string, p: Progress)
    returns (next: Result<Progress, CommandError>)
    requires k < |chunks| && ReadSoFar(kind, session, chunks, k, clock, outputText, p)
    ensures next.Failure? ==> ReadResults(kind, session, chunks) == Failure(next.error)
    ensures next.Success? ==> ReadSoFar(kind, session, chunks, k + 1, clock, outputText, next.value)
  {
    next := ReadOneChunk(kind, session, chunks[k], p.results, p.text, clock(k));
    if next.Failure? {
      ReadRefused(kind, session, chunks, k, clock, outputText, p);
    } else {
      ReadAdvance(kind, session, chunks, k, clock, outputText, p, next.value);
    }
  }

  /**
   * `do_read_coils`, `do_read_discrete_inputs`, `do_read_holding_registers`
   * and `do_read_input_registers`: request every chunk, fill the dict, log
   * each chunk, then summarise the dict in maximal runs under the message
   * "<description>: <range text>".
   */
  method DoRead(kind: ReadKind, session: Option<Session>, args: string, outputText: string, clock: nat -> string)
    returns (r: Result<ReadOutput, CommandError>)
    ensures var plan := ReadPlan(kind, session, args);
      && (r.Success? <==> plan.Success?)
      && (r.Failure? ==> r.error == plan.error)
      && (r.Success? ==>
        && r.value.results == plan.value.1
        && r.value.text == outputText + ReadText(kind, session.value, plan.value.0, clock)
        && WellFormed(r.value.rows) && Maximal(r.value.rows) && Expand(r.value.rows) == r.value.results
        && SplitWs(args) != []
        && r.value.message == ReadDescription(kind) + ": " + SplitWs(args)[0] + "\n\n")
  {
    var chunks := ReadCommon(session.Some?, args);
    if chunks.Failure? {
      return Failure(chunks.error);
    }
    var read := ReadAllChunks(kind, session.value, chunks.value, outputText, clock);
    if read.Failure? {
      return Failure(read.error);
    }
    var results := read.value.results;
    if results == [] {
      return Failure(EmptyResults);
    }
    FirstWord(args);
    var csr := SplitWs(args)[0];
    var message := ReadDescription(kind) + ": " + csr + "\n\n";
    var rows := SummaryRows(results);
    return Success(ReadOutput(read.value.text, results, rows, message));
  }

  /**
   * End to end: a successful read of a range text fills the dict with
   * exactly the addresses the text names, and a bit read stores only 0
   * and 1.
   */
  lemma ReadPlanKeys(kind: ReadKind, session: Option<Session>, args: string)
    requires ReadPlan(kind, session, args).Success?
    ensures var parts := SplitMax1(args);
      && parts != [] && ParseCsr(parts[0], 0, 65535).Success?
      && var m := ReadPlan(kind, session, args).value.1;
      && (forall a :: a in Keys(m) <==> a in Enum(ParseCsr(parts[0], 0, 65535).value))
      && (IsBitKind(kind) ==> BinaryValues(m))
  {
    var chunks := ReadCommon(session.Some?, args).value;
    ReadCommonSpec(session.Some?, args);
    ReadResultsKeys(kind, session.value, chunks);
    if IsBitKind(kind) {
      ReadResultsBits(kind, session.value, chunks);
    }
  }

  // ---------------------------------------------------------------------
  // do_write_registers and do_write_coils
  // ---------------------------------------------------------------------

  /** The request a write command sends to the device. */
  datatype WriteRequest =
    | WriteRegister(address: int, value: int)
    | WriteRegisters(address: int, values: seq<int>)
    | WriteCoil(address: int, bit: bool)
    | WriteCoils(address: int, bits: seq<bool>)

  /** What a write command hands on: the request, the echo dict and the output text. */
  datatype WriteOutput = WriteOutput(request: WriteRequest, results: seq<Entry<int>>, text: string)

  /** `start, values = args.split(maxsplit=1)` and the check that the start is a number. */
  function WriteArguments(args: string): Result<(nat, string), CommandError> {
    var parts := SplitMax1(args);
    if |parts| != 2 then Failure(NotTwoArguments)
    else if !IsDigits(parts[0]) then Failure(StartNotDigits)
    else Success((DigitsValue(parts[0]), parts[1]))
  }

  /** `[int(x) for x in tokens]`: every token must be a decimal integer. */
  function ParseDecimals(tokens: seq<string>): Option<seq<int>> {
    if forall i | 0 <= i < |tokens| :: PyInt(tokens[i]).Some? then
      Some(seq(|tokens|, i requires 0 <= i < |tokens| => PyInt(tokens[i]).value))
    else None
  }

  /** `[bool(int(x)) for x in text]` for one-character `x`: each must be a digit; "0" is False. */
  function ParseCoilDigits(text: string): Option<seq<bool>> {
    if forall i | 0 <= i < |text| :: IsDigit(text[i]) then
      Some(seq(|text|, i requires 0 <= i < |text| => text[i] != '0'))
    else None
  }

  /**
   * The echo dict `{start + i: values[i]}`, built by assigning the values
   * in order into an empty dict.
   */
  method EchoMap(start: int, values: seq<int>) returns (results: seq<Entry<int>>)
    ensures results == Fill([], start, values, |values|)
  {
    results := [];
    for i := 0 to |values|
      invariant results == Fill([], start, values, i)
    {
      FillStep([], start, values, i);
      results := Put(results, start + i, values[i]);
    }
  }

  /**
   * Filling an empty dict from consecutive addresses gives the entries in
   * address order: `start + i` holds `values[i]`, with nothing else.
   */
  lemma {:induction false} FillFromEmpty(start: int, values: seq<int>, k: nat)
    requires k <= |values|
    ensures Fill([], start, values, k) == seq(k, i requires 0 <= i < k => Entry(start + i, values[i]))
  {
    if k > 0 {
      FillFromEmpty(start, values, k - 1);
      var before := Fill([], start, values, k - 1);
      assert start + k - 1 !in Keys(before);
      assert Fill([], start, values, k) == Put(before, start + k - 1, values[k - 1]);
      PutFresh(before, start + k - 1, values[k - 1]);
      ConsecutiveSnoc(start, values, k);
    }
  }

  lemma ConsecutiveSnoc(start: int, values: seq<int>, k: nat)
    requires 0 < k <= |values|
    ensures seq(k - 1, i requires 0 <= i < k - 1 => Entry(start + i, values[i])) + [Entry(start + k - 1, values[k - 1])]
      == seq(k, i requires 0 <= i < k => Entry(start + i, values[i]))
  {
    var want := seq(k, i requires 0 <= i < k => Entry(start + i, values[i]));
    assert seq(k - 1, i requires 0 <= i < k - 1 => Entry(start + i, values[i])) == want[..k - 1];
    assert want == want[..k - 1] + [want[k - 1]];
  }

  function BoolsToInts(bits: seq<bool>): (r: seq<int>)
    ensures |r| == |bits| && forall i | 0 <= i < |bits| :: r[i] == BoolToInt(bits[i])
  {
    seq(|bits|, i requires 0 <= i < |bits| => BoolToInt(bits[i]))
  }

  /** The values a write request carries, as the echo dict stores them: coils as 0 and 1. */
  function RequestValues(w: WriteRequest): seq<int> {
    match w
    case WriteRegister(_, v) => [v]
    case WriteRegisters(_, vs) => vs
    case WriteCoil(_, b) => [BoolToInt(b)]
    case WriteCoils(_, bs) => BoolsToInts(bs)
  }

  /** One register value is written with a single write, any other number with a multiple write. */
  function RegistersRequest(start: nat, values: seq<int>): (w: WriteRequest)
    ensures w.address == start && RequestValues(w) == values
    ensures w.WriteRegister? <==> |values| == 1
    ensures w.WriteRegister? || w.WriteRegisters?
  {
    if |values| == 1 then
      assert values == [values[0]];
      WriteRegister(start, values[0])
    else WriteRegisters(start, values)
  }

  /** One coil is written with a single write, any other number with a multiple write. */
  function CoilsRequest(start: nat, bits: seq<bool>): (w: WriteRequest)
    ensures w.address == start && RequestValues(w) == BoolsToInts(bits)
    ensures w.WriteCoil? <==> |bits| == 1
    ensures w.WriteCoil? || w.WriteCoils?
  {
    if |bits| == 1 then
      assert BoolsToInts(bits) == [BoolToInt(bits[0])];
      WriteCoil(start, bits[0])
    else WriteCoils(start, bits)
  }

  /** The request `do_write_registers` sends, or why it is refused. */
  function WriteRegistersRequest(connected: bool, args: string): Result<WriteRequest, CommandError> {
    match WriteArguments(args)
    case Failure(e) => Failure(e)
    case Success(sv) =>
      match ParseDecimals(SplitWs(sv.1))
      case None => Failure(ValuesNotDecimals)
      case Some(values) =>
        if !connected then Failure(NoSession) else Success(RegistersRequest(sv.0, values))
  }

  /** The request `do_write_coils` sends, or why it is refused. */
  function WriteCoilsRequest(connected: bool, args: string): Result<WriteRequest, CommandError> {
    match WriteArguments(args)
    case Failure(e) => Failure(e)
    case Success(sv) =>
      match ParseCoilDigits(RemoveChar(sv.1, ' '))
      case None => Failure(ValuesNotDecimals)
      case Some(bits) =>
        if !connected then Failure(NoSession) else Success(CoilsRequest(sv.0, bits))
  }

  function WriteDescription(w: WriteRequest): string {
    match w
    case WriteRegister(_, _) => "Modbus Function 5, Write Single Register"
    case WriteRegisters(_, _) => "Modbus Function 5, Write Multiple Registers"
    case WriteCoil(_, _) => "Modbus Function 5, Write Single Coil"
    case WriteCoils(_, _) => "Modbus Function 15, Write Multiple Coils"
  }

  /** Register values written out in decimal are parsed back to the same values. */
  lemma ParseDecimalsRoundTrip(values: seq<int>)
    ensures ParseDecimals(seq(|values|, i requires 0 <= i < |values| => IntToString(values[i]))) == Some(values)
  {
    var tokens := seq(|values|, i requires 0 <= i < |values| => IntToString(values[i]));
    forall i | 0 <= i < |values| ensures PyInt(tokens[i]) == Some(values[i]) {
      PyIntRoundTrip(values[i]);
    }
    var parsed := seq(|tokens|, i requires 0 <= i < |tokens| => PyInt(tokens[i]).value);
    assert forall i | 0 <= i < |parsed| :: parsed[i] == values[i];
    assert parsed == values;
  }

  /** Coil values written as "0" and "1" characters are parsed back to the same bits. */
  lemma ParseCoilDigitsRoundTrip(bits: seq<bool>)
    ensures ParseCoilDigits(seq(|bits|, i requires 0 <= i < |bits| => if bits[i] then '1' else '0')) == Some(bits)
  {
    var text := seq(|bits|, i requires 0 <= i < |bits| => if bits[i] then '1' else '0');
    assert forall i | 0 <= i < |text| :: IsDigit(text[i]);
    var parsed := seq(|text|, i requires 0 <= i < |text| => text[i] != '0');
    assert forall i | 0 <= i < |parsed| :: parsed[i] == bits[i];
    assert parsed == bits;
  }

  /** The echo dict of a write request. */
  function Echo(w: WriteRequest): seq<Entry<int>> {
    Fill([], w.address, RequestValues(w), |RequestValues(w)|)
  }

  /** The text a write request logs: the echo dict as one chunk. */
  function WriteText(style: Style, stamp: string, w: WriteRequest): string {
    var n := |RequestValues(w)|;
    assert Covers(Echo(w), w.address, w.address + n);
    ChunkText(style, stamp, WriteDescription(w), w.address, w.address + n, Echo(w))
  }

  /** Log the echo dict of a write request; it covers the written addresses. */
  method LogWrite(style: Style, w: WriteRequest, outputText: string, stamp: string) returns (r: WriteOutput)
    ensures r == WriteOutput(w, Echo(w), outputText + WriteText(style, stamp, w))
  {
    var values := RequestValues(w);
    var results := EchoMap(w.address, values);
    var logged := LogAndOutput(style, stamp, WriteDescription(w), w.address, w.address + |values|, results);
    LoggedWrite(style, stamp, w, results, logged);
    return WriteOutput(w, results, outputText + logged.value);
  }

  /** The echo dict has a value at every written address, so logging it gives the write's text. */
  lemma LoggedWrite(style: Style, stamp: string, w: WriteRequest, results: seq<Entry<int>>, logged: Option<string>)
    requires results == Fill([], w.address, RequestValues(w), |RequestValues(w)|)
    requires var n := |RequestValues(w)|;
      && (logged.Some? <==> Covers(results, w.address, w.address + n))
      && (logged.Some? ==> logged.value == ChunkText(style, stamp, WriteDescription(w), w.address, w.address + n, results))
    ensures results == Echo(w) && logged == Some(WriteText(style, stamp, w))
  {
    var n := |RequestValues(w)|;
    assert results == Echo(w);
    assert Covers(results, w.address, w.address + n);
    assert WriteText(style, stamp, w) == ChunkText(style, stamp, WriteDescription(w), w.address, w.address + n, Echo(w));
  }

  /**
   * `do_write_registers`: parse, send the request, then log the echo dict
   * of the values written as words under `stamp`, the date and time of
   * the log.
   */
  method DoWriteRegisters(connected: bool, args: string, outputText: string, stamp: string)
    returns (r: Result<WriteOutput, CommandError>)
    ensures var request := WriteRegistersRequest(connected, args);
      && (request.Failure? ==> r == Failure(request.error))
      && (request.Success? ==> r == Success(WriteOutput(request.value, Echo(request.value),
            outputText + WriteText(WordStyle, stamp, request.value))))
  {
    var request := WriteRegistersRequest(connected, args);
    if request.Failure? {
      return Failure(request.error);
    }
    var output := LogWrite(WordStyle, request.value, outputText, stamp);
    return Success(output);
  }

  /**
   * `do_write_coils`: parse, send the request, then log the echo dict of
   * the bits written, as 0 and 1, under `stamp`.
   */
  method DoWriteCoils(connected: bool, args: string, outputText: string, stamp: string)
    returns (r: Result<WriteOutput, CommandError>)
    ensures var request := WriteCoilsRequest(connected, args);
      && (request.Failure? ==> r == Failure(request.error))
      && (request.Success? ==> r == Success(WriteOutput(request.value, Echo(request.value),
            outputText + WriteText(BitStyle, stamp, request.value))))
  {
    var request := WriteCoilsRequest(connected, args);
    if request.Failure? {
      return Failure(request.error);
    }
    var output := LogWrite(BitStyle, request.value, outputText, stamp);
    return Success(output);
  }
}
