# ctmodbus address-range engine in Dafny

This project models the logic at the heart of ctmodbus, a Modbus client for
control-system testing. The logic turns the operator's address text into
read requests, stores the device's answers, lays them out as text,
summarises them, and encodes the values of write commands.

- **Range parsing and chunking** (`common.dfy`, the `Loops` class of
  `src/ctmodbus/common.py`):
  - text such as `1-5,10,13-15` becomes an ordered list of
    `{start, stop, count}` records with an exclusive stop;
  - `max_count` cuts the records into request-sized chunks;
  - `enum` lists every address;
  - `append` adds a record with an inclusive stop.
- **Interactive shell commands** (`commands.dfy`, `layout.dfy`,
  `summary.dfy`, from `src/ctmodbus/commands.py`):
  - `parse_ip_port` and `read_common`;
  - the four `do_read_*` handlers, which request each chunk from the device
    session and fill an address-to-value dict;
  - `log_and_output_bits` / `_words`, which lay each chunk out as text;
  - `response_message_dialog`, which merges the dict into maximal runs;
  - `do_write_registers` and `do_write_coils`, which parse the values,
    choose a single or a multiple write, and log the echo dict.
- **Older one-shot command line** (`cli.dfy`, `ctmodbus.py`):
  - `parse_addr` and `parse_target`;
  - the keyword-prefix dispatch and fixed-size chunk loops of `read`;
  - the token-to-word encoder of `write`.

Supporting modules:

- `text.dfy`: the Python string built-ins the code relies on (`isdigit`,
  `int`, `str`, `split`, `lower`, `replace`, the `{:>5}` and `{:04x}`
  formats), restricted to ASCII.
- `ordered_map.dfy`: a Python dict as a sequence of entries in insertion
  order with distinct keys.
- `device.dfy`: the device session.
- `wrappers.dfy`: `Option` and `Result`.

The session is a pure function from `(read kind, start, count)` to a
response. A response carries bits, registers or neither; neither is an
exception response. The date and time that head every logged chunk are a
parameter.

Imperative code stays imperative:

- `Loops` is a class whose methods append to its `loops` field and update
  `length` and `enumLength`;
- the read, log, summary, echo and encoder loops are methods with loop
  invariants;
- each method is proved against a specification function, and the lemmas
  state the properties of that function.

Behaviour worth knowing:

- the summary walks the dict in insertion order, not sorted by address;
- an empty dict makes the summary fail (formatting `None` as hexadecimal on
  the final row), rather than giving an empty table;
- an exception response, or a short response that leaves an address of a
  chunk without a value, ends the whole command, and no partial result is
  returned;
- chunk sizes are the code's constants: 1000 bits or 100 registers in
  `ctmodbus.py`, and a default of 100 in `read_common`.

The constants 1000 and 100 lie within the per-request limits of sections
6.1 to 6.4 of the Modbus Application Protocol Specification V1.1b3, which
are 2000 bits and 125 registers.

## Model

| member | source | states |
|---|---|---|
| Common.ParseToken | src/ctmodbus/common.py:78-97 | A token is accepted exactly when it is digits in bounds, or two digit strings joined by one `-` with both ends in bounds and strictly ascending. The record is half-open with count >= 1 and lies inside the bounds. |
| Common.ParseOneToken | src/ctmodbus/common.py:79-97 | The loop body for one token, branch by branch (digits, split at `-`, two parts, integer check, bounds of each end, ascending), computes exactly `ParseToken`. |
| Common.ParseTokensSnoc | src/ctmodbus/common.py:78-84 | An accepted token appends its record at the end of the records so far. |
| Common.ParseTokensRefused | src/ctmodbus/common.py:81-93 | A refused token after accepted ones refuses the whole text with that token's error. |
| Common.ParseTokensFailureStays | src/ctmodbus/common.py:78-93 | Once a prefix of the tokens is refused, the text is refused in the same way whatever follows. |
| Common.ParseCsr | src/ctmodbus/common.py:70-97 | The records `_from_int_csr` appends for the comma-split text, or the first token's refusal. Its properties are the rows `Common.ParseTokensSpec` (one record per token, in order) and `Common.RenderRoundTrip` (rendered records parse back), and `Common.Loops.FromIntCsr` is proved to append exactly them. |
| Common.ParseTokensSpec | src/ctmodbus/common.py:77-97 | The token list parses exactly when every token does. The records are then the tokens' records, one per token, in token order, with nothing merged, sorted or removed. |
| Common.RenderLoopRoundTrip | src/ctmodbus/common.py:79-97 | Rendering an in-bounds record as `n` or `a-b` and parsing that token gives the record back; the token has no comma. |
| Common.RenderRoundTrip | src/ctmodbus/common.py:77-97 | Joining rendered tokens with commas and parsing the text gives back exactly the records. |
| Common.ParseTokensEach | src/ctmodbus/common.py:78-97 | Tokens that each parse to a record parse together to those records. |
| Common.RenderTokensParse | src/ctmodbus/common.py:79-97 | Every rendered token parses to its record and has no comma. |
| Common.RangeTokenParts | src/ctmodbus/common.py:86-90 | `a-b` splits at its one dash into the two numbers and is not all digits. |
| Common.DescendingRangeRefused | src/ctmodbus/common.py:93 | `a-b` with `a >= b` (`5-5`, `9-3`) is refused. |
| Common.EmptyTokenRefused | src/ctmodbus/common.py:86-89 | An empty token, as in `1,,2`, refuses the whole text. |
| Common.EnumLoop | src/ctmodbus/common.py:64 | `range(start, stop)`: its length is `stop - start` (or 0), and its j-th address is `start + j`. |
| Common.SumCountsConcat | src/ctmodbus/common.py:59-97 | The count total of two record lists is the sum of their totals. |
| Common.Enum | src/ctmodbus/common.py:61-68 | `enum()`: the addresses of every record, record by record. Its properties are the rows `Common.EnumConcat`, `Common.EnumSnoc`, `Common.InEnumLoop` and `Common.EnumLength`. |
| Common.EnumConcat | src/ctmodbus/common.py:61-68 | `enum` of two record lists is the concatenation of their enumerations. |
| Common.InEnumLoop | src/ctmodbus/common.py:64 | An address is enumerated by a record exactly when `start <= a < stop`. |
| Common.EnumSnoc | src/ctmodbus/common.py:63-64 | One more record appends its addresses at the end of the enumeration. |
| Common.EnumLength | src/ctmodbus/common.py:61-68 | For half-open records, `enum` yields exactly as many addresses as the counts add up to (`enum_length`). |
| Common.ChunksFromSpec | src/ctmodbus/common.py:42-46 | From offset `i`, the chunks of a record are contiguous, start at `start + i`, hold `m` addresses each except possibly the last, and enumerate exactly the rest of the record. |
| Common.LoopChunksSpec | src/ctmodbus/common.py:41-46 | One record's chunks start at its start, are contiguous, hold 1 to `m` addresses (only the last may be short), add up to its count, and enumerate exactly its addresses. |
| Common.MaxCount | src/ctmodbus/common.py:39-46 | `max_count(m)`: each record's chunks of at most `m` addresses, record by record. Its properties are the rows `Common.MaxCountSpec`, `Common.MaxCountConcat` and `Commands.MaxCountBounds`. |
| Common.MaxCountConcat | src/ctmodbus/common.py:41-46 | Chunks never span two records: the chunks of a concatenation are those of the first part, then those of the second. |
| Common.MaxCountSpec | src/ctmodbus/common.py:39-46 | Chunking half-open records keeps every address in order and keeps the count total. Every chunk is half-open with 1 to `m` addresses. |
| Common.AppendRecord | src/ctmodbus/common.py:48-57 | `append` is accepted exactly when the truthiness checks and `count == stop - start + 1` hold. The missing one of stop and count is filled in with an inclusive stop, and a given stop or count is kept. |
| Common.AppendEnumMismatch | src/ctmodbus/common.py:48-68 | A record `append` adds with a positive count is not half-open, and `enum` lists one address fewer for it than `enum_length` grew by. |
| Common.Loops.constructor | src/ctmodbus/common.py:20-25 | A new object has no records and both counters at zero. |
| Common.Loops.FromIntCsr | src/ctmodbus/common.py:70-97 | It succeeds exactly when the text parses, and a refusal reports the parse error. On success it appends the parsed records in token order, `length` grows by their number and `enum_length` by their count total. On a refusal at token k, the records of the tokens before k stay appended, and `length` and `enum_length` still agree with the records. |
| Common.Loops.Append | src/ctmodbus/common.py:48-59 | It adds the `AppendRecord` record and grows `length` by 1 and `enum_length` by its count. A refused call changes nothing. |
| Common.NewLoops | src/ctmodbus/common.py:20-27 | No text or empty text gives an object without records. Otherwise the object holds exactly the parsed records, or the text's parse error is returned and no object is made. |
| Commands.ParseIpPort | src/ctmodbus/commands.py:72-79 | A successful parse yields a host without `:`. |
| Commands.ParseIpPortDefault | src/ctmodbus/commands.py:75-76 | `host` alone gives `(host, 502)`. |
| Commands.ParseIpPortRoundTrip | src/ctmodbus/commands.py:72-79 | `host:port` written out parses back to `(host, port)`. |
| Commands.ParseIpPortTooManyColons | src/ctmodbus/commands.py:74 | Text with two or more colons is refused. |
| Commands.MaxCountArgument | src/ctmodbus/commands.py:187-190 | Without a second word the chunk size is 100. With one, it is accepted exactly when it is digits. |
| Commands.ReadCommon | src/ctmodbus/commands.py:182-194 | Without a session the command is refused with NoSession, and empty arguments are refused with NoArguments. |
| Commands.ReadCommonSpec | src/ctmodbus/commands.py:182-194 | On success the range text parses with bounds 0..65535 and the chunk size m is positive. The chunks enumerate exactly the parsed addresses in order, each half-open, with 1 to m addresses inside 0..65535. |
| Commands.MaxCountBounds | src/ctmodbus/commands.py:192-193 | Chunks of records inside 0..65535 stay inside 0..65535. |
| Commands.ChunksFromBounds | src/ctmodbus/common.py:42-46 | One record's chunks stay inside its bounds. |
| Commands.ResponseValues | src/ctmodbus/commands.py:201-249 | A bit read has values exactly when the response has bits, and they are `int(bit)`, 0 or 1. A register read takes the registers unchanged. |
| Commands.ReadResultsPrefix | src/ctmodbus/commands.py:201-205 | A successful read also succeeds on every prefix of its chunks. |
| Commands.ReadResultsFailureStays | src/ctmodbus/commands.py:201-205 | Once a chunk is refused, the read is refused with that chunk's error: no partial results. |
| Commands.StoreChunkSpec | src/ctmodbus/commands.py:202-205 | A stored chunk gives `start + j` the j-th value for as many values as both the chunk and the response have (a later chunk overwrites). Every other address keeps its value, and the keys become the old keys plus the chunk's addresses. |
| Commands.ReadResultsKeys | src/ctmodbus/commands.py:201-205 | After a successful read, the dict's keys are exactly the chunks' addresses. |
| Commands.ReadResultsBits | src/ctmodbus/commands.py:203-219 | A bit read stores only 0 and 1. |
| Commands.ReadResultsStep | src/ctmodbus/commands.py:201-204 | One more chunk applies one more store to the dict. |
| Commands.ReadTextStep | src/ctmodbus/commands.py:205 | One more chunk appends its logged text, laid out from the dict as it is after that chunk. |
| Commands.ReadOneChunk | src/ctmodbus/commands.py:202-205 | One chunk: the dict and the appended text are exactly what `StoreChunk` and `ChunkText` give, or the chunk's error. |
| Commands.StoreChunkFilled | src/ctmodbus/commands.py:203-205 | With values, the chunk's outcome is the filled dict when it covers the chunk, and MissingAddress otherwise. |
| Commands.ReadAdvance | src/ctmodbus/commands.py:201-205 | Reading chunk k keeps the loop invariant: the dict and the text are those of the first k + 1 chunks. |
| Commands.ReadRefused | src/ctmodbus/commands.py:201-205 | A refused chunk decides the outcome of the whole read. |
| Commands.ReadFinished | src/ctmodbus/commands.py:201-205 | After the last chunk, the loop's dict and text are those of the whole read. |
| Commands.ReadAllChunks | src/ctmodbus/commands.py:201-205 | The chunk loop returns exactly `ReadResults` and the text `ReadText`, or the first chunk's error. |
| Commands.ReadStep | src/ctmodbus/commands.py:202-205 | One turn of the loop either keeps the invariant or ends the read with the error of the whole read. |
| Commands.ReadPlan | src/ctmodbus/commands.py:182-254 | The chunks `read_common` yields and the dict the `do_read_*` loop fills from them, or the first refusal; an empty dict is refused, since the summary fails on it. Its properties are the rows `Commands.ReadCommonSpec`, `Commands.ReadPlanKeys` and `Commands.DoRead`. |
| Commands.DoRead | src/ctmodbus/commands.py:197-254 | It succeeds exactly when the planned read does, with the same error otherwise. On success: the dict is the planned one, the text is the logged chunks, and the rows are well formed, maximal and expand back to the dict. The message is `<description>: <range text>`. |
| Commands.ReadPlanKeys | src/ctmodbus/commands.py:182-205 | End to end: a successful read fills the dict with exactly the addresses the range text names, and a bit read stores only 0 and 1. |
| Commands.EchoMap | src/ctmodbus/commands.py:273-276 | The echo dict is the values assigned in order into an empty dict from `start`. |
| Commands.FillFromEmpty | src/ctmodbus/commands.py:273-276 | Filling an empty dict from consecutive addresses gives exactly the entries `start + i -> values[i]`, in address order, and nothing else. |
| Commands.BoolsToInts | src/ctmodbus/commands.py:301 | `int(b)` of each bit, in order. |
| Commands.WriteRegistersRequest | src/ctmodbus/commands.py:257-271 | The request `do_write_registers` sends, or its refusal, checked in the source's order: two arguments, digits for the start, decimal values, then the session. Its properties are the rows `Commands.RegistersRequest`, `Commands.ParseDecimalsRoundTrip` and `Commands.DoWriteRegisters`. |
| Commands.WriteCoilsRequest | src/ctmodbus/commands.py:281-296 | The request `do_write_coils` sends, or its refusal, in the same order, with one digit per coil after spaces are removed. Its properties are the rows `Commands.CoilsRequest`, `Commands.ParseCoilDigitsRoundTrip` and `Commands.DoWriteCoils`. |
| Commands.ParseDecimals | src/ctmodbus/commands.py:263 | `[int(x) for x in tokens]`: the values when every token is an integer, and nothing otherwise. Its property is the row `Commands.ParseDecimalsRoundTrip`. |
| Commands.ParseCoilDigits | src/ctmodbus/commands.py:288 | `[bool(int(x)) for x in text]`: one bit per digit, `0` being False, and nothing when a character is not a digit. Its property is the row `Commands.ParseCoilDigitsRoundTrip`. |
| Commands.RegistersRequest | src/ctmodbus/commands.py:266-271 | One value gives a single-register write and any other number a multiple write, at `start`, carrying exactly the values. |
| Commands.CoilsRequest | src/ctmodbus/commands.py:291-296 | One bit gives a single-coil write and any other number a multiple write, at `start`, carrying the bits as 0 and 1. |
| Commands.ParseDecimalsRoundTrip | src/ctmodbus/commands.py:263 | Register values written in decimal parse back to the same values. |
| Commands.ParseCoilDigitsRoundTrip | src/ctmodbus/commands.py:288 | Coil values written as `0`/`1` characters parse back to the same bits. |
| Commands.LogWrite | src/ctmodbus/commands.py:273-277 | The echo dict is `Echo(w)`, and the appended text is that dict logged as one chunk. |
| Commands.LoggedWrite | src/ctmodbus/commands.py:273-277 | The echo dict covers every written address, so logging it succeeds with the write's text. |
| Commands.DoWriteRegisters | src/ctmodbus/commands.py:257-278 | A refused request is returned as its error. Otherwise the output holds the request, its echo dict, and the text logged as words. |
| Commands.DoWriteCoils | src/ctmodbus/commands.py:281-303 | A refused request is returned as its error. Otherwise the output holds the request, its echo dict of 0 and 1, and the text logged as bits. |
| Layout.ChunkText | src/ctmodbus/commands.py:122-153 | The text logged for one chunk: the header, the body of its values and a closing newline. Its properties are the rows `Layout.ChunkTextLines` and `Layout.LogAndOutput`. |
| Layout.LogAndOutput | src/ctmodbus/commands.py:122-153 | The text exists exactly when every address of the chunk has a value (a missing one is the KeyError), and it is then `ChunkText`. |
| Layout.LogStep | src/ctmodbus/commands.py:127-150 | Logging address `start + i` keeps the loop invariant: the text is the pieces of the first i + 1 addresses. |
| Layout.BodyStep | src/ctmodbus/commands.py:127-134 | The body of n + 1 values is the body of n values plus the piece of value n. |
| Layout.NoNewlineInNumber | src/ctmodbus/commands.py:129-132 | `str(n)` and `{:>5}` of a number hold no newline. |
| Layout.NoNewlineInHex | src/ctmodbus/commands.py:150 | The hexadecimal digits of a number hold no newline. |
| Layout.NoNewlineInHex04 | src/ctmodbus/commands.py:150 | `{:04x}` holds no newline. |
| Layout.NoNewlineInCell | src/ctmodbus/commands.py:132-150 | A value's cell holds no newline. |
| Layout.PieceNewlines | src/ctmodbus/commands.py:127-150 | A piece holds one newline exactly when its index starts a line (every 32nd bit, every 8th word), otherwise none. |
| Layout.LineStartsStep | src/ctmodbus/commands.py:126-147 | The number of line starts among n values grows by one exactly when value n - 1 starts a line. |
| Layout.BodyStepLines | src/ctmodbus/commands.py:127-134 | Appending value n adds a newline exactly when it starts a line. |
| Layout.BodyLines | src/ctmodbus/commands.py:127-150 | The body of n values has one newline per line start: `ceil(n/32)` lines of bits or `ceil(n/8)` lines of words. |
| Layout.ChunkTextLines | src/ctmodbus/commands.py:122-153 | A chunk's text is one header line, then one line per 32 bits or 8 words, then the closing newline. |
| Summary.RowEntries | src/ctmodbus/commands.py:165-177 | A row stands for `last - first + 1` entries `first + j -> value`. |
| Summary.ExpandSnoc | src/ctmodbus/commands.py:163-171 | Appending a row appends its entries. |
| Summary.ExpandGrow | src/ctmodbus/commands.py:160-162 | Growing the last row by one address appends that one entry. |
| Summary.SummaryRows | src/ctmodbus/commands.py:156-177 | For a non-empty dict the rows are well formed, no two neighbouring rows could be merged, and they expand back to exactly the entries in insertion order. |
| Summary.SummaryStep | src/ctmodbus/commands.py:159-171 | One entry extends the run in progress or closes it and starts a new one, keeping the walk's invariant. |
| Summary.FirstStep | src/ctmodbus/commands.py:157-171 | The first entry starts the first run. |
| Summary.GrowStep | src/ctmodbus/commands.py:160-162 | Extending the run by an adjacent equal entry keeps the invariant. |
| Summary.NewRowStep | src/ctmodbus/commands.py:163-171 | Closing the run at a non-continuing entry and starting a new one keeps the invariant. |
| Summary.ExpandLast | src/ctmodbus/commands.py:173-177 | The last entry of the expansion is the last address of the last row, with its value. |
| Summary.JoinableWhenLater | src/ctmodbus/commands.py:160-171 | If one summary's last row starts later than another's, for the same entries, its last two rows could be merged. |
| Summary.LastRowStart | src/ctmodbus/commands.py:160-177 | In a maximal summary the last row starts no later than in any summary of the same entries. |
| Summary.SummaryUnique | src/ctmodbus/commands.py:156-177 | Two maximal summaries of the same entries are equal: the walk computes the one run-length encoding of its input. |
| Summary.MaximalInit | src/ctmodbus/commands.py:160-171 | Dropping the last row keeps a summary well formed and maximal. |
| OrderedMap.Lookup | src/ctmodbus/commands.py:132 | `results[address]` has a value exactly when the address is a key. |
| OrderedMap.PutSpec | src/ctmodbus/commands.py:204 | After `m[a] = v`, `a` maps to `v` and every other key is unchanged. A new key is appended, an existing one keeps its place, and keys stay distinct. |
| OrderedMap.PutFresh | src/ctmodbus/commands.py:276 | Assigning a key not yet in the dict appends it at the end. |
| OrderedMap.ZipLen | src/ctmodbus/commands.py:203 | `zip` pairs as many addresses as the shorter of the range and the values. |
| OrderedMap.Fill | src/ctmodbus/commands.py:203-204 | The first k addresses from `start` hold the first k values, every other address keeps its value, the keys grow by those addresses, and keys stay distinct. |
| OrderedMap.FillZip | src/ctmodbus/commands.py:203-204 | The zip loop assigns exactly what `Fill` describes for the zipped pairs. |
| OrderedMap.FillStep | src/ctmodbus/commands.py:203-204 | One more pair is one more assignment. |
| Text.NatToStringRoundTrip | src/ctmodbus/common.py:79-80 | `str(n)` is all digits and its value is n. |
| Text.NatToStringHasNoSeparator | src/ctmodbus/common.py:77-86 | `str(n)` holds no separator character. |
| Text.PyInt | src/ctmodbus/commands.py:263 | `int(s)` of digits is their value. |
| Text.PyIntRoundTrip | src/ctmodbus/commands.py:263 | `int(str(n)) == n` for every integer, negative ones included. |
| Text.Split | src/ctmodbus/common.py:77 | `split(sep)` always gives at least one field. |
| Text.CountConcat | ctmodbus.py:86 | `count` adds up over a concatenation. |
| Text.CountPositive | ctmodbus.py:86 | `count(':') > 0` exactly when `:` occurs. |
| Text.SplitParts | src/ctmodbus/common.py:77 | `split(sep)` has one more field than separators, no field holds the separator, and joining the fields gives the text back. |
| Text.SplitNoSeparator | src/ctmodbus/common.py:77 | A separator-free prefix joins the first field. |
| Text.SplitSeparatorConcat | src/ctmodbus/common.py:77 | Splitting at one separator splits the two sides independently. |
| Text.SplitJoin | src/ctmodbus/common.py:77 | Splitting joined separator-free parts gives the parts back. |
| Text.SplitMax1 | src/ctmodbus/commands.py:184 | `split(maxsplit=1)` has at most two parts, none empty. |
| Text.FirstWord | src/ctmodbus/commands.py:184-206 | `split()[0]` and `split(maxsplit=1)[0]` are the same word. |
| Text.Lower | ctmodbus.py:88 | `lower()` maps A-Z to a-z and keeps every other character. |
| Text.RemoveChar | src/ctmodbus/commands.py:288 | `replace(' ', '')` leaves no space. |
| Cli.ParseInts | ctmodbus.py:72 | The conversion succeeds exactly when every part is an integer, with one value per part. |
| Cli.Ordered | ctmodbus.py:75-76 | The ends are swapped when descending: the first is the smaller. |
| Cli.ParseAddrAsWritten | ctmodbus.py:68-77 | As written: it succeeds exactly when every `-`-separated part is an integer, and the range is ascending. |
| Cli.ParseAddr | ctmodbus.py:68-77 | With the intended guard: a success has at most one `-` and an ascending range, and two or more `-` are refused. |
| Cli.SplitWhole | ctmodbus.py:69 | Text without the separator is its own one part. |
| Cli.ParseAddrSingle | ctmodbus.py:73-74 | `n` gives the one address n. |
| Cli.ParseAddrPair | ctmodbus.py:73-77 | `a-b` gives the inclusive range from min(a, b) to max(a, b). |
| Cli.ParseAddrIgnoresThird | ctmodbus.py:70-74 | As written, `a-b-c` is `a-b` (the guard never fires). The corrected parser refuses it. |
| Cli.ParseTarget | ctmodbus.py:80-98 | It succeeds exactly when the text holds `:`. The device has no `:` and the protocol is no longer than the text. |
| Cli.ParseTargetTwoParts | ctmodbus.py:86-94 | `proto:dev` gives the lower-cased protocol, the device and port 502. |
| Cli.ParseTargetThreeParts | ctmodbus.py:91-92 | `proto:dev:port` gives the port text as the port. |
| Cli.ParseTargetFourParts | ctmodbus.py:91-94 | A fourth field falls back to port 502. |
| Cli.Dispatch | ctmodbus.py:130-169 | A chosen read is a bit read exactly when TYPE abbreviates bits, coils or inputs, and only a bit or word TYPE is chosen. |
| Cli.NoCommonAbbreviation | ctmodbus.py:130-158 | Keywords with different first letters share no non-empty abbreviation. |
| Cli.DispatchRegisters | ctmodbus.py:148-165 | A word TYPE with IOH abbreviating `input` reads input registers, and one abbreviating `output` or `holding` reads holding registers. Anything else is refused. |
| Cli.DispatchBits | ctmodbus.py:130-147 | A bit TYPE with IOH abbreviating `input` or `descrete` reads discrete inputs, and one abbreviating `output` or `holding` reads coils. |
| Cli.DispatchEmptyKeywords | ctmodbus.py:130-149 | The bit test comes first: an empty TYPE reads bits and an empty IOH reads inputs. |
| Cli.ValuesOf | ctmodbus.py:133-158 | Values are bits exactly for a bit read. |
| Cli.ReadFoldFailureStays | ctmodbus.py:132-135 | Once a request fails, later requests do not change the outcome. |
| Cli.ReadFold | ctmodbus.py:132-160 | The dict after the requests in order, each response zipped onto its chunk's addresses, or the first request without values. Its properties are the rows `Cli.ReadFoldFailureStays`, `Cli.ReadFoldValues`, `Cli.ReadFoldKeys` and `Cli.ReadFoldComplete`, and `Cli.ReadChunked` computes it. |
| Cli.ReadFoldValues | ctmodbus.py:132-160 | A successful read has distinct keys, and each value is of the kind read. |
| Cli.ReadFoldKeys | ctmodbus.py:132-160 | A successful read fills only addresses of its requests. |
| Cli.ReadFoldComplete | ctmodbus.py:132-160 | When every response is full, every address of every request is filled. |
| Cli.ChunksFromAt | ctmodbus.py:132-133 | The k-th chunk is the chunk at offset `i + k * limit`. |
| Cli.ReadChunks | ctmodbus.py:132-159 | The requests `read` issues for `num` addresses from `addr`, in chunks of the kind's limit. Its properties are the rows `Cli.ReadChunksSpec` and `Cli.ChunkedNext`. |
| Cli.ReadChunksSpec | ctmodbus.py:132-159 | The requests are contiguous from `addr`, the k-th starts at `addr + k * limit` and asks for `min(limit, num - k * limit)`, and together they cover `addr .. addr + num - 1` once, in ascending order. |
| Cli.ChunkedNext | ctmodbus.py:132-133 | The chunk at offset i starts at `addr + i` and asks for `min(limit, num - i)`. |
| Cli.ReadFoldLast | ctmodbus.py:132-135 | One more request applies one more step of the fold. |
| Cli.ChunkedRest | ctmodbus.py:132 | The requests after offset i follow the one at offset i. |
| Cli.ReadAfterStores | ctmodbus.py:133-135 | A response with values stores them zipped onto the chunk's addresses. |
| Cli.ChunkedAdvance | ctmodbus.py:132-135 | A chunk with values moves the loop invariant on by one limit. |
| Cli.ChunkedRefused | ctmodbus.py:133 | A response without values ends the read with its error. |
| Cli.ChunkedFinished | ctmodbus.py:132-135 | When the offsets are exhausted, the dict is the fold of all requests. |
| Cli.ReadChunked | ctmodbus.py:132-160 | The chunk loop returns exactly the fold of `ReadChunks`. |
| Cli.ReadChunk | ctmodbus.py:133-135 | One turn either keeps the invariant or ends with the read's outcome. |
| Cli.Read | ctmodbus.py:121-173 | An unknown keyword ends the read with the dispatch error. Otherwise the result is the fold of the chosen kind's requests. |
| Cli.HexValue | ctmodbus.py:191 | A hexadecimal digit's value is below 16. |
| Cli.FromHex | ctmodbus.py:191 | `bytes.fromhex` gives bytes below 256. |
| Cli.CodePoints | ctmodbus.py:206-208 | One code point per character. |
| Cli.EncodeToken | ctmodbus.py:186-208 | One token's words under a hex rule: decimal, hexadecimal, binary, or one word per character. Its properties are the rows `Cli.EncodeTokenShape`, `Cli.DecimalToken`, `Cli.HexByteToken`, `Cli.HexWordToken`, `Cli.HexWordTokenAsWritten` and `Cli.BinaryToken`, and `Cli.EncodeOneToken` computes it under the as-written rule. |
| Cli.EncodeAll | ctmodbus.py:185-208 | The words of all tokens in order, or the first refusal. Its properties are the rows `Cli.EncodeAllLast`, `Cli.EncodeAllConcat`, `Cli.EncodeAllLength` and `Cli.EncodeAllOne`, and `Cli.EncodeWords` computes it under the as-written rule. |
| Cli.EncodeTokenShape | ctmodbus.py:185-208 | Under the program's hex rule (`AsWritten`) and the corrected one alike, a token gives one word, except a character-path token, which gives its code points. |
| Cli.EncodeAllLast | ctmodbus.py:185-208 | Under either hex rule, one more token applies one more join. |
| Cli.EncodeAfterAssoc | ctmodbus.py:185-208 | Joining encodings is associative. |
| Cli.EncodeAllConcat | ctmodbus.py:185-208 | Under either hex rule, words keep token order: the encoding of `a + b` joins the encodings of a and b, and the first refusal wins. |
| Cli.EncodeAllLength | ctmodbus.py:185-208 | Under either hex rule, a successful encoding has as many words as the tokens' word counts add up to. |
| Cli.EncodeOneToken | ctmodbus.py:186-208 | The loop body for one token, with the hex test `len(item) == 2 or len(item) == 4` as written, computes exactly `EncodeToken(item, AsWritten)`, branch by branch. |
| Cli.EncodeWords | ctmodbus.py:184-208 | The token loop returns exactly `EncodeAll(data, AsWritten)`: the words or the first refusal. |
| Cli.EncodeStep | ctmodbus.py:185-208 | One turn appends the token's words under the as-written hex rule, or returns the whole encoding's refusal. |
| Cli.Write | ctmodbus.py:176-221 | Out of range gives False, a bad token crashes, and otherwise the words of `EncodeAll(data, AsWritten)` are written from `addr` when TYPE abbreviates words/registers (the bit test first). |
| Cli.DecimalToken | ctmodbus.py:187-188 | Under both hex rules, a decimal token is its value, with no range check. |
| Cli.HexDigitRoundTrip | ctmodbus.py:191 | A lower-case hex digit reads back as its value. |
| Cli.FromHex2 | ctmodbus.py:191 | Two hex digits decode to their byte. |
| Cli.HexPrefixOf | ctmodbus.py:187-197 | `0x...` takes the hex branch. |
| Cli.HexByteToken | ctmodbus.py:189-193 | Under both hex rules, `0xHH` is the byte's value. |
| Cli.HexWordToken | ctmodbus.py:189-193 | Corrected: `0xHHHH` is the 16-bit value it spells. |
| Cli.HexWordTokenAsWritten | ctmodbus.py:189-208 | As written, `0xHHHH` takes the character path and gives its code points: `0xBEEF` gives the six words 48, 120, 66, 69, 69, 70. |
| Cli.HexWordWrite | ctmodbus.py:185-208 | The word list `write` builds for `['0xHHHH']` is the token's code points as written, and the single word it spells under the corrected rule; `['0xBEEF']` gives 48, 120, 66, 69, 69, 70. |
| Cli.EncodeAllOne | ctmodbus.py:185-208 | Under either hex rule, the encoding of a one-token list is that token's encoding. |
| Cli.NatToBin | ctmodbus.py:199 | The binary digits of a number, `1` first when it is at least 2. |
| Cli.NatToBinRoundTrip | ctmodbus.py:199 | `int(bin, 2)` of the digits gives the number back. |
| Cli.BinaryToken | ctmodbus.py:197-204 | Under both hex rules, `0b` and the digits of n give n when it fits 16 bits, and `write` refuses it otherwise. |

## Left out

- The user interface is not part of this model: `message_dialog`, `tabulate` rendering of the summary table, `print`, `sys.exit`, and the prompt loops. The summary is the list of rows and the message, and `chr(value)` in the ASCII column is not rendered.
- Connecting and closing a session (`do_connect_*`, `do_close`, `connect`) and `do_read_id` are I/O. A session is a pure function, given as `Option` (`None` for no open session).
- The date and time of a log header are a parameter: `stamp` for one chunk, `clock(k)` for chunk k.
- Python's `str.isdigit` and `int()` also accept non-ASCII digits, and `int()` accepts `_` between digits. Only ASCII text is modelled, and `Text.PyInt` and `Cli.PyIntBase2` do not accept `_`.
- The generators `max_count`, `enum` and `read_common` are modelled as the whole sequences they yield. A refusal in `read_common` happens before its first chunk, so nothing is lost.
- `write`'s read-back after writing registers is I/O and is not modelled.
- The device call of `do_write_registers` and `do_write_coils` (`write_register(s)`, `write_coil(s)`) is assumed to return: its reply is ignored, as in the source, and a transport error it raises, after which nothing is logged, is not modelled. The session is only `connected`.
- The coil branch of `write` calls `bin` on a list, which raises. `Cli.Write` returns `CoilsNotWritten` for it.
- Common.MaxCount: requires a chunk size m > 0. With m == 0, `range(0, count, 0)` raises, which `Commands.ReadCommon` models as `ZeroChunkSize`. With a negative m, `range(0, count, m)` is empty and `max_count` yields nothing; `read_common` never passes one, since it accepts only digits.
- Commands.StoreChunkSpec: states the stored dict for the zipped pairs only. A short response then fails at logging (`MissingAddress`) unless an earlier chunk gave the missing address a value.
- Device exception responses are a response without bits or registers. Their pymodbus framing is not modelled.
- `enum`'s optional `func` argument, which maps each address before it is yielded, is not modelled: the core calls `enum` without it, and `Common.Enum` yields the addresses themselves.
- `Loops.__repr__` and `__iter__` are not modelled: they only show or yield the `loops` field.

## Findings

| source | as written | input that shows it | evidently intended | confidence | as-written member | corrected member |
|---|---|---|---|---|---|---|
| ctmodbus.py:70 | `if 1 > len(parts) > 2` can never hold, so the length of the range is never checked | `parse_addr("1-2-3")` gives `range(1, 3)`; the `3` is converted and ignored | refuse more than two parts (`not 1 <= len(parts) <= 2`) | not executed | Cli.ParseAddrIgnoresThird (with Cli.ParseAddrAsWritten) | Cli.ParseAddr (Cli.ParseAddrPair, Cli.ParseAddrSingle) |
| ctmodbus.py:189 | the hex branch tests `len(item) == 2 or len(item) == 4`, counting the `0x` prefix, so only `0x` and `0xHH` are decoded | `write(..., ['0xBEEF'])` sends the six code points 48, 120, 66, 69, 69, 70 | a four-digit `0xHHHH` token is the one 16-bit word it spells | not executed | Cli.HexWordTokenAsWritten (with Cli.HexWordWrite) | Cli.HexWordToken (with Cli.HexWordWrite) |
