/**
 * The older one-shot command line (`ctmodbus.py`): parsing of an address
 * range and of a `proto:dev[:port]` target, the `read` command's keyword
 * dispatch and chunked reads into a results dict, and the `write`
 * command's encoding of data tokens into register words.
 */
module Cli {
  import opened Wrappers
  import opened Text
  import opened OrderedMap
  import opened Common
  import opened Device

  // ---------------------------------------------------------------------
  // parse_addr
  // ---------------------------------------------------------------------

  /** An inclusive address range: `range(first, last + 1)`. */
  datatype AddrRange = AddrRange(first: int, last: int)

  datatype AddrError =
    | NotAnInteger(part: string)   // `int(part)` raises ValueError
    | TooManyParts(rng: string)    // more than one '-'

  /** Every part is the text of an integer. */
  predicate AllInts(parts: seq<string>) {
    forall i | 0 <= i < |parts| :: PyInt(parts[i]).Some?
  }

  /** `[int(i) for i in parts]`: the first part that is not an integer is reported. */
  function ParseInts(parts: seq<string>): (r: Result<seq<int>, AddrError>)
    ensures r.Success? <==> AllInts(parts)
    ensures r.Success? ==> |r.value| == |parts| && forall i | 0 <= i < |parts| :: PyInt(parts[i]) == Some(r.value[i])
    decreases |parts|
  {
    if parts == [] then Success([])
    else match PyInt(parts[0])
      case None => Failure(NotAnInteger(parts[0]))
      case Some(n) =>
        match ParseInts(parts[1..])
        case Failure(e) => Failure(e)
        case Success(ns) => Success([n] + ns)
  }

  /** The range between two ends, the smaller one first. */
  function Ordered(start: int, end: int): (r: AddrRange)
    ensures r.first <= r.last
    ensures r.first == Min(start, end) && (r.last == start || r.last == end)
  {
    if start > end then AddrRange(end, start) else AddrRange(start, end)
  }

  /**
   * `parse_addr` as written: its length guard `1 > len(parts) > 2` can
   * never hold, so every part is converted and any part after the second
   * is ignored.
   */
  function ParseAddrAsWritten(rng: string): (r: Result<AddrRange, AddrError>)
    ensures r.Success? <==> AllInts(Split(rng, '-'))
    ensures r.Success? ==> r.value.first <= r.value.last
  {
    var parts := Split(rng, '-');
    match ParseInts(parts)
    case Failure(e) => Failure(e)
    case Success(ns) =>
      var start := ns[0];
      var end := if |ns| == 1 then start else ns[1];
      Success(Ordered(start, end))
  }

  /**
   * `parse_addr` with the guard it evidently means, `not 1 <= len(parts) <= 2`:
   * a single number or one pair of numbers.
   */
  function ParseAddr(rng: string): (r: Result<AddrRange, AddrError>)
    ensures r.Success? ==> Count(rng, '-') <= 1 && r.value.first <= r.value.last
    ensures Count(rng, '-') >= 2 ==> r == Failure(TooManyParts(rng))
  {
    SplitParts(rng, '-');
    var parts := Split(rng, '-');
    if |parts| > 2 then Failure(TooManyParts(rng)) else ParseAddrAsWritten(rng)
  }

  /** Splitting text without the separator gives the text as its one part. */
  lemma SplitWhole(s: string, sep: char)
    requires sep !in s
    ensures Split(s, sep) == [s]
  {
    SplitNoSeparator(s, [], sep);
    assert s + [] == s;
  }

  /** `parse_addr("n")` is the one address `n`. */
  lemma ParseAddrSingle(n: nat)
    ensures ParseAddr(NatToString(n)) == Success(AddrRange(n, n))
  {
    var s := NatToString(n);
    NatToStringHasNoSeparator(n, '-');
    SplitWhole(s, '-');
    NatToStringRoundTrip(n);
  }

  /** `parse_addr("a-b")` is the inclusive range from the smaller to the larger end. */
  lemma ParseAddrPair(a: nat, b: nat)
    ensures ParseAddr(NatToString(a) + "-" + NatToString(b)) ==
      Success(AddrRange(Min(a, b), if a < b then b else a))
  {
    RangeTokenParts(a, b);
    NatToStringRoundTrip(a);
    NatToStringRoundTrip(b);
  }

  /**
   * As written, a third number is converted but otherwise ignored:
   * `parse_addr("1-2-3")` is `range(1, 3)`. The corrected parser refuses it.
   */
  lemma ParseAddrIgnoresThird(a: nat, b: nat, c: nat)
    ensures var rng := NatToString(a) + "-" + NatToString(b) + "-" + NatToString(c);
      && ParseAddrAsWritten(rng) == Success(Ordered(a, b))
      && ParseAddr(rng) == Failure(TooManyParts(rng))
  {
    var ab := NatToString(a) + "-" + NatToString(b);
    var rng := ab + "-" + NatToString(c);
    RangeTokenParts(a, b);
    NatToStringHasNoSeparator(c, '-');
    SplitWhole(NatToString(c), '-');
    SplitSeparatorConcat(ab, NatToString(c), '-');
    var parts := Split(rng, '-');
    assert parts == [NatToString(a), NatToString(b), NatToString(c)];
    NatToStringRoundTrip(a);
    NatToStringRoundTrip(b);
    NatToStringRoundTrip(c);
    SplitParts(rng, '-');
  }

  // ---------------------------------------------------------------------
  // parse_target
  // ---------------------------------------------------------------------

  /** The port of a target: the text after the second ':' or the default 502. */
  datatype Port = PortText(text: string) | DefaultPort(number: int)

  datatype Target = Target(proto: string, ipDev: string, port: Port)

  /** The target has no ':' at all (the program prints a hint and exits). */
  datatype TargetError = NoTarget

  /**
   * `parse_target`: the text is split at every ':'; the first field, lower
   * cased, is the protocol, the second the address or device, and the third
   * the port when there are exactly three fields.
   */
  function ParseTarget(encoded: string): (r: Result<Target, TargetError>)
    ensures r.Success? <==> ':' in encoded
    ensures r.Success? ==> ':' !in r.value.ipDev && |r.value.proto| <= |encoded|
  {
    CountPositive(encoded, ':');
    if Count(encoded, ':') > 0 then
      SplitParts(encoded, ':');
      var parts := Split(encoded, ':');
      assert parts[1] in parts;
      Success(Target(Lower(parts[0]), parts[1],
        if |parts| == 3 then PortText(parts[2]) else DefaultPort(502)))
    else
      Failure(NoTarget)
  }

  /** `proto:dev` gives the lower-cased protocol, the device and port 502. */
  lemma ParseTargetTwoParts(proto: string, dev: string)
    requires ':' !in proto && ':' !in dev
    ensures ParseTarget(proto + ":" + dev) == Success(Target(Lower(proto), dev, DefaultPort(502)))
  {
    SplitWhole(proto, ':');
    SplitWhole(dev, ':');
    SplitSeparatorConcat(proto, dev, ':');
    assert (proto + ":" + dev)[|proto|] == ':';
  }

  /** `proto:dev:port` gives the port text as the port. */
  lemma ParseTargetThreeParts(proto: string, dev: string, port: string)
    requires ':' !in proto && ':' !in dev && ':' !in port
    ensures ParseTarget(proto + ":" + dev + ":" + port) ==
      Success(Target(Lower(proto), dev, PortText(port)))
  {
    var pd := proto + ":" + dev;
    SplitWhole(proto, ':');
    SplitWhole(dev, ':');
    SplitWhole(port, ':');
    SplitSeparatorConcat(proto, dev, ':');
    SplitSeparatorConcat(pd, port, ':');
    assert (pd + ":" + port)[|proto|] == ':';
  }

  /** A fourth field is not an error: the port silently falls back to 502. */
  lemma ParseTargetFourParts(proto: string, dev: string, port: string, extra: string)
    requires ':' !in proto && ':' !in dev && ':' !in port && ':' !in extra
    ensures ParseTarget(proto + ":" + dev + ":" + port + ":" + extra) ==
      Success(Target(Lower(proto), dev, DefaultPort(502)))
  {
    var pd := proto + ":" + dev;
    var pdp := pd + ":" + port;
    SplitWhole(proto, ':');
    SplitWhole(dev, ':');
    SplitWhole(port, ':');
    SplitWhole(extra, ':');
    SplitSeparatorConcat(proto, dev, ':');
    SplitSeparatorConcat(pd, port, ':');
    SplitSeparatorConcat(pdp, extra, ':');
    var whole := pdp + ":" + extra;
    assert Split(pdp, ':') == [proto, dev, port];
    assert Split(whole, ':') == [proto, dev, port, extra];
    assert whole[|proto|] == ':';
    CountPositive(whole, ':');
    assert ParseTarget(whole) == Success(Target(Lower(proto), dev, DefaultPort(502)));
  }

  // ---------------------------------------------------------------------
  // read: keyword dispatch
  // ---------------------------------------------------------------------

  datatype CliError =
    | NotBitDirection     // bit type, but IOH names neither inputs nor outputs
    | NotWordDirection    // register type, but IOH names neither inputs nor outputs
    | UnknownReadType     // TYPE names neither bits nor registers
    | NoValues(kind: ReadKind, start: int, count: int)  // no `.bits` / `.registers`

  /** `any(s.startswith(typ) for s in ['bits', 'coils', 'inputs'])`. */
  predicate BitsType(typ: string) {
    StartsWith("bits", typ) || StartsWith("coils", typ) || StartsWith("inputs", typ)
  }

  /** `any(s.startswith(typ) for s in ['words', 'registers'])`. */
  predicate WordsType(typ: string) {
    StartsWith("words", typ) || StartsWith("registers", typ)
  }

  /** `ioh` abbreviates "output" or "holding". */
  predicate OutputSide(ioh: string) {
    StartsWith("output", ioh) || StartsWith("holding", ioh)
  }

  /** The read function `read` selects from its IOH and TYPE keywords, the bit test first. */
  function Dispatch(ioh: string, typ: string): (r: Result<ReadKind, CliError>)
    ensures r.Success? ==> (IsBitKind(r.value) <==> BitsType(typ))
    ensures r.Success? ==> (BitsType(typ) || WordsType(typ))
  {
    if BitsType(typ) then
      if StartsWith("input", ioh) || StartsWith("descrete", ioh) then Success(DiscreteInputs)
      else if OutputSide(ioh) then Success(Coils)
      else Failure(NotBitDirection)
    else if WordsType(typ) then
      if StartsWith("input", ioh) then Success(InputRegisters)
      else if OutputSide(ioh) then Success(HoldingRegisters)
      else Failure(NotWordDirection)
    else Failure(UnknownReadType)
  }

  /** Two keywords whose first letters differ share no non-empty abbreviation. */
  lemma NoCommonAbbreviation(w: string, v: string, p: string)
    requires p != [] && w != [] && v != [] && w[0] != v[0]
    ensures !(StartsWith(w, p) && StartsWith(v, p))
  {
    if StartsWith(w, p) {
      assert w[..|p|][0] == w[0];
    }
    if StartsWith(v, p) {
      assert v[..|p|][0] == v[0];
    }
  }

  /**
   * Any non-empty abbreviation of "words" or "registers" selects a register
   * read, and any non-empty abbreviation of "input" selects the input side.
   */
  lemma DispatchRegisters(ioh: string, typ: string)
    requires typ != [] && WordsType(typ)
    ensures Dispatch(ioh, typ).Success? ==> !IsBitKind(Dispatch(ioh, typ).value)
    ensures ioh != [] && StartsWith("input", ioh) ==> Dispatch(ioh, typ) == Success(InputRegisters)
    ensures ioh != [] && OutputSide(ioh) ==> Dispatch(ioh, typ) == Success(HoldingRegisters)
    ensures !StartsWith("input", ioh) && !OutputSide(ioh) ==> Dispatch(ioh, typ) == Failure(NotWordDirection)
  {
    NoCommonAbbreviation("words", "bits", typ);
    NoCommonAbbreviation("words", "coils", typ);
    NoCommonAbbreviation("words", "inputs", typ);
    NoCommonAbbreviation("registers", "bits", typ);
    NoCommonAbbreviation("registers", "coils", typ);
    NoCommonAbbreviation("registers", "inputs", typ);
    if ioh != [] {
      NoCommonAbbreviation("input", "output", ioh);
      NoCommonAbbreviation("input", "holding", ioh);
    }
  }

  /**
   * Any abbreviation of "bits", "coils" or "inputs" selects a bit read: a
   * non-empty abbreviation of "input" or "descrete" the discrete inputs and
   * one of "output" or "holding" the coils.
   */
  lemma DispatchBits(ioh: string, typ: string)
    requires BitsType(typ)
    ensures Dispatch(ioh, typ).Success? ==> IsBitKind(Dispatch(ioh, typ).value)
    ensures ioh != [] && (StartsWith("input", ioh) || StartsWith("descrete", ioh)) ==>
      Dispatch(ioh, typ) == Success(DiscreteInputs)
    ensures ioh != [] && OutputSide(ioh) ==> Dispatch(ioh, typ) == Success(Coils)
  {
    if ioh != [] {
      NoCommonAbbreviation("input", "output", ioh);
      NoCommonAbbreviation("input", "holding", ioh);
      NoCommonAbbreviation("descrete", "output", ioh);
      NoCommonAbbreviation("descrete", "holding", ioh);
    }
  }

  /**
   * The bit test comes first and the empty word abbreviates every keyword:
   * an empty TYPE reads bits, and an empty IOH reads inputs.
   */
  lemma DispatchEmptyKeywords(ioh: string, typ: string)
    ensures Dispatch(ioh, "").Success? ==> IsBitKind(Dispatch(ioh, "").value)
    ensures BitsType(typ) ==> Dispatch("", typ) == Success(DiscreteInputs)
    ensures WordsType(typ) && !BitsType(typ) ==> Dispatch("", typ) == Success(InputRegisters)
  {
    assert StartsWith("bits", "");
    assert StartsWith("input", "");
  }

  // ---------------------------------------------------------------------
  // read: chunked requests into the results dict
  // ---------------------------------------------------------------------

  /** A value of the results dict: a bit of a coil read or a register word. */
  datatype Value = BitValue(bit: bool) | WordValue(word: int)

  /** `response.bits` for a bit read, `response.registers` for a register read. */
  function ValuesOf(kind: ReadKind, response: Response): (r: Option<seq<Value>>)
    ensures r.Some? ==> forall i | 0 <= i < |r.value| :: (r.value[i].BitValue? <==> IsBitKind(kind))
  {
    if IsBitKind(kind) then
      match Bits(response)
      case None => None
      case Some(bs) => Some(seq(|bs|, i requires 0 <= i < |bs| => BitValue(bs[i])))
    else
      match Registers(response)
      case None => None
      case Some(ws) => Some(seq(|ws|, i requires 0 <= i < |ws| => WordValue(ws[i])))
  }

  /** The largest request: 1000 bits or 100 registers. */
  function ChunkLimit(kind: ReadKind): int {
    if IsBitKind(kind) then 1000 else 100
  }

  /**
   * The requests `read` issues for `num` addresses from `addr`: for `i` in
   * `range(0, num, limit)`, start `addr + i` and count `min(limit, num - i)`.
   */
  function ReadChunks(kind: ReadKind, addr: int, num: int): seq<Loop> {
    LoopChunks(ReadRecord(addr, num), ChunkLimit(kind))
  }

  /**
   * The results dict after the requests `chunks`, in order: each response's
   * values are zipped onto the chunk's addresses; a response without values
   * ends the command.
   */
  function ReadFold(kind: ReadKind, session: Session, chunks: seq<Loop>): Result<seq<Entry<Value>>, CliError> {
    if chunks == [] then Success([])
    else ReadAfter(kind, session, ReadFold(kind, session, chunks[..|chunks| - 1]), chunks[|chunks| - 1])
  }

  /** One request of the fold: an earlier failure stays, otherwise chunk `c` is requested and stored. */
  function ReadAfter(kind: ReadKind, session: Session, prev: Result<seq<Entry<Value>>, CliError>, c: Loop): Result<seq<Entry<Value>>, CliError> {
    match prev
    case Failure(e) => Failure(e)
    case Success(m) =>
      match ValuesOf(kind, session(kind, c.start, c.count))
      case None => Failure(NoValues(kind, c.start, c.count))
      case Some(vals) => Success(Fill(m, c.start, vals, ZipLen(c.stop - c.start, |vals|)))
  }

  /** Once a request fails, later requests do not change the outcome. */
  lemma {:induction false} ReadFoldFailureStays(kind: ReadKind, session: Session, xs: seq<Loop>, ys: seq<Loop>)
    requires ReadFold(kind, session, xs).Failure?
    ensures ReadFold(kind, session, xs + ys) == ReadFold(kind, session, xs)
    decreases |ys|
  {
    if ys == [] {
      assert xs + ys == xs;
    } else {
      var init := ys[..|ys| - 1];
      ReadFoldFailureStays(kind, session, xs, init);
      assert (xs + ys)[..|xs + ys| - 1] == xs + init;
    }
  }

  /** Each response holds at least as many values as its request asked for. */
  predicate FullResponses(kind: ReadKind, session: Session, chunks: seq<Loop>) {
    forall i | 0 <= i < |chunks| ::
      var vs := ValuesOf(kind, session(kind, chunks[i].start, chunks[i].count));
      vs.Some? ==> |vs.value| >= chunks[i].count
  }

  /**
   * A successful read stores each address under one key only, with a value
   * of the kind read.
   */
  lemma {:induction false} ReadFoldValues(kind: ReadKind, session: Session, chunks: seq<Loop>)
    ensures ReadFold(kind, session, chunks).Success? ==>
      var m := ReadFold(kind, session, chunks).value;
      && DistinctKeys(m)
      && (forall a | a in Keys(m) :: (Lookup(m, a).value.BitValue? <==> IsBitKind(kind)))
    decreases |chunks|
  {
    if chunks != [] && ReadFold(kind, session, chunks).Success? {
      var init := chunks[..|chunks| - 1];
      var c := chunks[|chunks| - 1];
      ReadFoldValues(kind, session, init);
      var m0 := ReadFold(kind, session, init).value;
      var vals := ValuesOf(kind, session(kind, c.start, c.count)).value;
      var m := Fill(m0, c.start, vals, ZipLen(c.stop - c.start, |vals|));
      assert ReadFold(kind, session, chunks).value == m;
    }
  }

  /** A successful read fills only addresses of its requests. */
  lemma {:induction false} ReadFoldKeys(kind: ReadKind, session: Session, chunks: seq<Loop>)
    requires AllHalfOpen(chunks)
    ensures ReadFold(kind, session, chunks).Success? ==>
      forall a | a in Keys(ReadFold(kind, session, chunks).value) :: a in Enum(chunks)
    decreases |chunks|
  {
    if chunks != [] && ReadFold(kind, session, chunks).Success? {
      var init := chunks[..|chunks| - 1];
      var c := chunks[|chunks| - 1];
      assert HalfOpen(c) by { assert c in chunks; }
      assert AllHalfOpen(init) by { assert forall l <- init :: l in chunks; }
      ReadFoldKeys(kind, session, init);
      assert chunks == init + [c];
      EnumSnoc(init, c);
      var m0 := ReadFold(kind, session, init).value;
      var vals := ValuesOf(kind, session(kind, c.start, c.count)).value;
      var m := Fill(m0, c.start, vals, ZipLen(c.stop - c.start, |vals|));
      assert ReadFold(kind, session, chunks).value == m;
      forall a | a in Keys(m) ensures a in Enum(chunks) {
        InEnumLoop(c, a);
      }
    }
  }

  /** When every response is full, every address of every request is filled. */
  lemma {:induction false} ReadFoldComplete(kind: ReadKind, session: Session, chunks: seq<Loop>)
    requires AllHalfOpen(chunks) && FullResponses(kind, session, chunks)
    ensures ReadFold(kind, session, chunks).Success? ==>
      forall a | a in Enum(chunks) :: a in Keys(ReadFold(kind, session, chunks).value)
    decreases |chunks|
  {
    if chunks != [] && ReadFold(kind, session, chunks).Success? {
      var init := chunks[..|chunks| - 1];
      var c := chunks[|chunks| - 1];
      assert FullResponses(kind, session, init) by {
        forall i | 0 <= i < |init| ensures
          var vs := ValuesOf(kind, session(kind, init[i].start, init[i].count));
          vs.Some? ==> |vs.value| >= init[i].count
        {
          assert init[i] == chunks[i];
        }
      }
      assert HalfOpen(c) by { assert c in chunks; }
      assert AllHalfOpen(init) by { assert forall l <- init :: l in chunks; }
      ReadFoldComplete(kind, session, init);
      assert chunks == init + [c];
      EnumSnoc(init, c);
      var m0 := ReadFold(kind, session, init).value;
      var vals := ValuesOf(kind, session(kind, c.start, c.count)).value;
      assert |vals| >= c.count by { assert chunks[|chunks| - 1] == c; }
      var m := Fill(m0, c.start, vals, ZipLen(c.stop - c.start, |vals|));
      assert ReadFold(kind, session, chunks).value == m;
      forall a | a in Enum(chunks) ensures a in Keys(m) {
        InEnumLoop(c, a);
      }
    }
  }

  /** `ChunksFrom`'s `k`-th chunk is the chunk at offset `i + k * m`. */
  lemma {:induction false} ChunksFromAt(l: Loop, m: int, i: int, k: nat)
    requires m > 0 && k < |ChunksFrom(l, m, i)|
    ensures ChunksFrom(l, m, i)[k] == ChunkAt(l, m, i + k * m)
    decreases k
  {
    if k > 0 {
      ChunksFromAt(l, m, i + m, k - 1);
      assert i + m + (k - 1) * m == i + k * m;
    }
  }

  /**
   * For a non-negative count the requests start at `addr`, follow each
   * other without gap or overlap, ask for at most the chunk limit each (the
   * `k`-th for `min(limit, num - k * limit)` from `addr + k * limit`), and
   * together cover `addr .. addr + num - 1` once, in ascending order.
   */
  lemma ReadChunksSpec(kind: ReadKind, addr: int, num: int)
    requires num >= 0
    ensures var cs := ReadChunks(kind, addr, num);
      var lim := ChunkLimit(kind);
      && ChunkedFrom(cs, addr, lim)
      && Enum(cs) == seq(num, j => addr + j)
      && (forall k | 0 <= k < |cs| :: cs[k].start == addr + k * lim && cs[k].count == Min(lim, num - k * lim))
  {
    var l := ReadRecord(addr, num);
    var lim := ChunkLimit(kind);
    LoopChunksSpec(l, lim);
    assert EnumLoop(l) == seq(num, j => addr + j);
    forall k | 0 <= k < |ReadChunks(kind, addr, num)|
      ensures ReadChunks(kind, addr, num)[k].start == addr + k * lim
      ensures ReadChunks(kind, addr, num)[k].count == Min(lim, num - k * lim)
    {
      ChunksFromAt(l, lim, 0, k);
    }
  }

  /** The record `read` chunks: `num` addresses from `addr`. */
  function ReadRecord(addr: int, num: int): Loop {
    Loop(addr, addr + num, num)
  }

  /**
   * The invariant of the chunk loop at offset `i`: the requests `done` so
   * far and those from `i` on make up all requests, and the dict is what
   * the requests so far give.
   */
  predicate ChunkedSoFar(kind: ReadKind, session: Session, addr: int, num: int, i: int, done: seq<Loop>, m: seq<Entry<Value>>) {
    && i >= 0
    && ReadChunks(kind, addr, num) == done + ChunksFrom(ReadRecord(addr, num), ChunkLimit(kind), i)
    && ReadFold(kind, session, done) == Success(m)
  }

  /** The chunk at offset `i` starts at `addr + i` and asks for `min(limit, num - i)` addresses. */
  lemma ChunkedNext(kind: ReadKind, addr: int, num: int, i: int)
    requires 0 <= i < num
    ensures var l, lim := ReadRecord(addr, num), ChunkLimit(kind);
      && ChunkAt(l, lim, i) == Loop(addr + i, addr + i + Min(lim, num - i), Min(lim, num - i))
      && ChunksFrom(l, lim, i) == [ChunkAt(l, lim, i)] + ChunksFrom(l, lim, i + lim)
  {
  }

  /** Appending a request applies one more step of the fold. */
  lemma ReadFoldLast(kind: ReadKind, session: Session, done: seq<Loop>, c: Loop)
    ensures ReadFold(kind, session, done + [c]) == ReadAfter(kind, session, ReadFold(kind, session, done), c)
  {
    assert (done + [c])[..|done|] == done;
    assert (done + [c])[|done|] == c;
  }

  /** The requests still to issue after the chunk at offset `i`. */
  lemma ChunkedRest(kind: ReadKind, addr: int, num: int, i: int, done: seq<Loop>, c: Loop)
    requires 0 <= i < num && c == ChunkAt(ReadRecord(addr, num), ChunkLimit(kind), i)
    requires ReadChunks(kind, addr, num) == done + ChunksFrom(ReadRecord(addr, num), ChunkLimit(kind), i)
    ensures ReadChunks(kind, addr, num) == (done + [c]) + ChunksFrom(ReadRecord(addr, num), ChunkLimit(kind), i + ChunkLimit(kind))
  {
    var l, lim := ReadRecord(addr, num), ChunkLimit(kind);
    ChunkedNext(kind, addr, num, i);
    var rest := ChunksFrom(l, lim, i + lim);
    assert done + ([c] + rest) == (done + [c]) + rest;
  }

  /** A response with values stores them zipped onto the chunk's addresses. */
  lemma ReadAfterStores(kind: ReadKind, session: Session, m: seq<Entry<Value>>, c: Loop, vals: seq<Value>)
    requires ValuesOf(kind, session(kind, c.start, c.count)) == Some(vals)
    ensures ReadAfter(kind, session, Success(m), c) == Success(Fill(m, c.start, vals, ZipLen(c.stop - c.start, |vals|)))
  {
  }

  /** A chunk whose response has values moves the loop on by one limit. */
  lemma ChunkedAdvance(kind: ReadKind, session: Session, addr: int, num: int, i: int, done: seq<Loop>, m: seq<Entry<Value>>, c: Loop, filled: seq<Entry<Value>>)
    requires i < num && ChunkedSoFar(kind, session, addr, num, i, done, m)
    requires c == ChunkAt(ReadRecord(addr, num), ChunkLimit(kind), i)
    requires ReadAfter(kind, session, Success(m), c) == Success(filled)
    ensures ChunkedSoFar(kind, session, addr, num, i + ChunkLimit(kind), done + [c], filled)
  {
    ChunkedRest(kind, addr, num, i, done, c);
    ReadFoldLast(kind, session, done, c);
  }

  /** A chunk whose response has no values ends the read with its error. */
  lemma ChunkedRefused(kind: ReadKind, session: Session, addr: int, num: int, i: int, done: seq<Loop>, m: seq<Entry<Value>>, c: Loop)
    requires i < num && ChunkedSoFar(kind, session, addr, num, i, done, m)
    requires c == ChunkAt(ReadRecord(addr, num), ChunkLimit(kind), i)
    requires ReadAfter(kind, session, Success(m), c).Failure?
    ensures ReadFold(kind, session, ReadChunks(kind, addr, num)) == ReadAfter(kind, session, Success(m), c)
  {
    ChunkedRest(kind, addr, num, i, done, c);
    ReadFoldLast(kind, session, done, c);
    ReadFoldFailureStays(kind, session, done + [c], ChunksFrom(ReadRecord(addr, num), ChunkLimit(kind), i + ChunkLimit(kind)));
  }

  lemma ChunkedFinished(kind: ReadKind, session: Session, addr: int, num: int, i: int, done: seq<Loop>, m: seq<Entry<Value>>)
    requires i >= num && ChunkedSoFar(kind, session, addr, num, i, done, m)
    ensures ReadFold(kind, session, ReadChunks(kind, addr, num)) == Success(m)
  {
    assert done + [] == done;
  }

  /**
   * The chunk loop of `read` for an already chosen read function: the
   * result is the dict `ReadFold` describes for `ReadChunks`.
   */
  method ReadChunked(kind: ReadKind, session: Session, addr: int, num: int)
    returns (r: Result<seq<Entry<Value>>, CliError>)
    ensures r == ReadFold(kind, session, ReadChunks(kind, addr, num))
  {
    var limit := ChunkLimit(kind);
    ghost var done: seq<Loop> := [];
    var resultsd: seq<Entry<Value>> := [];
    var i := 0;
    while i < num
      invariant ChunkedSoFar(kind, session, addr, num, i, done, resultsd)
      decreases num - i
    {
      var next := ReadChunk(kind, session, addr, num, i, done, resultsd);
      if next.Failure? {
        return next;
      }
      resultsd := next.value;
      done := done + [ChunkAt(ReadRecord(addr, num), limit, i)];
      i := i + limit;
    }
    ChunkedFinished(kind, session, addr, num, i, done, resultsd);
    return Success(resultsd);
  }

  /**
   * One turn of the chunk loop at offset `i`: request the chunk at that
   * offset (from `addr + i`, `min(limit, num - i)` addresses, as
   * `ChunkedNext` shows) and zip the response's values onto its addresses,
   * or end the read when the response has no values.
   */
  method ReadChunk(kind: ReadKind, session: Session, addr: int, num: int, i: int, ghost done: seq<Loop>, resultsd: seq<Entry<Value>>)
    returns (next: Result<seq<Entry<Value>>, CliError>)
    requires i < num && ChunkedSoFar(kind, session, addr, num, i, done, resultsd)
    ensures next.Failure? ==>
      ReadFold(kind, session, ReadChunks(kind, addr, num)) == Failure(next.error)
    ensures next.Success? ==>
      ChunkedSoFar(kind, session, addr, num, i + ChunkLimit(kind), done + [ChunkAt(ReadRecord(addr, num), ChunkLimit(kind), i)], next.value)
  {
    var c := ChunkAt(ReadRecord(addr, num), ChunkLimit(kind), i);
    var response := session(kind, c.start, c.count);
    var vals := ValuesOf(kind, response);
    if vals.None? {
      ChunkedRefused(kind, session, addr, num, i, done, resultsd, c);
      return Failure(NoValues(kind, c.start, c.count));
    }
    var filled := FillZip(resultsd, c.start, c.stop, vals.value);
    ReadAfterStores(kind, session, resultsd, c, vals.value);
    ChunkedAdvance(kind, session, addr, num, i, done, resultsd, c, filled);
    return Success(filled);
  }

  /**
   * `read`: choose the read function from the keywords (an unknown keyword
   * ends the program), then read `num` addresses from `addr` in chunks.
   */
  method Read(session: Session, addr: int, ioh: string, typ: string, num: int)
    returns (r: Result<seq<Entry<Value>>, CliError>)
    ensures Dispatch(ioh, typ).Failure? ==> r == Failure(Dispatch(ioh, typ).error)
    ensures Dispatch(ioh, typ).Success? ==>
      r == ReadFold(Dispatch(ioh, typ).value, session, ReadChunks(Dispatch(ioh, typ).value, addr, num))
  {
    var kind := Dispatch(ioh, typ);
    if kind.Failure? {
      return Failure(kind.error);
    }
    r := ReadChunked(kind.value, session, addr, num);
  }

  // ---------------------------------------------------------------------
  // write: data tokens to register words
  // ---------------------------------------------------------------------

  /** The whitespace `bytes.fromhex` skips between byte pairs. */
  predicate HexSpace(c: char) {
    c == ' ' || c == '\t' || c == '\n' || c == '\r' || c == '\U{000B}' || c == '\U{000C}'
  }

  /** The value of one hexadecimal digit, either case. */
  function HexValue(c: char): (r: Option<nat>)
    ensures r.Some? ==> r.value < 16
  {
    if '0' <= c <= '9' then Some(c as int - '0' as int)
    else if 'a' <= c <= 'f' then Some(c as int - 'a' as int + 10)
    else if 'A' <= c <= 'F' then Some(c as int - 'A' as int + 10)
    else None
  }

  /**
   * `bytes.fromhex(s)`: pairs of hexadecimal digits, each pair one byte,
   * with whitespace allowed before each pair.
   */
  function FromHex(s: string): (r: Option<seq<nat>>)
    ensures r.Some? ==> forall i | 0 <= i < |r.value| :: r.value[i] < 256
    decreases |s|
  {
    if s == [] then Some([])
    else if HexSpace(s[0]) then FromHex(s[1..])
    else if |s| >= 2 && HexValue(s[0]).Some? && HexValue(s[1]).Some? then
      match FromHex(s[2..])
      case None => None
      case Some(rest) => Some([HexValue(s[0]).value * 16 + HexValue(s[1]).value] + rest)
    else None
  }

  /** `int.from_bytes(bytes, 'big')`. */
  function BigEndian(bytes: seq<nat>): nat {
    if bytes == [] then 0 else BigEndian(bytes[..|bytes| - 1]) * 256 + bytes[|bytes| - 1]
  }

  predicate IsBinDigits(s: string) {
    forall i | 0 <= i < |s| :: s[i] == '0' || s[i] == '1'
  }

  function BinValue(s: string): nat {
    if s == [] then 0 else BinValue(s[..|s| - 1]) * 2 + (if s[|s| - 1] == '1' then 1 else 0)
  }

  /**
   * `int(s, 2)`: surrounding whitespace, an optional sign, an optional
   * `0b` / `0B` prefix, then at least one binary digit.
   */
  function PyIntBase2(s: string): Option<int> {
    var t := TrimRight(TrimLeft(s));
    var signed := t != [] && (t[0] == '+' || t[0] == '-');
    var body := if signed then t[1..] else t;
    var digits := if |body| >= 2 && body[0] == '0' && (body[1] == 'b' || body[1] == 'B') then body[2..] else body;
    if digits != [] && IsBinDigits(digits) then
      var magnitude: int := BinValue(digits);
      Some(if signed && t[0] == '-' then -magnitude else magnitude)
    else None
  }

  /** What one token contributes: words, a value outside 0..65535, or a token that is no number. */
  datatype Encoded =
    | Words(words: seq<int>)
    | OutOfRange   // `write` returns False
    | NotANumber   // `fromhex` or `int(..., 2)` raises ValueError

  /** `ord(char)` for each character of a token, in order. */
  function CodePoints(item: string): (ws: seq<int>)
    ensures |ws| == |item|
  {
    seq(|item|, i requires 0 <= i < |item| => item[i] as int)
  }

  /** The token starts with "0x" or "0X". */
  predicate HexPrefix(item: string) {
    |item| >= 2 && Lower(item[..2]) == "0x"
  }

  /** The token starts with "0b" or "0B". */
  predicate BinPrefix(item: string) {
    |item| >= 2 && Lower(item[..2]) == "0b"
  }

  /** The one word of a value, when it lies in 0..65535. */
  function InRange(v: int): Encoded {
    if 0 <= v <= 65535 then Words([v]) else OutOfRange
  }

  /**
   * The length test of the hexadecimal branch. As written it counts the
   * "0x" prefix, so only "0x" and "0xHH" pass; the evident intent also
   * lets "0xHHHH" (such as "0xBEEF") through.
   */
  datatype HexRule = AsWritten | Corrected

  predicate HexLengthOk(item: string, rule: HexRule) {
    |item| == 2 || |item| == 4 || (rule.Corrected? && |item| == 6)
  }

  /**
   * The body of `write`'s token loop under a length rule: a decimal token,
   * a hexadecimal token, a binary token, or else one word per character.
   */
  function EncodeToken(item: string, rule: HexRule): Encoded {
    if IsDigits(item) then Words([DigitsValue(item)])
    else if HexPrefix(item) && HexLengthOk(item, rule) then
      match FromHex(item[2..])
      case None => NotANumber
      case Some(bytes) => InRange(BigEndian(bytes))
    else if BinPrefix(item) then
      match PyIntBase2(item[2..])
      case None => NotANumber
      case Some(v) => InRange(v)
    else Words(CodePoints(item))
  }

  /** The token takes the character path. */
  predicate TextToken(item: string, rule: HexRule) {
    !IsDigits(item) && !(HexPrefix(item) && HexLengthOk(item, rule)) && !BinPrefix(item)
  }

  /** Every token gives one word, except a token taking the character path, which gives one per character. */
  lemma EncodeTokenShape(item: string, rule: HexRule)
    ensures EncodeToken(item, rule).Words? ==>
      |EncodeToken(item, rule).words| == (if TextToken(item, rule) then |item| else 1)
    ensures TextToken(item, rule) ==> EncodeToken(item, rule) == Words(CodePoints(item))
  {
  }

  /** The words of all tokens, token after token; the first refused token decides the outcome. */
  function EncodeAll(data: seq<string>, rule: HexRule): Encoded {
    if data == [] then Words([])
    else EncodeAfter(EncodeAll(data[..|data| - 1], rule), EncodeToken(data[|data| - 1], rule))
  }

  /** One more token's encoding: its words are appended, or its refusal ends the encoding; an earlier refusal stays. */
  function EncodeAfter(prev: Encoded, next: Encoded): Encoded {
    match prev
    case Words(ws) =>
      (match next
       case Words(w) => Words(ws + w)
       case other => other)
    case other => other
  }

  /** The number of words the tokens give when none is refused. */
  function TotalWords(data: seq<string>, rule: HexRule): nat {
    if data == [] then 0
    else TotalWords(data[..|data| - 1], rule) + (if TextToken(data[|data| - 1], rule) then |data[|data| - 1]| else 1)
  }

  lemma EncodeAllLast(data: seq<string>, item: string, rule: HexRule)
    ensures EncodeAll(data + [item], rule) == EncodeAfter(EncodeAll(data, rule), EncodeToken(item, rule))
  {
    assert (data + [item])[..|data|] == data;
    assert (data + [item])[|data|] == item;
  }

  /** Joining encodings is associative: words concatenate and the first refusal wins. */
  lemma EncodeAfterAssoc(x: Encoded, y: Encoded, z: Encoded)
    ensures EncodeAfter(x, EncodeAfter(y, z)) == EncodeAfter(EncodeAfter(x, y), z)
  {
    if x.Words? && y.Words? && z.Words? {
      assert (x.words + y.words) + z.words == x.words + (y.words + z.words);
    }
  }

  /**
   * Words keep token order: encoding `a + b` joins the encodings of `a` and
   * of `b`, so the words of `a` come first and the first refusal, in `a` or
   * else in `b`, is the outcome.
   */
  lemma {:induction false} EncodeAllConcat(a: seq<string>, b: seq<string>, rule: HexRule)
    ensures EncodeAll(a + b, rule) == EncodeAfter(EncodeAll(a, rule), EncodeAll(b, rule))
    decreases |b|
  {
    if b == [] {
      assert a + b == a;
      if EncodeAll(a, rule).Words? {
        assert EncodeAll(a, rule).words + [] == EncodeAll(a, rule).words;
      }
    } else {
      var init, last := b[..|b| - 1], b[|b| - 1];
      EncodeAllConcat(a, init, rule);
      var t := EncodeToken(last, rule);
      assert EncodeAll(a + b, rule) == EncodeAfter(EncodeAll(a + init, rule), t) by {
        EncodeAllLast(a + init, last, rule);
        assert (a + init) + [last] == a + b;
      }
      assert EncodeAll(b, rule) == EncodeAfter(EncodeAll(init, rule), t) by {
        EncodeAllLast(init, last, rule);
        assert init + [last] == b;
      }
      EncodeAfterAssoc(EncodeAll(a, rule), EncodeAll(init, rule), t);
    }
  }

  /** The word count of a successful encoding is the sum of the tokens' word counts. */
  lemma {:induction false} EncodeAllLength(data: seq<string>, rule: HexRule)
    ensures EncodeAll(data, rule).Words? ==> |EncodeAll(data, rule).words| == TotalWords(data, rule)
    decreases |data|
  {
    if data != [] {
      EncodeAllLength(data[..|data| - 1], rule);
      EncodeTokenShape(data[|data| - 1], rule);
    }
  }

  /**
   * The body of `write`'s token loop for one token, with its length test
   * as written: a decimal token, a hexadecimal token of at most four
   * characters or a binary token in 0..65535, or one code point per
   * character.
   */
  method EncodeOneToken(item: string) returns (r: Encoded)
    ensures r == EncodeToken(item, AsWritten)
  {
    if IsDigits(item) {
      return Words([DigitsValue(item)]);
    } else if HexPrefix(item) && (|item| == 2 || |item| == 4) {
      var bytes := FromHex(item[2..]);
      if bytes.None? {
        return NotANumber;
      }
      return InRange(BigEndian(bytes.value));
    } else if BinPrefix(item) {
      var v := PyIntBase2(item[2..]);
      if v.None? {
        return NotANumber;
      }
      return InRange(v.value);
    }
    var ws: seq<int> := [];
    for j := 0 to |item|
      invariant ws == CodePoints(item[..j])
    {
      assert CodePoints(item[..j + 1]) == CodePoints(item[..j]) + [item[j] as int];
      ws := ws + [item[j] as int];
    }
    assert item[..|item|] == item;
    return Words(ws);
  }

  /**
   * `write`'s token loop: the list of words, or the first refusal, in token
   * order.
   */
  method EncodeWords(data: seq<string>) returns (r: Encoded)
    ensures r == EncodeAll(data, AsWritten)
  {
    var intWords: seq<int> := [];
    for i := 0 to |data|
      invariant EncodeAll(data[..i], AsWritten) == Words(intWords)
    {
      var next := EncodeStep(data, i, intWords);
      if !next.Words? {
        return next;
      }
      intWords := next.words;
    }
    assert data[..|data|] == data;
    return Words(intWords);
  }

  /** One turn of the token loop: append the token's words, or stop at its refusal. */
  method EncodeStep(data: seq<string>, i: nat, intWords: seq<int>) returns (next: Encoded)
    requires i < |data| && EncodeAll(data[..i], AsWritten) == Words(intWords)
    ensures !next.Words? ==> next == EncodeAll(data, AsWritten)
    ensures next.Words? ==> next == EncodeAll(data[..i + 1], AsWritten)
  {
    var item := data[i];
    var encoded := EncodeOneToken(item);
    assert EncodeAll(data[..i + 1], AsWritten) == EncodeAfter(Words(intWords), encoded) by {
      EncodeAllLast(data[..i], item, AsWritten);
      assert data[..i] + [item] == data[..i + 1];
    }
    if !encoded.Words? {
      assert EncodeAll(data, AsWritten) == EncodeAfter(EncodeAll(data[..i + 1], AsWritten), EncodeAll(data[i + 1..], AsWritten)) by {
        EncodeAllConcat(data[..i + 1], data[i + 1..], AsWritten);
        assert data[..i + 1] + data[i + 1..] == data;
      }
      return encoded;
    }
    return Words(intWords + encoded.words);
  }

  /** What `write` ends with. */
  datatype WriteOutcome =
    | Refused                               // a value outside 0..65535: returns False
    | Crashed                               // a token raised ValueError
    | CoilsNotWritten                       // the bit branch: `bin` of a list, nothing written
    | WroteRegisters(addr: int, words: seq<int>)
    | NothingWritten                        // neither bits nor registers: returns True

  /**
   * `write` without its read-back: encode the tokens, then write the words
   * as holding registers from `addr` when TYPE abbreviates "words" or
   * "registers" (the bit test first).
   */
  method Write(addr: int, typ: string, data: seq<string>) returns (o: WriteOutcome)
    ensures EncodeAll(data, AsWritten).OutOfRange? ==> o == Refused
    ensures EncodeAll(data, AsWritten).NotANumber? ==> o == Crashed
    ensures EncodeAll(data, AsWritten).Words? ==>
      o == (if BitsType(typ) then CoilsNotWritten
            else if WordsType(typ) then WroteRegisters(addr, EncodeAll(data, AsWritten).words)
            else NothingWritten)
  {
    var encoded := EncodeWords(data);
    if encoded.OutOfRange? {
      return Refused;
    } else if encoded.NotANumber? {
      return Crashed;
    }
    if BitsType(typ) {
      o := CoilsNotWritten;
    } else if WordsType(typ) {
      o := WroteRegisters(addr, encoded.words);
    } else {
      o := NothingWritten;
    }
  }

  // ---------------------------------------------------------------------
  // Round trips of the token encodings
  // ---------------------------------------------------------------------

  /** A decimal token is its value, with no range check. */
  lemma DecimalToken(n: nat, rule: HexRule)
    ensures EncodeToken(NatToString(n), rule) == Words([n])
  {
    NatToStringRoundTrip(n);
  }

  lemma HexDigitRoundTrip(d: nat)
    requires d < 16
    ensures HexValue(HexDigitChar(d)) == Some(d) && !HexSpace(HexDigitChar(d))
  {
  }

  /** Two lower-case hexadecimal digits of a byte. */
  function Hex2(n: nat): (s: string)
    requires n < 256
    ensures |s| == 2
  {
    [HexDigitChar(n / 16), HexDigitChar(n % 16)]
  }

  /** Four lower-case hexadecimal digits of a 16-bit value. */
  function Hex4(n: nat): (s: string)
    requires n < 65536
    ensures |s| == 4
  {
    Hex2(n / 256) + Hex2(n % 256)
  }

  lemma FromHex2(n: nat, rest: string)
    requires n < 256
    ensures FromHex(Hex2(n) + rest) ==
      if FromHex(rest).Some? then Some([n] + FromHex(rest).value) else None
  {
    HexDigitRoundTrip(n / 16);
    HexDigitRoundTrip(n % 16);
    var s := Hex2(n) + rest;
    assert s[2..] == rest;
  }

  lemma HexPrefixOf(h: string)
    ensures HexPrefix("0x" + h) && !BinPrefix("0x" + h) && !IsDigits("0x" + h)
    ensures ("0x" + h)[2..] == h
  {
    var item := "0x" + h;
    assert item[..2] == "0x";
    assert !IsDigit(item[1]);
  }

  /** "0xHH" is the byte's value, as written and corrected. */
  lemma HexByteToken(n: nat, rule: HexRule)
    requires n < 256
    ensures EncodeToken("0x" + Hex2(n), rule) == Words([n])
  {
    HexPrefixOf(Hex2(n));
    FromHex2(n, []);
    assert Hex2(n) + [] == Hex2(n);
    assert BigEndian([n]) == BigEndian([]) * 256 + n;
  }

  /** Corrected: "0xHHHH" is the 16-bit value it spells. */
  lemma HexWordToken(n: nat)
    requires n < 65536
    ensures EncodeToken("0x" + Hex4(n), Corrected) == Words([n])
  {
    var hi, lo := n / 256, n % 256;
    var item := "0x" + Hex4(n);
    HexPrefixOf(Hex4(n));
    assert FromHex(item[2..]) == Some([hi, lo]) by {
      FromHex2(lo, []);
      assert FromHex([]) == Some([]);
      assert Hex2(lo) + [] == Hex2(lo) && [lo] + [] == [lo];
      assert FromHex(Hex2(lo)) == Some([lo]);
      FromHex2(hi, Hex2(lo));
      assert FromHex(Hex2(hi) + Hex2(lo)) == Some([hi] + [lo]);
      assert [hi] + [lo] == [hi, lo];
      assert item[2..] == Hex2(hi) + Hex2(lo);
    }
    assert BigEndian([hi, lo]) == n by {
      var bytes := [hi, lo];
      assert bytes[..1] == [hi];
      assert BigEndian(bytes) == BigEndian([hi]) * 256 + lo;
      assert BigEndian([hi]) == BigEndian([]) * 256 + hi;
    }
  }

  /**
   * As written, "0xHHHH" fails the length test and takes the character
   * path: `write(..., ['0xBEEF'])` sends the six words 48, 120, 66, 69, 69, 70.
   */
  lemma HexWordTokenAsWritten(n: nat)
    requires n < 65536
    ensures EncodeToken("0x" + Hex4(n), AsWritten) == Words(CodePoints("0x" + Hex4(n)))
    ensures EncodeToken("0xBEEF", AsWritten) == Words([48, 120, 66, 69, 69, 70])
  {
    HexPrefixOf(Hex4(n));
    HexPrefixOf("BEEF");
  }

  /**
   * The whole token loop on one "0xHHHH" token: as written it sends the
   * token's code points, `write(..., ['0xBEEF'])` the six words 48, 120,
   * 66, 69, 69, 70; corrected it sends the one word the digits spell.
   */
  lemma HexWordWrite(n: nat)
    requires n < 65536
    ensures EncodeAll(["0x" + Hex4(n)], AsWritten) == Words(CodePoints("0x" + Hex4(n)))
    ensures EncodeAll(["0x" + Hex4(n)], Corrected) == Words([n])
    ensures EncodeAll(["0xBEEF"], AsWritten) == Words([48, 120, 66, 69, 69, 70])
  {
    var item := "0x" + Hex4(n);
    assert EncodeAll([item], AsWritten) == Words(CodePoints(item)) by {
      EncodeAllOne(item, AsWritten);
      HexWordTokenAsWritten(n);
    }
    assert EncodeAll([item], Corrected) == Words([n]) by {
      EncodeAllOne(item, Corrected);
      HexWordToken(n);
    }
    assert EncodeAll(["0xBEEF"], AsWritten) == Words([48, 120, 66, 69, 69, 70]) by {
      EncodeAllOne("0xBEEF", AsWritten);
      HexWordTokenAsWritten(n);
    }
  }

  /** The loop over one token gives that token's encoding. */
  lemma EncodeAllOne(item: string, rule: HexRule)
    ensures EncodeAll([item], rule) == EncodeToken(item, rule)
  {
    assert [item][..0] == [];
    if EncodeToken(item, rule).Words? {
      assert [] + EncodeToken(item, rule).words == EncodeToken(item, rule).words;
    }
  }

  /** Binary digits of a natural number, no leading zeros. */
  function NatToBin(n: nat): (s: string)
    ensures s != [] && IsBinDigits(s)
    ensures n >= 2 ==> s[0] == '1'
    decreases n
  {
    if n < 2 then [if n == 1 then '1' else '0'] else NatToBin(n / 2) + [if n % 2 == 1 then '1' else '0']
  }

  lemma {:induction false} NatToBinRoundTrip(n: nat)
    ensures BinValue(NatToBin(n)) == n
    decreases n
  {
    if n >= 2 {
      NatToBinRoundTrip(n / 2);
      var s := NatToBin(n);
      assert s[..|s| - 1] == NatToBin(n / 2);
    }
  }

  /** "0b" and the binary digits of `n` give `n` when it fits 16 bits, and `write` refuses it otherwise. */
  lemma BinaryToken(n: nat, rule: HexRule)
    ensures EncodeToken("0b" + NatToBin(n), rule) == if n <= 65535 then Words([n]) else OutOfRange
  {
    var d := NatToBin(n);
    var item := "0b" + d;
    assert item[..2] == "0b" && item[2..] == d;
    assert !IsDigit(item[1]);
    assert Lower("0b") == "0b";
    assert !HexPrefix(item);
    NatToBinRoundTrip(n);
    assert TrimLeft(d) == d;
    assert TrimRight(d) == d;
    assert !(|d| >= 2 && d[0] == '0');
    assert PyIntBase2(d) == Some(n);
  }
}
