/**
 * Address ranges: the `Loops` object of `src/ctmodbus/common.py`.
 *
 * Text such as "1-5,10,13-15" becomes an ordered list of range records
 * `{start, stop, count}` with an exclusive stop. `MaxCount` cuts every record
 * into request-sized chunks, `Enum` lists every address, and `Append` adds a
 * record with an INCLUSIVE stop, which the rest of the class does not expect
 * (see `AppendEnumMismatch`).
 */
module Common {
  import opened Wrappers
  import opened Text

  /** One range record, the dict `{'start': ..., 'stop': ..., 'count': ...}`. */
  datatype Loop = Loop(start: int, stop: int, count: int)

  /** Why a range text or an appended record is refused (an `AssertionError`). */
  datatype RangeError =
    | NotInBounds(value: int)
    | NotARange(token: string)
    | NotIntegers(token: string)
    | NotAscending(first: int, last: int)
    | NoStopOrCount
    | CountMismatch(start: int, stop: int, count: int)

  /** A record whose stop is exclusive and whose count is its width. */
  predicate HalfOpen(l: Loop) {
    l.count >= 0 && l.stop == l.start + l.count
  }

  predicate AllHalfOpen(loops: seq<Loop>) {
    forall l <- loops :: HalfOpen(l)
  }

  function Min(a: int, b: int): int {
    if a <= b then a else b
  }

  // ---------------------------------------------------------------------
  // Parsing: Loops._from_int_csr
  // ---------------------------------------------------------------------

  /** A token of the form "<digits>-<digits>". */
  predicate IsRangeToken(tok: string) {
    var parts := Split(tok, '-');
    |parts| == 2 && IsDigits(parts[0]) && IsDigits(parts[1])
  }

  /** Both ends of an "a-b" token lie in the bounds and ascend strictly. */
  predicate RangeEndsAccepted(tok: string, minimum: int, maximum: int)
    requires IsRangeToken(tok)
  {
    var a, b := DigitsValue(Split(tok, '-')[0]), DigitsValue(Split(tok, '-')[1]);
    minimum <= a <= maximum && minimum <= b <= maximum && a < b
  }

  /**
   * One comma-separated token: a single address `n` becomes `{n, n+1, 1}`,
   * a strictly ascending pair `a-b` becomes `{a, b+1, b-a+1}`; both ends must
   * lie in `[minimum, maximum]`.
   */
  function ParseToken(tok: string, minimum: int, maximum: int): (r: Result<Loop, RangeError>)
    ensures r.Success? ==> HalfOpen(r.value) && r.value.count >= 1
    ensures r.Success? ==> minimum <= r.value.start && r.value.stop - 1 <= maximum
    ensures r.Success? <==>
      (if IsDigits(tok) then minimum <= DigitsValue(tok) <= maximum
       else IsRangeToken(tok) && RangeEndsAccepted(tok, minimum, maximum))
  {
    if IsDigits(tok) then
      var single := DigitsValue(tok);
      if minimum <= single <= maximum then Success(Loop(single, single + 1, 1))
      else Failure(NotInBounds(single))
    else
      var aRange := Split(tok, '-');
      if |aRange| != 2 then Failure(NotARange(tok))
      else if !(IsDigits(aRange[0]) && IsDigits(aRange[1])) then Failure(NotIntegers(tok))
      else
        var start, stop := DigitsValue(aRange[0]), DigitsValue(aRange[1]);
        if !(minimum <= start <= maximum) then Failure(NotInBounds(start))
        else if !(minimum <= stop <= maximum) then Failure(NotInBounds(stop))
        else if !(start < stop) then Failure(NotAscending(start, stop))
        else Success(Loop(start, stop + 1, stop - start + 1))
  }

  /** The tokens in order; the first refused token refuses the whole list. */
  function ParseTokens(tokens: seq<string>, minimum: int, maximum: int): Result<seq<Loop>, RangeError>
  {
    if tokens == [] then Success([])
    else match ParseTokens(tokens[..|tokens| - 1], minimum, maximum)
      case Failure(e) => Failure(e)
      case Success(loops) =>
        match ParseToken(tokens[|tokens| - 1], minimum, maximum)
        case Failure(e) => Failure(e)
        case Success(l) => Success(loops + [l])
  }

  /** The records `_from_int_csr(csr, minimum, maximum)` appends. */
  function ParseCsr(csr: string, minimum: int, maximum: int): Result<seq<Loop>, RangeError> {
    ParseTokens(Split(csr, ','), minimum, maximum)
  }

  /** One more accepted token adds its record at the end. */
  lemma ParseTokensSnoc(tokens: seq<string>, i: nat, loops: seq<Loop>, l: Loop, minimum: int, maximum: int)
    requires i < |tokens|
    requires ParseTokens(tokens[..i], minimum, maximum) == Success(loops)
    requires ParseToken(tokens[i], minimum, maximum) == Success(l)
    ensures ParseTokens(tokens[..i + 1], minimum, maximum) == Success(loops + [l])
  {
    assert tokens[..i + 1][..i] == tokens[..i];
  }

  /** A refused token after accepted ones decides the outcome of the whole list. */
  lemma ParseTokensRefused(tokens: seq<string>, i: nat, minimum: int, maximum: int)
    requires i < |tokens|
    requires ParseTokens(tokens[..i], minimum, maximum).Success?
    requires ParseToken(tokens[i], minimum, maximum).Failure?
    ensures ParseTokens(tokens, minimum, maximum) == Failure(ParseToken(tokens[i], minimum, maximum).error)
  {
    assert tokens[..i + 1][..i] == tokens[..i];
    assert tokens[..i + 1][i] == tokens[i];
    ParseTokensFailureStays(tokens, i + 1, minimum, maximum);
  }

  /**
   * The body of `_from_int_csr`'s loop for one token: a number in bounds,
   * or a "start-stop" range of two numbers in bounds with start < stop.
   */
  method ParseOneToken(singleOrRange: string, minimum: int, maximum: int) returns (r: Result<Loop, RangeError>)
    ensures r == ParseToken(singleOrRange, minimum, maximum)
  {
    if IsDigits(singleOrRange) {
      var single := DigitsValue(singleOrRange);
      if !(minimum <= single <= maximum) {
        return Failure(NotInBounds(single));
      }
      return Success(Loop(single, single + 1, 1));
    }
    var aRange := Split(singleOrRange, '-');
    if |aRange| != 2 {
      return Failure(NotARange(singleOrRange));
    }
    if !(IsDigits(aRange[0]) && IsDigits(aRange[1])) {
      return Failure(NotIntegers(singleOrRange));
    }
    var start, stop := DigitsValue(aRange[0]), DigitsValue(aRange[1]);
    if !(minimum <= start <= maximum) {
      return Failure(NotInBounds(start));
    }
    if !(minimum <= stop <= maximum) {
      return Failure(NotInBounds(stop));
    }
    if !(start < stop) {
      return Failure(NotAscending(start, stop));
    }
    return Success(Loop(start, stop + 1, stop - start + 1));
  }

  /** Once a prefix of the tokens is refused, the whole list is refused the same way. */
  lemma {:induction false} ParseTokensFailureStays(tokens: seq<string>, j: nat, minimum: int, maximum: int)
    requires j <= |tokens|
    requires ParseTokens(tokens[..j], minimum, maximum).Failure?
    ensures ParseTokens(tokens, minimum, maximum) == ParseTokens(tokens[..j], minimum, maximum)
    decreases |tokens| - j
  {
    if j < |tokens| {
      var next := tokens[..j + 1];
      assert next[..j] == tokens[..j];
      ParseTokensFailureStays(tokens, j + 1, minimum, maximum);
    } else {
      assert tokens[..j] == tokens;
    }
  }

  /**
   * A token list parses exactly when every token does; the records are then
   * the tokens' records in token order, one per token, with nothing merged,
   * sorted or removed.
   */
  lemma {:induction false} ParseTokensSpec(tokens: seq<string>, minimum: int, maximum: int)
    ensures ParseTokens(tokens, minimum, maximum).Success? <==>
      forall i | 0 <= i < |tokens| :: ParseToken(tokens[i], minimum, maximum).Success?
    ensures ParseTokens(tokens, minimum, maximum).Success? ==>
      var loops := ParseTokens(tokens, minimum, maximum).value;
      |loops| == |tokens| &&
      forall i | 0 <= i < |tokens| :: loops[i] == ParseToken(tokens[i], minimum, maximum).value
    decreases |tokens|
  {
    if tokens != [] {
      var init := tokens[..|tokens| - 1];
      ParseTokensSpec(init, minimum, maximum);
      forall i | 0 <= i < |init| ensures init[i] == tokens[i] { }
    }
  }

  // ---------------------------------------------------------------------
  // Writing records back as text: the inverse of parsing
  // ---------------------------------------------------------------------

  /** The canonical token of a record: "n" for one address, "a-b" otherwise. */
  function RenderLoop(l: Loop): string
    requires l.start >= 0 && l.count >= 1
  {
    if l.count == 1 then NatToString(l.start)
    else NatToString(l.start) + "-" + NatToString(l.start + l.count - 1)
  }

  predicate Renderable(loops: seq<Loop>, minimum: int, maximum: int) {
    forall l <- loops ::
      HalfOpen(l) && l.count >= 1 && l.start >= 0 && minimum <= l.start && l.stop - 1 <= maximum
  }

  function RenderTokens(loops: seq<Loop>): (tokens: seq<string>)
    requires forall l <- loops :: l.start >= 0 && l.count >= 1
    ensures |tokens| == |loops|
    ensures forall i | 0 <= i < |loops| :: tokens[i] == RenderLoop(loops[i])
  {
    if loops == [] then [] else RenderTokens(loops[..|loops| - 1]) + [RenderLoop(loops[|loops| - 1])]
  }

  /** The token "a-b" splits at its one dash into the two numbers and is not all digits. */
  lemma RangeTokenParts(a: nat, b: nat)
    ensures var tok := NatToString(a) + "-" + NatToString(b);
      Split(tok, '-') == [NatToString(a), NatToString(b)] && !IsDigits(tok) && ',' !in tok
  {
    var tok := NatToString(a) + "-" + NatToString(b);
    NatToStringHasNoSeparator(a, '-');
    NatToStringHasNoSeparator(b, '-');
    NatToStringHasNoSeparator(a, ',');
    NatToStringHasNoSeparator(b, ',');
    assert Join([NatToString(a), NatToString(b)], '-') == tok;
    SplitJoin([NatToString(a), NatToString(b)], '-');
    assert tok[|NatToString(a)|] == '-';
  }

  lemma RenderLoopRoundTrip(l: Loop, minimum: int, maximum: int)
    requires Renderable([l], minimum, maximum)
    ensures ParseToken(RenderLoop(l), minimum, maximum) == Success(l)
    ensures ',' !in RenderLoop(l)
  {
    var a := l.start;
    NatToStringRoundTrip(a);
    NatToStringHasNoSeparator(a, ',');
    if l.count > 1 {
      var b := l.start + l.count - 1;
      NatToStringRoundTrip(b);
      RangeTokenParts(a, b);
    }
  }

  /**
   * Round trip: writing well-formed in-bounds records as "a-b" / "n" tokens
   * joined by commas and parsing the text gives back the same records.
   */
  lemma {:induction false} RenderRoundTrip(loops: seq<Loop>, minimum: int, maximum: int)
    requires |loops| >= 1
    requires Renderable(loops, minimum, maximum)
    ensures ParseCsr(Join(RenderTokens(loops), ','), minimum, maximum) == Success(loops)
  {
    var tokens := RenderTokens(loops);
    RenderTokensParse(loops, minimum, maximum);
    SplitJoin(tokens, ',');
    assert ParseCsr(Join(tokens, ','), minimum, maximum) == ParseTokens(tokens, minimum, maximum);
    ParseTokensEach(tokens, loops, minimum, maximum);
  }

  /** Tokens that each parse to a given record parse, together, to those records. */
  lemma {:induction false} ParseTokensEach(tokens: seq<string>, loops: seq<Loop>, minimum: int, maximum: int)
    requires |tokens| == |loops|
    requires forall i | 0 <= i < |loops| :: ParseToken(tokens[i], minimum, maximum) == Success(loops[i])
    ensures ParseTokens(tokens, minimum, maximum) == Success(loops)
    decreases |tokens|
  {
    if tokens != [] {
      var n := |tokens| - 1;
      ParseTokensEach(tokens[..n], loops[..n], minimum, maximum);
      assert loops[..n] + [loops[n]] == loops;
    }
  }

  lemma RenderTokensParse(loops: seq<Loop>, minimum: int, maximum: int)
    requires Renderable(loops, minimum, maximum)
    ensures forall i | 0 <= i < |loops| ::
      ParseToken(RenderTokens(loops)[i], minimum, maximum) == Success(loops[i])
    ensures forall t <- RenderTokens(loops) :: ',' !in t
  {
    var tokens := RenderTokens(loops);
    forall i | 0 <= i < |tokens|
      ensures ParseToken(tokens[i], minimum, maximum) == Success(loops[i]) && ',' !in tokens[i]
    {
      assert loops[i] in loops;
      RenderLoopRoundTrip(loops[i], minimum, maximum);
    }
  }

  /** An "a-b" token whose ends are equal or descending ("5-5", "9-3") is refused. */
  lemma DescendingRangeRefused(a: nat, b: nat, minimum: int, maximum: int)
    requires a >= b
    ensures ParseToken(NatToString(a) + "-" + NatToString(b), minimum, maximum).Failure?
  {
    NatToStringRoundTrip(a);
    NatToStringRoundTrip(b);
    NatToStringHasNoSeparator(a, '-');
    NatToStringHasNoSeparator(b, '-');
    var tok := NatToString(a) + "-" + NatToString(b);
    assert Join([NatToString(a), NatToString(b)], '-') == tok;
    SplitJoin([NatToString(a), NatToString(b)], '-');
    assert tok[|NatToString(a)|] == '-';
  }

  /** An empty token, as in "1,,2", refuses the whole text. */
  lemma EmptyTokenRefused(left: string, right: string, minimum: int, maximum: int)
    ensures ParseCsr(left + ",," + right, minimum, maximum).Failure?
  {
    var tokens := Split(left + ",," + right, ',');
    assert left + ",," + right == left + [','] + ("," + right);
    SplitSeparatorConcat(left, "," + right, ',');
    assert "," + right == [] + [','] + right;
    SplitSeparatorConcat([], right, ',');
    var i := |Split(left, ',')|;
    assert tokens[i] == [];
    ParseTokensSpec(tokens, minimum, maximum);
    assert Split([], '-') == [[]];
  }

  // ---------------------------------------------------------------------
  // Folds over the records
  // ---------------------------------------------------------------------

  /** The total of the records' counts (what `enum_length` accumulates). */
  function SumCounts(loops: seq<Loop>): int {
    if loops == [] then 0 else loops[0].count + SumCounts(loops[1..])
  }

  /** `range(l.start, l.stop)`. */
  function EnumLoop(l: Loop): (addrs: seq<int>)
    ensures |addrs| == if l.stop > l.start then l.stop - l.start else 0
    ensures forall j | 0 <= j < |addrs| :: addrs[j] == l.start + j
  {
    seq(if l.stop > l.start then l.stop - l.start else 0, j => l.start + j)
  }

  /** `Loops.enum()`: every address of every record, record by record. */
  function Enum(loops: seq<Loop>): seq<int> {
    if loops == [] then [] else EnumLoop(loops[0]) + Enum(loops[1..])
  }

  lemma {:induction false} SumCountsConcat(a: seq<Loop>, b: seq<Loop>)
    ensures SumCounts(a + b) == SumCounts(a) + SumCounts(b)
    decreases |a|
  {
    if a != [] {
      assert (a + b)[1..] == a[1..] + b && (a + b)[0] == a[0];
      SumCountsConcat(a[1..], b);
    } else {
      assert a + b == b;
    }
  }

  lemma {:induction false} EnumConcat(a: seq<Loop>, b: seq<Loop>)
    ensures Enum(a + b) == Enum(a) + Enum(b)
    decreases |a|
  {
    if a != [] {
      assert (a + b)[1..] == a[1..] + b && (a + b)[0] == a[0];
      EnumConcat(a[1..], b);
    } else {
      assert a + b == b;
    }
  }

  lemma InEnumLoop(c: Loop, a: int)
    ensures a in EnumLoop(c) <==> c.start <= a < c.stop
  {
    if c.start <= a < c.stop {
      assert EnumLoop(c)[a - c.start] == a;
    }
  }

  lemma EnumSnoc(init: seq<Loop>, c: Loop)
    ensures Enum(init + [c]) == Enum(init) + EnumLoop(c)
  {
    EnumConcat(init, [c]);
    assert Enum([c]) == EnumLoop(c) + Enum([]);
  }

  /** For half-open records, `enum` yields exactly `enum_length` addresses. */
  lemma {:induction false} EnumLength(loops: seq<Loop>)
    requires AllHalfOpen(loops)
    ensures |Enum(loops)| == SumCounts(loops)
    decreases |loops|
  {
    if loops != [] {
      assert loops[0] in loops;
      EnumLength(loops[1..]);
    }
  }

  // ---------------------------------------------------------------------
  // Chunking: Loops.max_count
  // ---------------------------------------------------------------------

  /** The chunk at offset `i` of a record. */
  function ChunkAt(l: Loop, m: int, i: int): Loop {
    Loop(l.start + i, Min(l.start + m + i, l.stop), Min(m, l.count - i))
  }

  /** The chunks of a record at offsets `i, i+m, i+2m, ...` below its count. */
  function ChunksFrom(l: Loop, m: int, i: int): seq<Loop>
    requires m > 0
    decreases l.count - i
  {
    if i >= l.count then [] else [ChunkAt(l, m, i)] + ChunksFrom(l, m, i + m)
  }

  /** `for i in range(0, loop['count'], m)`: the chunks of one record. */
  function LoopChunks(l: Loop, m: int): seq<Loop>
    requires m > 0
  {
    ChunksFrom(l, m, 0)
  }

  /** `Loops.max_count(m)`: the chunks of every record, record by record. */
  function MaxCount(loops: seq<Loop>, m: int): seq<Loop>
    requires m > 0
  {
    if loops == [] then [] else LoopChunks(loops[0], m) + MaxCount(loops[1..], m)
  }

  /** The properties a chunk list of one record has, from address `from` on. */
  predicate ChunkedFrom(cs: seq<Loop>, from: int, m: int) {
    && (forall c <- cs :: HalfOpen(c) && 1 <= c.count <= m)
    && (forall k | 0 <= k < |cs| - 1 :: cs[k].count == m)
    && (cs != [] ==> cs[0].start == from)
    && (forall k | 0 <= k < |cs| - 1 :: cs[k + 1].start == cs[k].stop)
  }

  lemma {:induction false} ChunksFromSpec(l: Loop, m: int, i: int)
    requires HalfOpen(l) && m > 0 && i >= 0
    ensures var rem := if l.count > i then l.count - i else 0;
      && ChunkedFrom(ChunksFrom(l, m, i), l.start + i, m)
      && Enum(ChunksFrom(l, m, i)) == seq(rem, j => l.start + i + j)
      && SumCounts(ChunksFrom(l, m, i)) == rem
    decreases l.count - i
  {
    if i < l.count {
      var c := ChunkAt(l, m, i);
      var rest := ChunksFrom(l, m, i + m);
      ChunksFromSpec(l, m, i + m);
      var cs := [c] + rest;
      assert ChunksFrom(l, m, i) == cs;
      assert cs[1..] == rest;
      assert HalfOpen(c) && 1 <= c.count <= m;
      if i + m >= l.count {
        assert rest == [];
        assert Enum(cs) == EnumLoop(c) + Enum(rest);
        assert Enum(cs) == seq(l.count - i, j => l.start + i + j);
      } else {
        assert c.count == m && c.stop == l.start + i + m;
        assert Enum(cs) == EnumLoop(c) + Enum(rest);
        assert Enum(cs) == seq(l.count - i, j => l.start + i + j);
        forall k | 0 <= k < |cs| - 1 ensures cs[k + 1].start == cs[k].stop {
          if k > 0 {
            assert cs[k] == rest[k - 1] && cs[k + 1] == rest[k];
          }
        }
        forall k | 0 <= k < |cs| - 1 ensures cs[k].count == m {
          if k > 0 {
            assert cs[k] == rest[k - 1];
          }
        }
      }
    }
  }

  /**
   * The chunks of one half-open record start at its start, are contiguous,
   * hold at most `m` addresses each (only the last may hold fewer), and
   * together enumerate exactly the record's addresses.
   */
  lemma LoopChunksSpec(l: Loop, m: int)
    requires HalfOpen(l) && m > 0
    ensures ChunkedFrom(LoopChunks(l, m), l.start, m)
    ensures Enum(LoopChunks(l, m)) == EnumLoop(l)
    ensures SumCounts(LoopChunks(l, m)) == l.count
  {
    ChunksFromSpec(l, m, 0);
  }

  /**
   * Chunks never span two records: the chunks of a concatenation are the
   * chunks of the first part followed by those of the second.
   */
  lemma {:induction false} MaxCountConcat(a: seq<Loop>, b: seq<Loop>, m: int)
    requires m > 0
    ensures MaxCount(a + b, m) == MaxCount(a, m) + MaxCount(b, m)
    decreases |a|
  {
    if a != [] {
      assert (a + b)[1..] == a[1..] + b && (a + b)[0] == a[0];
      MaxCountConcat(a[1..], b, m);
    } else {
      assert a + b == b;
    }
  }

  /**
   * Chunking half-open records keeps every address, in order: the chunks
   * enumerate what the records enumerate, their counts add up to the
   * records' counts, and each is a half-open record of 1 to `m` addresses.
   */
  lemma {:induction false} MaxCountSpec(loops: seq<Loop>, m: int)
    requires AllHalfOpen(loops) && m > 0
    ensures Enum(MaxCount(loops, m)) == Enum(loops)
    ensures SumCounts(MaxCount(loops, m)) == SumCounts(loops)
    ensures forall c <- MaxCount(loops, m) :: HalfOpen(c) && 1 <= c.count <= m
    decreases |loops|
  {
    if loops != [] {
      assert loops[0] in loops;
      LoopChunksSpec(loops[0], m);
      MaxCountSpec(loops[1..], m);
      EnumConcat(LoopChunks(loops[0], m), MaxCount(loops[1..], m));
      SumCountsConcat(LoopChunks(loops[0], m), MaxCount(loops[1..], m));
    }
  }

  // ---------------------------------------------------------------------
  // Loops.append
  // ---------------------------------------------------------------------

  /** Python truthiness of an optional int argument: present and non-zero. */
  predicate Truthy(x: Option<int>) {
    x.Some? && x.value != 0
  }

  /**
   * The record `append(start, stop, count)` adds: the missing one of stop
   * and count is filled in with an inclusive stop, `count == stop - start + 1`.
   */
  function AppendRecord(start: int, stop: Option<int>, count: Option<int>): (r: Result<Loop, RangeError>)
    ensures r.Success? <==>
      (Truthy(stop) || Truthy(count)) &&
      (Truthy(stop) && Truthy(count) ==> count.value == stop.value - start + 1)
    ensures r.Success? ==> r.value.start == start && r.value.count == r.value.stop - r.value.start + 1
    ensures r.Success? && Truthy(stop) ==> r.value.stop == stop.value
    ensures r.Success? && Truthy(count) ==> r.value.count == count.value
  {
    if !(Truthy(stop) || Truthy(count)) then Failure(NoStopOrCount)
    else
      var filled :=
        if Truthy(stop) && !Truthy(count) then (stop.value, stop.value - start + 1)
        else if Truthy(count) && !Truthy(stop) then (start + count.value - 1, count.value)
        else (stop.value, count.value);
      var stop', count' := filled.0, filled.1;
      if count' != stop' - start + 1 then Failure(CountMismatch(start, stop', count'))
      else Success(Loop(start, stop', count'))
  }

  /**
   * The inconsistency of `append`: a record it adds with a positive count
   * is not half-open, and `enum` lists one address fewer for it than the
   * count `enum_length` was increased by.
   */
  lemma AppendEnumMismatch(start: int, stop: Option<int>, count: Option<int>)
    requires AppendRecord(start, stop, count).Success?
    requires AppendRecord(start, stop, count).value.count >= 1
    ensures var l := AppendRecord(start, stop, count).value;
      !HalfOpen(l) && |Enum([l])| == SumCounts([l]) - 1
  {
    var l := AppendRecord(start, stop, count).value;
    assert Enum([l]) == EnumLoop(l) + Enum([]);
  }

  // ---------------------------------------------------------------------
  // The Loops object
  // ---------------------------------------------------------------------

  class Loops {
    var loops: seq<Loop>
    var length: int
    var enumLength: int

    /** `length` counts the records and `enum_length` adds up their counts. */
    ghost predicate Valid()
      reads this
    {
      length == |loops| && enumLength == SumCounts(loops)
    }

    /** `Loops()` with no text: no records. */
    constructor ()
      ensures Valid() && loops == []
    {
      loops := [];
      length := 0;
      enumLength := 0;
    }

    /**
     * `_from_int_csr`: appends one record per comma-separated token, in
     * token order; stops at the first refused token with its error.
     */
    method FromIntCsr(csr: string, minimum: int, maximum: int) returns (err: Option<RangeError>)
      requires Valid()
      modifies this
      ensures Valid()
      ensures err.None? <==> ParseCsr(csr, minimum, maximum).Success?
      ensures err.Some? ==> err.value == ParseCsr(csr, minimum, maximum).error
      ensures err.None? ==>
        var parsed := ParseCsr(csr, minimum, maximum).value;
        && loops == old(loops) + parsed
        && length == old(length) + |parsed|
        && enumLength == old(enumLength) + SumCounts(parsed)
      // A refusal keeps the records of the tokens before the refused one.
      ensures err.Some? ==> |old(loops)| <= |loops| && loops[..|old(loops)|] == old(loops)
      ensures err.Some? ==> exists k | 0 <= k < |Split(csr, ',')| ::
        && ParseTokens(Split(csr, ',')[..k], minimum, maximum) == Success(loops[|old(loops)|..])
        && ParseToken(Split(csr, ',')[k], minimum, maximum) == Failure(err.value)
    {
      var parts := Split(csr, ',');
      var i := 0;
      assert parts[..0] == [] && loops[|old(loops)|..] == [];
      while i < |parts|
        invariant 0 <= i <= |parts|
        invariant Valid()
        invariant |old(loops)| <= |loops| && loops[..|old(loops)|] == old(loops)
        invariant ParseTokens(parts[..i], minimum, maximum) == Success(loops[|old(loops)|..])
      {
        var singleOrRange := parts[i];
        var parsed := ParseOneToken(singleOrRange, minimum, maximum);
        if parsed.Failure? {
          ParseTokensRefused(parts, i, minimum, maximum);
          return Some(parsed.error);
        }
        var added := parsed.value;
        ghost var before := loops;
        ParseTokensSnoc(parts, i, before[|old(loops)|..], added, minimum, maximum);
        loops := loops + [added];
        length := length + 1;
        enumLength := enumLength + added.count;
        SumCountsConcat(before, [added]);
        assert loops[|old(loops)|..] == before[|old(loops)|..] + [added];
        i := i + 1;
      }
      assert parts[..i] == parts;
      SumCountsConcat(old(loops), loops[|old(loops)|..]);
      assert loops == old(loops) + loops[|old(loops)|..];
      err := None;
    }

    /**
     * `append(start, stop, count)`: adds the record `AppendRecord` builds
     * and updates both counters; a refused call changes nothing.
     */
    method Append(start: int, stop: Option<int>, count: Option<int>) returns (err: Option<RangeError>)
      requires Valid()
      modifies this
      ensures Valid()
      ensures err.None? <==> AppendRecord(start, stop, count).Success?
      ensures err.None? ==>
        var l := AppendRecord(start, stop, count).value;
        loops == old(loops) + [l] && length == old(length) + 1 && enumLength == old(enumLength) + l.count
      ensures err.Some? ==> loops == old(loops) && length == old(length) && enumLength == old(enumLength)
    {
      if !(Truthy(stop) || Truthy(count)) {
        return Some(NoStopOrCount);
      }
      var stop', count': int;
      if Truthy(stop) && !Truthy(count) {
        stop', count' := stop.value, stop.value - start + 1;
      } else if Truthy(count) && !Truthy(stop) {
        stop', count' := start + count.value - 1, count.value;
      } else {
        stop', count' := stop.value, count.value;
      }
      if count' != stop' - start + 1 {
        return Some(CountMismatch(start, stop', count'));
      }
      SumCountsConcat(loops, [Loop(start, stop', count')]);
      loops := loops + [Loop(start, stop', count')];
      length := length + 1;
      enumLength := enumLength + count';
      err := None;
    }
  }

  /**
   * `Loops(csr, minimum, maximum)`: no text (None or "") gives an empty
   * object; otherwise the text is parsed, and a refused text produces no
   * object at all.
   */
  method NewLoops(csr: Option<string>, minimum: int, maximum: int) returns (r: Result<Loops, RangeError>)
    ensures r.Success? ==> fresh(r.value) && r.value.Valid()
    ensures csr.None? || csr.value == [] ==> r.Success? && r.value.loops == []
    ensures csr.Some? && csr.value != [] ==>
      && (r.Success? <==> ParseCsr(csr.value, minimum, maximum).Success?)
      && (r.Success? ==> r.value.loops == ParseCsr(csr.value, minimum, maximum).value)
      && (r.Failure? ==> r.error == ParseCsr(csr.value, minimum, maximum).error)
  {
    var loops := new Loops();
    if csr.Some? && csr.value != [] {
      var err := loops.FromIntCsr(csr.value, minimum, maximum);
      if err.Some? {
        return Failure(err.value);
      }
    }
    return Success(loops);
  }
}
