/**
 * The text a read or write command appends to its output: a header line
 * "<date> <time> - <description>", then the values of one chunk, each line
 * starting with the right-aligned address of its first value, and a final
 * newline. Bits are printed 32 to a line in groups of four; words are
 * printed 8 to a line as four hexadecimal digits followed by a space.
 */
module Layout {
  import opened Wrappers
  import opened Text
  import opened OrderedMap

  datatype Style = BitStyle | WordStyle

  /** The `i`-th value of a chunk starts a line: every 32nd bit, every 8th word. */
  predicate StartsLine(style: Style, i: nat) {
    if style.BitStyle? then i % 32 == 0 else i % 8 == 0
  }

  /** Every address of `start .. stop-1` has a value in `m`. */
  predicate Covers(m: seq<Entry<int>>, start: int, stop: int) {
    forall a | start <= a < stop :: a in Keys(m)
  }

  /** `'\n{:>5}:  '.format(address)`: the start of a new line. */
  function LineLabel(address: int): string {
    "\n" + Right5(address) + ":  "
  }

  function Lead(style: Style, i: nat, address: int): string {
    if StartsLine(style, i) then LineLabel(address) else ""
  }

  /** One value: a bit as `str(v)` with a space after every fourth, a word as `'{:04x} '`. */
  function Cell(style: Style, i: nat, v: int): string {
    match style
    case BitStyle => IntToString(v) + (if (i + 1) % 4 == 0 then " " else "")
    case WordStyle => Hex04(v) + " "
  }

  /** What the `i`-th value (counting from 0) of a chunk adds to the text. */
  function Piece(style: Style, i: nat, address: int, v: int): string {
    Lead(style, i, address) + Cell(style, i, v)
  }

  /** The pieces of the first `n` addresses from `start`, in address order. */
  function Body(style: Style, start: int, m: seq<Entry<int>>, n: nat): string
    requires Covers(m, start, start + n)
  {
    if n == 0 then ""
    else Body(style, start, m, n - 1) + Piece(style, n - 1, start + n - 1, Lookup(m, start + n - 1).value)
  }

  function Header(stamp: string, desc: string): string {
    stamp + " - " + desc
  }

  /** The whole text logged for the chunk `start .. stop-1`. */
  function ChunkText(style: Style, stamp: string, desc: string, start: int, stop: int, m: seq<Entry<int>>): string
    requires Covers(m, start, stop)
  {
    Header(stamp, desc) + Body(style, start, m, if stop > start then stop - start else 0) + "\n"
  }

  /**
   * `log_and_output_bits` (BitStyle) and `log_and_output_words`
   * (WordStyle). `stamp` is the text of the current date and time. The
   * text exists exactly when every address of the chunk has a value; a
   * missing one is the KeyError of the source.
   */
  method LogAndOutput(style: Style, stamp: string, desc: string, start: int, stop: int, results: seq<Entry<int>>)
    returns (r: Option<string>)
    ensures r.Some? <==> Covers(results, start, stop)
    ensures r.Some? ==> r.value == ChunkText(style, stamp, desc, start, stop, results)
  {
    var body := "";
    var i: nat := 0;
    var address := start;
    while address < stop
      invariant address == start + i
      invariant address <= stop || i == 0
      invariant LoggedSoFar(style, start, results, i, body)
    {
      var v := Lookup(results, address);
      if v.None? {
        assert address !in Keys(results);
        return None;
      }
      LogStep(style, start, results, i, body, address, v.value);
      body := body + Piece(style, i, address, v.value);
      i := i + 1;
      address := address + 1;
    }
    assert i == if stop > start then stop - start else 0;
    return Some(Header(stamp, desc) + body + "\n");
  }

  /** The first `i` addresses have values and `body` is their text. */
  predicate LoggedSoFar(style: Style, start: int, results: seq<Entry<int>>, i: nat, body: string) {
    Covers(results, start, start + i) && body == Body(style, start, results, i)
  }

  lemma LogStep(style: Style, start: int, results: seq<Entry<int>>, i: nat, body: string, address: int, v: int)
    requires LoggedSoFar(style, start, results, i, body)
    requires address == start + i && Lookup(results, address) == Some(v)
    ensures LoggedSoFar(style, start, results, i + 1, body + Piece(style, i, address, v))
  {
    assert Covers(results, start, start + i + 1);
    BodyStep(style, start, results, i);
  }

  lemma BodyStep(style: Style, start: int, m: seq<Entry<int>>, n: nat)
    requires Covers(m, start, start + n + 1)
    ensures Body(style, start, m, n + 1) == Body(style, start, m, n) + Piece(style, n, start + n, Lookup(m, start + n).value)
  {
  }

  // ---------------------------------------------------------------------
  // Line structure
  // ---------------------------------------------------------------------

  lemma NoNewlineInNumber(n: int)
    ensures '\n' !in IntToString(n)
    ensures '\n' !in Right5(n)
  {
    var d := if n < 0 then -n else n;
    NatToStringHasNoSeparator(d, '\n');
    assert IntToString(n) == (if n < 0 then "-" else "") + NatToString(d);
    var s := IntToString(n);
    if |s| < 5 {
      assert Right5(n) == seq(5 - |s|, _ => ' ') + s;
    }
  }

  lemma {:induction false} NoNewlineInHex(n: nat)
    ensures '\n' !in NatToHex(n)
    decreases n
  {
    if n >= 16 {
      NoNewlineInHex(n / 16);
      assert NatToHex(n) == NatToHex(n / 16) + [HexDigitChar(n % 16)];
    }
  }

  lemma NoNewlineInHex04(n: int)
    ensures '\n' !in Hex04(n)
  {
    var h := NatToHex(if n < 0 then -n else n);
    NoNewlineInHex(if n < 0 then -n else n);
    var w := if n < 0 then 3 else 4;
    if |h| < w {
      assert PadLeft(h, w, '0') == seq(w - |h|, _ => '0') + h;
    }
  }

  lemma NoNewlineInCell(style: Style, i: nat, v: int)
    ensures Count(Cell(style, i, v), '\n') == 0
  {
    var c := Cell(style, i, v);
    if style.BitStyle? {
      NoNewlineInNumber(v);
      assert c == IntToString(v) + (if (i + 1) % 4 == 0 then " " else "");
    } else {
      NoNewlineInHex04(v);
      assert c == Hex04(v) + " ";
    }
    assert '\n' !in c;
    CountAbsent(c, '\n');
  }

  /** One piece holds a newline exactly when it starts a line. */
  lemma PieceNewlines(style: Style, i: nat, address: int, v: int)
    ensures Count(Piece(style, i, address, v), '\n') == if StartsLine(style, i) then 1 else 0
  {
    NoNewlineInCell(style, i, v);
    CountConcat(Lead(style, i, address), Cell(style, i, v), '\n');
    if StartsLine(style, i) {
      NoNewlineInNumber(address);
      var rest := Right5(address) + ":  ";
      assert '\n' !in rest;
      assert Lead(style, i, address) == "\n" + rest;
      CountConcat("\n", rest, '\n');
      CountAbsent(rest, '\n');
    } else {
      assert Lead(style, i, address) == [];
    }
  }

  /** The number of line starts among the first `n` values. */
  function LineStarts(style: Style, n: nat): nat {
    if style.BitStyle? then (n + 31) / 32 else (n + 7) / 8
  }

  lemma LineStartsStep(style: Style, n: nat)
    requires n > 0
    ensures LineStarts(style, n) == LineStarts(style, n - 1) + if StartsLine(style, n - 1) then 1 else 0
  {
    if style.BitStyle? {
      var q, r := (n - 1) / 32, (n - 1) % 32;
      assert n - 1 == 32 * q + r && 0 <= r < 32;
      assert (n + 31) / 32 == q + 1;
      assert (n + 30) / 32 == if r == 0 then q else q + 1;
    } else {
      var q, r := (n - 1) / 8, (n - 1) % 8;
      assert n - 1 == 8 * q + r && 0 <= r < 8;
      assert (n + 7) / 8 == q + 1;
      assert (n + 6) / 8 == if r == 0 then q else q + 1;
    }
  }

  /** Appending the value at index `n` adds a newline exactly when it starts a line. */
  lemma BodyStepLines(style: Style, start: int, m: seq<Entry<int>>, n: nat)
    requires Covers(m, start, start + n + 1)
    ensures Count(Body(style, start, m, n + 1), '\n') ==
      Count(Body(style, start, m, n), '\n') + if StartsLine(style, n) then 1 else 0
  {
    var v := Lookup(m, start + n).value;
    var b := Body(style, start, m, n);
    var p := Piece(style, n, start + n, v);
    BodyStep(style, start, m, n);
    CountConcat(b, p, '\n');
    PieceNewlines(style, n, start + n, v);
  }

  /** The body of `n` values spans `ceil(n / 32)` lines of bits or `ceil(n / 8)` lines of words. */
  lemma {:induction false} BodyLines(style: Style, start: int, m: seq<Entry<int>>, n: nat)
    requires Covers(m, start, start + n)
    ensures Count(Body(style, start, m, n), '\n') == LineStarts(style, n)
  {
    if n > 0 {
      var k := n - 1;
      BodyLines(style, start, m, k);
      BodyStepLines(style, start, m, k);
      LineStartsStep(style, n);
    } else {
      assert Body(style, start, m, n) == "";
    }
  }

  /**
   * A header without a newline, then one line per 32 bits or 8 words (the
   * last one possibly short), then the closing newline.
   */
  lemma ChunkTextLines(style: Style, stamp: string, desc: string, start: int, stop: int, m: seq<Entry<int>>)
    requires Covers(m, start, stop)
    requires '\n' !in stamp && '\n' !in desc
    ensures var n := if stop > start then stop - start else 0;
      Count(ChunkText(style, stamp, desc, start, stop, m), '\n') == 1 + LineStarts(style, n)
  {
    var n := if stop > start then stop - start else 0;
    var h := Header(stamp, desc);
    var b := Body(style, start, m, n);
    assert '\n' !in h;
    CountAbsent(h, '\n');
    BodyLines(style, start, m, n);
    CountConcat(h, b, '\n');
    CountConcat(h + b, "\n", '\n');
  }
}
