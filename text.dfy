/**
 * The string operations of Python that the range engine relies on, over
 * ASCII text: `str.isdigit`, `int(...)`, `str.split(sep)`, `str.split()`,
 * `str.split(maxsplit=1)`, `str.lower`, `str.startswith`, `str(n)` and the
 * `'{:04x}'` / `'{:>5}'` format specifications.
 */
module Text {
  import opened Wrappers

  // ---------------------------------------------------------------------
  // Characters
  // ---------------------------------------------------------------------

  predicate IsDigit(c: char) {
    '0' <= c <= '9'
  }

  /** Python's `str.isdigit` on ASCII text: non-empty and decimal digits only. */
  predicate IsDigits(s: string) {
    |s| > 0 && forall i | 0 <= i < |s| :: IsDigit(s[i])
  }

  /** The whitespace characters of ASCII that `str.split()` and `int()` skip. */
  predicate IsSpace(c: char) {
    c == ' ' || c == '\t' || c == '\n' || c == '\r' || c == '\U{000B}' || c == '\U{000C}'
    || ('\U{001C}' <= c <= '\U{001F}')
  }

  function DigitValue(c: char): (d: nat)
    ensures d < 10
  {
    if IsDigit(c) then c as int - '0' as int else 0
  }

  function DigitChar(d: nat): (c: char)
    requires d < 10
    ensures IsDigit(c) && DigitValue(c) == d
  {
    ('0' as int + d) as char
  }

  /** The value of a string of decimal digits, most significant first. */
  function DigitsValue(s: string): nat
  {
    if s == [] then 0 else DigitsValue(s[..|s| - 1]) * 10 + DigitValue(s[|s| - 1])
  }

  /** `str(n)` for a natural number: decimal, no leading zeros. */
  function NatToString(n: nat): (s: string)
    decreases n
  {
    if n < 10 then [DigitChar(n)] else NatToString(n / 10) + [DigitChar(n % 10)]
  }

  /** `str(n)` for any integer. */
  function IntToString(n: int): string {
    if n < 0 then "-" + NatToString(-n) else NatToString(n)
  }

  lemma {:induction false} NatToStringRoundTrip(n: nat)
    ensures IsDigits(NatToString(n))
    ensures DigitsValue(NatToString(n)) == n
    decreases n
  {
    if n >= 10 {
      NatToStringRoundTrip(n / 10);
      var s := NatToString(n / 10);
      var t := s + [DigitChar(n % 10)];
      assert t[..|t| - 1] == s;
      assert DigitsValue(t) == DigitsValue(s) * 10 + n % 10;
    }
  }

  lemma NatToStringHasNoSeparator(n: nat, sep: char)
    requires !IsDigit(sep)
    ensures sep !in NatToString(n)
  {
    NatToStringRoundTrip(n);
    var s := NatToString(n);
    forall i | 0 <= i < |s| ensures s[i] != sep {
      assert IsDigit(s[i]);
    }
  }

  // ---------------------------------------------------------------------
  // int(text)
  // ---------------------------------------------------------------------

  function TrimLeft(s: string): (t: string)
    ensures |t| <= |s|
    ensures t == [] || !IsSpace(t[0])
  {
    if s != [] && IsSpace(s[0]) then TrimLeft(s[1..]) else s
  }

  function TrimRight(s: string): (t: string)
    ensures |t| <= |s|
  {
    if s != [] && IsSpace(s[|s| - 1]) then TrimRight(s[..|s| - 1]) else s
  }

  /** `int(text)` in base 10: surrounding whitespace, an optional sign, then digits. */
  function PyInt(s: string): (r: Option<int>)
    ensures IsDigits(s) ==> r == Some(DigitsValue(s))
  {
    var t := TrimRight(TrimLeft(s));
    if t != [] && (t[0] == '+' || t[0] == '-') then
      if IsDigits(t[1..]) then
        var magnitude: int := DigitsValue(t[1..]);
        Some(if t[0] == '-' then -magnitude else magnitude)
      else None
    else if IsDigits(t) then Some(DigitsValue(t))
    else None
  }

  /** `int(str(n)) == n` for every integer, negative ones included. */
  lemma PyIntRoundTrip(n: int)
    ensures PyInt(IntToString(n)) == Some(n)
  {
    if n < 0 {
      PyIntRoundTripNegative(n);
    } else {
      PyIntRoundTripNat(n);
    }
  }

  lemma PyIntRoundTripNat(n: nat)
    ensures PyInt(IntToString(n)) == Some(n)
  {
    var d := NatToString(n);
    NatToStringRoundTrip(n);
    assert IntToString(n) == d;
  }

  lemma PyIntRoundTripNegative(n: int)
    requires n < 0
    ensures PyInt(IntToString(n)) == Some(n)
  {
    var d := NatToString(-n);
    NatToStringRoundTrip(-n);
    var s := IntToString(n);
    assert s == "-" + d;
    assert TrimLeft(s) == s;
    assert IsDigit(s[|s| - 1]);
    assert TrimRight(s) == s;
    assert s[1..] == d;
  }

  // ---------------------------------------------------------------------
  // str.split(sep) and its inverse, sep.join(parts)
  // ---------------------------------------------------------------------

  /** `s.split(sep)` for a one-character separator: never empty; empty fields are kept. */
  function Split(s: string, sep: char): (parts: seq<string>)
    ensures |parts| >= 1
    decreases |s|
  {
    if s == [] then [[]] else PushChar(s[0], Split(s[1..], sep), sep)
  }

  /** The fields of `[c] + t` from the fields of `t`: `c` either ends a new empty field or joins the first. */
  function PushChar(c: char, fields: seq<string>, sep: char): (r: seq<string>)
    requires |fields| >= 1
    ensures |r| >= 1
  {
    if c == sep then [[]] + fields else [[c] + fields[0]] + fields[1..]
  }

  function Join(parts: seq<string>, sep: char): string
    requires |parts| >= 1
  {
    if |parts| == 1 then parts[0] else parts[0] + [sep] + Join(parts[1..], sep)
  }

  /** The number of occurrences of `c` in `s` (`s.count(c)`). */
  function Count(s: string, c: char): nat {
    if s == [] then 0 else (if s[0] == c then 1 else 0) + Count(s[1..], c)
  }

  lemma {:induction false} CountConcat(a: string, b: string, c: char)
    ensures Count(a + b, c) == Count(a, c) + Count(b, c)
  {
    if a != [] {
      assert (a + b)[1..] == a[1..] + b;
      CountConcat(a[1..], b, c);
    } else {
      assert a + b == b;
    }
  }

  lemma {:induction false} CountAbsent(s: string, c: char)
    requires c !in s
    ensures Count(s, c) == 0
  {
    if s != [] {
      assert c !in s[1..];
      CountAbsent(s[1..], c);
    }
  }

  /** `s.count(c) > 0` exactly when `c` occurs in `s`. */
  lemma {:induction false} CountPositive(s: string, c: char)
    ensures Count(s, c) > 0 <==> c in s
  {
    if s != [] {
      CountPositive(s[1..], c);
      assert s == [s[0]] + s[1..];
    }
  }

  lemma {:induction false} SplitParts(s: string, sep: char)
    ensures |Split(s, sep)| == Count(s, sep) + 1
    ensures forall p <- Split(s, sep) :: sep !in p
    ensures Join(Split(s, sep), sep) == s
    decreases |s|
  {
    if s != [] {
      SplitParts(s[1..], sep);
      var rest := Split(s[1..], sep);
      if s[0] == sep {
        assert Join([[]] + rest, sep) == [] + [sep] + Join(rest, sep);
      } else {
        var parts := Split(s, sep);
        assert parts[1..] == rest[1..];
        if |rest| > 1 {
          assert Join(parts, sep) == [s[0]] + rest[0] + [sep] + Join(rest[1..], sep);
        }
        forall p <- parts ensures sep !in p {
          if p == parts[0] {
            assert p == [s[0]] + rest[0];
          } else {
            assert p in rest;
          }
        }
      }
    }
  }

  lemma {:induction false} SplitNoSeparator(a: string, t: string, sep: char)
    requires sep !in a
    ensures Split(a + t, sep) == [a + Split(t, sep)[0]] + Split(t, sep)[1..]
    decreases |a|
  {
    var u := Split(t, sep);
    if a != [] {
      SplitNoSeparator(a[1..], t, sep);
      assert a[0] != sep by { assert a[0] in a; }
      assert (a + t)[1..] == a[1..] + t;
      var rest := [a[1..] + u[0]] + u[1..];
      assert Split(a + t, sep) == PushChar(a[0], rest, sep);
      assert [a[0]] + (a[1..] + u[0]) == a + u[0];
    } else {
      assert a + t == t && a + u[0] == u[0];
      assert [u[0]] + u[1..] == u;
    }
  }

  /** Fields after the first are carried through a character pushed in front. */
  lemma PushCharAppend(c: char, x: seq<string>, y: seq<string>, sep: char)
    requires |x| >= 1
    ensures PushChar(c, x + y, sep) == PushChar(c, x, sep) + y
  {
    if c != sep {
      assert (x + y)[0] == x[0];
      assert (x + y)[1..] == x[1..] + y;
    }
  }

  /** Splitting at one separator splits the two sides independently. */
  lemma {:induction false} SplitSeparatorConcat(a: string, b: string, sep: char)
    ensures Split(a + [sep] + b, sep) == Split(a, sep) + Split(b, sep)
    decreases |a|
  {
    if a == [] {
      assert a + [sep] + b == [sep] + b;
      assert ([sep] + b)[1..] == b;
    } else {
      var t := a[1..] + [sep] + b;
      SplitSeparatorConcat(a[1..], b, sep);
      assert a + [sep] + b == [a[0]] + t;
      assert ([a[0]] + t)[1..] == t;
      PushCharAppend(a[0], Split(a[1..], sep), Split(b, sep), sep);
    }
  }

  /** Splitting a joined list gives the list back when no part contains the separator. */
  lemma {:induction false} SplitJoin(parts: seq<string>, sep: char)
    requires |parts| >= 1
    requires forall p <- parts :: sep !in p
    ensures Split(Join(parts, sep), sep) == parts
    decreases |parts|
  {
    if |parts| == 1 {
      SplitNoSeparator(parts[0], [], sep);
      assert parts[0] + [] == parts[0];
    } else {
      SplitJoin(parts[1..], sep);
      var u := Join(parts[1..], sep);
      assert parts[0] + [sep] + u == parts[0] + ([sep] + u);
      SplitNoSeparator(parts[0], [sep] + u, sep);
      assert ([sep] + u)[1..] == u;
      assert Split([sep] + u, sep) == [[]] + Split(u, sep);
      assert parts[0] + [] == parts[0];
      assert parts == [parts[0]] + parts[1..];
    }
  }

  // ---------------------------------------------------------------------
  // str.split() and str.split(maxsplit=1)
  // ---------------------------------------------------------------------

  /** The length of the leading run of non-whitespace characters. */
  function WordEnd(t: string): (k: nat)
    ensures k <= |t|
    ensures forall i | 0 <= i < k :: !IsSpace(t[i])
    ensures k < |t| ==> IsSpace(t[k])
  {
    if t == [] || IsSpace(t[0]) then 0 else 1 + WordEnd(t[1..])
  }

  /** `s.split()`: the maximal runs of non-whitespace characters, in order. */
  function SplitWs(s: string): (words: seq<string>)
    decreases |s|
  {
    var t := TrimLeft(s);
    if t == [] then []
    else
      var k := WordEnd(t);
      assert k > 0;
      [t[..k]] + SplitWs(t[k..])
  }

  /**
   * `s.split(maxsplit=1)`: at most two parts; the first is a whitespace-free
   * word and the second is the rest of the text after the whitespace that
   * follows it, trailing whitespace included.
   */
  function SplitMax1(s: string): (parts: seq<string>)
    ensures |parts| <= 2
    ensures |parts| >= 1 ==> parts[0] != []
    ensures |parts| == 2 ==> parts[1] != []
  {
    var t := TrimLeft(s);
    if t == [] then []
    else
      var k := WordEnd(t);
      assert k > 0;
      var rest := TrimLeft(t[k..]);
      if rest == [] then [t[..k]] else [t[..k], rest]
  }

  /** `s.split()[0]` and `s.split(maxsplit=1)[0]` are the same first word. */
  lemma FirstWord(s: string)
    requires SplitMax1(s) != []
    ensures SplitWs(s) != [] && SplitWs(s)[0] == SplitMax1(s)[0]
  {
  }

  // ---------------------------------------------------------------------
  // Other string methods
  // ---------------------------------------------------------------------

  /** `s.lower()` on ASCII letters. */
  function Lower(s: string): (r: string)
    ensures |r| == |s|
    ensures forall i | 0 <= i < |s| :: r[i] == if 'A' <= s[i] <= 'Z' then (s[i] as int + 32) as char else s[i]
  {
    if s == [] then [] else
      [if 'A' <= s[0] <= 'Z' then (s[0] as int + 32) as char else s[0]] + Lower(s[1..])
  }

  /** `s.startswith(p)`. */
  predicate StartsWith(s: string, p: string) {
    |p| <= |s| && s[..|p|] == p
  }

  /** `s.replace(c, '')`. */
  function RemoveChar(s: string, c: char): (r: string)
    ensures c !in r
    ensures |r| <= |s|
  {
    if s == [] then [] else (if s[0] == c then [] else [s[0]]) + RemoveChar(s[1..], c)
  }

  // ---------------------------------------------------------------------
  // Format specifications
  // ---------------------------------------------------------------------

  function HexDigitChar(d: nat): char
    requires d < 16
  {
    if d < 10 then ('0' as int + d) as char else ('a' as int + d - 10) as char
  }

  /** Lower-case hexadecimal digits of a natural number, no leading zeros. */
  function NatToHex(n: nat): string
    decreases n
  {
    if n < 16 then [HexDigitChar(n)] else NatToHex(n / 16) + [HexDigitChar(n % 16)]
  }

  /** Right-align `s` in a field of `width` characters filled with `fill`. */
  function PadLeft(s: string, width: nat, fill: char): string {
    if |s| >= width then s else seq(width - |s|, _ => fill) + s
  }

  /** `'{:04x}'.format(n)`: sign-aware zero padding to four characters. */
  function Hex04(n: int): string {
    if n < 0 then "-" + PadLeft(NatToHex(-n), 3, '0') else PadLeft(NatToHex(n), 4, '0')
  }

  /** `'{:>5}'.format(n)`. */
  function Right5(n: int): string {
    PadLeft(IntToString(n), 5, ' ')
  }
}
