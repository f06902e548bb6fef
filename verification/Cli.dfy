/** The number printer of the command-line interface (debugger/src/cli/cli.c), which fills a bounded buffer. */
module Cli {
  import opened FwkStatus

  // ------------------------------------------------------------------------------------------- printing numbers

  const DIGITS: string := "0123456789ABCDEF"

  /** The two bases that numbers are printed in. */
  datatype Base = Decimal | Hexadecimal

  function Times(n: nat, base: Base): nat {
    if base.Decimal? then 10 * n else 16 * n
  }

  /** `n / base` and `n % base`. */
  function Quotient(n: nat, base: Base): (q: nat)
    ensures n > 0 ==> q < n
  {
    if base.Decimal? then n / 10 else n / 16
  }

  function Remainder(n: nat, base: Base): (r: nat)
    ensures r < 16
  {
    if base.Decimal? then n % 10 else n % 16
  }

  /** The number that a string of digits stands for. */
  function Parse(s: string, base: Base): nat {
    if s == "" then 0 else Times(Parse(s[..|s| - 1], base), base) + Value(s[|s| - 1])
  }

  function Value(c: char): nat {
    if '0' <= c <= '9' then (c as int) - ('0' as int)
    else if 'A' <= c <= 'F' then (c as int) - ('A' as int) + 10
    else 0
  }

  /** The digits of a value without leading zeros, at least one. */
  function Digits(value: nat, base: Base): (s: string)
    ensures |s| > 0
  {
    (if Quotient(value, base) == 0 then "" else Digits(Quotient(value, base), base)) + [DIGITS[Remainder(value, base)]]
  }

  function Zeros(n: nat): (s: string)
    ensures |s| == n && forall i :: 0 <= i < n ==> s[i] == '0'
  {
    if n == 0 then "" else Zeros(n - 1) + ['0']
  }

  /** A string filled with leading zeros up to a width. */
  function Filled(s: string, fill: int): string {
    Zeros(Missing(fill, |s|)) + s
  }

  function Missing(fill: int, n: nat): nat {
    if fill > n then fill - n else 0
  }

  /** The digits, filled with zeros up to a width. */
  function Padded(value: nat, base: Base, fill: int): string
  {
    Filled(Digits(value, base), fill)
  }

  lemma DigitValue(d: nat)
    requires d < 16
    ensures Value(DIGITS[d]) == d
  {
    assert DIGITS == "0123456789" + "ABCDEF";
    if d < 10 {
      assert DIGITS[d] == "0123456789"[d];
    } else {
      assert DIGITS[d] == "ABCDEF"[d - 10];
    }
  }

  lemma ParseAppend(s: string, c: char, base: Base)
    ensures Parse(s + [c], base) == Times(Parse(s, base), base) + Value(c)
  {
    assert (s + [c])[..|s|] == s;
  }

  lemma {:induction false} DigitsParse(value: nat, base: Base)
    ensures Parse(Digits(value, base), base) == value
  {
    var q, r := Quotient(value, base), Remainder(value, base);
    DigitValue(r);
    if q == 0 {
      ParseAppend("", DIGITS[r], base);
    } else {
      DigitsParse(q, base);
      ParseAppend(Digits(q, base), DIGITS[r], base);
    }
  }

  lemma {:induction false} ZerosParse(n: nat, s: string, base: Base)
    ensures Parse(Zeros(n) + s, base) == Parse(s, base)
    decreases |s|, n
  {
    var t := Zeros(n) + s;
    if s != "" {
      ZerosParse(n, s[..|s| - 1], base);
      assert t[..|t| - 1] == Zeros(n) + s[..|s| - 1];
    } else if n > 0 {
      ZerosParse(n - 1, s, base);
      assert t[..|t| - 1] == Zeros(n - 1) + s;
    }
  }

  /** What is printed parses back to the value, at the width asked for or that of the digits. */
  lemma PaddedParse(value: nat, base: Base, fill: int)
    ensures Parse(Padded(value, base, fill), base) == value
    ensures var n := |Digits(value, base)|; |Padded(value, base, fill)| == if fill > n then fill else n
  {
    var d := Digits(value, base);
    DigitsParse(value, base);
    ZerosParse(Missing(fill, |d|), d, base);
  }

  /** The digits of a 32-bit value fit the printer's local buffer. */
  lemma TenDigits(value: nat, base: Base)
    requires value < TWO32
    ensures |Digits(value, base)| <= 10
  {
    assert Pow10(10) == 10000000000;
    FewDigits(value, base, 10);
  }

  function Reversed(s: string): (r: string)
    ensures |r| == |s|
  {
    if s == "" then "" else [s[|s| - 1]] + Reversed(s[..|s| - 1])
  }

  lemma ReversedAppend(s: string, c: char)
    ensures Reversed(s + [c]) == [c] + Reversed(s)
  {
    assert (s + [c])[..|s|] == s;
  }

  function Pow10(k: nat): (r: nat)
    ensures r > 0
  {
    if k == 0 then 1 else 10 * Pow10(k - 1)
  }

  lemma {:induction false} FewDigits(value: nat, base: Base, k: nat)
    requires k > 0 && value < Pow10(k)
    ensures |Digits(value, base)| <= k
    decreases k
  {
    var q := Quotient(value, base);
    if q == 0 {
    } else {
      assert k > 1 by { assert Pow10(1) == 10 * Pow10(0); }
      FewDigits(q, base, k - 1);
    }
  }

  lemma Regroup(a: string, b: string, c: string)
    ensures a + (b + c) == (a + b) + c
  {
  }

  /** Moving the last digit of `v` to the end of `s`, which is read backwards. */
  lemma DigitMoves(v: nat, base: Base, s: string)
    ensures var q, t := Quotient(v, base), s + [DIGITS[Remainder(v, base)]];
      (if q == 0 then "" else Digits(q, base)) + Reversed(t) == Digits(v, base) + Reversed(s)
  {
    var q, c := Quotient(v, base), DIGITS[Remainder(v, base)];
    ReversedAppend(s, c);
    var d := if q == 0 then "" else Digits(q, base);
    Regroup(d, [c], Reversed(s));
  }

  /** The loop of `cli_val2str` that computes the digits, the last one first. */
  method LastFirst(value: nat, base: Base, str: array<char>) returns (i: nat)
    requires |Digits(value, base)| <= str.Length
    modifies str
    ensures i == |Digits(value, base)| && i <= str.Length && Reversed(str[..i]) == Digits(value, base)
  {
    var v: nat := value;
    i := 0;
    while true
      invariant i + |Digits(v, base)| == |Digits(value, base)|
      invariant Digits(v, base) + Reversed(str[..i]) == Digits(value, base)
      decreases v
    {
      ghost var s := str[..i];
      DigitMoves(v, base, s);
      str[i] := DIGITS[Remainder(v, base)];
      i := i + 1;
      assert str[..i] == s + [DIGITS[Remainder(v, base)]];
      v := Quotient(v, base);
      if v == 0 {
        return;
      }
    }
  }

  /** The first `k` characters of `text` have been written from `pos` on, and nothing else has changed. */
  ghost predicate Written(out: seq<char>, before: seq<char>, pos: nat, k: nat, text: string) {
    && |out| == |before| && pos + k <= |out| && k <= |text|
    && (forall j {:trigger out[j]} :: pos <= j < pos + k ==> out[j] == text[j - pos])
    && (forall j {:trigger out[j]} :: 0 <= j < |out| && !(pos <= j < pos + k) ==> out[j] == before[j])
  }

  function Least(a: nat, b: nat): nat {
    if a <= b then a else b
  }

  lemma {:induction false} ReversedAt(s: string, k: nat)
    requires k < |s|
    ensures Reversed(s)[k] == s[|s| - 1 - k]
    decreases |s|
  {
    var init := s[..|s| - 1];
    assert Reversed(s) == [s[|s| - 1]] + Reversed(init);
    if k == 0 {
    } else {
      ReversedAt(init, k - 1);
    }
  }

  /** The loop of `cli_val2str` that writes zeros until the width leaves room for `i` digits only. */
  method FillZeros(out: array<char>, pos: nat, smax: nat, fill: int, i: nat) returns (end: nat)
    requires pos < smax <= out.Length
    modifies out
    ensures end == pos + Least(Missing(fill, i), smax - pos)
    ensures Written(out[..], old(out[..]), pos, end - pos, Zeros(Missing(fill, i)))
  {
    end := pos;
    var f := fill - 1;
    while f >= i
      invariant end < smax && end - pos == (if fill > i then fill - 1 - f else 0)
      invariant f >= i - 1 || fill <= i
      invariant Written(out[..], old(out[..]), pos, end - pos, Zeros(Missing(fill, i)))
    {
      out[end] := '0';
      end := end + 1;
      f := f - 1;
      if end >= smax {
        return;
      }
    }
  }

  /** The loop of `cli_val2str` that writes the digits in their order. */
  method WriteDigits(out: array<char>, pos: nat, smax: nat, str: array<char>, i: nat) returns (end: nat)
    requires pos < smax <= out.Length && i <= str.Length && out != str
    modifies out
    ensures end == pos + Least(i, smax - pos) && Written(out[..], old(out[..]), pos, end - pos, Reversed(str[..i]))
  {
    ghost var digits := str[..i];
    end := pos;
    var n := i - 1;
    while n >= 0
      invariant -1 <= n < i && end < smax && end - pos == i - 1 - n
      invariant Written(out[..], old(out[..]), pos, end - pos, Reversed(digits))
    {
      ReversedAt(digits, end - pos);
      out[end] := str[n];
      end := end + 1;
      n := n - 1;
      if end >= smax {
        return;
      }
    }
  }

  lemma WrittenBoth(out: seq<char>, mid: seq<char>, before: seq<char>, pos: nat, a: string, b: string, k: nat)
    requires Written(mid, before, pos, |a|, a) && Written(out, mid, pos + |a|, k, b)
    ensures Written(out, before, pos, |a| + k, a + b)
  {
  }

  lemma WrittenPart(out: seq<char>, before: seq<char>, pos: nat, a: string, b: string, k: nat)
    requires Written(out, before, pos, k, a)
    ensures Written(out, before, pos, k, a + b)
  {
  }

  /** The two writing loops of `cli_val2str`. */
  method WriteFilled(out: array<char>, pos: nat, smax: nat, str: array<char>, i: nat, fill: int) returns (end: nat)
    requires pos < smax <= out.Length && i <= str.Length && out != str
    modifies out
    ensures var text := Filled(Reversed(str[..i]), fill);
      && end == pos + Least(|text|, smax - pos) && Written(out[..], old(out[..]), pos, end - pos, text)
  {
    ghost var before, digits, zeros := out[..], Reversed(str[..i]), Zeros(Missing(fill, i));
    end := FillZeros(out, pos, smax, fill, i);
    ghost var mid := out[..];
    if end >= smax {
      WrittenPart(mid, before, pos, zeros, digits, end - pos);
      return;
    }
    end := WriteDigits(out, end, smax, str, i);
    WrittenBoth(out[..], mid, before, pos, zeros, digits, end - pos - |zeros|);
  }

  /** `cli_val2str`: as many characters of the padded number as there is room for; it stops when the room is used up. */
  method Val2Str(out: array<char>, pos: nat, smax: nat, value: nat, base: Base, fill: int) returns (end: nat)
    requires pos < smax <= out.Length && value < TWO32
    modifies out
    ensures var text := Padded(value, base, fill);
      && end == pos + Least(|text|, smax - pos) && Written(out[..], old(out[..]), pos, end - pos, text)
  {
    var str := new char[20];
    TenDigits(value, base);
    var i := LastFirst(value, base, str);
    end := WriteFilled(out, pos, smax, str, i, fill);
  }

  function Pow16(k: nat): (r: nat)
    ensures r > 0
  {
    if k == 0 then 1 else 16 * Pow16(k - 1)
  }

  lemma DigitsNext(m: nat, d: nat)
    requires m > 0 && d < 16
    ensures Digits(16 * m + d, Hexadecimal) == Digits(m, Hexadecimal) + [DIGITS[d]]
  {
    assert (16 * m + d) / 16 == m && (16 * m + d) % 16 == d;
  }

  lemma FilledNext(s: string, c: char, k: nat)
    requires k > 0
    ensures Filled(s + [c], k) == Filled(s, k - 1) + [c]
  {
    assert Missing(k, |s| + 1) == Missing(k - 1, |s|);
    assert Zeros(Missing(k - 1, |s|)) + (s + [c]) == (Zeros(Missing(k - 1, |s|)) + s) + [c];
  }

  /** The last `k` hexadecimal digits of a number, with leading zeros. */
  function LastDigits(low: nat, k: nat): (s: string)
    ensures |s| == k
  {
    if k == 0 then "" else LastDigits(low / 16, k - 1) + [DIGITS[low % 16]]
  }

  /** Zero-filled printing at a width that holds the digits prints exactly the last digits. */
  lemma {:induction false} PaddedIsLastDigits(low: nat, k: nat)
    requires k > 0 && low < Pow16(k)
    ensures Padded(low, Hexadecimal, k) == LastDigits(low, k)
    decreases k
  {
    if k == 1 {
      assert Pow16(1) == 16 * Pow16(0);
      assert Digits(low, Hexadecimal) == [DIGITS[low]];
      assert LastDigits(low, 1) == LastDigits(low / 16, 0) + [DIGITS[low % 16]];
      assert Filled([DIGITS[low]], 1) == Zeros(0) + [DIGITS[low]];
    } else if low < 16 {
      PaddedIsLastDigits(0, k - 1);
      assert Digits(0, Hexadecimal) == ['0'] && Digits(low, Hexadecimal) == [DIGITS[low]];
      FilledNext("", DIGITS[low], k);
      assert Filled("", k - 1) == Zeros(k - 2) + ['0'] == Filled(['0'], k - 1);
    } else {
      PaddedIsLastDigits(low / 16, k - 1);
      DigitsNext(low / 16, low % 16);
      FilledNext(Digits(low / 16, Hexadecimal), DIGITS[low % 16], k);
    }
  }

  /** The number whose digits are those of `high` followed by the last `k` of `low`. */
  function Joined(high: nat, low: nat, k: nat): nat {
    if k == 0 then high else 16 * Joined(high, low / 16, k - 1) + low % 16
  }

  lemma {:induction false} JoinedIs(high: nat, low: nat, k: nat)
    requires low < Pow16(k)
    ensures Joined(high, low, k) == high * Pow16(k) + low
    decreases k
  {
    if k == 0 {
    } else {
      JoinedIs(high, low / 16, k - 1);
      TimesSixteen(high, Pow16(k - 1));
    }
  }

  lemma TimesSixteen(a: nat, b: nat)
    ensures a * (16 * b) == 16 * (a * b)
  {
  }

  lemma NothingAfter(s: string)
    ensures s + "" == s
  {
  }

  /** The digits of a number in two parts: those of the upper part, then the lower part at its full width. */
  lemma {:induction false} DigitsSplit(high: nat, low: nat, k: nat)
    requires high > 0
    ensures Joined(high, low, k) > 0
    ensures Digits(Joined(high, low, k), Hexadecimal) == Digits(high, Hexadecimal) + LastDigits(low, k)
    decreases k
  {
    if k == 0 {
      NothingAfter(Digits(high, Hexadecimal));
    } else {
      var q, last := low / 16, [DIGITS[low % 16]];
      DigitsSplit(high, q, k - 1);
      DigitsNext(Joined(high, q, k - 1), low % 16);
      Regroup(Digits(high, Hexadecimal), LastDigits(q, k - 1), last);
    }
  }

  lemma FilledJoin(h: string, l: string, fill: int)
    requires |l| == 8
    ensures Filled(h + l, fill) == Filled(h, if fill >= 8 then fill - 8 else 0) + l
  {
    assert Missing(fill, |h| + 8) == Missing(if fill >= 8 then fill - 8 else 0, |h|);
    var zeros := Zeros(Missing(fill, |h| + 8));
    assert zeros + (h + l) == (zeros + h) + l;
  }

  /** A 64-bit number is printed as its upper half and then its lower half at eight digits. */
  lemma HexHalves(value: nat, fill: int)
    requires TWO32 <= value < TWO64
    ensures Padded(value, Hexadecimal, fill) ==
      Padded(value / TWO32, Hexadecimal, if fill >= 8 then fill - 8 else 0) + Padded(value % TWO32, Hexadecimal, 8)
  {
    var high, low := value / TWO32, value % TWO32;
    assert Pow16(8) == TWO32;
    JoinedIs(high, low, 8);
    DigitsSplit(high, low, 8);
    PaddedIsLastDigits(low, 8);
    FilledJoin(Digits(high, Hexadecimal), LastDigits(low, 8), fill);
  }

  /** A text that ran out of room: its first characters, then a terminator in the last place. */
  ghost predicate CutOff(out: seq<char>, before: seq<char>, pos: nat, smax: nat, text: string) {
    && |out| == |before| && pos < smax <= |out| && smax - 1 - pos <= |text| && out[smax - 1] == '\0'
    && Written(out[smax - 1 := before[smax - 1]], before, pos, smax - 1 - pos, text)
  }

  lemma CutsOff(full: seq<char>, before: seq<char>, pos: nat, smax: nat, text: string)
    requires pos < smax <= |full| && Written(full, before, pos, smax - pos, text)
    ensures CutOff(full[smax - 1 := '\0'], before, pos, smax, text)
  {
  }

  /** The two calls that print the upper and the lower half of a number above 32 bits. */
  method PrintHalves(out: array<char>, pos: nat, smax: nat, value: nat, fill: int) returns (end: nat)
    requires pos < smax <= out.Length && TWO32 <= value < TWO64
    modifies out
    ensures var text := Padded(value, Hexadecimal, fill);
      && end == pos + Least(|text|, smax - pos) && Written(out[..], old(out[..]), pos, end - pos, text)
  {
    ghost var before := out[..];
    var rest := if fill >= 8 then fill - 8 else 0;
    HexHalves(value, fill);
    ghost var upper, lower := Padded(value / TWO32, Hexadecimal, rest), Padded(value % TWO32, Hexadecimal, 8);
    end := Val2Str(out, pos, smax, value / TWO32, Hexadecimal, rest);
    ghost var mid := out[..];
    if end >= smax {
      WrittenPart(mid, before, pos, upper, lower, end - pos);
      return;
    }
    end := Val2Str(out, end, smax, value % TWO32, Hexadecimal, 8);
    WrittenBoth(out[..], mid, before, pos, upper, lower, end - pos - |upper|);
  }

  /** The hexadecimal path of `cli_snprintf_arg` for 64-bit numbers. */
  method PrintHex(out: array<char>, pos: nat, smax: nat, value: nat, fill: int) returns (end: nat)
    requires pos < smax <= out.Length && value < TWO64
    modifies out
    ensures var text := Padded(value, Hexadecimal, fill);
      if |text| < smax - pos then
        end == pos + |text| && Written(out[..], old(out[..]), pos, |text|, text)
      else
        end == smax && CutOff(out[..], old(out[..]), pos, smax, text)
  {
    ghost var before := out[..];
    if value / TWO32 != 0 {
      end := PrintHalves(out, pos, smax, value, fill);
    } else {
      end := Val2Str(out, pos, smax, value, Hexadecimal, fill);
    }
    if end >= smax {
      CutsOff(out[..], before, pos, smax, Padded(value, Hexadecimal, fill));
      out[end - 1] := '\0';
    }
  }
}
