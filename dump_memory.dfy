/** `dumpMemory` (src/utils/helpers/dump-memory.helper.ts): a hex dump of a
    byte array, one line per `bytesPerRow` bytes from `start` while the row
    address is below `end`. Each line is the address in lowercase hex padded
    to four digits, ": ", the row's bytes as two-digit hex separated by single
    spaces, and a newline. The model returns the string the helper prints. */
module DumpMemory {
  import opened Common
  import Arithmetic

  const HEX_DIGITS := "0123456789abcdef"

  /** `n.toString(16)`: lowercase hex digits, most significant first, without
      leading zeros ("0" for zero). */
  function Hex(n: nat): (s: string)
    ensures 1 <= |s|
  {
    if n < 16 then [HEX_DIGITS[n]] else Hex(n / 16) + [HEX_DIGITS[n % 16]]
  }

  /** Hex writes only lowercase hex digits. */
  lemma {:induction false} HexDigits(n: nat)
    ensures forall i :: 0 <= i < |Hex(n)| ==> Hex(n)[i] in HEX_DIGITS
  {
    if n >= 16 {
      HexDigits(n / 16);
    }
  }

  /** The value of a hex digit; the reference against which Hex is checked. */
  function DigitValue(c: char): nat
  {
    if '0' <= c <= '9' then c as int - '0' as int
    else if 'a' <= c <= 'f' then c as int - 'a' as int + 10
    else 0
  }

  /** The number a string of hex digits denotes. */
  function HexValue(s: string): nat
  {
    if s == [] then 0 else 16 * HexValue(s[..|s| - 1]) + DigitValue(s[|s| - 1])
  }

  /** Hex writes `n` exactly: reading its digits back gives `n`, and only zero
      starts with the digit '0'. */
  lemma {:induction false} HexRoundTrip(n: nat)
    ensures HexValue(Hex(n)) == n
    ensures Hex(n)[0] == '0' <==> n == 0
  {
    DigitRoundTrip(n % 16);
    if n >= 16 {
      HexRoundTrip(n / 16);
      var s := Hex(n);
      assert s[..|s| - 1] == Hex(n / 16);
      assert s[0] == Hex(n / 16)[0];
    }
  }

  /** DigitValue reads each hex digit back; only digit 0 is '0'. */
  lemma DigitRoundTrip(d: nat)
    requires d < 16
    ensures DigitValue(HEX_DIGITS[d]) == d
    ensures HEX_DIGITS[d] == '0' <==> d == 0
  {
  }

  /** `s.padStart(width, fill)`: `fill` characters in front of `s` up to `width`. */
  function PadStart(s: string, width: nat, fill: char): (r: string)
    ensures |r| == if |s| < width then width else |s|
  {
    if |s| < width then seq(width - |s|, _ => fill) + s else s
  }

  /** The padded string is `s` behind `fill` characters. */
  lemma PadStartShape(s: string, width: nat, fill: char)
    ensures var r := PadStart(s, width, fill);
      r[|r| - |s|..] == s && forall i :: 0 <= i < |r| - |s| ==> r[i] == fill
  {
  }

  /** Leading zeros do not change the value a hex string denotes. */
  lemma {:induction false} LeadingZeros(k: nat, s: string)
    ensures HexValue(seq(k, _ => '0') + s) == HexValue(s)
    decreases |s|
  {
    var z := seq(k, _ => '0');
    if s == [] {
      assert z + s == z;
      AllZeros(k);
    } else {
      var t := z + s;
      assert t[..|t| - 1] == z + s[..|s| - 1];
      LeadingZeros(k, s[..|s| - 1]);
    }
  }

  lemma {:induction false} AllZeros(k: nat)
    ensures HexValue(seq(k, _ => '0')) == 0
  {
    if k > 0 {
      var z := seq(k, _ => '0');
      assert z[..k - 1] == seq(k - 1, _ => '0');
      AllZeros(k - 1);
    }
  }

  /** The address column: at least four digits, and it denotes the address. */
  lemma AddressColumn(addr: nat)
    ensures |PadStart(Hex(addr), 4, '0')| >= 4
    ensures addr < 0x10000 ==> |PadStart(Hex(addr), 4, '0')| == 4
    ensures HexValue(PadStart(Hex(addr), 4, '0')) == addr
  {
    var h := Hex(addr);
    HexRoundTrip(addr);
    if |h| < 4 {
      LeadingZeros(4 - |h|, h);
    }
    if addr < 0x10000 {
      HexLength(addr, 4);
    }
  }

  /** A number below 16^k has at most k hex digits. */
  lemma {:induction false} HexLength(n: nat, k: nat)
    requires 1 <= k && n < Power16(k)
    ensures |Hex(n)| <= k
  {
    if n >= 16 {
      assert k >= 2;
      assert n / 16 < Power16(k - 1);
      HexLength(n / 16, k - 1);
    }
  }

  function Power16(k: nat): (p: nat)
    ensures p >= 1
  {
    if k == 0 then 1 else 16 * Power16(k - 1)
  }

  /** `b.toString(16).padStart(2, "0")` for a byte. */
  function HexByte(b: Byte): string
  {
    PadStart(Hex(b), 2, '0')
  }

  /** HexByte is two lowercase digits: the high nibble, then the low one. */
  lemma HexByteDigits(b: Byte)
    ensures HexByte(b) == [HEX_DIGITS[b / 16], HEX_DIGITS[b % 16]]
  {
    if b >= 16 {
      assert Hex(b / 16) == [HEX_DIGITS[b / 16]];
    }
  }

  /** `parts.join(sep)`. */
  function Join(parts: seq<string>, sep: string): string
  {
    if |parts| == 0 then ""
    else if |parts| == 1 then parts[0]
    else parts[0] + sep + Join(parts[1..], sep)
  }

  /** `Array.from(rowBytes).map(HexByte).join(" ")`. */
  function HexValues(bytes: seq<Byte>): string
  {
    Join(HexBytes(bytes), " ")
  }

  function HexBytes(bytes: seq<Byte>): seq<string>
  {
    seq(|bytes|, i requires 0 <= i < |bytes| => HexByte(bytes[i]))
  }

  /** The byte column: character 3i + j (j < 2) is digit j of byte i, and
      character 3i + 2 is the single space that follows every byte but the last. */
  lemma {:induction false} ByteColumn(bytes: seq<Byte>)
    ensures |HexValues(bytes)| == if bytes == [] then 0 else 3 * |bytes| - 1
    ensures forall k :: 0 <= k < |HexValues(bytes)| ==>
      HexValues(bytes)[k] == if k % 3 == 2 then ' ' else HexByte(bytes[k / 3])[k % 3]
  {
    if |bytes| == 1 {
      HexByteDigits(bytes[0]);
    } else if |bytes| >= 2 {
      var rest := bytes[1..];
      ByteColumn(rest);
      HexByteDigits(bytes[0]);
      assert HexBytes(bytes)[1..] == HexBytes(rest);
      var s, t := HexValues(bytes), HexValues(rest);
      var head := HexByte(bytes[0]) + " ";
      assert |head| == 3;
      assert s == head + t;
      forall k | 0 <= k < |s|
        ensures s[k] == if k % 3 == 2 then ' ' else HexByte(bytes[k / 3])[k % 3]
      {
        if k < 3 {
          assert s[k] == head[k];
        } else {
          assert s[k] == t[k - 3];
          assert (k - 3) / 3 == k / 3 - 1 && (k - 3) % 3 == k % 3;
          assert rest[k / 3 - 1] == bytes[k / 3];
        }
      }
    }
  }

  /** One line of the dump: `${hexAddr}: ${hexValues}\n` for the row at `addr`,
      whose bytes are `memory.slice(addr, addr + bytesPerRow)`. */
  function Line(memory: seq<Byte>, addr: nat, bytesPerRow: nat): string
  {
    PadStart(Hex(addr), 4, '0') + ": " + HexValues(Slice(memory, addr, addr + bytesPerRow)) + "\n"
  }

  /** The row addresses the loop visits: `start`, `start + bytesPerRow`, ...
      while below `end`. */
  function RowStarts(start: nat, end: int, bytesPerRow: nat): seq<nat>
    requires bytesPerRow > 0
    decreases end - start
  {
    if start < end then [start] + RowStarts(start + bytesPerRow, end, bytesPerRow) else []
  }

  /** `f` applied to every row address, in order. */
  function MapRows<T>(f: nat -> T, rows: seq<nat>): seq<T>
  {
    seq(|rows|, i requires 0 <= i < |rows| => f(rows[i]))
  }

  /** One line per row address. */
  function Lines(memory: seq<Byte>, start: nat, end: int, bytesPerRow: nat): seq<string>
    requires bytesPerRow > 0
  {
    MapRows(addr => Line(memory, addr, bytesPerRow), RowStarts(start, end, bytesPerRow))
  }

  function Concat(lines: seq<string>): string
  {
    if lines == [] then "" else lines[0] + Concat(lines[1..])
  }

  /** The whole output string. */
  function Dump(memory: seq<Byte>, start: nat, end: int, bytesPerRow: nat): string
    requires bytesPerRow > 0
  {
    Concat(Lines(memory, start, end, bytesPerRow))
  }

  /** There are ceil((end - start) / bytesPerRow) rows, none when start >= end;
      row i starts at start + i * bytesPerRow, below end. */
  lemma {:induction false} RowStartsLayout(start: nat, end: int, bytesPerRow: nat)
    requires bytesPerRow > 0
    ensures |RowStarts(start, end, bytesPerRow)| ==
      if start < end then (end - start + bytesPerRow - 1) / bytesPerRow else 0
    ensures forall i :: 0 <= i < |RowStarts(start, end, bytesPerRow)| ==>
      RowStarts(start, end, bytesPerRow)[i] == start + i * bytesPerRow < end
    decreases end - start
  {
    if start < end {
      var next := start + bytesPerRow;
      RowStartsLayout(next, end, bytesPerRow);
      CeilStep(end - start, bytesPerRow);
      var rs, rest := RowStarts(start, end, bytesPerRow), RowStarts(next, end, bytesPerRow);
      forall i | 1 <= i < |rs| ensures rs[i] == start + i * bytesPerRow
      {
        assert rs[i] == rest[i - 1];
        assert (i - 1) * bytesPerRow == i * bytesPerRow - bytesPerRow;
      }
    }
  }

  /** Line i of the output is the line for the row at start + i * bytesPerRow,
      an address below end; there are as many lines as rows, and none at all
      when start >= end. */
  lemma LineOfRow(memory: seq<Byte>, start: nat, end: int, bytesPerRow: nat, i: nat)
    requires bytesPerRow > 0
    ensures |Lines(memory, start, end, bytesPerRow)| == |RowStarts(start, end, bytesPerRow)|
    ensures start >= end ==> Dump(memory, start, end, bytesPerRow) == ""
    ensures i < |Lines(memory, start, end, bytesPerRow)| ==>
      start + i * bytesPerRow < end &&
      Lines(memory, start, end, bytesPerRow)[i] == Line(memory, start + i * bytesPerRow, bytesPerRow)
  {
    RowStartsLayout(start, end, bytesPerRow);
  }

  lemma MapRowsCons<T>(f: nat -> T, x: nat, xs: seq<nat>)
    ensures MapRows(f, [x] + xs) == [f(x)] + MapRows(f, xs)
  {
    var l, r := MapRows(f, [x] + xs), [f(x)] + MapRows(f, xs);
    forall j | 0 <= j < |l| ensures l[j] == r[j] {
      if j > 0 {
        assert ([x] + xs)[j] == xs[j - 1];
      }
    }
  }

  lemma ConcatCons(line: string, lines: seq<string>)
    ensures Concat([line] + lines) == line + Concat(lines)
  {
    assert ([line] + lines)[1..] == lines;
  }

  /** Mapping over the rows from `addr` is `f(addr)` followed by the mapping
      over the rows from the next row on. */
  lemma MapRowsStep<T>(f: nat -> T, addr: nat, end: int, bytesPerRow: nat)
    requires bytesPerRow > 0 && addr < end
    ensures MapRows(f, RowStarts(addr, end, bytesPerRow)) ==
      [f(addr)] + MapRows(f, RowStarts(addr + bytesPerRow, end, bytesPerRow))
  {
    MapRowsCons(f, addr, RowStarts(addr + bytesPerRow, end, bytesPerRow));
  }

  lemma ConcatRowsStep(f: nat -> string, addr: nat, end: int, bytesPerRow: nat)
    requires bytesPerRow > 0 && addr < end
    ensures Concat(MapRows(f, RowStarts(addr, end, bytesPerRow))) ==
      f(addr) + Concat(MapRows(f, RowStarts(addr + bytesPerRow, end, bytesPerRow)))
  {
    MapRowsStep(f, addr, end, bytesPerRow);
    ConcatCons(f(addr), MapRows(f, RowStarts(addr + bytesPerRow, end, bytesPerRow)));
  }

  /** The output is the first row's line followed by the output from the next
      row on. */
  lemma DumpStep(memory: seq<Byte>, addr: nat, end: int, bytesPerRow: nat)
    requires bytesPerRow > 0 && addr < end
    ensures Lines(memory, addr, end, bytesPerRow) ==
      [Line(memory, addr, bytesPerRow)] + Lines(memory, addr + bytesPerRow, end, bytesPerRow)
    ensures Dump(memory, addr, end, bytesPerRow) ==
      Line(memory, addr, bytesPerRow) + Dump(memory, addr + bytesPerRow, end, bytesPerRow)
  {
    var f: nat -> string := (a: nat) => Line(memory, a, bytesPerRow);
    MapRowsStep(f, addr, end, bytesPerRow);
    ConcatRowsStep(f, addr, end, bytesPerRow);
  }

  /** One more row fits while the span is positive: ceil(x / b) is one more than
      ceil((x - b) / b) when there is something left after the first row, and 1
      otherwise. */
  lemma CeilStep(x: int, b: nat)
    requires x > 0 && b > 0
    ensures (x + b - 1) / b == 1 + (if x - b > 0 then (x - b + b - 1) / b else 0)
  {
    var q, r := (x - 1) / b, (x - 1) % b;
    assert x + b - 1 == (q + 1) * b + r;
    Arithmetic.DivMod(q + 1, b, r);
    if x - b > 0 {
      assert x - b + b - 1 == q * b + r;
      Arithmetic.DivMod(q, b, r);
    } else {
      assert q == 0 by {
        if q > 0 { Arithmetic.MulLe(1, q, b); }
      }
    }
  }

  function CountChar(s: string, c: char): nat
  {
    if s == [] then 0 else (if s[0] == c then 1 else 0) + CountChar(s[1..], c)
  }

  lemma {:induction false} CountAppend(s: string, t: string, c: char)
    ensures CountChar(s + t, c) == CountChar(s, c) + CountChar(t, c)
  {
    if s == [] {
      assert s + t == t;
    } else {
      assert (s + t)[0] == s[0];
      assert (s + t)[1..] == s[1..] + t;
      CountAppend(s[1..], t, c);
    }
  }

  lemma {:induction false} CountAbsent(s: string, c: char)
    requires forall i :: 0 <= i < |s| ==> s[i] != c
    ensures CountChar(s, c) == 0
  {
    if s != [] {
      CountAbsent(s[1..], c);
    }
  }

  /** No hex digit is a newline. */
  lemma DigitsAreNotNewlines()
    ensures forall j :: 0 <= j < |HEX_DIGITS| ==> HEX_DIGITS[j] != '\n'
    ensures '\n' !in HEX_DIGITS
  {
  }

  /** The address column holds no newline. */
  lemma AddressColumnHasNoNewline(addr: nat)
    ensures CountChar(PadStart(Hex(addr), 4, '0'), '\n') == 0
  {
    var h := Hex(addr);
    var a := PadStart(h, 4, '0');
    HexDigits(addr);
    PadStartShape(h, 4, '0');
    DigitsAreNotNewlines();
    forall i | 0 <= i < |a| ensures a[i] != '\n' {
      if i >= |a| - |h| {
        assert a[i] == a[|a| - |h|..][i - (|a| - |h|)];
      }
    }
    CountAbsent(a, '\n');
  }

  /** The byte column holds no newline. */
  lemma ByteColumnHasNoNewline(bytes: seq<Byte>)
    ensures CountChar(HexValues(bytes), '\n') == 0
  {
    var v := HexValues(bytes);
    ByteColumn(bytes);
    DigitsAreNotNewlines();
    forall k | 0 <= k < |v| ensures v[k] != '\n' {
      if k % 3 != 2 {
        HexByteDigits(bytes[k / 3]);
      }
    }
    CountAbsent(v, '\n');
  }

  /** Each line ends in the one newline it contains. */
  lemma LineShape(memory: seq<Byte>, addr: nat, bytesPerRow: nat)
    ensures Line(memory, addr, bytesPerRow)[|Line(memory, addr, bytesPerRow)| - 1] == '\n'
    ensures CountChar(Line(memory, addr, bytesPerRow), '\n') == 1
  {
    var a := PadStart(Hex(addr), 4, '0');
    var v := HexValues(Slice(memory, addr, addr + bytesPerRow));
    AddressColumnHasNoNewline(addr);
    ByteColumnHasNoNewline(Slice(memory, addr, addr + bytesPerRow));
    CountAbsent(": ", '\n');
    CountAbsent("", '\n');
    CountAppend(a, ": ", '\n');
    CountAppend(a + ": ", v, '\n');
    CountAppend(a + ": " + v, "\n", '\n');
  }

  /** A concatenation of strings that each hold one newline holds one per string. */
  lemma {:induction false} ConcatCount(lines: seq<string>)
    requires forall i :: 0 <= i < |lines| ==> CountChar(lines[i], '\n') == 1
    ensures CountChar(Concat(lines), '\n') == |lines|
  {
    if lines != [] {
      ConcatCount(lines[1..]);
      CountAppend(lines[0], Concat(lines[1..]), '\n');
    }
  }

  /** The output holds one newline per row. */
  lemma NewlineCount(memory: seq<Byte>, start: nat, end: int, bytesPerRow: nat)
    requires bytesPerRow > 0
    ensures CountChar(Dump(memory, start, end, bytesPerRow), '\n') == |RowStarts(start, end, bytesPerRow)|
  {
    var rows, lines := RowStarts(start, end, bytesPerRow), Lines(memory, start, end, bytesPerRow);
    forall i | 0 <= i < |lines| ensures CountChar(lines[i], '\n') == 1 {
      LineShape(memory, rows[i], bytesPerRow);
    }
    ConcatCount(lines);
  }

  /** `dumpMemory(memory, start, end, bytesPerRow)` without its final
      console.log: the loop appends one line per row to `output`. */
  method DumpToString(memory: array<Byte>, start: nat, end: int, bytesPerRow: nat) returns (output: string)
    requires bytesPerRow > 0
    ensures output == Dump(memory[..], start, end, bytesPerRow)
  {
    ghost var mem := memory[..];
    output := "";
    var addr := start;
    while addr < end
      invariant output + Dump(mem, addr, end, bytesPerRow) == Dump(mem, start, end, bytesPerRow)
      decreases end - addr
    {
      var rowBytes := Slice(memory[..], addr, addr + bytesPerRow);
      var hexAddr := PadStart(Hex(addr), 4, '0');
      var hexValues := HexValues(rowBytes);
      var line := hexAddr + ": " + hexValues + "\n";
      assert line == Line(mem, addr, bytesPerRow);
      DumpStep(mem, addr, end, bytesPerRow);
      AppendAssoc(output, line, Dump(mem, addr + bytesPerRow, end, bytesPerRow));
      output := output + line;
      addr := addr + bytesPerRow;
    }
    assert Dump(mem, addr, end, bytesPerRow) == "";
  }

  lemma AppendAssoc(a: string, b: string, c: string)
    ensures (a + b) + c == a + (b + c)
  {
  }
}
