/** From the line and column of a diagnostic to a byte offset in the file. A column counts runes,
    as Go's UTF-8 decoder sees them (section 3 of RFC 3629; an invalid byte is a rune of its own). */
module SourceOffsets {
  import opened Functions

  type byte = x: int | 0 <= x < 256
  type Bytes = seq<byte>

  const NEWLINE: byte := 10

  // ----- Runes

  predicate IsTail(b: byte) {
    0x80 <= b <= 0xBF
  }

  /** The second byte that may follow a lead byte. */
  predicate Second(lead: byte, b: byte) {
    if lead == 0xE0 then 0xA0 <= b <= 0xBF
    else if lead == 0xED then 0x80 <= b <= 0x9F
    else if lead == 0xF0 then 0x90 <= b <= 0xBF
    else if lead == 0xF4 then 0x80 <= b <= 0x8F
    else IsTail(b)
  }

  /** How many bytes `utf8.DecodeRune` takes. */
  function RuneSize(s: Bytes): (n: nat)
    requires s != []
    ensures 1 <= n <= |s|
  {
    if 0xC2 <= s[0] <= 0xDF && |s| >= 2 && IsTail(s[1]) then 2
    else if 0xE0 <= s[0] <= 0xEF && |s| >= 3 && Second(s[0], s[1]) && IsTail(s[2]) then 3
    else if 0xF0 <= s[0] <= 0xF4 && |s| >= 4 && Second(s[0], s[1]) && IsTail(s[2]) && IsTail(s[3]) then 4
    else 1
  }

  /** A Unicode scalar value. */
  predicate IsScalar(c: int) {
    0 <= c <= 0x10FFFF && !(0xD800 <= c <= 0xDFFF)
  }

  function Encode(c: int): (s: Bytes)
    requires IsScalar(c)
    ensures 1 <= |s| <= 4
  {
    if c < 0x80 then [c]
    else if c < 0x800 then [0xC0 + c / 64, 0x80 + c % 64]
    else if c < 0x10000 then [0xE0 + c / 4096, 0x80 + c / 64 % 64, 0x80 + c % 64]
    else [0xF0 + c / 262144, 0x80 + c / 4096 % 64, 0x80 + c / 64 % 64, 0x80 + c % 64]
  }

  /** The decoder takes exactly one encoded scalar, whatever follows it. */
  lemma DecodesEncoded(c: int, rest: Bytes)
    requires IsScalar(c)
    ensures RuneSize(Encode(c) + rest) == |Encode(c)|
  {
    var e := Encode(c);
    var s := e + rest;
    assert |s| >= |e| && forall i | 0 <= i < |e| :: s[i] == e[i];
    if |e| == 2 {
      assert 0xC2 <= s[0] <= 0xDF && IsTail(s[1]);
    } else if |e| == 3 {
      assert 0xE0 <= s[0] <= 0xEF && IsTail(s[1]) && IsTail(s[2]);
      assert Second(s[0], s[1]);
    } else if |e| == 4 {
      assert 0xF0 <= s[0] <= 0xF4 && IsTail(s[1]) && IsTail(s[2]) && IsTail(s[3]);
      assert Second(s[0], s[1]);
    }
  }

  /** The scalar value of bytes that are taken together: six bits from every byte but the first. */
  function Decoded(s: Bytes): int
    requires s != []
  {
    var n, lead: int := RuneSize(s), s[0];
    if n == 2 then Shifted(lead - 0xC0, s[1])
    else if n == 3 then Shifted(Shifted(lead - 0xE0, s[1]), s[2])
    else if n == 4 then Shifted(Shifted(Shifted(lead - 0xF0, s[1]), s[2]), s[3])
    else lead
  }

  function Shifted(high: int, tail: int): int {
    high * 64 + (tail - 0x80)
  }

  lemma ShiftedBack(high: int, tail: int)
    requires 0x80 <= tail <= 0xBF
    ensures Shifted(high, tail) / 64 == high && Shifted(high, tail) % 64 == tail - 0x80
  {
  }

  /** More than one byte is taken only when they encode a scalar value: no overlong form, no surrogate and
      nothing beyond the last scalar. A byte that starts no encoding is taken by itself. */
  lemma DecodesOnlyEncoded(s: Bytes)
    requires s != [] && RuneSize(s) > 1
    ensures IsScalar(Decoded(s)) && Encode(Decoded(s)) == s[..RuneSize(s)]
  {
    var c, n, lead: int := Decoded(s), RuneSize(s), s[0];
    if n == 2 {
      ShiftedBack(lead - 0xC0, s[1]);
      assert 0x80 <= c < 0x800;
    } else if n == 3 {
      var high := Shifted(lead - 0xE0, s[1]);
      ShiftedBack(lead - 0xE0, s[1]);
      ShiftedBack(high, s[2]);
      assert 0x20 <= high < 0x400;
      TwiceShifted(c);
      assert 0x800 <= c < 0x10000;
    } else {
      var high := Shifted(lead - 0xF0, s[1]);
      var mid := Shifted(high, s[2]);
      ShiftedBack(lead - 0xF0, s[1]);
      ShiftedBack(high, s[2]);
      ShiftedBack(mid, s[3]);
      assert 0x10 <= high < 0x110;
      TwiceShifted(c);
      assert 0x10000 <= c <= 0x10FFFF;
    }
  }

  lemma TwiceShifted(c: int)
    requires c >= 0
    ensures c / 4096 == c / 64 / 64 && c / 262144 == c / 64 / 64 / 64
  {
  }

  ghost predicate Scalars(runes: seq<int>) {
    forall i | 0 <= i < |runes| :: IsScalar(runes[i])
  }

  function Utf8(runes: seq<int>): Bytes
    requires forall i | 0 <= i < |runes| :: IsScalar(runes[i])
  {
    if runes == [] then [] else Encode(runes[0]) + Utf8(runes[1..])
  }

  // ----- Columns

  /** The offset of a column from where column `current` starts. */
  function ColumnFrom(s: Bytes, current: int, column: int): (r: Option<nat>)
    ensures r.Some? ==> r.value <= |s|
    decreases |s|
  {
    if current == column then Some(0)
    else if s == [] then None
    else
      match ColumnFrom(s[RuneSize(s)..], current + 1, column)
      case None => None
      case Some(n) => Some(RuneSize(s) + n)
  }

  function Trimmed(line: Bytes): Bytes {
    if line != [] && line[|line| - 1] == NEWLINE then line[..|line| - 1] else line
  }

  function ColumnOffset(line: Bytes, column: int): (r: Option<nat>)
    ensures r.Some? ==> r.value <= |line|
  {
    if column <= 1 then Some(0) else ColumnFrom(Trimmed(line), 1, column)
  }

  method ByteOffsetForColumn(line: Bytes, column: int) returns (r: Option<nat>)
    ensures r == ColumnOffset(line, column)
  {
    if column <= 1 {
      return Some(0);
    }
    var trimmed := line;
    if |trimmed| > 0 && trimmed[|trimmed| - 1] == NEWLINE {
      trimmed := trimmed[..|trimmed| - 1];
    }
    var currentColumn := 1;
    var offset := 0;
    while |trimmed| > 0
      invariant ColumnFrom(Trimmed(line), 1, column)
                == match ColumnFrom(trimmed, currentColumn, column) case None => None case Some(n) => Some(offset + n)
      decreases |trimmed|
    {
      if currentColumn == column {
        return Some(offset);
      }
      var size := RuneSize(trimmed);
      offset := offset + size;
      trimmed := trimmed[size..];
      currentColumn := currentColumn + 1;
    }
    if currentColumn == column {
      return Some(offset);
    }
    return None;
  }

  lemma {:induction false} PassedColumn(s: Bytes, current: int, column: int)
    requires column < current
    ensures ColumnFrom(s, current, column) == None
    decreases |s|
  {
    if s != [] {
      PassedColumn(s[RuneSize(s)..], current + 1, column);
    }
  }

  /** In well-formed text a column is where that many characters have been encoded, and exactly
      the columns up to one past the last character exist. */
  lemma {:induction false} ColumnCountsCharacters(runes: seq<int>, current: int, column: int)
    requires Scalars(runes) && current <= column
    ensures ColumnFrom(Utf8(runes), current, column)
            == if column - current <= |runes| then Some(|Utf8(runes[..column - current])|) else None
    decreases |runes|
  {
    hide Encode, RuneSize, IsScalar;
    if column == current {
      assert runes[..0] == [];
    } else if runes == [] {
      assert Utf8(runes) == [];
    } else {
      var rest := runes[1..];
      DecodesEncoded(runes[0], Utf8(rest));
      var s := Utf8(runes);
      assert s == Encode(runes[0]) + Utf8(rest);
      assert s[|Encode(runes[0])|..] == Utf8(rest);
      ColumnCountsCharacters(rest, current + 1, column);
      if column - current <= |runes| {
        Utf8Prefix(runes, column - current);
      }
    }
  }

  lemma Utf8Prefix(runes: seq<int>, k: nat)
    requires Scalars(runes) && 0 < k <= |runes|
    ensures |Utf8(runes[..k])| == |Encode(runes[0])| + |Utf8(runes[1..][..k - 1])|
  {
    hide Encode, IsScalar;
    assert runes[..k][1..] == runes[1..][..k - 1] && runes[..k][0] == runes[0];
  }

  /** Later columns lie strictly further on. */
  lemma {:induction false} ColumnsGrow(s: Bytes, current: int, a: int, b: int)
    requires current <= a < b && ColumnFrom(s, current, b).Some?
    ensures ColumnFrom(s, current, a).Some? && ColumnFrom(s, current, a).value < ColumnFrom(s, current, b).value
    decreases |s|
  {
    if current < a {
      ColumnsGrow(s[RuneSize(s)..], current + 1, a, b);
    }
  }

  // ----- Lines

  /** `strings.SplitAfter` at newlines: each line keeps its newline, the last may be empty. */
  function SplitLines(data: Bytes): (lines: seq<Bytes>)
    ensures |lines| >= 1
  {
    if data == [] then [[]]
    else
      var rest := SplitLines(data[1..]);
      if data[0] == NEWLINE then [[NEWLINE]] + rest
      else [[data[0]] + rest[0]] + rest[1..]
  }

  function Joined(lines: seq<Bytes>): Bytes {
    if lines == [] then [] else lines[0] + Joined(lines[1..])
  }

  /** A newline ends every line before the last and stands nowhere else. */
  ghost predicate WellSplit(lines: seq<Bytes>) {
    && lines != [] && NEWLINE !in lines[|lines| - 1]
    && forall i | 0 <= i < |lines| - 1 :: Ended(lines[i])
  }

  ghost predicate Ended(line: Bytes) {
    line != [] && line[|line| - 1] == NEWLINE && NEWLINE !in line[..|line| - 1]
  }

  lemma NewlineFirst(rest: seq<Bytes>)
    requires WellSplit(rest)
    ensures WellSplit([[NEWLINE]] + rest) && Joined([[NEWLINE]] + rest) == [NEWLINE] + Joined(rest)
  {
    var lines := [[NEWLINE]] + rest;
    assert lines[1..] == rest && lines[0] == [NEWLINE];
    assert forall i | 0 < i < |lines| :: lines[i] == rest[i - 1];
  }

  lemma ByteFirst(b: byte, rest: seq<Bytes>)
    requires WellSplit(rest) && b != NEWLINE
    ensures WellSplit([[b] + rest[0]] + rest[1..]) && Joined([[b] + rest[0]] + rest[1..]) == [b] + Joined(rest)
  {
    var first := [b] + rest[0];
    var lines := [first] + rest[1..];
    JoinedFirst(b, rest);
    hide Joined, Ended;
    assert forall i | 0 < i < |lines| :: lines[i] == rest[i];
    if |rest| > 1 {
      EndedLonger(b, rest[0]);
    }
  }

  lemma JoinedFirst(b: byte, rest: seq<Bytes>)
    requires rest != []
    ensures Joined([[b] + rest[0]] + rest[1..]) == [b] + Joined(rest)
  {
    assert ([[b] + rest[0]] + rest[1..])[1..] == rest[1..];
    assert [b] + (rest[0] + Joined(rest[1..])) == [b] + rest[0] + Joined(rest[1..]);
  }

  lemma EndedLonger(b: byte, line: Bytes)
    requires Ended(line) && b != NEWLINE
    ensures Ended([b] + line)
  {
    assert ([b] + line)[..|line|] == [b] + line[..|line| - 1];
  }

  /** The lines put together are the file, and newlines end exactly the lines before the last. */
  lemma {:induction false} SplitLinesIs(data: Bytes)
    ensures Joined(SplitLines(data)) == data && WellSplit(SplitLines(data))
  {
    if data != [] {
      hide WellSplit, Joined;
      SplitLinesIs(data[1..]);
      assert data == [data[0]] + data[1..];
      if data[0] == NEWLINE {
        NewlineFirst(SplitLines(data[1..]));
      } else {
        ByteFirst(data[0], SplitLines(data[1..]));
      }
    } else {
      assert Joined([[]]) == [];
    }
  }

  /** The bytes before a line. */
  function Before(lines: seq<Bytes>, line: nat): nat
    requires line <= |lines|
  {
    if line == 0 then 0 else Before(lines, line - 1) + |lines[line - 1]|
  }

  function LocationOffset(lines: seq<Bytes>, line: int, column: int): Option<nat> {
    if line < 1 || line > |lines| then None
    else
      match ColumnOffset(lines[line - 1], column)
      case None => None
      case Some(n) => Some(Before(lines, line - 1) + n)
  }

  method ByteOffsetForLocation(lines: seq<Bytes>, line: int, column: int) returns (r: Option<nat>)
    ensures r == LocationOffset(lines, line, column)
  {
    if line < 1 || line > |lines| {
      return None;
    }
    var offset := 0;
    for i := 0 to line - 1
      invariant offset == Before(lines, i)
    {
      offset := offset + |lines[i]|;
    }
    if column <= 1 {
      return Some(offset);
    }
    var columnOffset := ByteOffsetForColumn(lines[line - 1], column);
    if columnOffset.None? {
      return None;
    }
    return Some(offset + columnOffset.value);
  }

  lemma {:induction false} BeforeGrows(lines: seq<Bytes>, a: nat, b: nat)
    requires a <= b <= |lines|
    ensures Before(lines, a) <= Before(lines, b)
    decreases b
  {
    if a < b {
      BeforeGrows(lines, a, b - 1);
    }
  }

  lemma {:induction false} BeforeAll(lines: seq<Bytes>, k: nat)
    requires k <= |lines|
    ensures Before(lines, k) + |Joined(lines[k..])| == |Joined(lines)|
    decreases k
  {
    if k == 0 {
      assert lines[0..] == lines;
    } else {
      BeforeAll(lines, k - 1);
      assert lines[k - 1..][1..] == lines[k..];
    }
  }

  /** A location: columns below one count as the first. */
  predicate Earlier(lineA: int, columnA: int, lineB: int, columnB: int) {
    lineA < lineB || (lineA == lineB && columnA < columnB && columnB > 1)
  }

  lemma TrimmedShorter(lines: seq<Bytes>, i: nat)
    requires i < |lines| - 1 && WellSplit(lines)
    ensures |Trimmed(lines[i])| < |lines[i]|
  {
  }

  lemma ColumnInLine(line: Bytes, column: int)
    requires ColumnOffset(line, column).Some?
    ensures ColumnOffset(line, column).value <= |Trimmed(line)|
  {
  }

  lemma AcrossLines(lines: seq<Bytes>, lineA: int, columnA: int, lineB: int, columnB: int)
    requires WellSplit(lines) && LocationOffset(lines, lineA, columnA).Some? && LocationOffset(lines, lineB, columnB).Some?
    requires lineA < lineB
    ensures LocationOffset(lines, lineA, columnA).value < LocationOffset(lines, lineB, columnB).value
  {
    hide WellSplit, Trimmed, ColumnOffset;
    TrimmedShorter(lines, lineA - 1);
    ColumnInLine(lines[lineA - 1], columnA);
    BeforeGrows(lines, lineA, lineB - 1);
    assert Before(lines, lineA) == Before(lines, lineA - 1) + |lines[lineA - 1]|;
  }

  lemma WithinLine(line: Bytes, columnA: int, columnB: int)
    requires ColumnOffset(line, columnB).Some? && columnA < columnB && columnB > 1
    ensures ColumnOffset(line, columnA).Some? && ColumnOffset(line, columnA).value < ColumnOffset(line, columnB).value
  {
    hide Trimmed;
    ColumnsGrow(Trimmed(line), 1, if columnA < 1 then 1 else columnA, columnB);
  }

  /** Locations of a file map in order: an earlier valid location has a strictly smaller offset,
      and every offset lies in the file. */
  lemma LocationsInOrder(data: Bytes, lineA: int, columnA: int, lineB: int, columnB: int)
    requires var lines := SplitLines(data);
             LocationOffset(lines, lineA, columnA).Some? && LocationOffset(lines, lineB, columnB).Some?
    requires Earlier(lineA, columnA, lineB, columnB)
    ensures var lines := SplitLines(data);
            LocationOffset(lines, lineA, columnA).value < LocationOffset(lines, lineB, columnB).value <= |data|
  {
    hide SplitLines, WellSplit, Joined, Trimmed, ColumnOffset;
    var lines := SplitLines(data);
    SplitLinesIs(data);
    InFile(lines, lineB, columnB);
    if lineA < lineB {
      AcrossLines(lines, lineA, columnA, lineB, columnB);
    } else {
      WithinLine(lines[lineA - 1], columnA, columnB);
    }
  }

  lemma JoinedFrom(lines: seq<Bytes>, k: nat)
    requires k <= |lines|
    ensures Before(lines, k) <= |Joined(lines)| && Joined(lines)[Before(lines, k)..] == Joined(lines[k..])
    decreases k
  {
    BeforeAll(lines, k);
    if k == 0 {
      assert lines[0..] == lines;
    } else {
      JoinedFrom(lines, k - 1);
      var line := lines[k - 1];
      assert lines[k - 1..][0] == line && lines[k - 1..][1..] == lines[k..];
      BeforeAll(lines, k - 1);
      assert Joined(lines)[Before(lines, k - 1)..] == line + Joined(lines[k..]);
      assert Joined(lines)[Before(lines, k)..] == Joined(lines)[Before(lines, k - 1)..][|line|..];
    }
  }

  /** A location is found exactly if there is such a line and it has such a column, and behind its offset
      the file goes on with the rest of that line and all later lines. */
  lemma LocationIsThere(data: Bytes, line: int, column: int)
    ensures var lines, at := SplitLines(data), LocationOffset(SplitLines(data), line, column);
            && (at.Some? <==> 1 <= line <= |lines| && ColumnOffset(lines[line - 1], column).Some?)
            && (at.Some? ==> at.value <= |data|
                             && data[at.value..] == lines[line - 1][ColumnOffset(lines[line - 1], column).value..] + Joined(lines[line..]))
  {
    hide SplitLines, WellSplit, Joined, ColumnOffset;
    var lines := SplitLines(data);
    SplitLinesIs(data);
    if LocationOffset(lines, line, column).Some? {
      var n := ColumnOffset(lines[line - 1], column).value;
      InFile(lines, line, column);
      JoinedFrom(lines, line - 1);
      FirstLine(lines[line - 1..]);
      assert lines[line - 1..][0] == lines[line - 1] && lines[line - 1..][1..] == lines[line..];
      assert data[Before(lines, line - 1) + n..] == data[Before(lines, line - 1)..][n..];
    }
  }

  lemma FirstLine(lines: seq<Bytes>)
    requires lines != []
    ensures Joined(lines) == lines[0] + Joined(lines[1..])
  {
  }

  lemma InFile(lines: seq<Bytes>, line: int, column: int)
    requires LocationOffset(lines, line, column).Some?
    ensures LocationOffset(lines, line, column).value <= |Joined(lines)|
  {
    BeforeAll(lines, line);
    assert Before(lines, line) == Before(lines, line - 1) + |lines[line - 1]|;
  }

  /** Both ends of a span; an end before the start is moved to the start. */
  method ByteOffsetsForSpan(data: Bytes, lineStart: int, columnStart: int, lineEnd: int, columnEnd: int)
    returns (span: Option<(nat, nat)>)
    ensures var lines := SplitLines(data);
            var start, end := LocationOffset(lines, lineStart, columnStart), LocationOffset(lines, lineEnd, columnEnd);
            && (span.Some? <==> start.Some? && end.Some?)
            && (span.Some? ==> span.value.0 == start.value && span.value.0 <= span.value.1 <= |data|
                               && (Earlier(lineStart, columnStart, lineEnd, columnEnd) ==> span.value.1 == end.value))
  {
    var lines := SplitLines(data);
    SplitLinesIs(data);
    var start := ByteOffsetForLocation(lines, lineStart, columnStart);
    if start.None? {
      return None;
    }
    var end := ByteOffsetForLocation(lines, lineEnd, columnEnd);
    if end.None? {
      return None;
    }
    InFile(lines, lineStart, columnStart);
    InFile(lines, lineEnd, columnEnd);
    if Earlier(lineStart, columnStart, lineEnd, columnEnd) {
      LocationsInOrder(data, lineStart, columnStart, lineEnd, columnEnd);
    }
    if end.value < start.value {
      end := start;
    }
    return Some((start.value, end.value));
  }
}
