/**
  The record filter of merge_outputs/new_merge_parallel.cpp: the column
  constants, extractTimestamp, isValidLine and the acceptance test that
  processFile applies to every line it reads.
 */
module RecordFilter {
  import opened Wrappers
  import opened Text
  import opened IntParse

  const TYPE_COLUMN: nat := 2
  const TIMESTAMP_COLUMN: nat := 3
  /** The double literal 1e18 is exactly representable, so the bound is exactly 10^18. */
  const MAX_TIMESTAMP: int := 1_000_000_000_000_000_000
  const MIN_TIMESTAMP: int := 1000
  /** "ASIC\tCH\tTYPE\tTIMESTAMP_LSB\tPULSE_WIDTH_LSB", written as its five column names joined by tabs. */
  const EXPECTED_HEADER: string :=
    "ASIC" + [TAB] + ("CH" + [TAB] + ("TYPE" + [TAB] + ("TIMESTAMP_LSB" + [TAB] + "PULSE_WIDTH_LSB")))
  /** What extractTimestamp returns for a line without a usable timestamp. */
  const NO_TIMESTAMP: int := -1
  /** The substring whose presence admits a line whatever its TYPE field holds. */
  const ASIC_MARKER: string := "ASIC"

  /** The value extractTimestamp returns: field 3 read by std::stoll, or -1. */
  function Timestamp(line: string): (ts: int)
    ensures LLONG_MIN <= ts <= LLONG_MAX
  {
    match Field(line, TIMESTAMP_COLUMN)
    case None => NO_TIMESTAMP
    case Some(token) => ParseInteger(token, LLONG_MIN, LLONG_MAX).GetOr(NO_TIMESTAMP)
  }

  /** The value isValidLine returns: field 2 read by std::stoi is greater than 2. */
  predicate TypeAboveTwo(line: string) {
    match Field(line, TYPE_COLUMN)
    case None => false
    case Some(token) =>
      match ParseInteger(token, INT_MIN, INT_MAX)
      case None => false
      case Some(v) => v > 2
  }

  predicate InTimestampRange(ts: int) {
    MIN_TIMESTAMP <= ts <= MAX_TIMESTAMP
  }

  /**
    The test processFile applies to each line before keeping it. A line that
    passes has a field 3 holding a long long, and has the marker or a field 2.
   */
  predicate Accepted(line: string): (r: bool)
    ensures r ==> line != EXPECTED_HEADER
    ensures r ==> (Field(line, TIMESTAMP_COLUMN).Some?
      && ParseInteger(Field(line, TIMESTAMP_COLUMN).value, LLONG_MIN, LLONG_MAX) == Some(Timestamp(line)))
    ensures r ==> Contains(line, ASIC_MARKER) || Field(line, TYPE_COLUMN).Some?
  {
    && line != EXPECTED_HEADER
    && (Contains(line, ASIC_MARKER) || TypeAboveTwo(line))
    && InTimestampRange(Timestamp(line))
  }

  /**
    The getline walk that extractTimestamp and isValidLine share: read tab
    separated tokens from an istringstream over the line, counting columns,
    and stop at the wanted one. pos is the stream's read position.
   */
  method ReadColumn(line: string, column: nat) returns (token: Option<string>)
    ensures token == Field(line, column)
  {
    var pos := 0;
    var colIndex := 0;
    while pos < |line|
      invariant pos <= |line|
      invariant colIndex <= column
      invariant colIndex <= |Split(line, TAB)|
      invariant Split(line, TAB)[colIndex..] == Split(line[pos..], TAB)
    {
      ghost var all := Split(line, TAB);
      var t, next := GetLine(line, pos, TAB);
      assert all[colIndex] == t && all[colIndex + 1..] == Split(line[next..], TAB) by {
        assert all[colIndex + 1..] == all[colIndex..][1..];
      }
      if colIndex == column {
        return Some(t);
      }
      colIndex := colIndex + 1;
      pos := next;
    }
    assert line[pos..] == [];
    token := None;
  }

  /** extractTimestamp (lines 20-35). */
  method ExtractTimestamp(line: string) returns (ts: int)
    ensures ts == Timestamp(line)
  {
    var token := ReadColumn(line, TIMESTAMP_COLUMN);
    match token
    case None =>
      ts := NO_TIMESTAMP;
    case Some(t) =>
      match ParseInteger(t, LLONG_MIN, LLONG_MAX)
      case None =>
        ts := NO_TIMESTAMP;
      case Some(v) =>
        ts := v;
  }

  /** isValidLine (lines 38-54). */
  method IsValidLine(line: string) returns (valid: bool)
    ensures valid == TypeAboveTwo(line)
  {
    var token := ReadColumn(line, TYPE_COLUMN);
    match token
    case None =>
      valid := false;
    case Some(t) =>
      match ParseInteger(t, INT_MIN, INT_MAX)
      case None =>
        valid := false;
      case Some(v) =>
        valid := v > 2;
  }

  /** A line of tab-free fields whose field 3 is a rendered integer: that integer, or -1 past long long. */
  lemma TimestampOfRecord(fs: seq<string>, w: string, ts: int, rest: string)
    requires FreeOf(fs, TAB) && |fs| > TIMESTAMP_COLUMN
    requires AllSpaces(w) && (rest == [] || !IsDigit(rest[0]))
    requires fs[TIMESTAMP_COLUMN] == w + Render(ts) + rest
    ensures Timestamp(Join(fs, TAB)) == if LLONG_MIN <= ts <= LLONG_MAX then ts else NO_TIMESTAMP
  {
    FieldOfJoin(fs, TIMESTAMP_COLUMN);
    ParseRender(w, ts, rest, LLONG_MIN, LLONG_MAX);
  }

  /** Fewer than four fields (a trailing tab does not make a fourth): no timestamp. */
  lemma TimestampOfShortRecord(fs: seq<string>)
    requires FreeOf(fs, TAB)
    requires |fs| <= TIMESTAMP_COLUMN || (|fs| == TIMESTAMP_COLUMN + 1 && fs[TIMESTAMP_COLUMN] == "")
    ensures Timestamp(Join(fs, TAB)) == NO_TIMESTAMP
  {
    FieldOfJoin(fs, TIMESTAMP_COLUMN);
  }

  /** Field 3 without a leading integer: no timestamp. */
  lemma TimestampOfNonNumeric(fs: seq<string>, w: string, sign: string, rest: string)
    requires FreeOf(fs, TAB) && |fs| > TIMESTAMP_COLUMN
    requires AllSpaces(w) && (sign == "" || sign == "+" || sign == "-")
    requires rest == [] || (!IsDigit(rest[0]) && (sign == "" ==> !IsSpace(rest[0]) && rest[0] != '+' && rest[0] != '-'))
    requires fs[TIMESTAMP_COLUMN] == w + (sign + rest)
    ensures Timestamp(Join(fs, TAB)) == NO_TIMESTAMP
  {
    FieldOfJoin(fs, TIMESTAMP_COLUMN);
    ParseNeedsDigit(w, sign, rest, LLONG_MIN, LLONG_MAX);
  }

  /** isValidLine is true exactly when field 2 holds an int above 2. */
  lemma TypeOfRecord(fs: seq<string>, w: string, t: int, rest: string)
    requires FreeOf(fs, TAB) && |fs| > TYPE_COLUMN
    requires AllSpaces(w) && (rest == [] || !IsDigit(rest[0]))
    requires fs[TYPE_COLUMN] == w + Render(t) + rest
    ensures TypeAboveTwo(Join(fs, TAB)) <==> INT_MIN <= t <= INT_MAX && t > 2
  {
    FieldOfJoin(fs, TYPE_COLUMN);
    ParseRender(w, t, rest, INT_MIN, INT_MAX);
  }

  /** With no field 2, or a field 2 that is not an integer after its white space, isValidLine is false. */
  lemma TypeOfNonNumeric(fs: seq<string>, w: string, sign: string, rest: string)
    requires FreeOf(fs, TAB)
    requires AllSpaces(w) && (sign == "" || sign == "+" || sign == "-")
    requires rest == [] || (!IsDigit(rest[0]) && (sign == "" ==> !IsSpace(rest[0]) && rest[0] != '+' && rest[0] != '-'))
    requires |fs| <= TYPE_COLUMN || fs[TYPE_COLUMN] == w + (sign + rest)
    ensures !TypeAboveTwo(Join(fs, TAB))
  {
    FieldOfJoin(fs, TYPE_COLUMN);
    if |fs| > TYPE_COLUMN {
      ParseNeedsDigit(w, sign, rest, INT_MIN, INT_MAX);
    }
  }

  lemma SplitHeader()
    ensures Split(EXPECTED_HEADER, TAB) == ["ASIC", "CH", "TYPE", "TIMESTAMP_LSB", "PULSE_WIDTH_LSB"]
  {
    SplitFive("ASIC", "CH", "TYPE", "TIMESTAMP_LSB", "PULSE_WIDTH_LSB");
  }

  /**
    The header has no numeric TYPE and no numeric timestamp, so the acceptance
    test would refuse it even without the exact-match check.
   */
  lemma HeaderHasNoTimestamp()
    ensures Timestamp(EXPECTED_HEADER) == NO_TIMESTAMP
    ensures !TypeAboveTwo(EXPECTED_HEADER)
  {
    SplitHeader();
    ParseNeedsDigit("", "", "TIMESTAMP_LSB", LLONG_MIN, LLONG_MAX);
    assert "" + ("" + "TIMESTAMP_LSB") == "TIMESTAMP_LSB";
    ParseNeedsDigit("", "", "TYPE", INT_MIN, INT_MAX);
    assert "" + ("" + "TYPE") == "TYPE";
  }

  /**
    A record whose TYPE is an int above 2 and whose timestamp lies in
    [1000, 10^18] is accepted, however each number is written: white space
    before it, an optional sign, leading zeros, and non-digit text after it.
   */
  lemma AcceptsTypedRecord(fs: seq<string>, w1: string, s1: string, d1: string, r1: string,
                           w2: string, s2: string, d2: string, r2: string)
    requires FreeOf(fs, TAB) && |fs| > TIMESTAMP_COLUMN
    requires AllSpaces(w1) && (s1 == "" || s1 == "+" || s1 == "-") && |d1| > 0 && AllDigits(d1)
    requires r1 == [] || !IsDigit(r1[0])
    requires AllSpaces(w2) && (s2 == "" || s2 == "+" || s2 == "-") && |d2| > 0 && AllDigits(d2)
    requires r2 == [] || !IsDigit(r2[0])
    requires fs[TYPE_COLUMN] == w1 + (s1 + (d1 + r1)) && fs[TIMESTAMP_COLUMN] == w2 + (s2 + (d2 + r2))
    requires 2 < Signed(s1 == "-", DigitsValue(d1)) <= INT_MAX
    requires InTimestampRange(Signed(s2 == "-", DigitsValue(d2)))
    ensures Accepted(Join(fs, TAB))
  {
    FieldOfJoin(fs, TYPE_COLUMN);
    FieldOfJoin(fs, TIMESTAMP_COLUMN);
    ParseWritten(w1, s1, d1, r1, INT_MIN, INT_MAX);
    ParseWritten(w2, s2, d2, r2, LLONG_MIN, LLONG_MAX);
    HeaderHasNoTimestamp();
  }

  /**
    A record whose field 3 holds an integer outside [1000, 10^18], however it
    is written, is refused, whatever else the record holds.
   */
  lemma RejectsOutOfRange(fs: seq<string>, w: string, sign: string, d: string, rest: string)
    requires FreeOf(fs, TAB) && |fs| > TIMESTAMP_COLUMN
    requires AllSpaces(w) && (sign == "" || sign == "+" || sign == "-") && |d| > 0 && AllDigits(d)
    requires rest == [] || !IsDigit(rest[0])
    requires fs[TIMESTAMP_COLUMN] == w + (sign + (d + rest))
    requires !InTimestampRange(Signed(sign == "-", DigitsValue(d)))
    ensures !Accepted(Join(fs, TAB))
  {
    FieldOfJoin(fs, TIMESTAMP_COLUMN);
    ParseWritten(w, sign, d, rest, LLONG_MIN, LLONG_MAX);
  }

  lemma Render5000()
    ensures Render(5000) == "5000"
  {
    assert Digits(5) == "5";
    assert Digits(50) == "50";
    assert Digits(500) == "500";
  }

  lemma AsicSampleFields(line: string)
    requires line == "XASIC\tCH\tfoo\t5000\t1"
    ensures Split(line, TAB) == ["XASIC", "CH", "foo", "5000", "1"]
  {
    var e := "5000" + [TAB] + "1";
    assert e == "5000\t1";
    var d := "foo" + [TAB] + e;
    assert d == "foo\t5000\t1";
    var c := "CH" + [TAB] + d;
    assert c == "CH\tfoo\t5000\t1";
    assert line == "XASIC" + [TAB] + c;
    SplitFive("XASIC", "CH", "foo", "5000", "1");
  }

  lemma AsicSampleHasNoType(line: string)
    requires line == "XASIC\tCH\tfoo\t5000\t1"
    ensures !TypeAboveTwo(line)
  {
    AsicSampleFields(line);
    ParseNeedsDigit("", "", "foo", INT_MIN, INT_MAX);
    assert "" + ("" + "foo") == "foo";
  }

  lemma AsicSampleTimestamp(line: string)
    requires line == "XASIC\tCH\tfoo\t5000\t1"
    ensures Timestamp(line) == 5000
  {
    AsicSampleFields(line);
    ParseRender("", 5000, "", LLONG_MIN, LLONG_MAX);
    Render5000();
    assert "" + Render(5000) + "" == "5000";
  }

  lemma AsicSampleHasMarker(line: string)
    requires line == "XASIC\tCH\tfoo\t5000\t1"
    ensures Contains(line, ASIC_MARKER) && line != EXPECTED_HEADER
  {
    assert line[1..5] == ASIC_MARKER;
    assert OccursAt(line, ASIC_MARKER, 1);
    assert line[0] != EXPECTED_HEADER[0] by {
      assert EXPECTED_HEADER[0] == 'A';
    }
  }

  /** A line with the ASIC marker and no numeric TYPE is still accepted when its timestamp is in range. */
  lemma AsicMarkerAdmits(line: string)
    requires line == "XASIC\tCH\tfoo\t5000\t1"
    ensures !TypeAboveTwo(line)
    ensures Accepted(line)
  {
    AsicSampleHasNoType(line);
    AsicSampleTimestamp(line);
    AsicSampleHasMarker(line);
  }

  /** "a\tb\tc\t" has only three fields, so it has no timestamp. */
  lemma TrailingTabIsNoField(line: string)
    requires line == "a\tb\tc\t"
    ensures Field(line, TIMESTAMP_COLUMN) == None
    ensures Timestamp(line) == NO_TIMESTAMP
  {
    var c := "c" + [TAB] + "";
    assert c == "c\t";
    var b := "b" + [TAB] + c;
    assert b == "b\tc\t";
    assert line == "a" + [TAB] + b;
    SplitCons("c", TAB, "");
    SplitCons("b", TAB, c);
    SplitCons("a", TAB, b);
  }

  /** A TYPE of 3000000000 overflows int, so isValidLine is false. */
  lemma TypeOverflowIsInvalid(line: string)
    requires line == "1\t0\t3000000000\t5000"
    ensures !TypeAboveTwo(line)
  {
    var d := "3000000000" + [TAB] + "5000";
    assert d == "3000000000\t5000";
    var c := "0" + [TAB] + d;
    assert c == "0\t3000000000\t5000";
    assert line == "1" + [TAB] + c;
    SplitFour("1", "0", "3000000000", "5000");
    IntOverflowFails();
  }
}
