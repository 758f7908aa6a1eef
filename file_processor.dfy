/**
  processFile of merge_outputs/new_merge_parallel.cpp: read a file line by
  line with std::getline and keep, in order, the lines that pass the record
  filter. A file that cannot be opened contributes nothing.
 */
module FileProcessor {
  import opened Text
  import opened RecordFilter

  /** What std::ifstream finds at a path: a file it cannot open, or the text of one it can. */
  datatype InputFile = Unreadable | Readable(text: string)

  /** The lines that std::getline(infile, line) reads from the file. */
  function Lines(file: InputFile): seq<string> {
    match file
    case Unreadable => []
    case Readable(text) => Split(text, NEWLINE)
  }

  /** The lines of ls that pass the record filter, in their order. */
  function AcceptedLines(ls: seq<string>): (r: seq<string>)
    ensures |r| <= |ls|
  {
    if ls == [] then []
    else (if Accepted(ls[0]) then [ls[0]] else []) + AcceptedLines(ls[1..])
  }

  /** The vector processFile returns for a file. */
  function FileRecords(file: InputFile): seq<string> {
    AcceptedLines(Lines(file))
  }

  /** xs can be obtained from ys by deleting elements. */
  predicate IsSubsequence(xs: seq<string>, ys: seq<string>)
    decreases |ys|
  {
    if xs == [] then true
    else if ys == [] then false
    else (xs[0] == ys[0] && IsSubsequence(xs[1..], ys[1..])) || IsSubsequence(xs, ys[1..])
  }

  /** processFile (lines 57-76): the read loop, the header skip and the filter of lines 66-74. */
  method ProcessFile(file: InputFile) returns (lines: seq<string>)
    ensures lines == FileRecords(file)
    ensures file.Unreadable? ==> lines == []
  {
    lines := [];
    if file.Unreadable? {
      return;
    }
    var text := file.text;
    var pos := 0;
    while pos < |text|
      invariant pos <= |text|
      invariant lines + AcceptedLines(Split(text[pos..], NEWLINE)) == FileRecords(file)
    {
      ghost var before := lines;
      var line, next := GetLine(text, pos, NEWLINE);
      var keep := KeepLine(line);
      if keep {
        lines := lines + [line];
      }
      FilterStep(before, line, Split(text[next..], NEWLINE), keep);
      pos := next;
    }
    assert text[pos..] == [];
  }

  /** The decision of lines 67-71 for one line read from the file. */
  method KeepLine(line: string) returns (keep: bool)
    ensures keep == Accepted(line)
  {
    if line == EXPECTED_HEADER {
      return false;
    }
    var ts := ExtractTimestamp(line);
    // the || of line 70 does not call isValidLine when the line contains "ASIC"
    var admitted := Contains(line, ASIC_MARKER);
    if !admitted {
      admitted := IsValidLine(line);
    }
    keep := admitted && ts >= MIN_TIMESTAMP && ts <= MAX_TIMESTAMP;
  }

  /** One turn of the read loop keeps its invariant. */
  lemma FilterStep(kept: seq<string>, line: string, rest: seq<string>, keep: bool)
    requires keep == Accepted(line)
    ensures (if keep then kept + [line] else kept) + AcceptedLines(rest) == kept + AcceptedLines([line] + rest)
  {
    AcceptedLinesCons(line, rest);
    if keep {
      assert kept + ([line] + AcceptedLines(rest)) == (kept + [line]) + AcceptedLines(rest);
    } else {
      assert [] + AcceptedLines(rest) == AcceptedLines(rest);
    }
  }

  lemma AcceptedLinesCons(line: string, ls: seq<string>)
    ensures AcceptedLines([line] + ls) == (if Accepted(line) then [line] else []) + AcceptedLines(ls)
  {
    assert ([line] + ls)[1..] == ls;
  }

  /** Filtering distributes over concatenation. */
  lemma {:induction false} AcceptedLinesAppend(a: seq<string>, b: seq<string>)
    ensures AcceptedLines(a + b) == AcceptedLines(a) + AcceptedLines(b)
  {
    if a != [] {
      var h := if Accepted(a[0]) then [a[0]] else [];
      assert a + b == [a[0]] + (a[1..] + b);
      AcceptedLinesCons(a[0], a[1..] + b);
      AcceptedLinesAppend(a[1..], b);
      assert h + (AcceptedLines(a[1..]) + AcceptedLines(b)) == (h + AcceptedLines(a[1..])) + AcceptedLines(b);
    } else {
      assert a + b == b;
    }
  }

  /** A line is kept exactly when it is one of the input lines and passes the filter. */
  lemma {:induction false} AcceptedLinesMembers(ls: seq<string>, l: string)
    ensures l in AcceptedLines(ls) <==> l in ls && Accepted(l)
  {
    if ls != [] {
      AcceptedLinesMembers(ls[1..], l);
      assert ls == [ls[0]] + ls[1..];
    }
  }

  /** The kept lines keep their input order. */
  lemma {:induction false} AcceptedLinesOrdered(ls: seq<string>)
    ensures IsSubsequence(AcceptedLines(ls), ls)
  {
    if ls != [] {
      var r := AcceptedLines(ls[1..]);
      AcceptedLinesOrdered(ls[1..]);
      if Accepted(ls[0]) {
        assert ([ls[0]] + r)[1..] == r;
      } else {
        assert [] + r == r;
      }
    }
  }

  /** Each accepted line is kept as many times as it occurs; every other line is dropped. */
  lemma {:induction false} AcceptedLinesCounts(ls: seq<string>, l: string)
    ensures multiset(AcceptedLines(ls))[l] == if Accepted(l) then multiset(ls)[l] else 0
  {
    if ls != [] {
      AcceptedLinesCounts(ls[1..], l);
      CountsStep(ls[0], ls[1..], l);
      assert [ls[0]] + ls[1..] == ls;
    }
  }

  lemma CountsStep(x: string, rest: seq<string>, l: string)
    requires multiset(AcceptedLines(rest))[l] == if Accepted(l) then multiset(rest)[l] else 0
    ensures multiset(AcceptedLines([x] + rest))[l] == if Accepted(l) then multiset([x] + rest)[l] else 0
  {
    AcceptedLinesCons(x, rest);
    var h := if Accepted(x) then [x] else [];
    assert multiset(h + AcceptedLines(rest)) == multiset(h) + multiset(AcceptedLines(rest));
    assert multiset([x] + rest) == multiset([x]) + multiset(rest);
  }

  /** Filtering lines that all pass the filter changes nothing. */
  lemma {:induction false} AcceptedLinesKeepsAll(ls: seq<string>)
    requires forall k :: 0 <= k < |ls| ==> Accepted(ls[k])
    ensures AcceptedLines(ls) == ls
  {
    if ls != [] {
      AcceptedLinesKeepsAll(ls[1..]);
      assert [ls[0]] + ls[1..] == ls;
    }
  }

  /** Filtering twice is filtering once. */
  lemma AcceptedLinesIdempotent(ls: seq<string>)
    ensures AcceptedLines(AcceptedLines(ls)) == AcceptedLines(ls)
  {
    var r := AcceptedLines(ls);
    forall k | 0 <= k < |r| ensures Accepted(r[k]) {
      AcceptedLinesMembers(ls, r[k]);
    }
    AcceptedLinesKeepsAll(r);
  }

  /**
    What processFile promises about every line it returns: it is a line of
    the file (so it has no newline), it is not the header, it contains
    "ASIC" or has a TYPE above 2, and its timestamp lies in [1000, 10^18].
   */
  lemma FileRecordsSound(file: InputFile, l: string)
    requires l in FileRecords(file)
    ensures l in Lines(file) && NEWLINE !in l
    ensures l != EXPECTED_HEADER
    ensures Contains(l, ASIC_MARKER) || TypeAboveTwo(l)
    ensures MIN_TIMESTAMP <= Timestamp(l) <= MAX_TIMESTAMP
  {
    AcceptedLinesMembers(Lines(file), l);
    if file.Readable? {
      SplitTokensFree(file.text, NEWLINE);
    }
  }

  /** The header line is never kept, whatever the file holds. */
  lemma HeaderNeverKept(file: InputFile)
    ensures EXPECTED_HEADER !in FileRecords(file)
  {
    AcceptedLinesMembers(Lines(file), EXPECTED_HEADER);
  }
}
