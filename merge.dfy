/**
  mergeFilesParallel of merge_outputs/new_merge_parallel.cpp: select the
  regular files whose name starts with a prefix, run processFile on each,
  concatenate the results in file order, sort them by timestamp and write
  the header followed by one record per line.
 */
module Merge {
  import opened Wrappers
  import opened Text
  import opened RecordFilter
  import opened FileProcessor

  /** One entry of the directory listing, in the order the iterator yields it. */
  datatype DirEntry = DirEntry(name: string, isRegularFile: bool, file: InputFile)

  /** The test of line 82. */
  predicate Selected(e: DirEntry, prefix: string) {
    e.isRegularFile && HasPrefix(e.name, prefix)
  }

  /** The files vector that the directory scan of lines 80-85 builds. */
  function SelectedFiles(entries: seq<DirEntry>, prefix: string): (files: seq<InputFile>)
    ensures |files| <= |entries|
  {
    if entries == [] then []
    else
      var last := entries[|entries| - 1];
      SelectedFiles(entries[..|entries| - 1], prefix) + (if Selected(last, prefix) then [last.file] else [])
  }

  /** What the futures of lines 88-91 hold, one processFile result per file, in file order. */
  function Partials(files: seq<InputFile>): (parts: seq<seq<string>>) {
    seq(|files|, i requires 0 <= i < |files| => FileRecords(files[i]))
  }

  /** The parts one after the other. */
  function Concat(parts: seq<seq<string>>): seq<string> {
    if parts == [] then [] else Concat(parts[..|parts| - 1]) + parts[|parts| - 1]
  }

  /** allLines after the collection loop of lines 94-98. */
  function Collected(files: seq<InputFile>): seq<string> {
    Concat(Partials(files))
  }

  /** Every line of every file, file after file, as the readers see them. */
  function AllLines(files: seq<InputFile>): seq<string> {
    if files == [] then []
    else AllLines(files[..|files| - 1]) + Lines(files[|files| - 1])
  }

  /** The sum of the sizes of the parts. */
  function TotalLength(parts: seq<seq<string>>): nat {
    if parts == [] then 0 else TotalLength(parts[..|parts| - 1]) + |parts[|parts| - 1]|
  }

  /** The order the comparator of lines 102-104 asks for. */
  predicate SortedByTimestamp(s: seq<string>) {
    forall p, q :: 0 <= p < q < |s| ==> Timestamp(s[p]) <= Timestamp(s[q])
  }

  /** Each record followed by a newline, as the loop of lines 109-111 writes them. */
  function Body(lines: seq<string>): string {
    if lines == [] then "" else lines[0] + [NEWLINE] + Body(lines[1..])
  }

  /** The whole output file: the header line, then the records. */
  function Document(lines: seq<string>): string {
    EXPECTED_HEADER + [NEWLINE] + Body(lines)
  }

  /** The directory scan of lines 80-85, over a listing given in iteration order. */
  method SelectFiles(entries: seq<DirEntry>, prefix: string) returns (files: seq<InputFile>)
    ensures files == SelectedFiles(entries, prefix)
  {
    files := [];
    for i := 0 to |entries|
      invariant files == SelectedFiles(entries[..i], prefix)
    {
      assert entries[..i + 1][..i] == entries[..i];
      if entries[i].isRegularFile && Find(entries[i].name, prefix) == Some(0) {
        files := files + [entries[i].file];
      }
    }
    assert entries[..|entries|] == entries;
  }

  /**
    The fan-out of lines 87-91 and the collection of lines 94-98. A future's
    value is the processFile result of its file, so the tasks are run one
    after the other here and their results read in the order of the futures.
   */
  method CollectRecords(files: seq<InputFile>) returns (allLines: seq<string>)
    ensures allLines == Collected(files)
  {
    var partials := [];
    for i := 0 to |files|
      invariant |partials| == i
      invariant forall k :: 0 <= k < i ==> partials[k] == FileRecords(files[k])
    {
      var partial := ProcessFile(files[i]);
      partials := partials + [partial];
    }
    assert partials == Partials(files);
    allLines := [];
    for i := 0 to |partials|
      invariant allLines == Concat(partials[..i])
    {
      assert partials[..i + 1][..i] == partials[..i];
      allLines := allLines + partials[i];
    }
    assert partials[..|partials|] == partials;
  }

  /**
    The sort of lines 101-104 as an in-place insertion sort whose comparisons
    call extractTimestamp on both sides, as the comparator does. Lines with
    equal timestamps may end up in any order.
   */
  method SortByTimestamp(a: array<string>)
    modifies a
    ensures SortedByTimestamp(a[..])
    ensures multiset(a[..]) == old(multiset(a[..]))
  {
    var i := 0;
    while i < a.Length
      invariant 0 <= i <= a.Length
      invariant SortedByTimestamp(a[..i])
      invariant multiset(a[..]) == old(multiset(a[..]))
    {
      InsertInPlace(a, i);
      i := i + 1;
    }
    assert a[..a.Length] == a[..];
  }

  /** One pass of the insertion sort: move a[i] left past every line with a later timestamp. */
  method InsertInPlace(a: array<string>, i: nat)
    requires i < a.Length && SortedByTimestamp(a[..i])
    modifies a
    ensures SortedByTimestamp(a[..i + 1])
    ensures multiset(a[..]) == old(multiset(a[..]))
    ensures a[i + 1..] == old(a[i + 1..])
  {
    var j := i;
    InsertStart(a[..], i);
    while j > 0
      invariant 0 <= j <= i
      invariant multiset(a[..]) == old(multiset(a[..]))
      invariant a[i + 1..] == old(a[i + 1..])
      invariant Inserting(a[..], i, j)
    {
      var before := ExtractTimestamp(a[j - 1]);
      var current := ExtractTimestamp(a[j]);
      if before <= current {
        break;
      }
      ghost var s := a[..];
      a[j - 1], a[j] := a[j], a[j - 1];
      assert a[..] == s[j - 1 := s[j]][j := s[j - 1]];
      assert a[i + 1..] == s[i + 1..];
      InsertStep(s, i, j);
      j := j - 1;
    }
    InsertDone(a[..], i, j);
  }

  /**
    The state of an insertion pass that has moved the new line to index j:
    every pair of [0, i] not involving j is ordered, and the line at j is
    ordered before everything after it.
   */
  predicate Inserting(s: seq<string>, i: nat, j: nat)
    requires j <= i < |s|
  {
    && (forall p, q :: 0 <= p < q <= i && p != j && q != j ==> Timestamp(s[p]) <= Timestamp(s[q]))
    && (forall q :: j < q <= i ==> Timestamp(s[j]) <= Timestamp(s[q]))
  }

  lemma InsertStart(s: seq<string>, i: nat)
    requires i < |s| && SortedByTimestamp(s[..i])
    ensures Inserting(s, i, i)
  {
    forall p, q | 0 <= p < q < i ensures Timestamp(s[p]) <= Timestamp(s[q]) {
      assert s[..i][p] == s[p] && s[..i][q] == s[q];
    }
  }

  lemma InsertStep(s: seq<string>, i: nat, j: nat)
    requires 0 < j <= i < |s| && Inserting(s, i, j)
    requires Timestamp(s[j - 1]) > Timestamp(s[j])
    ensures Inserting(s[j - 1 := s[j]][j := s[j - 1]], i, j - 1)
  {
  }

  lemma InsertDone(s: seq<string>, i: nat, j: nat)
    requires j <= i < |s| && Inserting(s, i, j)
    requires j == 0 || Timestamp(s[j - 1]) <= Timestamp(s[j])
    ensures SortedByTimestamp(s[..i + 1])
  {
    forall p, q | 0 <= p < q <= i ensures Timestamp(s[p]) <= Timestamp(s[q]) {
      if q == j && p < j - 1 {
        assert Timestamp(s[p]) <= Timestamp(s[j - 1]);
      }
    }
    var t := s[..i + 1];
    forall p, q | 0 <= p < q < |t| ensures Timestamp(t[p]) <= Timestamp(t[q]) {
      assert t[p] == s[p] && t[q] == s[q];
    }
  }

  /** The output loop of lines 107-111; the text the ofstream receives. */
  method WriteDocument(lines: seq<string>) returns (out: string)
    ensures out == Document(lines)
  {
    out := EXPECTED_HEADER + [NEWLINE];
    for i := 0 to |lines|
      invariant out == EXPECTED_HEADER + [NEWLINE] + Body(lines[..i])
    {
      BodySnoc(lines[..i], lines[i]);
      assert lines[..i + 1] == lines[..i] + [lines[i]];
      out := out + lines[i] + [NEWLINE];
    }
    assert lines[..|lines|] == lines;
  }

  /**
    mergeFilesParallel (lines 79-116) over a directory listing: the sorted
    records, the text written to the output file and the count reported on
    standard output.
   */
  method MergeFiles(entries: seq<DirEntry>, prefix: string) returns (allLines: seq<string>, output: string, count: nat)
    ensures SortedByTimestamp(allLines)
    ensures multiset(allLines) == multiset(Collected(SelectedFiles(entries, prefix)))
    ensures forall l :: l in allLines ==> Accepted(l) && NEWLINE !in l
    ensures output == Document(allLines)
    ensures count == |allLines| == TotalLength(Partials(SelectedFiles(entries, prefix)))
    ensures SelectedFiles(entries, prefix) == [] ==> output == EXPECTED_HEADER + "\n" && count == 0
    ensures FileRecords(Readable(output)) == allLines
  {
    var files := SelectFiles(entries, prefix);
    var collected := CollectRecords(files);
    var a := new string[|collected|](k requires 0 <= k < |collected| => collected[k]);
    assert a[..] == collected;
    SortByTimestamp(a);
    allLines := a[..];
    forall l | l in allLines ensures Accepted(l) && NEWLINE !in l {
      assert l in multiset(collected);
      CollectedSound(files, l);
    }
    ConcatLength(Partials(files));
    output := WriteDocument(allLines);
    count := |allLines|;
    RemergeIsIdentity(allLines);
  }

  /** A file is processed exactly when some regular directory entry with the prefix holds it. */
  lemma {:induction false} SelectedFilesMembers(entries: seq<DirEntry>, prefix: string, f: InputFile)
    ensures f in SelectedFiles(entries, prefix) <==> exists e :: e in entries && Selected(e, prefix) && e.file == f
  {
    if entries != [] {
      var init := entries[..|entries| - 1];
      var last := entries[|entries| - 1];
      SelectedFilesMembers(init, prefix, f);
      assert entries == init + [last];
      if f in SelectedFiles(entries, prefix) && !(f in SelectedFiles(init, prefix)) {
        assert last in entries;
      }
      if e :| e in entries && Selected(e, prefix) && e.file == f {
        if e != last {
          assert e in init;
        }
      }
    }
  }

  /** The collected lines are those the filter keeps from all the lines of the files, in file order. */
  lemma {:induction false} CollectedIsFiltered(files: seq<InputFile>)
    ensures Collected(files) == AcceptedLines(AllLines(files))
  {
    if files != [] {
      var n := |files| - 1;
      var init := files[..n];
      assert Partials(files)[..n] == Partials(init);
      CollectedIsFiltered(init);
      AcceptedLinesAppend(AllLines(init), Lines(files[n]));
    }
  }

  /** The size of the concatenation is the sum of the sizes of the parts. */
  lemma {:induction false} ConcatLength(parts: seq<seq<string>>)
    ensures |Concat(parts)| == TotalLength(parts)
  {
    if parts != [] {
      ConcatLength(parts[..|parts| - 1]);
    }
  }

  /** A line is in the concatenation exactly when it is in one of the parts. */
  lemma {:induction false} ConcatMembers(parts: seq<seq<string>>, l: string)
    ensures l in Concat(parts) <==> exists i :: 0 <= i < |parts| && l in parts[i]
  {
    if parts != [] {
      var n := |parts| - 1;
      var init := parts[..n];
      ConcatMembers(init, l);
      if l in Concat(init) {
        var i :| 0 <= i < n && l in init[i];
        assert parts[i] == init[i];
      }
      if i :| 0 <= i < |parts| && l in parts[i] {
        if i < n {
          assert parts[i] == init[i];
        }
      }
    }
  }

  /** A line is collected exactly when processFile keeps it from one of the files. */
  lemma CollectedMembers(files: seq<InputFile>, l: string)
    ensures l in Collected(files) <==> exists i :: 0 <= i < |files| && l in FileRecords(files[i])
  {
    var parts := Partials(files);
    ConcatMembers(parts, l);
    if l in Collected(files) {
      var i :| 0 <= i < |parts| && l in parts[i];
      assert parts[i] == FileRecords(files[i]);
    }
    if i :| 0 <= i < |files| && l in FileRecords(files[i]) {
      assert parts[i] == FileRecords(files[i]);
    }
  }

  /** Every collected line passed the filter and is a single line. */
  lemma CollectedSound(files: seq<InputFile>, l: string)
    requires l in Collected(files)
    ensures Accepted(l) && NEWLINE !in l
  {
    CollectedMembers(files, l);
    var i :| 0 <= i < |files| && l in FileRecords(files[i]);
    FileRecordsSound(files[i], l);
  }

  lemma {:induction false} BodySnoc(lines: seq<string>, l: string)
    ensures Body(lines + [l]) == Body(lines) + l + [NEWLINE]
  {
    if lines == [] {
      assert [] + [l] == [l];
    } else {
      assert (lines + [l])[1..] == lines[1..] + [l];
      BodySnoc(lines[1..], l);
    }
  }

  /** Reading the written records back with getline gives the records. */
  lemma {:induction false} SplitBody(lines: seq<string>)
    requires forall k :: 0 <= k < |lines| ==> NEWLINE !in lines[k]
    ensures Split(Body(lines), NEWLINE) == lines
  {
    if lines != [] {
      SplitCons(lines[0], NEWLINE, Body(lines[1..]));
      SplitBody(lines[1..]);
    }
  }

  /** The output file read line by line: the header, then every record. */
  lemma DocumentLines(lines: seq<string>)
    requires forall k :: 0 <= k < |lines| ==> NEWLINE !in lines[k]
    ensures Split(Document(lines), NEWLINE) == [EXPECTED_HEADER] + lines
  {
    assert NEWLINE !in EXPECTED_HEADER;
    SplitCons(EXPECTED_HEADER, NEWLINE, Body(lines));
    SplitBody(lines);
  }

  /**
    Feeding a merged output file to processFile again gives back exactly the
    records it holds: the header is dropped and every record passes.
   */
  lemma RemergeIsIdentity(lines: seq<string>)
    requires forall k :: 0 <= k < |lines| ==> Accepted(lines[k]) && NEWLINE !in lines[k]
    ensures FileRecords(Readable(Document(lines))) == lines
  {
    DocumentLines(lines);
    AcceptedLinesCons(EXPECTED_HEADER, lines);
    AcceptedLinesKeepsAll(lines);
  }
}
