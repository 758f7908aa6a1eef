/**
  The two string primitives the merge tool relies on: substring search as
  std::string::find performs it, and the tokenisation that a loop of
  std::getline(stream, token, delim) performs, with '\n' on a file and with
  '\t' on one line.
 */
module Text {
  import opened Wrappers

  const TAB: char := '\t'
  const NEWLINE: char := '\n'

  /** pat occurs in s starting at index k. */
  predicate OccursAt(s: string, pat: string, k: nat) {
    k + |pat| <= |s| && s[k..k + |pat|] == pat
  }

  function FindFrom(s: string, pat: string, i: nat): (r: Option<nat>)
    decreases |s| - i
    ensures r.Some? ==> i <= r.value && OccursAt(s, pat, r.value)
  {
    if i + |pat| > |s| then None
    else if OccursAt(s, pat, i) then Some(i)
    else FindFrom(s, pat, i + 1)
  }

  /** s.find(pat): the first index at which pat occurs, None for npos. */
  function Find(s: string, pat: string): (r: Option<nat>)
    ensures r.Some? ==> OccursAt(s, pat, r.value)
  {
    FindFrom(s, pat, 0)
  }

  /** s.find(pat) != npos: the pattern occurs somewhere in s. */
  function Contains(s: string, pat: string): (r: bool)
    ensures r <==> exists k: nat :: OccursAt(s, pat, k)
  {
    FindFirst(s, pat);
    Find(s, pat).Some?
  }

  /** name.find(prefix) == 0, the filename test of the directory scan. */
  function HasPrefix(name: string, prefix: string): (r: bool)
    ensures r <==> prefix <= name
  {
    assert OccursAt(name, prefix, 0) <==> prefix <= name;
    if Find(name, prefix) == Some(0) then true
    else
      FindFromFirst(name, prefix, 0);
      false
  }

  /** The search from i stops at the first occurrence at or after i, and fails only when there is none. */
  lemma {:induction false} FindFromFirst(s: string, pat: string, i: nat)
    decreases |s| - i
    ensures FindFrom(s, pat, i).Some? ==> forall k: nat :: i <= k < FindFrom(s, pat, i).value ==> !OccursAt(s, pat, k)
    ensures FindFrom(s, pat, i).None? <==> forall k: nat :: i <= k ==> !OccursAt(s, pat, k)
  {
    if i + |pat| <= |s| && !OccursAt(s, pat, i) {
      FindFromFirst(s, pat, i + 1);
    }
  }

  /** find returns the first occurrence, and npos exactly when there is none. */
  lemma FindFirst(s: string, pat: string)
    ensures Find(s, pat).Some? ==> forall k: nat :: k < Find(s, pat).value ==> !OccursAt(s, pat, k)
    ensures Find(s, pat).None? <==> forall k: nat :: !OccursAt(s, pat, k)
  {
    FindFromFirst(s, pat, 0);
  }

  /** Number of characters std::getline takes before it meets the delimiter. */
  function FieldEnd(s: string, delim: char): (n: nat)
    ensures n <= |s|
    ensures n < |s| ==> s[n] == delim
  {
    if s == [] || s[0] == delim then 0 else 1 + FieldEnd(s[1..], delim)
  }

  /** The characters getline takes hold no delimiter. */
  lemma {:induction false} FieldEndFree(s: string, delim: char)
    ensures delim !in s[..FieldEnd(s, delim)]
  {
    if s != [] && s[0] != delim {
      var n := FieldEnd(s, delim);
      FieldEndFree(s[1..], delim);
      assert s[..n] == [s[0]] + s[1..][..n - 1];
    }
  }

  /**
    The tokens produced by repeatedly calling std::getline(stream, token, delim)
    on a stream over s. A call that extracts nothing fails, so the empty text
    has no token, and a final delimiter does not start another one.
   */
  function Split(s: string, delim: char): (fs: seq<string>)
    decreases |s|
    ensures s != [] <==> fs != []
  {
    if s == [] then []
    else
      var n := FieldEnd(s, delim);
      if n == |s| then
        assert s[..n] == s;
        [s]
      else [s[..n]] + Split(s[n + 1..], delim)
  }

  /** FieldEnd is the index of the first delimiter, or the length when there is none. */
  lemma FieldEndIs(s: string, delim: char, n: nat)
    requires n <= |s| && delim !in s[..n]
    requires n < |s| ==> s[n] == delim
    ensures FieldEnd(s, delim) == n
  {
    var m := FieldEnd(s, delim);
    FieldEndFree(s, delim);
    forall k | 0 <= k < n ensures s[k] != delim {
      assert s[..n][k] == s[k];
    }
    forall k | 0 <= k < m ensures s[k] != delim {
      assert s[..m][k] == s[k];
    }
  }

  /**
    One call of std::getline(stream, token, delim) on a stream over s whose
    read position is pos: the characters up to the next delimiter, and the
    position after that delimiter (or the end). The tokens left to read are
    then exactly those after the one taken.
   */
  method GetLine(s: string, pos: nat, delim: char) returns (token: string, next: nat)
    requires pos < |s|
    ensures pos < next <= |s|
    ensures delim !in token
    ensures Split(s[pos..], delim) == [token] + Split(s[next..], delim)
  {
    var i := pos;
    while i < |s| && s[i] != delim
      invariant pos <= i <= |s|
      invariant delim !in s[pos..i]
    {
      i := i + 1;
    }
    token := s[pos..i];
    next := if i < |s| then i + 1 else i;
    TakeToken(s, pos, i, delim);
  }

  /** The characters from pos up to the next delimiter at i (or the end) are the first token of s[pos..]. */
  lemma TakeToken(s: string, pos: nat, i: nat, delim: char)
    requires pos <= i <= |s| && pos < |s|
    requires delim !in s[pos..i]
    requires i < |s| ==> s[i] == delim
    ensures Split(s[pos..], delim) == [s[pos..i]] + Split(s[if i < |s| then i + 1 else i..], delim)
  {
    var rest := s[pos..];
    assert rest[..i - pos] == s[pos..i];
    FieldEndIs(rest, delim, i - pos);
    if i < |s| {
      assert rest[i - pos + 1..] == s[i + 1..];
    } else {
      assert rest[..i - pos] == rest;
      assert s[i..] == [];
    }
  }

  /** No token contains the delimiter. */
  lemma {:induction false} SplitTokensFree(s: string, delim: char)
    decreases |s|
    ensures FreeOf(Split(s, delim), delim)
  {
    if s != [] {
      var n := FieldEnd(s, delim);
      FieldEndFree(s, delim);
      if n < |s| {
        SplitTokensFree(s[n + 1..], delim);
      } else {
        assert s[..n] == s;
      }
    }
  }

  /** The tab-delimited token at 0-based index k, None when the line has no such token. */
  function Field(s: string, k: nat): Option<string> {
    var fs := Split(s, TAB);
    if k < |fs| then Some(fs[k]) else None
  }

  /** The text made of the given tokens separated by single delimiters. */
  function Join(fs: seq<string>, delim: char): string
    decreases |fs|
  {
    if |fs| == 0 then ""
    else if |fs| == 1 then fs[0]
    else fs[0] + [delim] + Join(fs[1..], delim)
  }

  predicate FreeOf(fs: seq<string>, delim: char) {
    forall f :: f in fs ==> delim !in f
  }

  lemma FieldEndWhole(s: string, delim: char)
    requires delim !in s
    ensures FieldEnd(s, delim) == |s|
  {
  }

  lemma SplitSingle(a: string, delim: char)
    requires delim !in a
    ensures Split(a, delim) == if a == "" then [] else [a]
  {
    if a != "" {
      FieldEndWhole(a, delim);
    }
  }

  /** A delimiter-free token followed by the delimiter is exactly what one getline call takes. */
  lemma SplitCons(a: string, delim: char, t: string)
    requires delim !in a
    ensures Split(a + [delim] + t, delim) == [a] + Split(t, delim)
  {
    var s := a + [delim] + t;
    assert s[..|a|] == a;
    FieldEndIs(s, delim, |a|);
    assert s[|a| + 1..] == t;
  }

  /** The tokens without a final empty one, which getline does not produce. */
  function DropTrailingEmpty(fs: seq<string>): seq<string> {
    if fs != [] && fs[|fs| - 1] == "" then fs[..|fs| - 1] else fs
  }

  /** Splitting joined tokens gives them back, except that one trailing empty token is lost. */
  lemma {:induction false} SplitJoin(fs: seq<string>, delim: char)
    requires FreeOf(fs, delim)
    ensures Split(Join(fs, delim), delim) == DropTrailingEmpty(fs)
  {
    if |fs| == 1 {
      assert fs[0] in fs;
      SplitSingle(fs[0], delim);
    } else if |fs| > 1 {
      FreeOfTail(fs, delim);
      SplitJoin(fs[1..], delim);
      SplitJoinStep(fs, delim);
    }
  }

  lemma FreeOfTail(fs: seq<string>, delim: char)
    requires fs != [] && FreeOf(fs, delim)
    ensures delim !in fs[0] && FreeOf(fs[1..], delim)
  {
    assert fs[0] in fs;
    forall f | f in fs[1..] ensures delim !in f {
      assert f in fs;
    }
  }

  lemma SplitJoinStep(fs: seq<string>, delim: char)
    requires |fs| >= 2 && delim !in fs[0]
    requires Split(Join(fs[1..], delim), delim) == DropTrailingEmpty(fs[1..])
    ensures Split(Join(fs, delim), delim) == DropTrailingEmpty(fs)
  {
    var rest := fs[1..];
    JoinCons(fs[0], rest, delim);
    assert [fs[0]] + rest == fs;
    SplitCons(fs[0], delim, Join(rest, delim));
    DropLastCons(fs);
  }

  lemma DropLastCons(fs: seq<string>)
    requires |fs| >= 2
    ensures DropTrailingEmpty(fs) == [fs[0]] + DropTrailingEmpty(fs[1..])
  {
    assert fs[1..][|fs| - 2] == fs[|fs| - 1];
    assert [fs[0]] + fs[1..][..|fs| - 2] == fs[..|fs| - 1];
    assert [fs[0]] + fs[1..] == fs;
  }

  /** The final delimiter of s, which getline consumes without starting another token. */
  function Trailer(s: string, delim: char): string {
    if s != [] && s[|s| - 1] == delim then [delim] else []
  }

  /** Joining the tokens rebuilds the text, up to a final delimiter that getline swallows. */
  lemma {:induction false} JoinSplit(s: string, delim: char)
    decreases |s|
    ensures Join(Split(s, delim), delim) + Trailer(s, delim) == s
  {
    if s != [] {
      var n := FieldEnd(s, delim);
      if n == |s| {
        JoinSplitLast(s, delim);
      } else {
        JoinSplit(s[n + 1..], delim);
        JoinSplitStep(s, delim);
      }
    }
  }

  lemma JoinSplitLast(s: string, delim: char)
    requires s != [] && FieldEnd(s, delim) == |s|
    ensures Join(Split(s, delim), delim) + Trailer(s, delim) == s
  {
    FieldEndFree(s, delim);
    assert s[..|s|] == s;
    assert s[|s| - 1] in s[..|s|];
  }

  lemma JoinSplitStep(s: string, delim: char)
    requires s != [] && FieldEnd(s, delim) < |s|
    requires Join(Split(s[FieldEnd(s, delim) + 1..], delim), delim) + Trailer(s[FieldEnd(s, delim) + 1..], delim)
      == s[FieldEnd(s, delim) + 1..]
    ensures Join(Split(s, delim), delim) + Trailer(s, delim) == s
  {
    var n := FieldEnd(s, delim);
    var head := s[..n];
    var t := s[n + 1..];
    var ts := Split(t, delim);
    SplitHead(s, delim);
    JoinCons(head, ts, delim);
    TrailerOfTail(head, delim, t);
    Reassociate(head, [delim], Join(ts, delim), Trailer(t, delim));
  }

  lemma SplitHead(s: string, delim: char)
    requires s != [] && FieldEnd(s, delim) < |s|
    ensures Split(s, delim) == [s[..FieldEnd(s, delim)]] + Split(s[FieldEnd(s, delim) + 1..], delim)
    ensures s == s[..FieldEnd(s, delim)] + [delim] + s[FieldEnd(s, delim) + 1..]
  {
    var n := FieldEnd(s, delim);
    SliceAround(s, n);
  }

  /** A text is the part before index n, the character at n and the part after it. */
  lemma SliceAround(s: string, n: nat)
    requires n < |s|
    ensures s == s[..n] + [s[n]] + s[n + 1..]
  {
  }

  lemma TrailerOfTail(head: string, delim: char, t: string)
    ensures Trailer(head + [delim] + t, delim) == if t == [] then [delim] else Trailer(t, delim)
  {
    if t != [] {
      assert (head + [delim] + t)[|head + [delim] + t| - 1] == t[|t| - 1];
    }
  }

  lemma Reassociate(a: string, b: string, c: string, d: string)
    ensures a + b + c + d == a + b + (c + d)
  {
  }

  lemma JoinCons(head: string, ts: seq<string>, delim: char)
    ensures Join([head] + ts, delim) == if ts == [] then head else head + [delim] + Join(ts, delim)
  {
    assert ([head] + ts)[1..] == ts;
  }

  /** Field k of joined tab-free tokens is the k-th token, unless it is the trailing empty one. */
  lemma FieldOfJoin(fs: seq<string>, k: nat)
    requires FreeOf(fs, TAB)
    ensures Field(Join(fs, TAB), k) ==
      if k < |fs| && (k < |fs| - 1 || fs[k] != "") then Some(fs[k]) else None
  {
    SplitJoin(fs, TAB);
    DropTrailingEmptyAt(fs, k);
  }

  lemma DropTrailingEmptyAt(fs: seq<string>, k: nat)
    ensures k < |DropTrailingEmpty(fs)| <==> k < |fs| && (k < |fs| - 1 || fs[k] != "")
    ensures k < |DropTrailingEmpty(fs)| ==> DropTrailingEmpty(fs)[k] == fs[k]
  {
  }

  /** Lines of two to five tab-separated fields, the last one non-empty, split into exactly those fields. */
  lemma SplitTwo(a: string, b: string)
    requires TAB !in a && TAB !in b && b != ""
    ensures Split(a + [TAB] + b, TAB) == [a, b]
  {
    SplitSingle(b, TAB);
    SplitCons(a, TAB, b);
  }

  lemma SplitThree(a: string, b: string, c: string)
    requires TAB !in a && TAB !in b && TAB !in c && c != ""
    ensures Split(a + [TAB] + (b + [TAB] + c), TAB) == [a, b, c]
  {
    SplitTwo(b, c);
    SplitCons(a, TAB, b + [TAB] + c);
  }

  lemma SplitFour(a: string, b: string, c: string, d: string)
    requires TAB !in a && TAB !in b && TAB !in c && TAB !in d && d != ""
    ensures Split(a + [TAB] + (b + [TAB] + (c + [TAB] + d)), TAB) == [a, b, c, d]
  {
    var t := b + [TAB] + (c + [TAB] + d);
    SplitThree(b, c, d);
    SplitCons(a, TAB, t);
    assert [a] + [b, c, d] == [a, b, c, d];
  }

  lemma SplitFive(a: string, b: string, c: string, d: string, e: string)
    requires TAB !in a && TAB !in b && TAB !in c && TAB !in d && TAB !in e && e != ""
    ensures Split(a + [TAB] + (b + [TAB] + (c + [TAB] + (d + [TAB] + e))), TAB) == [a, b, c, d, e]
  {
    var t := b + [TAB] + (c + [TAB] + (d + [TAB] + e));
    SplitFour(b, c, d, e);
    SplitCons(a, TAB, t);
    assert [a] + [b, c, d, e] == [a, b, c, d, e];
  }
}
