/** The byte stream that the source digest hashes. `read` stands for reading a tracked file and summing
    it: the hexadecimal digits of its SHA-256, or nothing if the file cannot be read. */
module Digest {
  import opened Wrappers
  import GoStrings

  type Byte = n: int | 0 <= n < 256
  type Bytes = seq<Byte>

  const NUL: Byte := 0
  const SUM_LENGTH := 64

  /** A sum: a fixed number of hexadecimal digits. */
  predicate IsSum(sum: Bytes) {
    |sum| == SUM_LENGTH && forall i :: 0 <= i < |sum| ==> 48 <= sum[i] <= 57 || 97 <= sum[i] <= 102
  }

  /** A path as it comes out of a NUL-separated list. */
  predicate IsPath(path: Bytes) {
    path != [] && NUL !in path
  }

  // Order.

  /** Byte-wise lexicographic order, shorter first. */
  predicate AtMost(a: Bytes, b: Bytes) {
    a == [] || (b != [] && (a[0] < b[0] || (a[0] == b[0] && AtMost(a[1..], b[1..]))))
  }

  lemma {:induction false} AtMostTotal(a: Bytes, b: Bytes)
    ensures AtMost(a, b) || AtMost(b, a)
  {
    if a != [] && b != [] {
      AtMostTotal(a[1..], b[1..]);
    }
  }

  lemma {:induction false} AtMostAntisymmetric(a: Bytes, b: Bytes)
    requires AtMost(a, b) && AtMost(b, a)
    ensures a == b
  {
    if a != [] {
      AtMostAntisymmetric(a[1..], b[1..]);
      assert a == [a[0]] + a[1..] && b == [b[0]] + b[1..];
    }
  }

  lemma {:induction false} AtMostTransitive(a: Bytes, b: Bytes, c: Bytes)
    requires AtMost(a, b) && AtMost(b, c)
    ensures AtMost(a, c)
  {
    if a != [] && a[0] == b[0] == c[0] {
      AtMostTransitive(a[1..], b[1..], c[1..]);
    }
  }

  /** The two agree up to `k`, and there `a` has the smaller byte. */
  predicate SmallerAt(a: Bytes, b: Bytes, k: int) {
    0 <= k < |a| && k < |b| && a[..k] == b[..k] && a[k] < b[k]
  }

  /** What the order is: a prefix comes before what it is a prefix of, and otherwise the smaller byte decides
      where the two first differ. */
  lemma {:induction false} AtMostMeans(a: Bytes, b: Bytes)
    ensures AtMost(a, b) <==> a <= b || exists k :: SmallerAt(a, b, k)
  {
    if a != [] && b != [] {
      if a[0] == b[0] {
        AtMostMeans(a[1..], b[1..]);
        assert a == [a[0]] + a[1..] && b == [b[0]] + b[1..];
        if k :| SmallerAt(a[1..], b[1..], k) {
          assert a[..k + 1] == [a[0]] + a[1..][..k] && b[..k + 1] == [b[0]] + b[1..][..k];
          assert SmallerAt(a, b, k + 1);
        }
        if k :| SmallerAt(a, b, k) {
          assert a[1..][..k - 1] == a[..k][1..] && b[1..][..k - 1] == b[..k][1..];
          assert SmallerAt(a[1..], b[1..], k - 1);
        }
      } else if a[0] < b[0] {
        assert SmallerAt(a, b, 0);
      }
    }
  }

  predicate Sorted(paths: seq<Bytes>) {
    forall i, j :: 0 <= i < j < |paths| ==> AtMost(paths[i], paths[j])
  }

  function Insert(path: Bytes, sorted: seq<Bytes>): seq<Bytes> {
    if sorted == [] || AtMost(path, sorted[0]) then [path] + sorted else [sorted[0]] + Insert(path, sorted[1..])
  }

  /** What the library sort leaves in the slice. Its algorithm does not matter: see SortedUnique. */
  function Sort(paths: seq<Bytes>): seq<Bytes> {
    if paths == [] then [] else Insert(paths[0], Sort(paths[1..]))
  }

  lemma {:induction false} InsertSorts(path: Bytes, sorted: seq<Bytes>)
    requires Sorted(sorted)
    ensures Sorted(Insert(path, sorted))
    ensures multiset(Insert(path, sorted)) == multiset{path} + multiset(sorted)
  {
    if sorted == [] {
    } else if AtMost(path, sorted[0]) {
      forall i | 0 <= i < |sorted| ensures AtMost(path, sorted[i]) {
        if i > 0 {
          AtMostTransitive(path, sorted[0], sorted[i]);
        }
      }
    } else {
      var rest := sorted[1..];
      AtMostTotal(path, sorted[0]);
      InsertSorts(path, rest);
      assert sorted == [sorted[0]] + rest;
      forall x | x in Insert(path, rest) ensures AtMost(sorted[0], x) {
        assert x in multiset(Insert(path, rest));
        if x != path {
          assert x in rest;
        }
      }
    }
  }

  lemma {:induction false} SortSorts(paths: seq<Bytes>)
    ensures Sorted(Sort(paths)) && multiset(Sort(paths)) == multiset(paths)
  {
    if paths != [] {
      SortSorts(paths[1..]);
      InsertSorts(paths[0], Sort(paths[1..]));
      assert paths == [paths[0]] + paths[1..];
    }
  }

  lemma FirstIsLeast(paths: seq<Bytes>, x: Bytes)
    requires Sorted(paths) && x in paths
    ensures AtMost(paths[0], x)
  {
    AtMostTotal(x, x);
  }

  lemma SameFirst(a: seq<Bytes>, b: seq<Bytes>)
    requires Sorted(a) && Sorted(b) && multiset(a) == multiset(b) && a != [] && b != []
    ensures a[0] == b[0]
  {
    assert a[0] in multiset(b) && b[0] in multiset(a);
    FirstIsLeast(a, b[0]);
    FirstIsLeast(b, a[0]);
    AtMostAntisymmetric(a[0], b[0]);
  }

  /** Two sorted lists of the same paths are the same list, whatever sorted them. */
  lemma {:induction false} SortedUnique(a: seq<Bytes>, b: seq<Bytes>)
    requires Sorted(a) && Sorted(b) && multiset(a) == multiset(b)
    ensures a == b
  {
    assert |multiset(a)| == |a| && |multiset(b)| == |b|;
    if a != [] {
      SameFirst(a, b);
      assert a == [a[0]] + a[1..] && b == [b[0]] + b[1..];
      assert multiset(a[1..]) == multiset(a) - multiset{a[0]};
      assert multiset(b[1..]) == multiset(b) - multiset{b[0]};
      SortedUnique(a[1..], b[1..]);
    }
  }

  // Framing.

  /** The stream of a list of files: path, NUL, sum, NUL, for each. */
  function Framed(files: seq<(Bytes, Bytes)>): Bytes {
    if files == [] then [] else Framed(files[..|files| - 1]) + Frame(files[|files| - 1])
  }

  function Frame(file: (Bytes, Bytes)): Bytes {
    file.0 + [NUL] + file.1 + [NUL]
  }

  /** Reads a stream back: up to a NUL, up to the next, and so on. None if it does not end there. */
  function Unframed(stream: Bytes): Option<seq<(Bytes, Bytes)>>
    decreases |stream|
  {
    if stream == [] then Some([])
    else
      var (path, afterPath, found) := GoStrings.Cut(stream, NUL);
      if !found then None
      else
        var (sum, afterSum, foundSum) := GoStrings.Cut(afterPath, NUL);
        if !foundSum then None
        else
          var rest := Unframed(afterSum);
          if rest.None? then None else Some([(path, sum)] + rest.value)
  }

  predicate WellFormed(files: seq<(Bytes, Bytes)>) {
    forall i :: 0 <= i < |files| ==> IsPath(files[i].0) && IsSum(files[i].1)
  }

  lemma {:induction false} FramedFirst(files: seq<(Bytes, Bytes)>)
    requires files != []
    ensures Framed(files) == Frame(files[0]) + Framed(files[1..])
  {
    var k := |files| - 1;
    if k > 0 {
      FramedFirst(files[..k]);
      assert files[..k][1..] == files[1..][..k - 1];
    }
  }

  lemma UnframedFirst(path: Bytes, sum: Bytes, rest: Bytes)
    requires NUL !in path && NUL !in sum
    ensures Unframed(path + [NUL] + (sum + [NUL] + rest))
            == if Unframed(rest).None? then None else Some([(path, sum)] + Unframed(rest).value)
  {
    GoStrings.CutAt(path, NUL, sum + [NUL] + rest);
    GoStrings.CutAt(sum, NUL, rest);
  }

  lemma FrameThen(path: Bytes, sum: Bytes, rest: Bytes)
    ensures Frame((path, sum)) + rest == path + [NUL] + (sum + [NUL] + rest)
  {
  }

  lemma SumHasNoNul(sum: Bytes)
    requires IsSum(sum)
    ensures NUL !in sum
  {
  }

  /** Unique decodability: the stream gives back the files, in order. */
  lemma {:induction false} UnframedFramed(files: seq<(Bytes, Bytes)>)
    requires WellFormed(files)
    ensures Unframed(Framed(files)) == Some(files)
  {
    if files != [] {
      var (path, sum) := files[0];
      var rest := Framed(files[1..]);
      FramedFirst(files);
      UnframedFramed(files[1..]);
      SumHasNoNul(sum);
      UnframedFirst(path, sum, rest);
      FrameThen(path, sum, rest);
      assert files == [files[0]] + files[1..];
    }
  }

  // The digest.

  type Reader = Bytes -> Option<Bytes>

  predicate Readable(paths: seq<Bytes>, read: Reader) {
    forall i :: 0 <= i < |paths| ==> read(paths[i]).Some?
  }

  /** The files of a path list with their sums. */
  function Summed(paths: seq<Bytes>, read: Reader): (files: seq<(Bytes, Bytes)>)
    requires Readable(paths, read)
    ensures |files| == |paths|
    ensures forall i :: 0 <= i < |paths| ==> files[i] == (paths[i], read(paths[i]).value)
  {
    if paths == [] then []
    else Summed(paths[..|paths| - 1], read) + [(paths[|paths| - 1], read(paths[|paths| - 1]).value)]
  }

  /** The non-empty parts of the NUL-separated list. */
  function Listed(parts: seq<Bytes>): seq<Bytes> {
    if parts == [] then []
    else Listed(parts[..|parts| - 1]) + if parts[|parts| - 1] == [] then [] else [parts[|parts| - 1]]
  }

  function Files(raw: Bytes): seq<Bytes> {
    Listed(GoStrings.Split(raw, NUL))
  }

  /** The stream hashed for a file list, if every file can be read. */
  function Stream(raw: Bytes, read: Reader): Option<Bytes> {
    var sorted := Sort(Files(raw));
    if Readable(sorted, read) then Some(Framed(Summed(sorted, read))) else None
  }

  lemma OneMoreFile(paths: seq<Bytes>, i: nat, read: Reader)
    requires i < |paths| && Readable(paths[..i], read) && read(paths[i]).Some?
    ensures Readable(paths[..i + 1], read)
    ensures Framed(Summed(paths[..i + 1], read))
            == Framed(Summed(paths[..i], read)) + Frame((paths[i], read(paths[i]).value))
  {
    var before := Summed(paths[..i], read);
    assert paths[..i + 1][..i] == paths[..i];
    assert Summed(paths[..i + 1], read) == before + [(paths[i], read(paths[i]).value)];
    assert Summed(paths[..i + 1], read)[..i] == before;
  }

  method Feed(files: seq<Bytes>, read: Reader) returns (digest: Option<Bytes>)
    ensures digest.Some? <==> Readable(files, read)
    ensures digest.Some? ==> digest.value == Framed(Summed(files, read))
  {
    var written: Bytes := [];
    for i := 0 to |files|
      invariant Readable(files[..i], read)
      invariant written == Framed(Summed(files[..i], read))
    {
      var sum := read(files[i]);
      if sum.None? {
        return None;
      }
      OneMoreFile(files, i, read);
      ghost var before := written;
      written := written + files[i];
      written := written + [NUL];
      written := written + sum.value;
      written := written + [NUL];
      assert written == before + Frame((files[i], sum.value));
    }
    assert files[..|files|] == files;
    return Some(written);
  }

  /** Returns the bytes written to the digest and the number of files. */
  method SourceDigest(raw: Bytes, read: Reader) returns (r: Option<(Bytes, nat)>)
    ensures r.Some? <==> Stream(raw, read).Some?
    ensures r.Some? ==> r.value == (Stream(raw, read).value, |Files(raw)|)
  {
    var parts := GoStrings.Split(raw, NUL);
    var files: seq<Bytes> := [];
    for i := 0 to |parts|
      invariant files == Listed(parts[..i])
    {
      assert parts[..i + 1][..i] == parts[..i];
      if parts[i] != [] {
        files := files + [parts[i]];
      }
    }
    assert parts[..|parts|] == parts;
    SortLength(files);
    files := Sort(files);
    var digest := Feed(files, read);
    return if digest.None? then None else Some((digest.value, |files|));
  }

  lemma SortLength(paths: seq<Bytes>)
    ensures |Sort(paths)| == |paths|
  {
    SortSorts(paths);
    assert |multiset(Sort(paths))| == |Sort(paths)| && |multiset(paths)| == |paths|;
  }

  /** Whatever reading these paths gives is a sum. */
  predicate Sums(read: Reader, paths: seq<Bytes>) {
    forall p :: p in paths && read(p).Some? ==> IsSum(read(p).value)
  }

  lemma {:induction false} FilesArePaths(parts: seq<Bytes>)
    requires forall i :: 0 <= i < |parts| ==> NUL !in parts[i]
    ensures forall i :: 0 <= i < |Listed(parts)| ==> IsPath(Listed(parts)[i])
  {
    if parts != [] {
      FilesArePaths(parts[..|parts| - 1]);
    }
  }

  /** The stream does not depend on the order in which the files are listed. */
  lemma OrderIrrelevant(raw1: Bytes, raw2: Bytes, read: Reader)
    requires multiset(Files(raw1)) == multiset(Files(raw2))
    ensures Stream(raw1, read) == Stream(raw2, read)
  {
    SortSorts(Files(raw1));
    SortSorts(Files(raw2));
    SortedUnique(Sort(Files(raw1)), Sort(Files(raw2)));
  }

  lemma SortedPaths(raw: Bytes)
    ensures forall i :: 0 <= i < |Sort(Files(raw))| ==> IsPath(Sort(Files(raw))[i])
    ensures forall p :: p in Sort(Files(raw)) <==> p in Files(raw)
  {
    GoStrings.SplitHasNone(raw, NUL);
    FilesArePaths(GoStrings.Split(raw, NUL));
    SortSorts(Files(raw));
    assert forall p :: p in Sort(Files(raw)) <==> p in multiset(Sort(Files(raw)));
    assert forall p :: p in Files(raw) <==> p in multiset(Files(raw));
    forall i | 0 <= i < |Sort(Files(raw))| ensures IsPath(Sort(Files(raw))[i]) {
      assert Sort(Files(raw))[i] in Files(raw);
    }
  }

  lemma {:induction false} ListedAll(paths: seq<Bytes>)
    requires forall i :: 0 <= i < |paths| ==> IsPath(paths[i])
    ensures Listed(paths) == paths
  {
    if paths != [] {
      ListedAll(paths[..|paths| - 1]);
    }
  }

  /** The files of a listing, in which each path is followed by a NUL, are its paths: all of them, in order. */
  lemma FilesOfListing(paths: seq<Bytes>)
    requires forall i :: 0 <= i < |paths| ==> IsPath(paths[i])
    ensures Files(GoStrings.Terminated(paths, NUL)) == paths
  {
    GoStrings.SplitTerminated(paths, NUL);
    ListedAll(paths);
    assert (paths + [[]])[..|paths|] == paths;
  }

  /** The stream of a listing: the path and sum of every path in it, in ascending order, or nothing if a file cannot
      be read. */
  lemma StreamOfListing(paths: seq<Bytes>, sorted: seq<Bytes>, read: Reader)
    requires forall i :: 0 <= i < |paths| ==> IsPath(paths[i])
    requires Sorted(sorted) && multiset(sorted) == multiset(paths)
    ensures Stream(GoStrings.Terminated(paths, NUL), read)
            == if Readable(sorted, read) then Some(Framed(Summed(sorted, read))) else None
  {
    FilesOfListing(paths);
    SortSorts(paths);
    SortedUnique(Sort(paths), sorted);
  }

  /** Summed lists are equal only if paths and sums are. */
  lemma SummedInjective(a: seq<Bytes>, read1: Reader, b: seq<Bytes>, read2: Reader)
    requires Readable(a, read1) && Readable(b, read2)
    ensures Summed(a, read1) == Summed(b, read2) <==> a == b && forall i :: 0 <= i < |a| ==> read1(a[i]) == read2(a[i])
  {
  }

  lemma FramedInjective(a: seq<(Bytes, Bytes)>, b: seq<(Bytes, Bytes)>)
    requires WellFormed(a) && WellFormed(b)
    ensures Framed(a) == Framed(b) <==> a == b
  {
    UnframedFramed(a);
    UnframedFramed(b);
  }

  lemma SameSorted(a: seq<Bytes>, b: seq<Bytes>)
    ensures Sort(a) == Sort(b) <==> multiset(a) == multiset(b)
  {
    SortSorts(a);
    SortSorts(b);
    if multiset(a) == multiset(b) {
      SortedUnique(Sort(a), Sort(b));
    }
  }

  /** Two readable trees give the same stream if and only if they list the same paths, as often, and each
      listed path has the same sum in both. */
  lemma SameStreamIff(raw1: Bytes, read1: Reader, raw2: Bytes, read2: Reader)
    requires Stream(raw1, read1).Some? && Stream(raw2, read2).Some?
    requires Sums(read1, Files(raw1)) && Sums(read2, Files(raw2))
    ensures Stream(raw1, read1) == Stream(raw2, read2) <==>
            && multiset(Files(raw1)) == multiset(Files(raw2))
            && forall p :: p in Files(raw1) ==> read1(p) == read2(p)
  {
    var a, b := Sort(Files(raw1)), Sort(Files(raw2));
    SortedPaths(raw1);
    SortedPaths(raw2);
    FramedInjective(Summed(a, read1), Summed(b, read2));
    SummedInjective(a, read1, b, read2);
    SameSorted(Files(raw1), Files(raw2));
    assert forall p :: p in Files(raw1) <==> p in a;
  }
}
