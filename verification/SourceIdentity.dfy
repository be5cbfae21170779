/** The byte stream that is hashed to identify the running source, and its framing. */
module SourceIdentity {
  import opened Wrappers
  import opened Bytes

  type Path = seq<Byte>

  /** A source file: its relative path, encoded, and its content. */
  datatype File = File(path: Path, content: seq<Byte>)

  const PATH_WIDTH := 4
  const CONTENT_WIDTH := 8

  predicate Fits(f: File) {
    |f.path| < Pow256(PATH_WIDTH) && |f.content| < Pow256(CONTENT_WIDTH)
  }

  predicate AllFit(files: seq<File>) {
    forall i :: 0 <= i < |files| ==> Fits(files[i])
  }

  function Frame(f: File): seq<Byte> {
    BigEndian(|f.path|, PATH_WIDTH) + f.path + BigEndian(|f.content|, CONTENT_WIDTH) + f.content
  }

  function Stream(files: seq<File>): seq<Byte> {
    if files == [] then [] else Stream(files[..|files| - 1]) + Frame(files[|files| - 1])
  }

  // ---------------------------------------------------------------- the framing can be undone

  /** Reads a length field and as many bytes, and returns them with the rest. */
  function TakeField(s: seq<Byte>, width: nat): (r: Option<(seq<Byte>, seq<Byte>)>)
    ensures r.Some? ==> |s| == width + |r.value.0| + |r.value.1|
  {
    if |s| < width || |s| < width + FromBigEndian(s[..width]) then None
    else
      var n := FromBigEndian(s[..width]);
      Some((s[width..width + n], s[width + n..]))
  }

  function Decode(s: seq<Byte>): Option<seq<File>>
    decreases |s|
  {
    if s == [] then Some([])
    else
      match TakeField(s, PATH_WIDTH)
      case None => None
      case Some((path, rest)) =>
        match TakeField(rest, CONTENT_WIDTH)
        case None => None
        case Some((content, more)) =>
          match Decode(more)
          case None => None
          case Some(files) => Some([File(path, content)] + files)
  }

  lemma TakeFieldUndoes(field: seq<Byte>, rest: seq<Byte>, width: nat)
    requires |field| < Pow256(width)
    ensures TakeField(BigEndian(|field|, width) + field + rest, width) == Some((field, rest))
  {
    var s := BigEndian(|field|, width) + field + rest;
    assert s[..width] == BigEndian(|field|, width);
    BigEndianRoundTrip(|field|, width);
    assert s[width..width + |field|] == field && s[width + |field|..] == rest;
  }

  lemma DecodeFrame(f: File, rest: seq<Byte>, files: seq<File>)
    requires Fits(f) && Decode(rest) == Some(files)
    ensures Decode(Frame(f) + rest) == Some([f] + files)
  {
    var tail := BigEndian(|f.content|, CONTENT_WIDTH) + f.content + rest;
    assert Frame(f) + rest == BigEndian(|f.path|, PATH_WIDTH) + f.path + tail;
    TakeFieldUndoes(f.path, tail, PATH_WIDTH);
    TakeFieldUndoes(f.content, rest, CONTENT_WIDTH);
  }

  lemma {:induction false} StreamFront(files: seq<File>)
    requires files != []
    ensures Stream(files) == Frame(files[0]) + Stream(files[1..])
  {
    hide Frame;
    var init := files[..|files| - 1];
    if |files| == 1 {
      assert Stream(init) == [] && Stream(files[1..]) == [];
    } else {
      StreamFront(init);
      assert files[1..][..|files| - 2] == init[1..];
      assert Stream(files[1..]) == Stream(init[1..]) + Frame(files[|files| - 1]);
      Associate(Frame(files[0]), Stream(init[1..]), Frame(files[|files| - 1]));
    }
  }

  /** The stream can be decoded back to the list of files. */
  lemma {:induction false} DecodeUndoesStream(files: seq<File>)
    requires AllFit(files)
    ensures Decode(Stream(files)) == Some(files)
  {
    if files == [] {
    } else {
      DecodeUndoesStream(files[1..]);
      StreamFront(files);
      DecodeFrame(files[0], Stream(files[1..]), files[1..]);
      assert [files[0]] + files[1..] == files;
    }
  }

  // ---------------------------------------------------------------- the order does not matter

  ghost predicate TotalOrder(before: (Path, Path) -> bool) {
    && (forall p :: !before(p, p))
    && (forall p, q :: p != q ==> before(p, q) || before(q, p))
    && (forall p, q, r :: before(p, q) && before(q, r) ==> before(p, r))
  }

  ghost predicate Sorted(before: (Path, Path) -> bool, files: seq<File>) {
    forall i, j :: 0 <= i < j < |files| ==> before(files[i].path, files[j].path)
  }

  predicate DistinctPaths(files: seq<File>) {
    forall i, j :: 0 <= i < j < |files| ==> files[i].path != files[j].path
  }

  function Insert(before: (Path, Path) -> bool, files: seq<File>, f: File): seq<File> {
    if files == [] || before(files[|files| - 1].path, f.path) then files + [f]
    else Insert(before, files[..|files| - 1], f) + [files[|files| - 1]]
  }

  function Sort(before: (Path, Path) -> bool, files: seq<File>): seq<File> {
    if files == [] then [] else Insert(before, Sort(before, files[..|files| - 1]), files[|files| - 1])
  }

  lemma {:induction false} InsertKeepsSorted(before: (Path, Path) -> bool, files: seq<File>, f: File)
    requires TotalOrder(before) && Sorted(before, files)
    requires forall i :: 0 <= i < |files| ==> files[i].path != f.path
    ensures Sorted(before, Insert(before, files, f))
    ensures multiset(Insert(before, files, f)) == multiset(files) + multiset{f}
  {
    hide Sorted;
    if files == [] {
      AppendKeepsSorted(before, files, f);
      return;
    }
    var front, last := files[..|files| - 1], files[|files| - 1];
    assert files == front + [last];
    LastIsGreatest(before, front, last);
    if before(last.path, f.path) {
      AppendKeepsSorted(before, files, f);
    } else {
      InsertKeepsSorted(before, front, f);
      var init := Insert(before, front, f);
      forall x | x in init ensures before(x.path, last.path) {
        assert x in multiset(init);
        assert x == f || x in front;
      }
      AppendKeepsSorted(before, init, last);
    }
  }

  lemma LastIsGreatest(before: (Path, Path) -> bool, front: seq<File>, last: File)
    requires Sorted(before, front + [last])
    ensures Sorted(before, front) && forall x :: x in front ==> before(x.path, last.path)
  {
    var files := front + [last];
    assert forall i :: 0 <= i < |front| ==> files[i] == front[i];
    assert forall i :: 0 <= i < |front| ==> before(files[i].path, files[|front|].path);
  }

  lemma AppendKeepsSorted(before: (Path, Path) -> bool, files: seq<File>, f: File)
    requires Sorted(before, files) && forall x :: x in files ==> before(x.path, f.path)
    ensures Sorted(before, files + [f])
  {
  }

  lemma {:induction false} SortSorts(before: (Path, Path) -> bool, files: seq<File>)
    requires TotalOrder(before) && DistinctPaths(files)
    ensures Sorted(before, Sort(before, files)) && multiset(Sort(before, files)) == multiset(files)
  {
    if files == [] {
    } else {
      var init, last := files[..|files| - 1], files[|files| - 1];
      assert files == init + [last];
      SortSorts(before, init);
      forall i | 0 <= i < |Sort(before, init)| ensures Sort(before, init)[i].path != last.path {
        assert Sort(before, init)[i] in multiset(init);
        assert Sort(before, init)[i] in init;
      }
      InsertKeepsSorted(before, Sort(before, init), last);
    }
  }

  lemma FirstIsLeast(before: (Path, Path) -> bool, s: seq<File>, f: File)
    requires Sorted(before, s) && f in s
    ensures f == s[0] || before(s[0].path, f.path)
  {
  }

  lemma SameFirst(before: (Path, Path) -> bool, a: seq<File>, b: seq<File>)
    requires TotalOrder(before) && Sorted(before, a) && Sorted(before, b) && multiset(a) == multiset(b)
    requires a != [] && b != []
    ensures a[0] == b[0]
  {
    assert a[0] in multiset(b) && b[0] in multiset(a);
    FirstIsLeast(before, b, a[0]);
    FirstIsLeast(before, a, b[0]);
  }

  lemma Uncons(s: seq<File>)
    requires s != []
    ensures s == [s[0]] + s[1..] && multiset(s) == multiset{s[0]} + multiset(s[1..])
  {
    assert s == [s[0]] + s[1..];
  }

  lemma {:induction false} SortedIsUnique(before: (Path, Path) -> bool, a: seq<File>, b: seq<File>)
    requires TotalOrder(before) && Sorted(before, a) && Sorted(before, b) && multiset(a) == multiset(b)
    ensures a == b
  {
    assert |a| == |multiset(a)| == |multiset(b)| == |b|;
    if a == [] {
    } else {
      SameFirst(before, a, b);
      Uncons(a);
      Uncons(b);
      assert multiset(a[1..]) == multiset(a) - multiset{a[0]} == multiset(b[1..]);
      SortedIsUnique(before, a[1..], b[1..]);
    }
  }

  /** However the files are enumerated, the same bytes are hashed. */
  lemma StreamIgnoresEnumeration(before: (Path, Path) -> bool, a: seq<File>, b: seq<File>)
    requires TotalOrder(before) && DistinctPaths(a) && DistinctPaths(b) && multiset(a) == multiset(b)
    ensures Stream(Sort(before, a)) == Stream(Sort(before, b))
  {
    SortSorts(before, a);
    SortSorts(before, b);
    SortedIsUnique(before, Sort(before, a), Sort(before, b));
  }

  lemma SortKeepsFit(before: (Path, Path) -> bool, files: seq<File>)
    requires TotalOrder(before) && DistinctPaths(files)
    ensures AllFit(files) <==> AllFit(Sort(before, files))
    ensures |Sort(before, files)| == |files|
  {
    SortSorts(before, files);
    var sorted := Sort(before, files);
    assert |sorted| == |multiset(sorted)| && |files| == |multiset(files)|;
    assert forall i :: 0 <= i < |sorted| ==> sorted[i] in multiset(files);
    assert forall i :: 0 <= i < |files| ==> files[i] in multiset(sorted);
  }

  /** Two source trees feed the hash the same bytes exactly when they hold the same files. */
  lemma SameStreamSameFiles(before: (Path, Path) -> bool, a: seq<File>, b: seq<File>)
    requires TotalOrder(before) && DistinctPaths(a) && DistinctPaths(b) && AllFit(a) && AllFit(b)
    ensures Stream(Sort(before, a)) == Stream(Sort(before, b)) <==> multiset(a) == multiset(b)
  {
    SortSorts(before, a);
    SortSorts(before, b);
    SortKeepsFit(before, a);
    SortKeepsFit(before, b);
    DecodeUndoesStream(Sort(before, a));
    DecodeUndoesStream(Sort(before, b));
    if multiset(a) == multiset(b) {
      StreamIgnoresEnumeration(before, a, b);
    }
  }

  // ---------------------------------------------------------------- the calculation

  /** A hash object: it remembers what it was fed. */
  class Digest {
    var fed: seq<Byte>

    constructor ()
      ensures fed == []
    {
      fed := [];
    }

    method Update(chunk: seq<Byte>)
      modifies this
      ensures fed == old(fed) + chunk
    {
      fed := fed + chunk;
    }
  }

  datatype IdentityError = NoFiles | LengthOverflow

  /** Feeds the sorted files to a hash; fails on an empty tree and on a length that does not fit its field. */
  method CalculateSourceIdentity(found: seq<File>, before: (Path, Path) -> bool, hash: seq<Byte> -> string)
    returns (result: Result<(string, nat), IdentityError>)
    requires TotalOrder(before) && DistinctPaths(found)
    ensures result == if found == [] then Failure(NoFiles)
                      else if !AllFit(found) then Failure(LengthOverflow)
                      else Success((hash(Stream(Sort(before, found))), |found|))
  {
    var files := Sort(before, found);
    SortKeepsFit(before, found);
    if |files| == 0 {
      return Failure(NoFiles);
    }
    var digest, fits := Feed(files);
    if !fits {
      return Failure(LengthOverflow);
    }
    result := Success((hash(digest.fed), |files|));
  }

  /** Both fields of one file, each behind its length. */
  method FeedOne(digest: Digest, f: File)
    requires Fits(f)
    modifies digest
    ensures digest.fed == old(digest.fed) + Frame(f)
  {
    hide BigEndian;
    digest.Update(BigEndian(|f.path|, PATH_WIDTH));
    digest.Update(f.path);
    digest.Update(BigEndian(|f.content|, CONTENT_WIDTH));
    digest.Update(f.content);
  }

  lemma StreamNext(files: seq<File>, i: nat)
    requires i < |files|
    ensures Stream(files[..i + 1]) == Stream(files[..i]) + Frame(files[i])
    ensures AllFit(files[..i + 1]) <==> AllFit(files[..i]) && Fits(files[i])
  {
    assert files[..i + 1][..i] == files[..i] && files[..i + 1][i] == files[i];
  }

  method Feed(files: seq<File>) returns (digest: Digest, fits: bool)
    ensures fits <==> AllFit(files)
    ensures fits ==> digest.fed == Stream(files)
  {
    digest := new Digest();
    for i := 0 to |files|
      invariant digest.fed == Stream(files[..i]) && AllFit(files[..i])
      invariant fresh(digest)
    {
      var f := files[i];
      if !Fits(f) {
        return digest, false;
      }
      FeedOne(digest, f);
      StreamNext(files, i);
    }
    assert files[..|files|] == files;
    fits := true;
  }
}
