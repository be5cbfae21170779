/** The PNG chunk walk (section 3.2 of RFC 2083), for any checksum function. */
module PngWalk {
  import opened Wrappers
  import opened Bytes

  const SIGNATURE: seq<Byte> := [137, 80, 78, 71, 13, 10, 26, 10]
  const IHDR: seq<Byte> := [73, 72, 68, 82]
  const IDAT: seq<Byte> := [73, 68, 65, 84]
  const ACTL: seq<Byte> := [97, 99, 84, 76]
  const IEND: seq<Byte> := [73, 69, 78, 68]
  const END_CHUNK: seq<Byte> := [0, 0, 0, 0, 73, 69, 78, 68, 174, 66, 96, 130]

  datatype Chunk = Chunk(kind: seq<Byte>, body: seq<Byte>, check: seq<Byte>)

  predicate Shaped(c: Chunk) {
    |c.kind| == 4 && |c.check| == 4 && |c.body| < Pow256(4)
  }

  function Layout(c: Chunk): seq<Byte> {
    BigEndian(|c.body|, 4) + c.kind + c.body + c.check
  }

  function Layouts(chunks: seq<Chunk>): seq<Byte> {
    if chunks == [] then [] else Layout(chunks[0]) + Layouts(chunks[1..])
  }

  type Checksum = seq<Byte> -> nat

  predicate ChecksumOk(crc: Checksum, c: Chunk) {
    FromBigEndian(c.check) == crc(c.kind + c.body)
  }

  /** What the walk asks of the chunk at one place of the file. */
  predicate ChunkOk(crc: Checksum, c: Chunk, first: bool, last: bool) {
    && ChecksumOk(crc, c)
    && (first ==> c.kind == IHDR && |c.body| == 13)
    && c.kind != ACTL
    && (c.kind == IEND ==> c.body == [] && last)
  }

  /** A still image: a 13-byte header first, pixel data somewhere, and nothing after an end chunk. */
  ghost predicate WellFormed(crc: Checksum, chunks: seq<Chunk>) {
    && chunks != []
    && (forall i :: 0 <= i < |chunks| ==> Shaped(chunks[i]) && ChunkOk(crc, chunks[i], i == 0, i == |chunks| - 1))
    && exists i :: 0 <= i < |chunks| && chunks[i].kind == IDAT && chunks[i].body != []
  }

  /** The bytes from `from` to the end, cut into chunks; None when they are not tiled exactly. */
  function Cut(data: seq<Byte>, from: nat): Option<seq<Chunk>>
    requires from <= |data|
    decreases |data| - from
  {
    if from == |data| then Some([])
    else if from + 12 > |data| then None
    else
      var size := FromBigEndian(data[from..from + 4]);
      if from + 12 + size > |data| then None
      else
        var rest := Cut(data, from + 12 + size);
        if rest.None? then None else Some([ChunkAt(data, from)] + rest.value)
  }

  function ChunkAt(data: seq<Byte>, from: nat): (c: Chunk)
    requires from + 12 <= |data| && from + 12 + FromBigEndian(data[from..from + 4]) <= |data|
    ensures Shaped(c)
  {
    var size := FromBigEndian(data[from..from + 4]);
    FromBigEndianBound(data[from..from + 4]);
    Chunk(data[from + 4..from + 8], data[from + 8..from + 8 + size], data[from + 8 + size..from + 12 + size])
  }

  lemma ChunkAtIsLaidOut(data: seq<Byte>, from: nat)
    requires from + 12 <= |data| && from + 12 + FromBigEndian(data[from..from + 4]) <= |data|
    ensures data[from..from + 12 + FromBigEndian(data[from..from + 4])] == Layout(ChunkAt(data, from))
  {
    FromBigEndianRoundTrip(data[from..from + 4]);
    var size := FromBigEndian(data[from..from + 4]);
    var c := ChunkAt(data, from);
    assert Layout(c) == data[from..from + 4] + c.kind + c.body + c.check;
  }

  /** Cutting finds the chunks that tile the bytes, and only those. */
  lemma {:induction false} CutIsTiling(data: seq<Byte>, from: nat)
    requires from <= |data|
    ensures Cut(data, from).Some? ==>
              && Layouts(Cut(data, from).value) == data[from..]
              && forall i :: 0 <= i < |Cut(data, from).value| ==> Shaped(Cut(data, from).value[i])
    decreases |data| - from
  {
    if Cut(data, from).Some? && from < |data| {
      var next := from + 12 + FromBigEndian(data[from..from + 4]);
      CutIsTiling(data, next);
      ChunkAtIsLaidOut(data, from);
      assert data[from..] == data[from..next] + data[next..];
    }
  }

  lemma LayoutIsCut(data: seq<Byte>, from: nat, c: Chunk, rest: seq<Byte>)
    requires from <= |data| && Shaped(c) && data[from..] == Layout(c) + rest
    ensures from + 12 + |c.body| <= |data| && FromBigEndian(data[from..from + 4]) == |c.body|
    ensures ChunkAt(data, from) == c && data[from + 12 + |c.body|..] == rest
  {
    var s, n := data[from..], |c.body|;
    BigEndianRoundTrip(n, 4);
    assert data[from..from + 4] == s[..4] == BigEndian(n, 4);
    assert data[from + 4..from + 8] == s[4..8] == c.kind;
    assert data[from + 8..from + 8 + n] == s[8..8 + n] == c.body;
    assert data[from + 8 + n..from + 12 + n] == s[8 + n..12 + n] == c.check;
    assert data[from + 12 + n..] == s[12 + n..] == rest;
  }

  lemma {:induction false} TilingIsCut(data: seq<Byte>, from: nat, chunks: seq<Chunk>)
    requires from <= |data| && data[from..] == Layouts(chunks)
    requires forall i :: 0 <= i < |chunks| ==> Shaped(chunks[i])
    ensures Cut(data, from) == Some(chunks)
    decreases chunks
  {
    if chunks == [] {
    } else {
      LayoutIsCut(data, from, chunks[0], Layouts(chunks[1..]));
      TilingIsCut(data, from + 12 + |chunks[0].body|, chunks[1..]);
      assert chunks == [chunks[0]] + chunks[1..];
    }
  }

  /** The bytes after the signature are tiled by a well-formed sequence of chunks. */
  ghost predicate Tiled(crc: Checksum, data: seq<Byte>)
    requires |data| >= 8
  {
    exists chunks :: WellFormed(crc, chunks) && data[8..] == Layouts(chunks)
  }

  lemma TiledMeansCut(crc: Checksum, data: seq<Byte>)
    requires |data| >= 8
    ensures Tiled(crc, data) <==> Cut(data, 8).Some? && WellFormed(crc, Cut(data, 8).value)
  {
    if Tiled(crc, data) {
      var chunks :| WellFormed(crc, chunks) && data[8..] == Layouts(chunks);
      TilingIsCut(data, 8, chunks);
    }
    CutIsTiling(data, 8);
  }

  // ---------------------------------------------------------------- the walk

  /** The chunks seen so far continue to the whole cut. */
  predicate Continues(data: seq<Byte>, seen: seq<Chunk>, cursor: nat)
    requires 8 <= cursor <= |data|
  {
    Cut(data, 8) == if Cut(data, cursor).None? then None else Some(seen + Cut(data, cursor).value)
  }

  /** All chunks seen so far are in order. */
  predicate SeenOk(crc: Checksum, data: seq<Byte>, seen: seq<Chunk>, cursor: nat) {
    forall i :: 0 <= i < |seen| ==> Shaped(seen[i]) && ChunkOk(crc, seen[i], i == 0, i == |seen| - 1 && cursor == |data|)
  }

  lemma StepContinues(data: seq<Byte>, seen: seq<Chunk>, cursor: nat)
    requires 8 <= cursor && cursor + 12 <= |data| && Continues(data, seen, cursor)
    requires cursor + 12 + FromBigEndian(data[cursor..cursor + 4]) <= |data|
    ensures Continues(data, seen + [ChunkAt(data, cursor)], cursor + 12 + FromBigEndian(data[cursor..cursor + 4]))
  {
    var next := cursor + 12 + FromBigEndian(data[cursor..cursor + 4]);
    if Cut(data, next).Some? {
      assert seen + ([ChunkAt(data, cursor)] + Cut(data, next).value) == seen + [ChunkAt(data, cursor)] + Cut(data, next).value;
    }
  }

  lemma BadChunkRejects(crc: Checksum, data: seq<Byte>, seen: seq<Chunk>, cursor: nat)
    requires 8 <= cursor && cursor + 12 <= |data| && Continues(data, seen, cursor) && (cursor == 8 <==> seen == [])
    requires cursor + 12 + FromBigEndian(data[cursor..cursor + 4]) <= |data|
    requires !ChunkOk(crc, ChunkAt(data, cursor), cursor == 8, cursor + 12 + FromBigEndian(data[cursor..cursor + 4]) == |data|)
    ensures !Tiled(crc, data)
  {
    TiledMeansCut(crc, data);
    var next := cursor + 12 + FromBigEndian(data[cursor..cursor + 4]);
    if Cut(data, 8).Some? {
      var chunks := Cut(data, 8).value;
      assert chunks[|seen|] == ChunkAt(data, cursor);
      assert next == |data| ==> Cut(data, next).value == [];
      assert next < |data| ==> |Cut(data, next).value| > 0;
    }
  }

  /** A chunk that claims more bytes than are left. */
  lemma OverrunRejects(crc: Checksum, data: seq<Byte>, seen: seq<Chunk>, cursor: nat)
    requires 8 <= cursor && cursor + 12 <= |data| && Continues(data, seen, cursor)
    requires cursor + 12 + FromBigEndian(data[cursor..cursor + 4]) > |data|
    ensures !Tiled(crc, data)
  {
    TiledMeansCut(crc, data);
  }

  ghost predicate HasPixels(seen: seq<Chunk>) {
    exists i :: 0 <= i < |seen| && seen[i].kind == IDAT && seen[i].body != []
  }

  /** Where no further chunk fits, what has been seen decides. */
  lemma WalkDecides(crc: Checksum, data: seq<Byte>, seen: seq<Chunk>, cursor: nat)
    requires 8 <= cursor <= |data| < cursor + 12 && Continues(data, seen, cursor) && SeenOk(crc, data, seen, cursor)
    ensures Tiled(crc, data) <==> cursor == |data| && HasPixels(seen)
  {
    TiledMeansCut(crc, data);
    assert cursor == |data| ==> Cut(data, 8) == Some(seen + []) && seen + [] == seen;
  }

  lemma SeenGrows(seen: seq<Chunk>, c: Chunk)
    ensures HasPixels(seen + [c]) <==> HasPixels(seen) || (c.kind == IDAT && c.body != [])
  {
    assert forall i :: 0 <= i < |seen| ==> (seen + [c])[i] == seen[i];
    assert (seen + [c])[|seen|] == c;
  }

  /** A chunk past which the walk may go leaves all seen so far in order. */
  lemma SeenStaysOk(crc: Checksum, data: seq<Byte>, seen: seq<Chunk>, cursor: nat, next: nat)
    requires 8 <= cursor < next <= |data| && cursor + 12 <= |data|
    requires SeenOk(crc, data, seen, cursor) && (cursor == 8 <==> seen == [])
    requires next == cursor + 12 + FromBigEndian(data[cursor..cursor + 4])
    requires ChunkOk(crc, ChunkAt(data, cursor), cursor == 8, next == |data|)
    ensures SeenOk(crc, data, seen + [ChunkAt(data, cursor)], next)
  {
  }

  /** Walks the chunks; true exactly when the bytes after the signature are tiled by a
      well-formed sequence of chunks.  No byte outside the file is read. */
  method Walk(data: seq<Byte>, crc: Checksum) returns (ok: bool)
    requires |data| >= 8
    ensures ok <==> Tiled(crc, data)
  {
    hide Cut, Tiled, WellFormed, Pow256;
    var cursor, hasPixels := 8, false;
    ghost var seen: seq<Chunk> := [];
    assert Cut(data, 8).Some? ==> seen + Cut(data, 8).value == Cut(data, 8).value;
    while cursor + 12 <= |data|
      invariant 8 <= cursor <= |data| && (cursor == 8 <==> seen == [])
      invariant Continues(data, seen, cursor) && SeenOk(crc, data, seen, cursor)
      invariant hasPixels <==> HasPixels(seen)
    {
      var size := FromBigEndian(data[cursor..cursor + 4]);
      var end := cursor + 12 + size;
      if end > |data| {
        OverrunRejects(crc, data, seen, cursor);
        return false;
      }
      ghost var c := ChunkAt(data, cursor);
      var kind := data[cursor + 4..cursor + 8];
      var content := data[cursor + 4..cursor + 8 + size];
      assert content == c.kind + c.body;
      var checksum := FromBigEndian(data[cursor + 8 + size..end]);
      if checksum != crc(content)
         || (cursor == 8 && (kind != IHDR || size != 13))
         || kind == ACTL
         || (kind == IEND && (size != 0 || end != |data|)) {
        BadChunkRejects(crc, data, seen, cursor);
        return false;
      }
      if kind == IDAT && size != 0 {
        hasPixels := true;
      }
      StepContinues(data, seen, cursor);
      SeenGrows(seen, c);
      SeenStaysOk(crc, data, seen, cursor, end);
      seen := seen + [c];
      cursor := end;
    }
    WalkDecides(crc, data, seen, cursor);
    ok := cursor == |data| && hasPixels;
  }
}
