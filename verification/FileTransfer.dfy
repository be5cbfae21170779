/** File chunks: which payloads are accepted as the answer to a read, and what any chain of
    accepted answers amounts to. */
module FileTransfer {
  import opened Wrappers
  import opened Bytes
  import Base64

  datatype Value = Null | Bool(b: bool) | Int(n: int) | Text(s: string) | Other

  type Payload = map<string, Value>

  /** The formats that request ids, references and media types must have. */
  datatype Formats = Formats(request: string -> bool, ref: string -> bool, mime: string -> bool)

  datatype ChunkError = FieldsInvalid | RequestInvalid | RefInvalid | EventInvalid | TooLarge | Mismatch

  datatype Content = Words(text: string) | Data(bytes: seq<Byte>)

  datatype Chunk = Chunk(ref: string, offset: nat, size: nat, next: Option<nat>, content: Content)

  const MAX_OFFSET := 0x7fff_ffff_ffff_ffff
  const MAX_TEXT := 32 * 1024
  const MAX_DATA := 64 * 1024
  const COMMON := {"request_id", "ref", "mime_type", "offset", "chunk_bytes", "next_offset", "eof"}

  function Bounded(v: Value, maximum: nat): Option<nat> {
    if v.Int? && 0 <= v.n <= maximum then Some(v.n) else None
  }

  predicate OfFile(ref: string) {
    "FL-" <= ref
  }

  predicate OfArtifact(ref: string) {
    "AR-" <= ref
  }

  lemma KindsDiffer(ref: string)
    ensures !(OfFile(ref) && OfArtifact(ref))
  {
    assert OfFile(ref) ==> ref[0] == 'F';
    assert OfArtifact(ref) ==> ref[0] == 'A';
  }

  function Utf8Length(s: string): nat {
    if s == "" then 0
    else
      var c := s[0] as int;
      (if c < 0x80 then 1 else if c < 0x800 then 2 else if c < 0x1_0000 then 3 else 4) + Utf8Length(s[1..])
  }

  predicate IsText(p: Payload) {
    "text" in p || "encoding" in p
  }

  function ContentOf(p: Payload, ref: string, size: nat): Result<Content, ChunkError>
    requires IsText(p) ==> "text" in p && "encoding" in p
    requires !IsText(p) ==> "data_base64" in p
  {
    if IsText(p) then
      if OfArtifact(ref) || p["encoding"] != Text("utf-8") || !p["text"].Text? then Failure(EventInvalid)
      else if Utf8Length(p["text"].s) > MAX_TEXT then Failure(TooLarge)
      else Success(Words(p["text"].s))
    else
      if OfFile(ref) || !p["data_base64"].Text? then Failure(EventInvalid)
      else
        var decoded := Base64.Decode(p["data_base64"].s);
        if decoded.None? then Failure(EventInvalid)
        else if |decoded.value| != size || |decoded.value| > MAX_DATA then Failure(TooLarge)
        else Success(Data(decoded.value))
  }

  function Validate(p: Payload, formats: Formats): Result<Chunk, ChunkError> {
    if p.Keys != COMMON + (if IsText(p) then {"encoding", "text"} else {"data_base64"}) then Failure(FieldsInvalid)
    else if !p["request_id"].Text? || !formats.request(p["request_id"].s) then Failure(RequestInvalid)
    else if !p["ref"].Text? || !(OfFile(p["ref"].s) || OfArtifact(p["ref"].s)) then Failure(EventInvalid)
    else if !formats.ref(p["ref"].s) then Failure(RefInvalid)
    else if !p["mime_type"].Text? || !formats.mime(p["mime_type"].s) then Failure(EventInvalid)
    else
      var ref := p["ref"].s;
      var offset := Bounded(p["offset"], MAX_OFFSET);
      var size := Bounded(p["chunk_bytes"], if OfFile(ref) then MAX_TEXT else MAX_DATA);
      var next := Bounded(p["next_offset"], MAX_OFFSET);
      if offset.None? || size.None? then Failure(EventInvalid)
      else if p["next_offset"] != Null && next != Some(offset.value + size.value) then Failure(EventInvalid)
      else if p["eof"] != Bool(next.None?) then Failure(EventInvalid)
      else
        var content := ContentOf(p, ref, size.value);
        if content.Failure? then Failure(content.error)
        else Success(Chunk(ref, offset.value, size.value, next, content.value))
  }

  // ---------------------------------------------------------------- chunks and their payloads

  /** What a chunk is, without its encoding. */
  predicate WellFormed(c: Chunk) {
    && c.offset <= MAX_OFFSET
    && (c.next.Some? ==> c.next.value == c.offset + c.size <= MAX_OFFSET)
    && match c.content
       case Words(text) => OfFile(c.ref) && c.size <= MAX_TEXT && Utf8Length(text) <= MAX_TEXT
       case Data(bytes) => OfArtifact(c.ref) && |bytes| == c.size <= MAX_DATA
  }

  function Render(c: Chunk, request: string, mime: string): Payload {
    map["request_id" := Text(request), "ref" := Text(c.ref), "mime_type" := Text(mime), "offset" := Int(c.offset),
        "chunk_bytes" := Int(c.size), "next_offset" := if c.next.Some? then Int(c.next.value) else Null,
        "eof" := Bool(c.next.None?)]
    + match c.content
      case Words(text) => map["encoding" := Text("utf-8"), "text" := Text(text)]
      case Data(bytes) => map["data_base64" := Text(Base64.Encode(bytes))]
  }

  /** All that a payload says, but for how data is encoded. */
  predicate Says(p: Payload, c: Chunk, request: string, mime: string) {
    && IsText(p) == c.content.Words?
    && p.Keys == COMMON + (if c.content.Words? then {"encoding", "text"} else {"data_base64"})
    && p["request_id"] == Text(request) && p["ref"] == Text(c.ref) && p["mime_type"] == Text(mime)
    && p["offset"] == Int(c.offset) && p["chunk_bytes"] == Int(c.size)
    && p["next_offset"] == (if c.next.Some? then Int(c.next.value) else Null) && p["eof"] == Bool(c.next.None?)
    && match c.content
       case Words(text) => p["encoding"] == Text("utf-8") && p["text"] == Text(text)
       case Data(_) => p["data_base64"].Text?
  }

  lemma RenderedSays(c: Chunk, request: string, mime: string)
    ensures Says(Render(c, request, mime), c, request, mime)
    ensures c.content.Data? ==> Render(c, request, mime)["data_base64"] == Text(Base64.Encode(c.content.bytes))
  {
    hide Base64.Encode;
    var p := Render(c, request, mime);
    var extra := match c.content
      case Words(text) => map["encoding" := Text("utf-8"), "text" := Text(text)]
      case Data(bytes) => map["data_base64" := Text(Base64.Encode(bytes))];
    assert p.Keys == COMMON + extra.Keys;
    assert extra.Keys == if c.content.Words? then {"encoding", "text"} else {"data_base64"};
    assert "text" in p <==> c.content.Words?;
    assert "encoding" in p <==> c.content.Words?;
  }

  lemma WellFormedIsAccepted(c: Chunk, request: string, mime: string, formats: Formats)
    requires formats.request(request) && formats.mime(mime) && formats.ref(c.ref) && WellFormed(c)
    ensures Validate(Render(c, request, mime), formats) == Success(c)
  {
    hide Base64.Encode, Base64.Decode, Utf8Length, Render, IsText, OfFile, OfArtifact;
    KindsDiffer(c.ref);
    RenderedSays(c, request, mime);
    if c.content.Data? {
      Base64.DecodeEncode(c.content.bytes);
    }
    var p := Render(c, request, mime);
    assert ContentOf(p, c.ref, c.size) == Success(c.content);
  }

  /** Every well-formed chunk can be sent, and nothing that is not well-formed is accepted. */
  lemma ChunkRoundTrip(c: Chunk, request: string, mime: string, formats: Formats)
    requires formats.request(request) && formats.mime(mime) && formats.ref(c.ref)
    ensures Validate(Render(c, request, mime), formats) == Success(c) <==> WellFormed(c)
  {
    hide Validate, WellFormed, Render;
    if WellFormed(c) {
      WellFormedIsAccepted(c, request, mime, formats);
    }
    if Validate(Render(c, request, mime), formats) == Success(c) {
      AcceptedIsWellFormed(Render(c, request, mime), formats);
    }
  }

  lemma AcceptedIsWellFormed(p: Payload, formats: Formats)
    requires Validate(p, formats).Success?
    ensures WellFormed(Validate(p, formats).value)
  {
    hide Base64.Decode, Utf8Length;
  }

  lemma AcceptedSays(p: Payload, formats: Formats)
    requires Validate(p, formats).Success?
    ensures var c := Validate(p, formats).value;
            && {"request_id", "mime_type"} <= p.Keys && p["request_id"].Text? && p["mime_type"].Text?
            && formats.request(p["request_id"].s) && formats.mime(p["mime_type"].s) && formats.ref(c.ref)
            && Says(p, c, p["request_id"].s, p["mime_type"].s)
            && (c.content.Data? ==> Base64.Decode(p["data_base64"].s) == Some(c.content.bytes))
  {
    hide Base64.Decode, Utf8Length, OfFile, OfArtifact;
  }

  lemma SayingTheSame(p: Payload, q: Payload, c: Chunk, request: string, mime: string)
    requires Says(p, c, request, mime) && Says(q, c, request, mime)
    ensures if c.content.Words? then p == q else "data_base64" in q && p["data_base64" := q["data_base64"]] == q
  {
    hide IsText;
    var r := if c.content.Words? then p else p["data_base64" := q["data_base64"]];
    assert r.Keys == q.Keys;
  }

  /** An accepted payload is the rendering of its chunk, but for the freedom base64 leaves. */
  lemma AcceptedIsRendered(p: Payload, formats: Formats)
    requires Validate(p, formats).Success?
    ensures var c := Validate(p, formats).value;
            && {"request_id", "mime_type"} <= p.Keys && p["request_id"].Text? && p["mime_type"].Text?
            && formats.request(p["request_id"].s) && formats.mime(p["mime_type"].s) && formats.ref(c.ref)
            && match c.content
               case Words(_) => p == Render(c, p["request_id"].s, p["mime_type"].s)
               case Data(bytes) =>
                 && "data_base64" in p && p["data_base64"].Text? && Base64.Decode(p["data_base64"].s) == Some(bytes)
                 && p["data_base64" := Text(Base64.Encode(bytes))] == Render(c, p["request_id"].s, p["mime_type"].s)
  {
    hide Validate, Render, IsText, Base64.Decode, Base64.Encode;
    var c := Validate(p, formats).value;
    AcceptedSays(p, formats);
    RenderedSays(c, p["request_id"].s, p["mime_type"].s);
    SayingTheSame(p, Render(c, p["request_id"].s, p["mime_type"].s), c, p["request_id"].s, p["mime_type"].s);
  }

  // ---------------------------------------------------------------- reads

  datatype Command = Command(fileRef: string, offset: nat)

  /** The payload as the answer to a command: its reference and offset must be those asked for. */
  function Answer(command: Command, p: Payload, formats: Formats): Result<Chunk, ChunkError> {
    var chunk := Validate(p, formats);
    if chunk.Success? && (chunk.value.ref != command.fileRef || chunk.value.offset != command.offset)
    then Failure(Mismatch)
    else chunk
  }

  /** Reads of one file from its start, each asking for what the answer before it named next. */
  ghost predicate Transfer(commands: seq<Command>, answers: seq<Payload>, formats: Formats, ref: string, chunks: seq<Chunk>) {
    && |commands| == |answers| == |chunks| > 0
    && commands[0] == Command(ref, 0)
    && (forall i :: 0 <= i < |chunks| ==> Answer(commands[i], answers[i], formats) == Success(chunks[i]))
    && forall i :: 0 < i < |chunks| ==> chunks[i - 1].next.Some? && commands[i] == Command(ref, chunks[i - 1].next.value)
  }

  predicate Chain(chunks: seq<Chunk>) {
    && |chunks| > 0
    && chunks[0].offset == 0
    && (forall i :: 0 <= i < |chunks| ==> WellFormed(chunks[i]) && chunks[i].ref == chunks[0].ref)
    && forall i :: 0 < i < |chunks| ==> chunks[i - 1].next == Some(chunks[i].offset)
  }

  lemma TransferIsChain(commands: seq<Command>, answers: seq<Payload>, formats: Formats, ref: string, chunks: seq<Chunk>)
    requires Transfer(commands, answers, formats, ref, chunks)
    ensures Chain(chunks) && chunks[0].ref == ref
  {
    hide Validate, WellFormed;
    forall i | 0 <= i < |chunks| ensures WellFormed(chunks[i]) && chunks[i].ref == ref && chunks[i].offset == commands[i].offset {
      AcceptedIsWellFormed(answers[i], formats);
    }
  }

  function End(chunks: seq<Chunk>): nat
    requires chunks != []
  {
    chunks[|chunks| - 1].offset + chunks[|chunks| - 1].size
  }

  predicate Covers(c: Chunk, k: nat) {
    c.offset <= k < c.offset + c.size
  }

  lemma {:induction false} OffsetsAscend(chunks: seq<Chunk>, i: nat, j: nat)
    requires Chain(chunks) && i < j < |chunks|
    ensures chunks[i].offset + chunks[i].size <= chunks[j].offset
  {
    assert WellFormed(chunks[j - 1]);
    if i == j - 1 {
    } else {
      OffsetsAscend(chunks, i, j - 1);
    }
  }

  lemma {:induction false} SomeChunkCovers(chunks: seq<Chunk>, k: nat) returns (i: nat)
    requires Chain(chunks) && k < End(chunks)
    ensures i < |chunks| && Covers(chunks[i], k)
  {
    var last := |chunks| - 1;
    if chunks[last].offset <= k {
      i := last;
    } else {
      assert WellFormed(chunks[last - 1]);
      i := SomeChunkCovers(chunks[..last], k);
    }
  }

  /** The answers cover the file from its start to the end, every byte by exactly one of them,
      and only the last can say it is the last. */
  lemma TransferTilesTheFile(commands: seq<Command>, answers: seq<Payload>, formats: Formats, ref: string, chunks: seq<Chunk>, k: nat)
    requires Transfer(commands, answers, formats, ref, chunks)
    ensures k < End(chunks) <==> exists i :: 0 <= i < |chunks| && Covers(chunks[i], k)
    ensures forall i, j :: 0 <= i < |chunks| && 0 <= j < |chunks| && Covers(chunks[i], k) && Covers(chunks[j], k) ==> i == j
    ensures forall i :: 0 <= i < |chunks| && chunks[i].next.None? ==> i == |chunks| - 1
  {
    hide Transfer, WellFormed;
    TransferIsChain(commands, answers, formats, ref, chunks);
    ChainTiles(chunks, k);
  }

  lemma ChainTiles(chunks: seq<Chunk>, k: nat)
    requires Chain(chunks)
    ensures k < End(chunks) <==> exists i :: 0 <= i < |chunks| && Covers(chunks[i], k)
    ensures forall i, j :: 0 <= i < |chunks| && 0 <= j < |chunks| && Covers(chunks[i], k) && Covers(chunks[j], k) ==> i == j
    ensures forall i :: 0 <= i < |chunks| && chunks[i].next.None? ==> i == |chunks| - 1
  {
    hide WellFormed;
    if k < End(chunks) {
      var i := SomeChunkCovers(chunks, k);
    }
    forall i: nat, j: nat | i < j < |chunks| ensures chunks[i].offset + chunks[i].size <= chunks[j].offset {
      OffsetsAscend(chunks, i, j);
    }
    forall i | 0 <= i < |chunks| - 1 ensures chunks[i].next.Some? {
      assert WellFormed(chunks[i + 1]);
    }
  }

  // ---------------------------------------------------------------- artifacts

  function Joined(chunks: seq<Chunk>): seq<Byte> {
    if chunks == [] then []
    else
      var c := chunks[|chunks| - 1].content;
      Joined(chunks[..|chunks| - 1]) + if c.Data? then c.bytes else []
  }

  lemma ArtifactChunk(chunks: seq<Chunk>, i: nat)
    requires Chain(chunks) && OfArtifact(chunks[0].ref) && i < |chunks|
    ensures chunks[i].content.Data? && |chunks[i].content.bytes| == chunks[i].size
  {
    KindsDiffer(chunks[i].ref);
    assert WellFormed(chunks[i]);
  }

  lemma {:induction false} JoinedLength(chunks: seq<Chunk>)
    requires Chain(chunks) && OfArtifact(chunks[0].ref)
    ensures |Joined(chunks)| == End(chunks)
  {
    var last := |chunks| - 1;
    ArtifactChunk(chunks, last);
    if last == 0 {
    } else {
      assert WellFormed(chunks[last - 1]);
      JoinedLength(chunks[..last]);
    }
  }

  lemma {:induction false} JoinedAt(chunks: seq<Chunk>, i: nat, k: nat)
    requires Chain(chunks) && OfArtifact(chunks[0].ref) && i < |chunks| && Covers(chunks[i], k)
    ensures chunks[i].content.Data? && |chunks[i].content.bytes| == chunks[i].size
    ensures k < |Joined(chunks)| && Joined(chunks)[k] == chunks[i].content.bytes[k - chunks[i].offset]
  {
    var last := |chunks| - 1;
    JoinedLength(chunks);
    ArtifactChunk(chunks, i);
    if last == 0 {
    } else {
      assert WellFormed(chunks[last - 1]);
      JoinedLength(chunks[..last]);
      if i < last {
        JoinedAt(chunks[..last], i, k);
      }
    }
  }

  /** The decoded pieces of an artifact, put together, are as long as the range they cover. */
  lemma ArtifactHasItsLength(commands: seq<Command>, answers: seq<Payload>, formats: Formats, ref: string, chunks: seq<Chunk>)
    requires Transfer(commands, answers, formats, ref, chunks) && OfArtifact(ref)
    ensures |Joined(chunks)| == End(chunks)
  {
    hide Transfer, WellFormed, Joined;
    TransferIsChain(commands, answers, formats, ref, chunks);
    JoinedLength(chunks);
  }

  /** Each byte of the whole is the one its own chunk carried for that position. */
  lemma ArtifactIsReassembled(commands: seq<Command>, answers: seq<Payload>, formats: Formats, ref: string, chunks: seq<Chunk>,
                              i: nat, k: nat)
    requires Transfer(commands, answers, formats, ref, chunks) && OfArtifact(ref) && i < |chunks| && Covers(chunks[i], k)
    ensures chunks[i].content.Data? && |chunks[i].content.bytes| == chunks[i].size
    ensures k < |Joined(chunks)| && Joined(chunks)[k] == chunks[i].content.bytes[k - chunks[i].offset]
  {
    hide Transfer, WellFormed, Joined;
    TransferIsChain(commands, answers, formats, ref, chunks);
    JoinedAt(chunks, i, k);
  }

  // ---------------------------------------------------------------- progress

  ghost predicate NoEmptyStep(chunks: seq<Chunk>) {
    forall i :: 0 <= i < |chunks| - 1 ==> chunks[i].size > 0
  }

  ghost predicate Advances(chunks: seq<Chunk>) {
    forall i :: 0 < i < |chunks| ==> chunks[i - 1].offset < chunks[i].offset
  }

  /** Every read goes beyond the one before if and only if no answer but the last is empty. */
  lemma TransferAdvancesIff(commands: seq<Command>, answers: seq<Payload>, formats: Formats, ref: string, chunks: seq<Chunk>)
    requires Transfer(commands, answers, formats, ref, chunks)
    ensures Advances(chunks) <==> NoEmptyStep(chunks)
    ensures Advances(chunks) ==> |chunks| - 1 <= chunks[|chunks| - 1].offset <= MAX_OFFSET
  {
    hide Transfer;
    TransferIsChain(commands, answers, formats, ref, chunks);
    forall i | 0 < i < |chunks| ensures chunks[i].offset == chunks[i - 1].offset + chunks[i - 1].size {
      assert WellFormed(chunks[i - 1]) && chunks[i - 1].next == Some(chunks[i].offset);
    }
    if Advances(chunks) {
      forall i | 0 <= i < |chunks| - 1 ensures chunks[i].size > 0 {
        assert chunks[i].offset < chunks[i + 1].offset;
      }
      NonEmptyChunksAdvance(chunks);
    }
  }

  /** The reads before the last are then no more than the bytes. */
  lemma {:induction false} NonEmptyChunksAdvance(chunks: seq<Chunk>)
    requires Chain(chunks) && NoEmptyStep(chunks)
    ensures |chunks| - 1 <= chunks[|chunks| - 1].offset <= MAX_OFFSET
  {
    var last := |chunks| - 1;
    assert WellFormed(chunks[last]);
    if last == 0 {
    } else {
      assert WellFormed(chunks[last - 1]) && chunks[last - 1].next == Some(chunks[last].offset);
      NonEmptyChunksAdvance(chunks[..last]);
    }
  }

  /** Empty chunks that are not the end are accepted for files and for artifacts, so a transfer of
      any length may stand still. */
  lemma EmptyChunksStandStill(count: nat, ref: string, request: string, mime: string, formats: Formats)
    requires count > 0 && (OfFile(ref) || OfArtifact(ref))
    requires formats.request(request) && formats.mime(mime) && formats.ref(ref)
    ensures var still := Chunk(ref, 0, 0, Some(0), if OfFile(ref) then Words("") else Data([]));
            Transfer(seq(count, _ => Command(ref, 0)), seq(count, _ => Render(still, request, mime)), formats, ref, seq(count, _ => still))
  {
    hide Validate, Render;
    var still := Chunk(ref, 0, 0, Some(0), if OfFile(ref) then Words("") else Data([]));
    ChunkRoundTrip(still, request, mime, formats);
  }

  /** A chunk that claims another size, and the next offset that goes with it. */
  function Claiming(c: Chunk, size: nat): Chunk {
    c.(size := size, next := if c.next.None? then None else Some(c.offset + size))
  }

  /** The text of a chunk need not have the size the chunk claims; the data of an artifact must. */
  lemma SizeBindsOnlyData(c: Chunk, size: nat)
    requires WellFormed(c) && size <= MAX_TEXT && c.offset + size <= MAX_OFFSET
    ensures WellFormed(Claiming(c, size)) <==> c.content.Words? || size == c.size
  {
    hide Utf8Length;
  }
}
