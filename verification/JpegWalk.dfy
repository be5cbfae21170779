/** The JPEG marker walk (sections B.1.1.2 and B.2.2 of ITU-T T.81). */
module JpegWalk {
  import opened Wrappers
  import opened Bytes

  /** What stands before a frame header: any number of fill bytes and a marker, alone or with a segment. */
  datatype Unit =
    | Alone(fill: nat, marker: Byte)
    | Segment(fill: nat, marker: Byte, payload: seq<Byte>)

  datatype Size = Size(height: nat, width: nat)

  predicate StandsAlone(m: Byte) {
    m == 0xD8 || m == 0xD9 || m == 0x01 || 0xD0 <= m <= 0xD7
  }

  predicate FrameMarker(m: Byte) {
    m == 0xC0 || m == 0xC1 || m == 0xC2
  }

  /** A segment with its own length field can be this long. */
  predicate FitsSegment(payload: seq<Byte>) {
    |payload| + 2 < Pow256(2)
  }

  /** A unit the walk passes over. */
  predicate Skipped(u: Unit) {
    && u.fill >= 1
    && match u
       case Alone(_, m) => StandsAlone(m)
       case Segment(_, m, payload) =>
         && !StandsAlone(m) && m != 0xFF && m != 0xDA && FitsSegment(payload)
         && !(FrameMarker(m) && |payload| + 2 >= 8)
  }

  function Fill(n: nat): seq<Byte> {
    seq(n, _ => 0xFF)
  }

  function SegmentBytes(payload: seq<Byte>): seq<Byte> {
    BigEndian(|payload| + 2, 2) + payload
  }

  function Layout(u: Unit): seq<Byte> {
    match u
    case Alone(fill, m) => Fill(fill) + [m]
    case Segment(fill, m, payload) => Fill(fill) + [m] + SegmentBytes(payload)
  }

  function Layouts(units: seq<Unit>): seq<Byte> {
    if units == [] then [] else Layout(units[0]) + Layouts(units[1..])
  }

  /** `s` is skipped units, a frame header, and anything after it. */
  datatype Parse = Parse(units: seq<Unit>, fill: nat, marker: Byte, payload: seq<Byte>, rest: seq<Byte>)

  predicate Explains(p: Parse, s: seq<Byte>) {
    && (forall i :: 0 <= i < |p.units| ==> Skipped(p.units[i]))
    && p.fill >= 1 && FrameMarker(p.marker) && FitsSegment(p.payload) && |p.payload| >= 6
    && s == Layouts(p.units) + Header(p)
  }

  /** After the precision byte: two bytes of height and two of width. */
  function FrameSize(payload: seq<Byte>): Size
    requires |payload| >= 6
  {
    Size(FromBigEndian(payload[1..3]), FromBigEndian(payload[3..5]))
  }

  // ---------------------------------------------------------------- scanning

  function FillLength(s: seq<Byte>): (n: nat)
    ensures n <= |s|
    ensures forall i :: 0 <= i < n ==> s[i] == 0xFF
    ensures n < |s| ==> s[n] != 0xFF
  {
    if s == [] || s[0] != 0xFF then 0 else 1 + FillLength(s[1..])
  }

  datatype Next = Stop | Found(size: Size) | Skip(bytes: nat)

  /** What the walk makes of the bytes at one place. */
  function Look(s: seq<Byte>): (next: Next)
    ensures next.Skip? ==> 0 < next.bytes <= |s|
  {
    if |s| < 4 || s[0] != 0xFF then Stop
    else
      var n := FillLength(s);
      if n == |s| then Stop else AfterMarker(s[n], s[n + 1..], n + 1)
  }

  /** `t` follows the marker `m`, which ends at `before`. */
  function AfterMarker(m: Byte, t: seq<Byte>, before: nat): (next: Next)
    ensures next.Skip? ==> before <= next.bytes <= before + |t|
  {
    if StandsAlone(m) then Skip(before)
    else if |t| < 2 then Stop
    else
      var length := FromBigEndian(t[..2]);
      if length < 2 || length > |t| then Stop
      else if FrameMarker(m) && length >= 8 then Found(FrameSize(t[2..length]))
      else if m == 0xDA then Stop
      else Skip(before + length)
  }

  /** The size in the first frame header a walk over the markers meets. */
  function Scan(s: seq<Byte>): Option<Size>
    decreases |s|
  {
    match Look(s)
    case Stop => None
    case Found(size) => Some(size)
    case Skip(n) => Scan(s[n..])
  }

  lemma FillLengthOf(n: nat, m: Byte, t: seq<Byte>)
    requires m != 0xFF
    ensures FillLength(Fill(n) + [m] + t) == n
    ensures (Fill(n) + [m] + t)[n] == m && (Fill(n) + [m] + t)[n + 1..] == t
  {
    var s := Fill(n) + [m] + t;
    assert s[n] == m && forall i :: 0 <= i < n ==> s[i] == 0xFF;
  }

  lemma SegmentOf(payload: seq<Byte>, rest: seq<Byte>)
    requires FitsSegment(payload)
    ensures var t := SegmentBytes(payload) + rest;
            && FromBigEndian(t[..2]) == |payload| + 2 <= |t|
            && t[2..|payload| + 2] == payload && t[|payload| + 2..] == rest
  {
    var t := SegmentBytes(payload) + rest;
    BigEndianRoundTrip(|payload| + 2, 2);
    assert t[..2] == BigEndian(|payload| + 2, 2);
  }

  lemma LookSkips(u: Unit, rest: seq<Byte>)
    requires Skipped(u) && |rest| >= 4
    ensures Look(Layout(u) + rest) == Skip(|Layout(u)|)
  {
    match u
    case Alone(fill, m) =>
      FillLengthOf(fill, m, rest);
    case Segment(fill, m, payload) =>
      var t := SegmentBytes(payload) + rest;
      assert Layout(u) + rest == Fill(fill) + [m] + t;
      FillLengthOf(fill, m, t);
      SegmentOf(payload, rest);
  }

  function Header(p: Parse): seq<Byte> {
    Fill(p.fill) + [p.marker] + SegmentBytes(p.payload) + p.rest
  }

  lemma LookFinds(p: Parse)
    requires p.fill >= 1 && FrameMarker(p.marker) && FitsSegment(p.payload) && |p.payload| >= 6
    ensures Look(Header(p)) == Found(FrameSize(p.payload)) && |Header(p)| >= 4
  {
    var t := SegmentBytes(p.payload) + p.rest;
    assert Header(p) == Fill(p.fill) + [p.marker] + t;
    FillLengthOf(p.fill, p.marker, t);
    SegmentOf(p.payload, p.rest);
  }

  lemma ScanPasses(u: Unit, rest: seq<Byte>)
    requires Skipped(u) && |rest| >= 4
    ensures Scan(Layout(u) + rest) == Scan(rest)
  {
    LookSkips(u, rest);
    assert (Layout(u) + rest)[|Layout(u)|..] == rest;
  }

  /** The header behind the units, without the first of them. */
  lemma DropUnit(p: Parse, s: seq<Byte>) returns (q: Parse, rest: seq<Byte>)
    requires Explains(p, s) && p.units != []
    ensures q == p.(units := p.units[1..]) && Explains(q, rest)
    ensures Skipped(p.units[0]) && s == Layout(p.units[0]) + rest && |rest| >= 4
  {
    q := p.(units := p.units[1..]);
    rest := Layouts(q.units) + Header(q);
    assert |rest| >= 4 by {
      LookFinds(q);
    }
    assert s == Layout(p.units[0]) + rest by {
      Associate(Layout(p.units[0]), Layouts(q.units), Header(p));
    }
    assert forall i :: 0 <= i < |q.units| ==> q.units[i] == p.units[i + 1];
  }

  /** A walk finds the frame header behind any units it skips. */
  lemma {:induction false} ScanFinds(p: Parse, s: seq<Byte>)
    requires Explains(p, s)
    ensures Scan(s) == Some(FrameSize(p.payload))
    decreases |p.units|
  {
    if p.units == [] {
      LookFinds(p);
      assert s == Header(p);
    } else {
      var q, rest := DropUnit(p, s);
      ScanFinds(q, rest);
      ScanPasses(p.units[0], rest);
    }
  }

  /** A frame header laid out as precision, height and width gives that height and width. */
  lemma HeaderDeclaresSize(p: Parse, s: seq<Byte>, precision: Byte, height: nat, width: nat, more: seq<Byte>)
    requires Explains(p, s) && height < Pow256(2) && width < Pow256(2)
    requires p.payload == [precision] + BigEndian(height, 2) + BigEndian(width, 2) + more
    ensures Scan(s) == Some(Size(height, width))
  {
    ScanFinds(p, s);
    BigEndianRoundTrip(height, 2);
    BigEndianRoundTrip(width, 2);
    assert p.payload[1..3] == BigEndian(height, 2) && p.payload[3..5] == BigEndian(width, 2);
  }

  lemma SplitFill(s: seq<Byte>)
    requires FillLength(s) < |s|
    ensures s == Fill(FillLength(s)) + [s[FillLength(s)]] + s[FillLength(s) + 1..]
  {
    hide FillLength;
    var n := FillLength(s);
    assert s[..n] == Fill(n);
    SplitAt(s, n);
  }

  lemma SplitAt(s: seq<Byte>, n: nat)
    requires n < |s|
    ensures s == s[..n] + [s[n]] + s[n + 1..]
  {
  }

  lemma SplitSegment(t: seq<Byte>)
    requires |t| >= 2 && 2 <= FromBigEndian(t[..2]) <= |t|
    ensures FitsSegment(t[2..FromBigEndian(t[..2])])
    ensures t == SegmentBytes(t[2..FromBigEndian(t[..2])]) + t[FromBigEndian(t[..2])..]
  {
    var length := FromBigEndian(t[..2]);
    FromBigEndianBound(t[..2]);
    FromBigEndianRoundTrip(t[..2]);
    assert t == t[..2] + t[2..length] + t[length..];
  }

  /** Whatever is passed over is a unit that may be skipped. */
  lemma SkipExplains(s: seq<Byte>) returns (u: Unit)
    requires Look(s).Skip?
    ensures Skipped(u) && s[..Look(s).bytes] == Layout(u)
  {
    var n := FillLength(s);
    var m, t := s[n], s[n + 1..];
    SplitFill(s);
    if StandsAlone(m) {
      u := Alone(n, m);
    } else {
      SplitSegment(t);
      u := Segment(n, m, t[2..FromBigEndian(t[..2])]);
      assert s == Layout(u) + t[FromBigEndian(t[..2])..];
    }
  }

  lemma FoundExplains(s: seq<Byte>) returns (p: Parse)
    requires Look(s).Found?
    ensures p.units == [] && Explains(p, s) && Look(s).size == FrameSize(p.payload)
  {
    var n := FillLength(s);
    var m, t := s[n], s[n + 1..];
    SplitFill(s);
    SplitSegment(t);
    var length := FromBigEndian(t[..2]);
    p := Parse([], n, m, t[2..length], t[length..]);
    assert s == Header(p);
  }

  /** A size found by the walk stands in a frame header behind units it may skip. */
  lemma {:induction false} ScanExplains(s: seq<Byte>) returns (p: Parse)
    requires Scan(s).Some?
    ensures Explains(p, s) && Scan(s) == Some(FrameSize(p.payload))
    decreases |s|
  {
    hide Look, Explains, Layout, Skipped;
    if Look(s).Found? {
      p := FoundExplains(s);
    } else {
      var n := Look(s).bytes;
      var u := SkipExplains(s);
      var q := ScanExplains(s[n..]);
      p := AddUnit(u, q, s[n..]);
      assert s == s[..n] + s[n..];
    }
  }

  lemma AddUnit(u: Unit, q: Parse, rest: seq<Byte>) returns (p: Parse)
    requires Skipped(u) && Explains(q, rest)
    ensures p == q.(units := [u] + q.units) && Explains(p, Layout(u) + rest)
  {
    hide Skipped, Layout, FitsSegment;
    p := q.(units := [u] + q.units);
    assert p.units[1..] == q.units && Header(p) == Header(q);
    Associate(Layout(u), Layouts(q.units), Header(q));
  }

  // ---------------------------------------------------------------- the walk

  lemma FillIs(data: seq<Byte>, start: nat, end: nat)
    requires start <= end <= |data|
    requires forall i :: start <= i < end ==> data[i] == 255
    requires end < |data| ==> data[end] != 255
    ensures FillLength(data[start..]) == end - start
    ensures end < |data| ==> data[start..][end - start] == data[end] && data[start..][end - start + 1..] == data[end + 1..]
  {
    var s := data[start..];
    assert forall i :: 0 <= i < end - start ==> s[i] == data[start + i];
    assert end < |data| ==> s[end - start] == data[end];
  }

  /** Passes the fill bytes at `cursor`. */
  method SkipFill(data: seq<Byte>, start: nat) returns (cursor: nat)
    requires start < |data| && data[start] == 255
    ensures start < cursor <= |data| && FillLength(data[start..]) == cursor - start
    ensures cursor < |data| ==>
              data[start..][cursor - start] == data[cursor] && data[start..][cursor - start + 1..] == data[cursor + 1..]
  {
    cursor := start;
    while cursor < |data| && data[cursor] == 255
      invariant start <= cursor <= |data|
      invariant forall i :: start <= i < cursor ==> data[i] == 255
    {
      cursor := cursor + 1;
    }
    FillIs(data, start, cursor);
  }

  /** What follows a marker: where to go on, a size, or the end of the walk. */
  method ReadSegment(data: seq<Byte>, marker: Byte, cursor: nat, ghost before: nat) returns (size: Option<Size>, next: nat)
    requires before <= cursor <= |data| && !StandsAlone(marker)
    ensures match AfterMarker(marker, data[cursor..], cursor - before)
            case Stop => size.None? && next == 0
            case Found(found) => size == Some(found)
            case Skip(n) => size.None? && cursor <= next <= |data| && next - before == n
  {
    if cursor + 2 > |data| {
      return None, 0;
    }
    var length := FromBigEndian(data[cursor..cursor + 2]);
    assert data[cursor..][..2] == data[cursor..cursor + 2];
    if length < 2 || cursor + length > |data| {
      return None, 0;
    }
    assert data[cursor..][2..length] == data[cursor + 2..cursor + length];
    if (marker == 0xC0 || marker == 0xC1 || marker == 0xC2) && length >= 8 {
      var height := FromBigEndian(data[cursor + 3..cursor + 5]);
      var width := FromBigEndian(data[cursor + 5..cursor + 7]);
      SliceOfSlice(data, cursor + 2, cursor + length, 1, 3);
      SliceOfSlice(data, cursor + 2, cursor + length, 3, 5);
      return Some(Size(height, width)), 0;
    }
    if marker == 0xDA {
      return None, 0;
    }
    return None, cursor + length;
  }

  /** One turn of the walk: a size, or where to go on, or 0 when the walk is over. */
  method LookAt(data: seq<Byte>, start: nat) returns (size: Option<Size>, next: nat)
    requires start + 4 <= |data|
    ensures match Look(data[start..])
            case Stop => size.None? && next == 0
            case Found(found) => size == Some(found)
            case Skip(n) => size.None? && next == start + n
  {
    if data[start] != 255 {
      return None, 0;
    }
    var cursor := SkipFill(data, start);
    if cursor >= |data| {
      return None, 0;
    }
    var marker := data[cursor];
    cursor := cursor + 1;
    if marker == 0xD8 || marker == 0xD9 || marker == 0x01 || 0xD0 <= marker <= 0xD7 {
      return None, cursor;
    }
    size, next := ReadSegment(data, marker, cursor, start);
  }

  /** Walks the markers from byte 2; the size is that of the first frame header.  No byte
      outside the file is read. */
  method Walk(data: seq<Byte>) returns (size: Option<Size>)
    requires |data| >= 2
    ensures size == Scan(data[2..])
  {
    var cursor := 2;
    while cursor + 4 <= |data|
      invariant 2 <= cursor <= |data|
      invariant Scan(data[2..]) == Scan(data[cursor..])
      decreases |data| - cursor
    {
      var found, next := LookAt(data, cursor);
      if found.Some? || next == 0 {
        return found;
      }
      assert data[cursor..][next - cursor..] == data[next..];
      cursor := next;
    }
    size := None;
  }
}
