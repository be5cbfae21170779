/** Bounded image inputs: what is accepted, and how large it is. */
module DesktopImages {
  import opened Wrappers
  import opened Bytes
  import Base64
  import JpegWalk
  import PngWalk

  const MAX_IMAGE_BYTES := 64 * 1024
  const MAX_TOTAL_IMAGE_BYTES := 256 * 1024
  const MAX_IMAGES := 4

  datatype Mime = Png | Jpeg | Webp | OtherMime

  type Size = JpegWalk.Size

  function Little(s: seq<Byte>): nat {
    if s == [] then 0 else s[0] + 256 * Little(s[1..])
  }

  const RIFF: seq<Byte> := [82, 73, 70, 70]
  const WEBP: seq<Byte> := [87, 69, 66, 80]
  const VP8X: seq<Byte> := [86, 80, 56, 88]
  const VP8: seq<Byte> := [86, 80, 56, 32]
  const VP8L: seq<Byte> := [86, 80, 56, 76]

  predicate WebpFramed(data: seq<Byte>) {
    |data| >= 30 && data[..4] == RIFF && data[8..12] == WEBP && Little(data[4..8]) == |data| - 8
  }

  /** An animated canvas and an unknown kind have no size. */
  function WebpSize(data: seq<Byte>): Option<Size>
    requires |data| >= 30
  {
    var kind := data[12..16];
    if kind == VP8X then
      if data[20] / 2 % 2 == 1 then None
      else Some(JpegWalk.Size(1 + Little(data[27..30]), 1 + Little(data[24..27])))
    else if kind == VP8 && data[23..26] == [0x9D, 0x01, 0x2A] then
      Some(JpegWalk.Size(Little(data[28..30]) % 0x4000, Little(data[26..28]) % 0x4000))
    else if kind == VP8L && data[20] == 0x2F then
      var bits := Little(data[21..25]);
      Some(JpegWalk.Size(bits / 0x4000 % 0x4000 + 1, bits % 0x4000 + 1))
    else None
  }

  predicate PngFramed(data: seq<Byte>) {
    |data| >= 45 && data[..8] == PngWalk.SIGNATURE && data[12..16] == PngWalk.IHDR && data[|data| - 12..] == PngWalk.END_CHUNK
  }

  predicate JpegFramed(data: seq<Byte>) {
    |data| >= 2 && data[..2] == [0xFF, 0xD8] && data[|data| - 2..] == [0xFF, 0xD9]
  }

  /** The size an image of this type declares, if its structure is sound. */
  ghost function Measure(mime: Mime, data: seq<Byte>, crc: PngWalk.Checksum): Option<Size> {
    match mime
    case Png =>
      if PngFramed(data) && PngWalk.Tiled(crc, data)
      then Some(JpegWalk.Size(FromBigEndian(data[20..24]), FromBigEndian(data[16..20]))) else None
    case Jpeg => if JpegFramed(data) then JpegWalk.Scan(data[2..]) else None
    case Webp => if WebpFramed(data) then WebpSize(data) else None
    case OtherMime => None
  }

  /** A sound PNG whose header holds width and then height has that size. */
  lemma PngDeclaresSize(data: seq<Byte>, crc: PngWalk.Checksum, height: nat, width: nat)
    requires PngFramed(data) && PngWalk.Tiled(crc, data) && height < Pow256(4) && width < Pow256(4)
    requires data[16..24] == BigEndian(width, 4) + BigEndian(height, 4)
    ensures Measure(Png, data, crc) == Some(JpegWalk.Size(height, width))
  {
    hide PngWalk.Tiled;
    BigEndianRoundTrip(height, 4);
    BigEndianRoundTrip(width, 4);
    assert data[16..20] == data[16..24][..4] && data[20..24] == data[16..24][4..];
  }

  function LittleEndian(n: nat, width: nat): (s: seq<Byte>)
    ensures |s| == width
  {
    if width == 0 then [] else [n % 256] + LittleEndian(n / 256, width - 1)
  }

  lemma {:induction false} LittleRoundTrip(n: nat, width: nat)
    requires n < Pow256(width)
    ensures Little(LittleEndian(n, width)) == n
  {
    if width == 0 {
    } else {
      LittleRoundTrip(n / 256, width - 1);
      assert LittleEndian(n, width)[1..] == LittleEndian(n / 256, width - 1);
    }
  }

  /** The three kinds of WebP header hold width and height, less one where neither can be zero. */
  lemma WebpDeclaresSize(data: seq<Byte>, height: nat, width: nat, scale: nat)
    requires |data| >= 30 && scale < 4
    ensures data[12..16] == VP8X && data[20] / 2 % 2 == 0 && 1 <= width <= 0x100_0000 && 1 <= height <= 0x100_0000
            && data[24..27] == LittleEndian(width - 1, 3) && data[27..30] == LittleEndian(height - 1, 3)
            ==> WebpSize(data) == Some(JpegWalk.Size(height, width))
    ensures data[12..16] == VP8 && data[23..26] == [0x9D, 0x01, 0x2A] && width < 0x4000 && height < 0x4000
            && data[26..28] == LittleEndian(width + 0x4000 * scale, 2) && data[28..30] == LittleEndian(height + 0x4000 * scale, 2)
            ==> WebpSize(data) == Some(JpegWalk.Size(height, width))
    ensures data[12..16] == VP8L && data[20] == 0x2F && 1 <= width <= 0x4000 && 1 <= height <= 0x4000
            && data[21..25] == LittleEndian((width - 1) + 0x4000 * (height - 1) + 0x1000_0000 * scale, 4)
            ==> WebpSize(data) == Some(JpegWalk.Size(height, width))
  {
    hide LittleEndian, Little;
    assert Pow256(2) == 0x1_0000 && Pow256(3) == 0x100_0000 && Pow256(4) == 0x1_0000_0000;
    hide Pow256;
    if 1 <= width <= 0x100_0000 && 1 <= height <= 0x100_0000 {
      LittleRoundTrip(width - 1, 3);
      LittleRoundTrip(height - 1, 3);
    }
    if width < 0x4000 && height < 0x4000 {
      LittleRoundTrip(width + 0x4000 * scale, 2);
      LittleRoundTrip(height + 0x4000 * scale, 2);
    }
    if 1 <= width <= 0x4000 && 1 <= height <= 0x4000 {
      var bits := (width - 1) + 0x4000 * (height - 1) + 0x1000_0000 * scale;
      LittleRoundTrip(bits, 4);
      assert bits % 0x4000 == width - 1 && bits / 0x4000 == (height - 1) + 0x4000 * scale;
    }
  }

  predicate SizeOk(s: Size) {
    0 < s.width <= 8192 && 0 < s.height <= 8192 && s.width * s.height <= 20_000_000
  }

  /** The text is the one canonical encoding of a sound image within the bounds. */
  ghost predicate Accepted(mime: Mime, encoded: string, data: seq<Byte>, crc: PngWalk.Checksum) {
    && encoded == Base64.Encode(data)
    && 0 < |data| <= MAX_IMAGE_BYTES
    && Measure(mime, data, crc).Some? && SizeOk(Measure(mime, data, crc).value)
  }

  ghost predicate Acceptable(mime: Mime, encoded: string, crc: PngWalk.Checksum) {
    Base64.Decode(encoded).Some? && Accepted(mime, encoded, Base64.Decode(encoded).value, crc)
  }

  /** A text is acceptable for at most one image: the one it decodes to. */
  lemma AcceptedIsDecoded(mime: Mime, encoded: string, data: seq<Byte>, crc: PngWalk.Checksum)
    ensures Accepted(mime, encoded, data, crc) <==> Acceptable(mime, encoded, crc) && Base64.Decode(encoded) == Some(data)
    ensures Accepted(mime, encoded, data, crc) ==> |encoded| <= 4 * ((MAX_IMAGE_BYTES + 2) / 3)
  {
    hide Measure, Base64.Decode, Base64.Encode;
    Base64.DecodeEncode(data);
    Base64.EncodedLength(data);
  }

  /** The decoded bytes, exactly when the input is acceptable. */
  method DecodeImage(mime: Mime, encoded: string, crc: PngWalk.Checksum) returns (result: Option<seq<Byte>>)
    ensures result == if Acceptable(mime, encoded, crc) then Base64.Decode(encoded) else None
  {
    if Base64.Decode(encoded).Some? {
      AcceptedIsDecoded(mime, encoded, Base64.Decode(encoded).value, crc);
    }
    if mime.OtherMime? || |encoded| > 4 * ((MAX_IMAGE_BYTES + 2) / 3) {
      return None;
    }
    var decoded := Base64.Decode(encoded);
    if decoded.None? {
      return None;
    }
    var data := decoded.value;
    if |data| == 0 || |data| > MAX_IMAGE_BYTES || Base64.Encode(data) != encoded {
      return None;
    }
    var size := Inspect(mime, data, crc);
    result := if SizeOk(size) then Some(data) else None;
  }

  /** The declared size, or 0 by 0 for a structure that is not sound. */
  method Inspect(mime: Mime, data: seq<Byte>, crc: PngWalk.Checksum) returns (size: Size)
    ensures size == Measure(mime, data, crc).GetOr(JpegWalk.Size(0, 0))
  {
    size := JpegWalk.Size(0, 0);
    match mime {
      case Png =>
        if PngFramed(data) {
          var ok := PngWalk.Walk(data, crc);
          if ok {
            size := JpegWalk.Size(FromBigEndian(data[20..24]), FromBigEndian(data[16..20]));
          }
        }
      case Jpeg =>
        if JpegFramed(data) {
          var found := JpegWalk.Walk(data);
          if found.Some? {
            size := found.value;
          }
        }
      case Webp =>
        if WebpFramed(data) {
          var found := WebpSize(data);
          if found.Some? {
            size := found.value;
          }
        }
      case OtherMime =>
    }
  }

  // ---------------------------------------------------------------- several images

  datatype Item = Item(fieldsExact: bool, ref: string, mime: Mime, encoded: string)

  predicate HexDigit(c: char) {
    '0' <= c <= '9' || 'a' <= c <= 'f'
  }

  predicate ImageRef(ref: string) {
    |ref| == 35 && ref[..3] == "IM-" && forall i :: 3 <= i < 35 ==> HexDigit(ref[i])
  }

  ghost predicate ItemOk(item: Item, crc: PngWalk.Checksum) {
    item.fieldsExact && ImageRef(item.ref) && Acceptable(item.mime, item.encoded, crc)
  }

  predicate RefAmong(items: seq<Item>, n: nat, ref: string)
    requires n <= |items|
  {
    exists k :: 0 <= k < n && items[k].ref == ref
  }

  /** The first `n` items are acceptable and their references distinct. */
  ghost predicate PrefixOk(items: seq<Item>, n: nat, crc: PngWalk.Checksum)
    requires n <= |items|
  {
    n == 0 || (PrefixOk(items, n - 1, crc) && ItemOk(items[n - 1], crc) && !RefAmong(items, n - 1, items[n - 1].ref))
  }

  lemma {:induction false} PrefixOkMeans(items: seq<Item>, n: nat, crc: PngWalk.Checksum)
    requires n <= |items|
    ensures PrefixOk(items, n, crc) <==>
              (forall i :: 0 <= i < n ==> ItemOk(items[i], crc)) && (forall i, j :: 0 <= i < j < n ==> items[i].ref != items[j].ref)
  {
    hide ItemOk;
    if n == 0 {
    } else {
      PrefixOkMeans(items, n - 1, crc);
    }
  }

  lemma {:induction false} BadItemRefuses(items: seq<Item>, m: nat, n: nat, crc: PngWalk.Checksum)
    requires m <= n <= |items| && !PrefixOk(items, m, crc)
    ensures !PrefixOk(items, n, crc)
  {
    hide ItemOk, RefAmong;
    if m == n {
    } else {
      BadItemRefuses(items, m, n - 1, crc);
    }
  }

  /** The size in bytes of an acceptable item. */
  method CheckItem(item: Item, crc: PngWalk.Checksum) returns (bytes: Option<nat>)
    ensures bytes.Some? <==> ItemOk(item, crc)
    ensures bytes.Some? ==> bytes.value <= MAX_IMAGE_BYTES
  {
    if !item.fieldsExact || !ImageRef(item.ref) {
      return None;
    }
    var data := DecodeImage(item.mime, item.encoded, crc);
    bytes := if data.None? then None else Some(|data.value|);
  }

  method AdmitItem(items: seq<Item>, i: nat, seen: set<string>, crc: PngWalk.Checksum) returns (bytes: Option<nat>)
    requires i < |items| && PrefixOk(items, i, crc) && forall ref :: ref in seen <==> RefAmong(items, i, ref)
    ensures bytes.Some? <==> PrefixOk(items, i + 1, crc)
    ensures bytes.Some? ==> bytes.value <= MAX_IMAGE_BYTES
  {
    if items[i].ref in seen {
      return None;
    }
    bytes := CheckItem(items[i], crc);
  }

  lemma RefsGrow(items: seq<Item>, n: nat, ref: string)
    requires n < |items|
    ensures RefAmong(items, n + 1, ref) <==> RefAmong(items, n, ref) || ref == items[n].ref
  {
  }

  /** The bound on the total size never refuses anything: the bounds on the number and on each
      image imply it, so the list is accepted exactly when its images are. */
  method ValidateImages(items: seq<Item>, crc: PngWalk.Checksum) returns (result: Option<seq<Item>>)
    ensures result == if 1 <= |items| <= MAX_IMAGES && PrefixOk(items, |items|, crc) then Some(items) else None
  {
    hide ItemOk;
    if !(1 <= |items| <= MAX_IMAGES) {
      return None;
    }
    var seen: set<string>, total, out := {}, 0, [];
    for i := 0 to |items|
      invariant forall ref :: ref in seen <==> RefAmong(items, i, ref)
      invariant PrefixOk(items, i, crc)
      invariant 0 <= total <= i * MAX_IMAGE_BYTES && out == items[..i]
    {
      var bytes := AdmitItem(items, i, seen, crc);
      if bytes.None? {
        BadItemRefuses(items, i + 1, |items|, crc);
        return None;
      }
      forall ref {
        RefsGrow(items, i, ref);
      }
      seen := seen + {items[i].ref};
      total := total + bytes.value;
      out := out + [items[i]];
    }
    if total > MAX_TOTAL_IMAGE_BYTES {
      return None;
    }
    assert items[..|items|] == items;
    result := Some(out);
  }
}
