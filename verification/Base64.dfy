/** Base64 as the program uses it: a canonical encoder and a more lenient decoder. */
module Base64 {
  import opened Wrappers
  import opened Bytes

  type Sextet = v: int | 0 <= v < 64

  function CharOf(v: Sextet): char {
    if v < 26 then 'A' + v as char
    else if v < 52 then 'a' + (v - 26) as char
    else if v < 62 then '0' + (v - 52) as char
    else if v == 62 then '+'
    else '/'
  }

  function ValueOf(c: char): Option<Sextet> {
    if 'A' <= c <= 'Z' then Some((c - 'A') as int)
    else if 'a' <= c <= 'z' then Some((c - 'a') as int + 26)
    else if '0' <= c <= '9' then Some((c - '0') as int + 52)
    else if c == '+' then Some(62)
    else if c == '/' then Some(63)
    else None
  }

  const UPPER := "ABCDEFGHIJKLMNOPQRSTUVWXYZ"
  const LOWER := "abcdefghijklmnopqrstuvwxyz"
  const SIGNS := "0123456789+/"

  lemma UpperInOrder(v: nat)
    requires v < 26
    ensures UPPER[v] == CharOf(v)
  {
  }

  lemma LowerInOrder(v: nat)
    requires v < 26
    ensures LOWER[v] == CharOf(v + 26)
  {
  }

  lemma SignsInOrder(v: nat)
    requires v < 12
    ensures SIGNS[v] == CharOf(v + 52)
  {
  }

  /** The letters, the digits and two signs, in this order. */
  lemma AlphabetInOrder(v: Sextet)
    ensures |UPPER + LOWER + SIGNS| == 64 && CharOf(v) == (UPPER + LOWER + SIGNS)[v]
  {
    hide CharOf;
    if v < 26 {
      UpperInOrder(v);
    } else if v < 52 {
      LowerInOrder(v - 26);
    } else {
      SignsInOrder(v - 52);
    }
  }

  lemma ValueOfCharOf(v: Sextet)
    ensures ValueOf(CharOf(v)) == Some(v)
  {
  }

  // ---------------------------------------------------------------- bytes and sextets

  function Lead(a: Byte): Sextet {
    a / 4
  }

  function Cross(a: Byte, b: Byte): Sextet {
    a % 4 * 16 + b / 16
  }

  function Over(b: Byte, c: Byte): Sextet {
    b % 16 * 4 + c / 64
  }

  function Tail(c: Byte): Sextet {
    c % 64
  }

  function Pack(d: seq<Byte>): seq<Sextet> {
    if d == [] then []
    else if |d| == 1 then [Lead(d[0]), Cross(d[0], 0)]
    else if |d| == 2 then [Lead(d[0]), Cross(d[0], d[1]), Over(d[1], 0)]
    else [Lead(d[0]), Cross(d[0], d[1]), Over(d[1], d[2]), Tail(d[2])] + Pack(d[3..])
  }

  function First(a: Sextet, b: Sextet): Byte {
    a * 4 + b / 16
  }

  function Second(b: Sextet, c: Sextet): Byte {
    b % 16 * 16 + c / 4
  }

  function Third(c: Sextet, d: Sextet): Byte {
    c % 4 * 64 + d
  }

  /** Bits beyond the last whole byte are dropped. */
  function Unpack(v: seq<Sextet>): seq<Byte> {
    if |v| < 2 then []
    else if |v| == 2 then [First(v[0], v[1])]
    else if |v| == 3 then [First(v[0], v[1]), Second(v[1], v[2])]
    else [First(v[0], v[1]), Second(v[1], v[2]), Third(v[2], v[3])] + Unpack(v[4..])
  }

  lemma TripleIsExact(a: Byte, b: Byte, c: Byte)
    ensures First(Lead(a), Cross(a, b)) == a
    ensures Second(Cross(a, b), Over(b, c)) == b
    ensures Third(Over(b, c), Tail(c)) == c
  {
  }

  /** The four characters carry the three bytes as one number, the first byte and the first
      character highest. */
  lemma QuadIsOneNumber(a: Byte, b: Byte, c: Byte)
    ensures ((Lead(a) * 64 + Cross(a, b)) * 64 + Over(b, c)) * 64 + Tail(c) == (a * 256 + b) * 256 + c
  {
  }

  lemma UnpackAfter(a: Sextet, b: Sextet, c: Sextet, d: Sextet, rest: seq<Sextet>)
    ensures Unpack([a, b, c, d] + rest) == [First(a, b), Second(b, c), Third(c, d)] + Unpack(rest)
  {
    var v := [a, b, c, d] + rest;
    assert v[4..] == rest;
  }

  lemma {:induction false} UnpackPack(d: seq<Byte>)
    ensures Unpack(Pack(d)) == d
  {
    hide First, Second, Third, Lead, Cross, Over, Tail;
    if |d| == 1 {
      TripleIsExact(d[0], 0, 0);
    } else if |d| == 2 {
      TripleIsExact(d[0], d[1], 0);
    } else if |d| >= 3 {
      TripleIsExact(d[0], d[1], d[2]);
      UnpackPack(d[3..]);
      UnpackAfter(Lead(d[0]), Cross(d[0], d[1]), Over(d[1], d[2]), Tail(d[2]), Pack(d[3..]));
      assert d == [d[0], d[1], d[2]] + d[3..];
    }
  }

  // ---------------------------------------------------------------- text

  function Padding(n: nat): string {
    if n % 3 == 1 then "==" else if n % 3 == 2 then "=" else ""
  }

  function Text(v: seq<Sextet>): string {
    seq(|v|, i requires 0 <= i < |v| => CharOf(v[i]))
  }

  function Encode(d: seq<Byte>): string {
    Text(Pack(d)) + Padding(|d|)
  }

  function Pads(s: string): (n: nat)
    ensures n <= |s|
  {
    if s != "" && s[|s| - 1] == '=' then 1 + Pads(s[..|s| - 1]) else 0
  }

  predicate InAlphabet(s: string) {
    forall i :: 0 <= i < |s| ==> ValueOf(s[i]).Some?
  }

  function Values(s: string): seq<Sextet>
    requires InAlphabet(s)
  {
    seq(|s|, i requires 0 <= i < |s| => ValueOf(s[i]).value)
  }

  lemma {:induction false} PadsBound(s: string)
    ensures Pads(s) <= |s|
    ensures Pads(s) < |s| ==> s[|s| - Pads(s) - 1] != '='
  {
    if s != "" && s[|s| - 1] == '=' {
      PadsBound(s[..|s| - 1]);
    }
  }

  /** Strict about the alphabet and the least padding, lenient about superfluous padding
      and about bits beyond the last byte. */
  function Decode(s: string): Option<seq<Byte>> {
    PadsBound(s);
    var pads := Pads(s);
    var body := s[..|s| - pads];
    if pads > 2 || !InAlphabet(body) || |body| % 4 == 1 || (|body| % 4 == 2 && pads < 2) || (|body| % 4 == 3 && pads < 1)
    then None
    else Some(Unpack(Values(body)))
  }

  function Quads(n: nat): nat {
    4 * ((n + 2) / 3)
  }

  lemma OneQuadMore(n: nat)
    ensures Quads(n + 3) == Quads(n) + 4 && Padding(n + 3) == Padding(n)
  {
  }

  lemma {:induction false} EncodedLength(d: seq<Byte>)
    ensures |Encode(d)| == Quads(|d|)
    ensures |Pack(d)| + |Padding(|d|)| == Quads(|d|)
  {
    hide Lead, Cross, Over, Tail;
    if |d| < 3 {
    } else {
      hide Quads, Padding;
      EncodedLength(d[3..]);
      OneQuadMore(|d| - 3);
    }
  }

  lemma TextValues(v: seq<Sextet>)
    ensures |Text(v)| == |v| && InAlphabet(Text(v)) && Values(Text(v)) == v
    ensures v != [] ==> Text(v)[|v| - 1] != '='
  {
    forall i | 0 <= i < |v| ensures ValueOf(Text(v)[i]) == Some(v[i]) {
      ValueOfCharOf(v[i]);
    }
  }

  lemma PadsOf(body: string, n: nat)
    requires body == "" || body[|body| - 1] != '='
    ensures Pads(body + Padding(n)) == |Padding(n)|
  {
    var s := body + Padding(n);
    if |Padding(n)| > 0 {
      var t := s[..|s| - 1];
      if |Padding(n)| == 2 {
        assert t[..|t| - 1] == body;
        assert Pads(t) == 1 + Pads(body) && Pads(s) == 1 + Pads(t);
      } else {
        assert t == body;
      }
    } else {
      assert s == body;
    }
  }

  lemma PaddingFits(length: nat, n: nat)
    requires length + |Padding(n)| == Quads(n)
    ensures |Padding(n)| <= 2 && length % 4 != 1
    ensures length % 4 == 2 ==> |Padding(n)| == 2
    ensures length % 4 == 3 ==> |Padding(n)| == 1
  {
  }

  /** Text with the padding its length calls for is taken apart again. */
  lemma PaddedText(v: seq<Sextet>, n: nat)
    requires |v| + |Padding(n)| == Quads(n)
    ensures Decode(Text(v) + Padding(n)) == Some(Unpack(v))
  {
    hide Unpack, Quads, Padding, Text, Values, InAlphabet, Pads;
    TextValues(v);
    PadsOf(Text(v), n);
    var s := Text(v) + Padding(n);
    assert s[..|s| - |Padding(n)|] == Text(v);
    PaddingFits(|v|, n);
  }

  lemma DecodeEncode(d: seq<Byte>)
    ensures Decode(Encode(d)) == Some(d)
  {
    hide Pack, Unpack, Text, Values, InAlphabet;
    UnpackPack(d);
    EncodedLength(d);
    PaddedText(Pack(d), |d|);
  }

  // ---------------------------------------------------------------- canonical text

  /** The bits beyond the last whole byte are zero. */
  predicate SpareZero(v: seq<Sextet>) {
    && (|v| % 4 == 2 ==> v[|v| - 1] % 16 == 0)
    && (|v| % 4 == 3 ==> v[|v| - 1] % 4 == 0)
  }

  function Needed(length: nat): nat {
    if length % 4 == 2 then 2 else if length % 4 == 3 then 1 else 0
  }

  lemma QuadIsExact(a: Sextet, b: Sextet, c: Sextet, d: Sextet)
    ensures Lead(First(a, b)) == a
    ensures Cross(First(a, b), Second(b, c)) == b
    ensures Over(Second(b, c), Third(c, d)) == c
    ensures Tail(Third(c, d)) == d
    ensures Cross(First(a, b), 0) == b <==> b % 16 == 0
    ensures Over(Second(b, c), 0) == c <==> c % 4 == 0
  {
  }

  lemma PackAfter(a: Byte, b: Byte, c: Byte, rest: seq<Byte>)
    ensures Pack([a, b, c] + rest) == [Lead(a), Cross(a, b), Over(b, c), Tail(c)] + Pack(rest)
  {
    var d := [a, b, c] + rest;
    assert d[3..] == rest;
  }

  lemma {:induction false} PackUnpack(v: seq<Sextet>)
    requires |v| % 4 != 1
    ensures Pack(Unpack(v)) == v <==> SpareZero(v)
    ensures |Padding(|Unpack(v)|)| == Needed(|v|)
  {
    hide First, Second, Third, Lead, Cross, Over, Tail;
    if |v| == 0 {
    } else if |v| == 2 {
      QuadIsExact(v[0], v[1], 0, 0);
    } else if |v| == 3 {
      QuadIsExact(v[0], v[1], v[2], 0);
    } else {
      hide Pack, Unpack, Padding, SpareZero, Needed;
      PackUnpack(v[4..]);
      QuadPacksBack(v);
      SpareBehindQuad(v);
    }
  }

  lemma QuadPacksBack(v: seq<Sextet>)
    requires |v| >= 4
    ensures Pack(Unpack(v)) == v <==> Pack(Unpack(v[4..])) == v[4..]
    ensures Padding(|Unpack(v)|) == Padding(|Unpack(v[4..])|)
  {
    hide First, Second, Third, Lead, Cross, Over, Tail;
    var quad, rest := v[..4], v[4..];
    QuadIsExact(v[0], v[1], v[2], v[3]);
    UnpackAfter(v[0], v[1], v[2], v[3], rest);
    PackAfter(First(v[0], v[1]), Second(v[1], v[2]), Third(v[2], v[3]), Unpack(rest));
    hide Pack, Unpack, Padding;
    assert v == quad + rest && quad == [v[0], v[1], v[2], v[3]];
    assert Pack(Unpack(v)) == quad + Pack(Unpack(rest));
    assert (quad + Pack(Unpack(rest)))[4..] == Pack(Unpack(rest));
    OneQuadMore(|Unpack(rest)|);
  }

  lemma SpareBehindQuad(v: seq<Sextet>)
    requires |v| >= 4
    ensures SpareZero(v) <==> SpareZero(v[4..])
    ensures Needed(|v|) == Needed(|v[4..]|)
  {
  }

  lemma CharOfValueOf(c: char)
    requires ValueOf(c).Some?
    ensures CharOf(ValueOf(c).value) == c
  {
  }

  lemma TextOfValues(body: string)
    requires InAlphabet(body)
    ensures Text(Values(body)) == body
  {
    forall i | 0 <= i < |body| ensures Text(Values(body))[i] == body[i] {
      CharOfValueOf(body[i]);
    }
  }

  lemma {:induction false} PadsAre(s: string)
    ensures Pads(s) <= |s| && forall i :: |s| - Pads(s) <= i < |s| ==> s[i] == '='
  {
    if s == "" || s[|s| - 1] != '=' {
    } else {
      PadsAre(s[..|s| - 1]);
    }
  }

  /** Of the texts the decoder accepts, those with no superfluous padding and no bits beyond the last
      byte, and no others, are the encoding of what they decode to. */
  lemma CanonicalMeansExact(s: string)
    requires Decode(s).Some?
    ensures var body := s[..|s| - Pads(s)];
            Encode(Decode(s).value) == s <==> Pads(s) == Needed(|body|) && SpareZero(Values(body))
  {
    hide Pack, Unpack, Text, Values, InAlphabet, Padding, Pads, SpareZero, Needed;
    PadsAre(s);
    var body, d := s[..|s| - Pads(s)], Decode(s).value;
    var v := Values(body);
    TextOfValues(body);
    ValuesLength(body);
    PackUnpack(v);
    PaddingIs(|d|);
    if Encode(d) == s {
      TextValues(Pack(d));
      PadsOf(Text(Pack(d)), |d|);
      assert s[..|s| - |Padding(|d|)|] == Text(Pack(d));
    }
    if Pads(s) == Needed(|body|) && SpareZero(v) {
      assert s == body + s[|body|..];
      assert s[|body|..] == Padding(|d|);
    }
  }

  lemma ValuesLength(body: string)
    requires InAlphabet(body)
    ensures |Values(body)| == |body|
  {
  }

  lemma PaddingIs(n: nat)
    ensures forall i :: 0 <= i < |Padding(n)| ==> Padding(n)[i] == '='
  {
  }
}
