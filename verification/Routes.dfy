/** Request paths the clients build, and the fixture server's router that reads them. */
module Routes {
  // Percent-encoding is that of section 2.1 of RFC 3986, dot segments those of its section 5.2.4.
  // Identifiers are any octets; which of them are UTF-8 is in section 4 of RFC 3629.

  import opened Prelude

  type Octet = b: int | 0 <= b < 256

  type Id = seq<Octet>

  // ---------------------------------------------------------------- percent-encoding

  function Hex(d: int): char
    requires 0 <= d < 16
  {
    "0123456789ABCDEF"[d]
  }

  function HexValue(c: char): Option<int> {
    if '0' <= c <= '9' then Some(c as int - '0' as int)
    else if 'A' <= c <= 'F' then Some(c as int - 'A' as int + 10)
    else if 'a' <= c <= 'f' then Some(c as int - 'a' as int + 10)
    else None
  }

  predicate Alphanumeric(c: char) { '0' <= c <= '9' || 'A' <= c <= 'Z' || 'a' <= c <= 'z' }

  datatype Encoder = GoPathEscape | JsEncodeComponent | PhpRawUrlEncode

  /** The characters an encoder leaves as they are. */
  predicate Keeps(e: Encoder, c: char) {
    Alphanumeric(c) || c in match e
      case GoPathEscape => "-_.~$&+=:@"
      case JsEncodeComponent => "-_.!~*'()"
      case PhpRawUrlEncode => "-_.~"
  }

  function EncodeOctet(e: Encoder, b: Octet): string {
    if b < 128 && Keeps(e, b as char) then [b as char] else ['%', Hex(b / 16), Hex(b % 16)]
  }

  function Encode(e: Encoder, id: Id): string {
    if |id| == 0 then "" else EncodeOctet(e, id[0]) + Encode(e, id[1..])
  }

  /** Undoing the escapes of an ASCII text, octet by octet; a bad escape throws. */
  function DecodeOctets(text: string): Option<Id> {
    if |text| == 0 then Some([])
    else if text[0] != '%' then
      var rest := DecodeOctets(text[1..]);
      if rest.None? || text[0] as int >= 128 then None else Some([text[0] as int] + rest.value)
    else if |text| < 3 || HexValue(text[1]).None? || HexValue(text[2]).None? then None
    else
      var rest := DecodeOctets(text[3..]);
      if rest.None? then None else Some([HexValue(text[1]).value * 16 + HexValue(text[2]).value] + rest.value)
  }

  /** Section 2.3 of RFC 3986. */
  ghost predicate Unreserved(c: char) {
    '0' <= c <= '9' || 'A' <= c <= 'Z' || 'a' <= c <= 'z' || c in {'-', '.', '_', '~'}
  }

  /** The digit of this value, counted from the codes of `0`, `A` and, if `small`, `a`. */
  ghost predicate IsDigitOf(c: char, d: int, small: bool) {
    if d < 10 then c as int == 0x30 + d else c as int == 0x41 + d - 10 || (small && c as int == 0x61 + d - 10)
  }

  /**
   * Every encoder keeps the unreserved characters, PHP's no other; each other octet becomes a percent
   * sign and two digits of base 16, with capitals.
   */
  lemma {:induction false} EncodedOctetIs(e: Encoder, b: Octet)
    ensures var c, text := b as char, EncodeOctet(e, b);
      if Unreserved(c) || (e.GoPathEscape? && c in {'$', '&', '+', '=', ':', '@'})
        || (e.JsEncodeComponent? && c in {'!', '*', '\'', '(', ')'}) then text == [c]
      else |text| == 3 && text[0] == '%' && IsDigitOf(text[1], b / 16, false) && IsDigitOf(text[2], b % 16, false)
  {
    KeepsAre(e, b as char);
    HexIs(b / 16);
    HexIs(b % 16);
  }

  lemma {:induction false} HexIs(d: int)
    requires 0 <= d < 16
    ensures IsDigitOf(Hex(d), d, false)
  {
  }

  lemma {:induction false} KeepsAre(e: Encoder, c: char)
    ensures Keeps(e, c) <==>
      || Unreserved(c)
      || (e.GoPathEscape? && c in {'$', '&', '+', '=', ':', '@'})
      || (e.JsEncodeComponent? && c in {'!', '*', '\'', '(', ')'})
  {
    assert forall i :: 0 <= i < 10 ==> "-_.~$&+=:@"[i] in "-_.~$&+=:@";
    assert forall i :: 0 <= i < 9 ==> "-_.!~*'()"[i] in "-_.!~*'()";
    assert forall i :: 0 <= i < 4 ==> "-_.~"[i] in "-_.~";
  }

  /** The decoder reads digits of base 16 with capitals and without. */
  lemma {:induction false} HexValueIs(c: char, d: int)
    ensures HexValue(c) == Some(d) <==> 0 <= d < 16 && IsDigitOf(c, d, true)
  {
  }

  lemma {:induction false} HexRoundTrip(d: int)
    requires 0 <= d < 16
    ensures HexValue(Hex(d)) == Some(d) && Alphanumeric(Hex(d))
  {
  }

  lemma {:induction false} DecodeInFront(e: Encoder, b: Octet, tail: string, rest: Id)
    requires DecodeOctets(tail) == Some(rest)
    ensures DecodeOctets(EncodeOctet(e, b) + tail) == Some([b] + rest)
  {
    var head := EncodeOctet(e, b);
    var text := head + tail;
    if |head| == 1 {
      assert text[0] == b as char && text[1..] == tail;
    } else {
      HexRoundTrip(b / 16);
      HexRoundTrip(b % 16);
      assert text[0] == '%' && text[1] == Hex(b / 16) && text[2] == Hex(b % 16) && text[3..] == tail;
    }
  }

  lemma {:induction false} DecodeOctetsEncode(e: Encoder, id: Id)
    ensures DecodeOctets(Encode(e, id)) == Some(id)
  {
    if |id| > 0 {
      DecodeOctetsEncode(e, id[1..]);
      DecodeInFront(e, id[0], Encode(e, id[1..]), id[1..]);
      assert id == [id[0]] + id[1..];
    }
  }

  /** Section 4 of RFC 3629: a continuation octet. */
  predicate IsTail(b: Octet) { 0x80 <= b <= 0xBF }

  /** The length of the well-formed UTF-8 sequence in front, 0 when there is none. */
  function SequenceLength(id: Id): (n: nat)
    ensures n <= |id|
  {
    if |id| == 0 then 0
    else if id[0] < 0x80 then 1
    else if |id| >= 2 && 0xC2 <= id[0] <= 0xDF && IsTail(id[1]) then 2
    else if |id| >= 3 && ThreeOctets(id[0], id[1]) && IsTail(id[2]) then 3
    else if |id| >= 4 && FourOctets(id[0], id[1]) && IsTail(id[2]) && IsTail(id[3]) then 4
    else 0
  }

  /** No overlong form and no surrogate. */
  predicate ThreeOctets(a: Octet, b: Octet) {
    || (a == 0xE0 && 0xA0 <= b <= 0xBF)
    || ((0xE1 <= a <= 0xEC || 0xEE <= a <= 0xEF) && IsTail(b))
    || (a == 0xED && 0x80 <= b <= 0x9F)
  }

  /** No overlong form and nothing above U+10FFFF. */
  predicate FourOctets(a: Octet, b: Octet) {
    (a == 0xF0 && 0x90 <= b <= 0xBF) || (0xF1 <= a <= 0xF3 && IsTail(b)) || (a == 0xF4 && 0x80 <= b <= 0x8F)
  }

  predicate IsUtf8(id: Id)
    decreases |id|
  {
    |id| == 0 || (SequenceLength(id) > 0 && IsUtf8(id[SequenceLength(id)..]))
  }

  /** Section 3 of RFC 3629: the octets of a character number, by how many payload bits it needs. */
  function Utf8Of(c: int): Id
    requires 0 <= c <= 0x10FFFF
  {
    if c < 0x80 then [c]
    else if c < 0x800 then [0xC0 + c / 0x40, 0x80 + c % 0x40]
    else if c < 0x1_0000 then [0xE0 + c / 0x1000, 0x80 + c / 0x40 % 0x40, 0x80 + c % 0x40]
    else [0xF0 + c / 0x4_0000, 0x80 + c / 0x1000 % 0x40, 0x80 + c / 0x40 % 0x40, 0x80 + c % 0x40]
  }

  /** A character number that is no surrogate half. */
  type Scalar = c: int | 0 <= c < 0xD800 || 0xE000 <= c <= 0x10FFFF

  function Utf8(text: seq<Scalar>): Id { if |text| == 0 then [] else Utf8Of(text[0]) + Utf8(text[1..]) }

  /** One well-formed sequence in front is the octets of one scalar value. */
  lemma {:induction false} SequenceIff(id: Id, c: Scalar)
    ensures Utf8Of(c) <= id ==> SequenceLength(id) == |Utf8Of(c)|
  {
    var octets := Utf8Of(c);
    if octets <= id {
      assert forall i :: 0 <= i < |octets| ==> id[i] == octets[i];
      if 0x800 <= c < 0x1_0000 {
        ThreeFit(c);
      } else if c >= 0x1_0000 {
        FourFit(c);
      }
    }
  }

  lemma {:induction false} ThreeFit(c: Scalar)
    requires 0x800 <= c < 0x1_0000
    ensures var octets := Utf8Of(c); |octets| == 3 && ThreeOctets(octets[0], octets[1]) && IsTail(octets[2])
  {
  }

  lemma {:induction false} FourFit(c: Scalar)
    requires 0x1_0000 <= c
    ensures var octets := Utf8Of(c);
      |octets| == 4 && FourOctets(octets[0], octets[1]) && IsTail(octets[2]) && IsTail(octets[3])
  {
  }

  /** The payload bits of a sequence are the number's digits in base 64. */
  lemma {:induction false} Digits64(high: nat, b: nat, a: nat)
    requires a < 0x40 && b < 0x40
    ensures var n := high * 0x1000 + b * 0x40 + a;
      n % 0x40 == a && n / 0x40 == high * 0x40 + b && n / 0x40 % 0x40 == b && n / 0x1000 == high
  {
  }

  lemma {:induction false} ThreeAre(x: Octet, y: Octet, z: Octet) returns (c: Scalar)
    requires ThreeOctets(x, y) && IsTail(z)
    ensures Utf8Of(c) == [x, y, z]
  {
    var high, b, a := x as int - 0xE0, y as int - 0x80, z as int - 0x80;
    Digits64(high, b, a);
    c := high * 0x1000 + b * 0x40 + a;
  }

  lemma {:induction false} FourAre(w: Octet, x: Octet, y: Octet, z: Octet) returns (c: Scalar)
    requires FourOctets(w, x) && IsTail(y) && IsTail(z)
    ensures Utf8Of(c) == [w, x, y, z]
  {
    var top, high, b, a := w as int - 0xF0, x as int - 0x80, y as int - 0x80, z as int - 0x80;
    Digits64(top * 0x40 + high, b, a);
    c := (top * 0x40 + high) * 0x1000 + b * 0x40 + a;
    assert c / 0x4_0000 == top && c / 0x1000 % 0x40 == high;
  }

  lemma {:induction false} SequenceIs(id: Id) returns (c: Scalar)
    requires SequenceLength(id) > 0
    ensures id[..SequenceLength(id)] == Utf8Of(c)
  {
    var n := SequenceLength(id);
    if n == 1 {
      c := id[0];
    } else if n == 2 {
      c := (id[0] as int - 0xC0) * 0x40 + (id[1] as int - 0x80);
    } else if n == 3 {
      c := ThreeAre(id[0], id[1], id[2]);
    } else {
      c := FourAre(id[0], id[1], id[2], id[3]);
    }
  }

  lemma {:induction false} Utf8InFront(c: Scalar, rest: Id)
    ensures IsUtf8(Utf8Of(c) + rest) <==> IsUtf8(rest)
  {
    var first := Utf8Of(c);
    SequenceIff(first + rest, c);
    assert (first + rest)[|first|..] == rest;
  }

  lemma {:induction false} Utf8Cons(c: Scalar, rest: seq<Scalar>)
    ensures Utf8([c] + rest) == Utf8Of(c) + Utf8(rest)
  {
    assert ([c] + rest)[1..] == rest;
  }

  /** The octets of a text are accepted. */
  lemma {:induction false} Utf8Accepted(text: seq<Scalar>)
    ensures IsUtf8(Utf8(text))
  {
    if |text| > 0 {
      Utf8Accepted(text[1..]);
      Utf8InFront(text[0], Utf8(text[1..]));
    }
  }

  lemma {:induction false} FrontAndBack(id: Id, n: nat)
    requires n <= |id|
    ensures id[..n] + id[n..] == id
  {
  }

  lemma {:induction false} Utf8Read(id: Id) returns (text: seq<Scalar>)
    requires IsUtf8(id)
    ensures Utf8(text) == id
    decreases |id|
  {
    if |id| == 0 {
      text := [];
    } else {
      var n := SequenceLength(id);
      var c := SequenceIs(id);
      var rest := Utf8Read(id[n..]);
      text := [c] + rest;
      Utf8Cons(c, rest);
      FrontAndBack(id, n);
    }
  }

  /** The octets accepted are exactly those of texts: some sequence of scalar values encodes to them. */
  lemma {:induction false} Utf8Iff(id: Id)
    ensures IsUtf8(id) <==> exists text :: Utf8(text) == id
  {
    if IsUtf8(id) {
      var text := Utf8Read(id);
    }
    if text :| Utf8(text) == id {
      Utf8Accepted(text);
    }
  }

  /** `decodeURIComponent`, which also throws on octets that are no UTF-8. */
  function Decode(text: string): Option<Id> {
    var octets := DecodeOctets(text);
    if octets.Some? && IsUtf8(octets.value) then octets else None
  }

  /** Decoding undoes encoding, exactly for identifiers in UTF-8; for others it throws. */
  lemma {:induction false} DecodeEncode(e: Encoder, id: Id)
    ensures Decode(Encode(e, id)) == if IsUtf8(id) then Some(id) else None
  {
    DecodeOctetsEncode(e, id);
  }

  lemma {:induction false} AsciiIsUtf8(id: Id)
    requires forall i :: 0 <= i < |id| ==> id[i] < 0x80
    ensures IsUtf8(id)
  {
    if |id| > 0 {
      AsciiIsUtf8(id[1..]);
    }
  }

  lemma {:induction false} OctetChars(e: Encoder, b: Octet)
    ensures forall c :: c in EncodeOctet(e, b) ==> Keeps(e, c) || c == '%'
    ensures EncodeOctet(e, b) != ""
  {
    HexRoundTrip(b / 16);
    HexRoundTrip(b % 16);
  }

  lemma {:induction false} EncodedChars(e: Encoder, id: Id)
    ensures forall c :: c in Encode(e, id) ==> Keeps(e, c) || c == '%'
    ensures '/' !in Encode(e, id)
    ensures Encode(e, id) == "" <==> id == []
  {
    if |id| > 0 {
      EncodedChars(e, id[1..]);
      OctetChars(e, id[0]);
    }
  }

  // ---------------------------------------------------------------- paths and their segments

  /** The text of a path from its segments. */
  function PathOf(segments: seq<string>): string {
    if |segments| == 0 then "" else "/" + segments[0] + PathOf(segments[1..])
  }

  /** `split("/")` of what follows the leading slash. */
  function Split(text: string): (r: seq<string>)
    ensures |r| > 0
  {
    if |text| == 0 then [""]
    else
      var rest := Split(text[1..]);
      if text[0] == '/' then [""] + rest else [[text[0]] + rest[0]] + rest[1..]
  }

  function SegmentsOf(path: string): seq<string> {
    if |path| > 0 && path[0] == '/' then Split(path[1..]) else Split(path)
  }

  lemma {:induction false} SplitSegment(segment: string, rest: string)
    requires '/' !in segment && (rest == "" || rest[0] == '/')
    ensures Split(segment + rest) == [segment] + (if rest == "" then [] else Split(rest[1..]))
  {
    var text := segment + rest;
    if |segment| == 0 {
      assert text == rest;
    } else {
      assert segment[0] in segment && text[0] == segment[0];
      assert text[1..] == segment[1..] + rest;
      assert '/' !in segment[1..] by { assert forall c :: c in segment[1..] ==> c in segment; }
      SplitSegment(segment[1..], rest);
      assert segment == [segment[0]] + segment[1..];
    }
  }

  lemma {:induction false} SplitPath(segments: seq<string>)
    requires |segments| > 0 && forall i :: 0 <= i < |segments| ==> '/' !in segments[i]
    ensures SegmentsOf(PathOf(segments)) == segments
  {
    var rest := PathOf(segments[1..]);
    assert PathOf(segments)[1..] == segments[0] + rest;
    assert rest == "" || rest[0] == '/';
    SplitSegment(segments[0], rest);
    assert segments == [segments[0]] + segments[1..];
    if |segments| > 1 {
      SplitPath(segments[1..]);
    }
  }

  // ---------------------------------------------------------------- dot segments

  predicate IsSingleDot(s: string) { s == "." || s == "%2e" || s == "%2E" }

  predicate IsDoubleDot(s: string) {
    || s == ".."
    || (|s| == 4 && ((s[0] == '.' && IsSingleDot(s[1..])) || (s[3] == '.' && IsSingleDot(s[..3]))))
    || (|s| == 6 && IsSingleDot(s[..3]) && IsSingleDot(s[3..]))
  }

  /** A dot or its percent-encoding, with either case of the letter. */
  ghost predicate IsOneDot(s: string) { s in {".", "%2e", "%2E"} }

  /** A double dot is two dots in a row, each as it is or percent-encoded. */
  lemma {:induction false} DotsAre(s: string)
    ensures IsSingleDot(s) <==> IsOneDot(s)
    ensures IsDoubleDot(s) <==> exists k :: 0 <= k <= |s| && IsOneDot(s[..k]) && IsOneDot(s[k..])
  {
    if s == ".." {
      assert s[..1] == "." && s[1..] == ".";
    } else if |s| == 4 && s[0] == '.' && IsSingleDot(s[1..]) {
      assert s[..1] == ".";
    } else if |s| == 4 && s[3] == '.' && IsSingleDot(s[..3]) {
      assert s[3..] == ".";
    } else if IsDoubleDot(s) {
      assert IsOneDot(s[..3]) && IsOneDot(s[3..]);
    }
    if k :| 0 <= k <= |s| && IsOneDot(s[..k]) && IsOneDot(s[k..]) {
      assert s == s[..k] + s[k..];
    }
  }

  /** The URL parser's treatment of `.` and `..`; a path that ends in one ends in a slash. */
  function RemoveDots(done: seq<string>, segments: seq<string>): seq<string>
    decreases segments
  {
    if |segments| == 0 then done
    else
      var s, last := segments[0], |segments| == 1;
      var end := if last then [""] else [];
      if IsDoubleDot(s) then RemoveDots((if |done| == 0 then done else done[..|done| - 1]) + end, segments[1..])
      else if IsSingleDot(s) then RemoveDots(done + end, segments[1..])
      else RemoveDots(done + [s], segments[1..])
  }

  function PathnameSegments(path: string): seq<string> { RemoveDots([], SegmentsOf(path)) }

  predicate IsDot(s: string) { IsSingleDot(s) || IsDoubleDot(s) }

  lemma {:induction false} NoDotsNoChange(done: seq<string>, segments: seq<string>)
    requires forall i :: 0 <= i < |segments| ==> !IsDot(segments[i])
    ensures RemoveDots(done, segments) == done + segments
    decreases segments
  {
    if |segments| > 0 {
      NoDotsNoChange(done + [segments[0]], segments[1..]);
      assert done + [segments[0]] + segments[1..] == done + segments;
    }
  }

  predicate IsDotId(id: Id) { id == ['.' as int] || id == ['.' as int, '.' as int] }

  lemma {:induction false} SingleDotDecodes(s: string)
    requires IsSingleDot(s)
    ensures DecodeOctets(s) == Some(['.' as int])
  {
    SingleDotInFront(s, "");
    assert s + "" == s && ['.' as int] + [] == ['.' as int];
  }

  lemma {:induction false} DoubleDotDecodes(s: string)
    requires IsDoubleDot(s)
    ensures DecodeOctets(s) == Some(['.' as int, '.' as int])
  {
    var k := if s == ".." || (|s| == 4 && s[0] == '.' && IsSingleDot(s[1..])) then 1 else 3;
    assert s == ".." ==> s[..1] == "." && s[1..] == ".";
    assert |s| == 4 && s[0] == '.' ==> s[..1] == ".";
    assert |s| == 4 && s[3] == '.' ==> s[3..] == ".";
    SingleDotDecodes(s[k..]);
    SingleDotInFront(s[..k], s[k..]);
    assert s == s[..k] + s[k..] && ['.' as int] + ['.' as int] == ['.' as int, '.' as int];
  }

  lemma {:induction false} SingleDotInFront(dot: string, tail: string)
    requires IsSingleDot(dot)
    ensures DecodeOctets(dot + tail) == if DecodeOctets(tail).None? then None
      else Some(['.' as int] + DecodeOctets(tail).value)
  {
    var text := dot + tail;
    if dot == "." {
      assert text[0] == '.' && text[1..] == tail;
    } else {
      assert text[0] == '%' && text[1] == dot[1] && text[2] == dot[2] && text[3..] == tail;
    }
  }

  /** An encoded identifier is a dot segment exactly when the identifier is `.` or `..`. */
  lemma {:induction false} EncodedDot(e: Encoder, id: Id)
    ensures IsDot(Encode(e, id)) <==> IsDotId(id)
    ensures id == ['.' as int] ==> Encode(e, id) == "."
    ensures id == ['.' as int, '.' as int] ==> Encode(e, id) == ".."
  {
    if IsDot(Encode(e, id)) {
      DotIsEncodedDot(e, id);
    }
    DotsEncode(e);
  }

  lemma {:induction false} DotIsEncodedDot(e: Encoder, id: Id)
    requires IsDot(Encode(e, id))
    ensures IsDotId(id)
  {
    DecodeOctetsEncode(e, id);
    if IsSingleDot(Encode(e, id)) {
      SingleDotDecodes(Encode(e, id));
    } else {
      DoubleDotDecodes(Encode(e, id));
    }
  }

  lemma {:induction false} DotsEncode(e: Encoder)
    ensures Encode(e, ['.' as int]) == "." && Encode(e, ['.' as int, '.' as int]) == ".."
  {
    var dot: Id := ['.' as int];
    EncodeOctetKept(e, '.');
    assert dot + [] == dot && dot + dot == ['.' as int, '.' as int];
    EncodeCons(e, '.' as int, []);
    EncodeCons(e, '.' as int, dot);
  }

  // ---------------------------------------------------------------- requests and routes

  /** A REST operation with the parameters that go into its path. */
  datatype Request =
    | ListRegions | GetRegion(id: Id) | ListRegionDistricts(id: Id)
    | ListDistricts | GetDistrict(id: Id) | ListDistrictPlaces(id: Id)
    | ListPlaces | GetPlace(id: Id)
    | Search | Autocomplete | Geocode | ReverseGeocode | Nearby
    | GetBoundary(id: Id)
    | ListDatasets | ListDatasetDownloads(version: Id) | DownloadDatasetArtifact(version: Id, entity: Id, format: Id)
    | ListRoads | ListPointsOfInterest

  /** The path segments behind the host; the base URL contributes `v1`. */
  function RequestSegments(e: Encoder, r: Request): seq<string> {
    ["v1"] + match r
      case ListRegions => ["regions"]
      case GetRegion(id) => ["regions", Encode(e, id)]
      case ListRegionDistricts(id) => ["regions", Encode(e, id), "districts"]
      case ListDistricts => ["districts"]
      case GetDistrict(id) => ["districts", Encode(e, id)]
      case ListDistrictPlaces(id) => ["districts", Encode(e, id), "places"]
      case ListPlaces => ["places"]
      case GetPlace(id) => ["places", Encode(e, id)]
      case Search => ["search"]
      case Autocomplete => ["autocomplete"]
      case Geocode => ["geocode"]
      case ReverseGeocode => ["reverse"]
      case Nearby => ["nearby"]
      case GetBoundary(id) => ["boundaries", Encode(e, id)]
      case ListDatasets => ["datasets"]
      case ListDatasetDownloads(version) => ["datasets", Encode(e, version), "downloads"]
      case DownloadDatasetArtifact(version, entity, format) =>
        ["datasets", Encode(e, version), "downloads", Encode(e, entity) + "." + Encode(e, format)]
      case ListRoads => ["roads"]
      case ListPointsOfInterest => ["pois"]
  }

  function RequestPath(e: Encoder, r: Request): string { PathOf(RequestSegments(e, r)) }

  const ENTITIES := ["regions", "districts", "places"]

  const FORMATS := ["json", "csv", "geojson"]

  /** The artifact name `entity.format` of the last download route. */
  predicate IsArtifact(s: string) {
    exists x, f :: x in ENTITIES && f in FORMATS && s == x + "." + f
  }

  /** The operation names of the router. */
  datatype Operation =
    | OpListRegions | OpGetRegion | OpListRegionDistricts | OpListDistricts | OpGetDistrict | OpListDistrictPlaces
    | OpListPlaces | OpGetPlace | OpSearch | OpAutocomplete | OpGeocode | OpReverseGeocode | OpNearby | OpGetBoundary
    | OpListDatasets | OpListDatasetDownloads | OpDownloadDatasetArtifact | OpListRoads | OpListPointsOfInterest

  /** One route pattern, on the segments of the path: `[^/]+` is a segment that is not empty. */
  predicate Matches(op: Operation, p: seq<string>) {
    |p| >= 2 && p[0] == "v1" && match op
      case OpListRegions => p[1..] == ["regions"]
      case OpGetRegion => |p| == 3 && p[1] == "regions" && p[2] != ""
      case OpListRegionDistricts => |p| == 4 && p[1] == "regions" && p[2] != "" && p[3] == "districts"
      case OpListDistricts => p[1..] == ["districts"]
      case OpGetDistrict => |p| == 3 && p[1] == "districts" && p[2] != ""
      case OpListDistrictPlaces => |p| == 4 && p[1] == "districts" && p[2] != "" && p[3] == "places"
      case OpListPlaces => p[1..] == ["places"]
      case OpGetPlace => |p| == 3 && p[1] == "places" && p[2] != ""
      case OpSearch => p[1..] == ["search"]
      case OpAutocomplete => p[1..] == ["autocomplete"]
      case OpGeocode => p[1..] == ["geocode"]
      case OpReverseGeocode => p[1..] == ["reverse"]
      case OpNearby => p[1..] == ["nearby"]
      case OpGetBoundary => |p| == 3 && p[1] == "boundaries" && p[2] != ""
      case OpListDatasets => p[1..] == ["datasets"]
      case OpListDatasetDownloads => |p| == 4 && p[1] == "datasets" && p[2] != "" && p[3] == "downloads"
      case OpDownloadDatasetArtifact => |p| == 5 && p[1] == "datasets" && p[2] != "" && p[3] == "downloads" &&
        IsArtifact(p[4])
      case OpListRoads => p[1..] == ["roads"]
      case OpListPointsOfInterest => p[1..] == ["pois"]
  }

  const ROUTES := [
    OpListRegions, OpListRegionDistricts, OpGetRegion, OpListDistricts, OpListDistrictPlaces, OpGetDistrict,
    OpListPlaces, OpGetPlace, OpSearch, OpAutocomplete, OpGeocode, OpReverseGeocode, OpNearby, OpGetBoundary,
    OpListDatasets, OpListDatasetDownloads, OpDownloadDatasetArtifact, OpListRoads, OpListPointsOfInterest]

  function FirstMatch(routes: seq<Operation>, p: seq<string>): Option<Operation> {
    if |routes| == 0 then None
    else if Matches(routes[0], p) then Some(routes[0])
    else FirstMatch(routes[1..], p)
  }

  /** `operationFromPath`: the patterns in order. */
  function Route(p: seq<string>): Option<Operation> { FirstMatch(ROUTES, p) }

  datatype PathInput = NoInput | IdInput(id: Id) | VersionInput(version: Id) |
      ArtifactInput(version: Id, entity: Id, format: Id)

  /** `map(decodeURIComponent)`: one part that throws is enough. */
  function DecodeAll(parts: seq<string>): (r: Option<seq<Id>>)
    ensures r.Some? ==> |r.value| == |parts|
  {
    if |parts| == 0 then Some([])
    else
      var first, rest := Decode(parts[0]), DecodeAll(parts[1..]);
      if first.None? || rest.None? then None else Some([first.value] + rest.value)
  }

  /** `pathInput` on the non-empty parts: all are decoded, then the parameters are taken by position. */
  function InputAt(op: Operation, parts: seq<string>): Option<PathInput> {
    var ids := DecodeAll(parts);
    if ids.None? then None else Select(op, ids.value)
  }

  function Select(op: Operation, ids: seq<Id>): Option<PathInput> {
    var n := |ids|;
    match op
    case OpGetRegion => IdAt(ids, n - 1)
    case OpGetDistrict => IdAt(ids, n - 1)
    case OpGetPlace => IdAt(ids, n - 1)
    case OpGetBoundary => IdAt(ids, n - 1)
    case OpListRegionDistricts => IdAt(ids, n - 2)
    case OpListDistrictPlaces => IdAt(ids, n - 2)
    case OpListDatasetDownloads => if n >= 2 then Some(VersionInput(ids[n - 2])) else None
    case OpDownloadDatasetArtifact =>
      if n < 3 || |SplitDots(ids[n - 1])| < 2 then None
      else Some(ArtifactInput(ids[n - 3], SplitDots(ids[n - 1])[0], SplitDots(ids[n - 1])[1]))
    case _ => Some(NoInput)
  }

  function IdAt(ids: seq<Id>, k: int): Option<PathInput> {
    if 0 <= k < |ids| then Some(IdInput(ids[k])) else None
  }

  /** `split(".")`. */
  function SplitDots(id: Id): (r: seq<Id>)
    ensures |r| > 0
  {
    if |id| == 0 then [[]]
    else
      var rest := SplitDots(id[1..]);
      if id[0] == '.' as int then [[]] + rest else [[id[0]] + rest[0]] + rest[1..]
  }

  function NonEmpty(p: seq<string>): seq<string> { Filter((s: string) => s != "", p) }

  /** What the fixture server makes of a path: the URL parser, the router, then `pathInput`. */
  function Receive(path: string): Option<(Operation, Option<PathInput>)> {
    var p := PathnameSegments(path);
    var op := Route(p);
    if op.None? then None else Some((op.value, InputAt(op.value, NonEmpty(p))))
  }

  function OperationOf(r: Request): Operation {
    match r
    case ListRegions => OpListRegions
    case GetRegion(_) => OpGetRegion
    case ListRegionDistricts(_) => OpListRegionDistricts
    case ListDistricts => OpListDistricts
    case GetDistrict(_) => OpGetDistrict
    case ListDistrictPlaces(_) => OpListDistrictPlaces
    case ListPlaces => OpListPlaces
    case GetPlace(_) => OpGetPlace
    case Search => OpSearch
    case Autocomplete => OpAutocomplete
    case Geocode => OpGeocode
    case ReverseGeocode => OpReverseGeocode
    case Nearby => OpNearby
    case GetBoundary(_) => OpGetBoundary
    case ListDatasets => OpListDatasets
    case ListDatasetDownloads(_) => OpListDatasetDownloads
    case DownloadDatasetArtifact(_, _, _) => OpDownloadDatasetArtifact
    case ListRoads => OpListRoads
    case ListPointsOfInterest => OpListPointsOfInterest
  }

  function InputOf(r: Request): PathInput {
    match r
    case GetRegion(id) => IdInput(id)
    case ListRegionDistricts(id) => IdInput(id)
    case GetDistrict(id) => IdInput(id)
    case ListDistrictPlaces(id) => IdInput(id)
    case GetPlace(id) => IdInput(id)
    case GetBoundary(id) => IdInput(id)
    case ListDatasetDownloads(version) => VersionInput(version)
    case DownloadDatasetArtifact(version, entity, format) => ArtifactInput(version, entity, format)
    case _ => NoInput
  }

  // ---------------------------------------------------------------- the router

  lemma {:induction false} FirstMatchIs(routes: seq<Operation>, p: seq<string>, op: Operation)
    requires op in routes && Matches(op, p)
    requires forall other :: other in routes && Matches(other, p) ==> other == op
    ensures FirstMatch(routes, p) == Some(op)
  {
    if !Matches(routes[0], p) {
      assert op in routes[1..] by {
        var i :| 0 <= i < |routes| && routes[i] == op;
        assert routes[1..][i - 1] == op;
      }
      assert forall other :: other in routes[1..] ==> other in routes;
      FirstMatchIs(routes[1..], p, op);
    } else {
      assert routes[0] in routes;
    }
  }

  /** The patterns are pairwise disjoint, so their order does not matter. */
  lemma {:induction false} RoutesDisjoint(a: Operation, b: Operation, p: seq<string>)
    requires Matches(a, p) && Matches(b, p)
    ensures a == b
  {
  }

  lemma {:induction false} RouteIff(p: seq<string>, op: Operation)
    ensures Route(p) == Some(op) <==> Matches(op, p)
  {
    if Matches(op, p) {
      assert op in ROUTES;
      forall other | other in ROUTES && Matches(other, p) ensures other == op {
        RoutesDisjoint(other, op, p);
      }
      FirstMatchIs(ROUTES, p, op);
    }
    if Route(p) == Some(op) {
      FirstMatchMatches(ROUTES, p);
    }
  }

  lemma {:induction false} FirstMatchMatches(routes: seq<Operation>, p: seq<string>)
    ensures FirstMatch(routes, p).Some? ==> Matches(FirstMatch(routes, p).value, p)
  {
    if |routes| > 0 {
      FirstMatchMatches(routes[1..], p);
    }
  }

  // ---------------------------------------------------------------- what dots do to a path

  lemma {:induction false} RemoveDotsLength(done: seq<string>, segments: seq<string>)
    ensures |RemoveDots(done, segments)| <= |done| + |segments|
    decreases segments
  {
    if |segments| > 0 {
      var s, end := segments[0], if |segments| == 1 then [""] else [];
      if IsDoubleDot(s) {
        RemoveDotsLength((if |done| == 0 then done else done[..|done| - 1]) + end, segments[1..]);
      } else if IsSingleDot(s) {
        RemoveDotsLength(done + end, segments[1..]);
      } else {
        RemoveDotsLength(done + [s], segments[1..]);
      }
    }
  }

  /** A dot segment shortens the path, or leaves it ending in a slash. */
  lemma {:induction false} DotsShow(done: seq<string>, segments: seq<string>, i: nat)
    requires i < |segments| && IsDot(segments[i])
    ensures Cut(RemoveDots(done, segments), |done| + |segments|)
    decreases segments
  {
    var s := segments[0];
    if i > 0 {
      assert segments[1..][i - 1] == segments[i];
      var next := if IsDoubleDot(s) then (if |done| == 0 then done else done[..|done| - 1])
        else if IsSingleDot(s) then done else done + [s];
      assert next + [] == next;
      DotsShow(next, segments[1..], i - 1);
    } else if |segments| > 1 {
      RemoveDotsLength((if |done| == 0 then done else done[..|done| - 1]) + [], segments[1..]);
      RemoveDotsLength(done + [], segments[1..]);
    }
  }

  // ---------------------------------------------------------------- artifact names

  predicate IsAscii(s: string) { forall i :: 0 <= i < |s| ==> s[i] as int < 128 }

  function Octets(s: string): Id
    requires IsAscii(s)
  {
    if |s| == 0 then [] else [s[0] as int] + Octets(s[1..])
  }

  lemma {:induction false} OctetsConcat(s: string, t: string)
    requires IsAscii(s) && IsAscii(t)
    ensures IsAscii(s + t) && Octets(s + t) == Octets(s) + Octets(t)
  {
    if |s| == 0 {
      assert s + t == t;
    } else {
      assert (s + t)[1..] == s[1..] + t;
      OctetsConcat(s[1..], t);
    }
  }

  lemma {:induction false} OctetsNoDot(s: string)
    requires IsAscii(s) && '.' !in s
    ensures '.' as int !in Octets(s)
  {
    if |s| > 0 {
      assert s[0] in s && forall c :: c in s[1..] ==> c in s;
      OctetsNoDot(s[1..]);
    }
  }

  lemma {:induction false} OctetsAreAscii(s: string)
    requires IsAscii(s)
    ensures forall i :: 0 <= i < |Octets(s)| ==> Octets(s)[i] < 0x80
  {
    if |s| > 0 {
      OctetsAreAscii(s[1..]);
    }
  }

  /** Letters, digits and the full stop go through every encoder unchanged. */
  lemma {:induction false} EncodeKept(e: Encoder, s: string)
    requires forall c :: c in s ==> Alphanumeric(c) || c == '.'
    ensures IsAscii(s) && Encode(e, Octets(s)) == s
  {
    if |s| > 0 {
      assert s[0] in s && forall c :: c in s[1..] ==> c in s;
      EncodeKept(e, s[1..]);
      EncodeOctetKept(e, s[0]);
      EncodeCons(e, s[0] as int, Octets(s[1..]));
      assert s == [s[0]] + s[1..];
    }
  }

  lemma {:induction false} EncodeOctetKept(e: Encoder, c: char)
    requires Alphanumeric(c) || c == '.'
    ensures c as int < 128 && EncodeOctet(e, c as int) == [c]
  {
  }

  lemma {:induction false} EncodeCons(e: Encoder, b: Octet, rest: Id)
    ensures Encode(e, [b] + rest) == EncodeOctet(e, b) + Encode(e, rest)
  {
    assert ([b] + rest)[1..] == rest;
  }

  lemma {:induction false} SplitOneDot(x: Id, f: Id)
    requires '.' as int !in x && '.' as int !in f
    ensures SplitDots(x + ['.' as int] + f) == [x, f]
  {
    var text := x + ['.' as int] + f;
    if |x| == 0 {
      assert text[1..] == f;
      SplitNoDot(f);
    } else {
      assert x[0] in x && text[0] == x[0];
      assert text[1..] == x[1..] + ['.' as int] + f;
      assert forall c :: c in x[1..] ==> c in x;
      SplitOneDot(x[1..], f);
      assert x == [x[0]] + x[1..];
    }
  }

  lemma {:induction false} SplitNoDot(f: Id)
    requires '.' as int !in f
    ensures SplitDots(f) == [f]
  {
    if |f| > 0 {
      assert f[0] in f && forall c :: c in f[1..] ==> c in f;
      SplitNoDot(f[1..]);
      assert f == [f[0]] + f[1..];
    }
  }

  /** A text with one dot is cut in one way only. */
  lemma {:induction false} OneDotCut(a: string, b: string, x: string, f: string)
    requires '.' !in x && '.' !in f && a + "." + b == x + "." + f
    ensures a == x && b == f
  {
    var text := x + "." + f;
    assert forall i :: 0 <= i < |text| ==> (text[i] == '.' <==> i == |x|);
    assert text[|a|] == '.';
    assert a == text[..|a|] && x == text[..|x|];
    assert b == text[|a| + 1..] && f == text[|x| + 1..];
  }

  lemma {:induction false} ArtifactWords(s: string)
    requires s in ENTITIES || s in FORMATS
    ensures |s| >= 3 && '.' !in s && forall c :: c in s ==> Alphanumeric(c)
    ensures s in ENTITIES ==> |s| >= 6
  {
  }

  predicate IsEntity(x: string) { x == "regions" || x == "districts" || x == "places" }

  predicate IsFormat(f: string) { f == "json" || f == "csv" || f == "geojson" }

  lemma {:induction false} NamesAre()
    ensures forall x :: x in ENTITIES <==> IsEntity(x)
    ensures forall f :: f in FORMATS <==> IsFormat(f)
  {
    assert ENTITIES[0] == "regions" && ENTITIES[1] == "districts" && ENTITIES[2] == "places";
    assert FORMATS[0] == "json" && FORMATS[1] == "csv" && FORMATS[2] == "geojson";
  }

  /** Entity and format of a request are the octets of names the router knows. */
  ghost predicate KnownArtifact(entity: Id, format: Id) {
    exists x, f :: IsEntity(x) && IsFormat(f) && IsAscii(x) && IsAscii(f) && entity == Octets(x) &&
      format == Octets(f)
  }

  lemma {:induction false} NamesEncode(e: Encoder, x: string, f: string)
    requires x in ENTITIES && f in FORMATS
    ensures '.' !in x && '.' !in f && IsAscii(x) && IsAscii(f)
    ensures Encode(e, Octets(x)) == x && Encode(e, Octets(f)) == f
  {
    ArtifactWords(x);
    ArtifactWords(f);
    EncodeKept(e, x);
    EncodeKept(e, f);
  }

  lemma {:induction false} EncodeInjective(e: Encoder, a: Id, b: Id)
    requires Encode(e, a) == Encode(e, b)
    ensures a == b
  {
    DecodeOctetsEncode(e, a);
    DecodeOctetsEncode(e, b);
  }

  lemma {:induction false} ServedIsKnown(e: Encoder, entity: Id, format: Id)
    requires IsArtifact(Encode(e, entity) + "." + Encode(e, format))
    ensures KnownArtifact(entity, format)
  {
    var x, f :| x in ENTITIES && f in FORMATS && Encode(e, entity) + "." + Encode(e, format) == x + "." + f;
    NamesAre();
    NamesEncode(e, x, f);
    OneDotCut(Encode(e, entity), Encode(e, format), x, f);
    EncodeInjective(e, entity, Octets(x));
    EncodeInjective(e, format, Octets(f));
  }

  lemma {:induction false} ArtifactIff(e: Encoder, entity: Id, format: Id)
    ensures IsArtifact(Encode(e, entity) + "." + Encode(e, format)) <==> KnownArtifact(entity, format)
  {
    if IsArtifact(Encode(e, entity) + "." + Encode(e, format)) {
      ServedIsKnown(e, entity, format);
    }
    if KnownArtifact(entity, format) {
      var x, f := ArtifactNames(e, entity, format);
    }
  }

  lemma {:induction false} ArtifactText(x: string, f: string)
    requires x in ENTITIES && f in FORMATS
    ensures |x + "." + f| >= 10 && forall c :: c in x + "." + f ==> Alphanumeric(c) || c == '.'
  {
    ArtifactWords(x);
    ArtifactWords(f);
  }

  lemma {:induction false} ArtifactPieces(e: Encoder, x: string, f: string)
    requires x in ENTITIES && f in FORMATS && IsAscii(x) && IsAscii(f)
    ensures Decode(x + "." + f).Some? && SplitDots(Decode(x + "." + f).value) == [Octets(x), Octets(f)]
  {
    var s := x + "." + f;
    ArtifactText(x, f);
    ArtifactWords(x);
    ArtifactWords(f);
    EncodeKept(e, s);
    DecodeEncode(e, Octets(s));
    OctetsAreAscii(s);
    AsciiIsUtf8(Octets(s));
    OctetsConcat(x, ".");
    OctetsConcat(x + ".", f);
    assert Octets(".") == ['.' as int];
    OctetsNoDot(x);
    OctetsNoDot(f);
    SplitOneDot(Octets(x), Octets(f));
  }

  lemma {:induction false} LongIsNoDot(s: string)
    requires |s| > 6
    ensures !IsDot(s)
  {
  }

  lemma {:induction false} ArtifactNames(e: Encoder, entity: Id, format: Id) returns (x: string, f: string)
    requires KnownArtifact(entity, format)
    ensures x in ENTITIES && f in FORMATS && IsAscii(x) && IsAscii(f)
    ensures entity == Octets(x) && format == Octets(f) && Encode(e, entity) == x && Encode(e, format) == f
  {
    NamesAre();
    x, f :| x in ENTITIES && f in FORMATS && IsAscii(x) && IsAscii(f) && entity == Octets(x) && format == Octets(f);
    NamesEncode(e, x, f);
  }

  lemma {:induction false} ArtifactReadBack(e: Encoder, entity: Id, format: Id)
    requires KnownArtifact(entity, format)
    ensures var s := Encode(e, entity) + "." + Encode(e, format);
      && !IsDot(s) && Decode(s).Some? && SplitDots(Decode(s).value) == [entity, format]
  {
    var x, f := ArtifactNames(e, entity, format);
    ArtifactText(x, f);
    LongIsNoDot(x + "." + f);
    ArtifactPieces(e, x, f);
  }

  // ---------------------------------------------------------------- main result

  /** What a route pattern can match. */
  predicate IsSegment(id: Id) { id != [] && !IsDotId(id) }

  /** The path parameter that can be any text. */
  function Parameter(r: Request): Option<Id> {
    match r
    case GetRegion(id) => Some(id)
    case ListRegionDistricts(id) => Some(id)
    case GetDistrict(id) => Some(id)
    case ListDistrictPlaces(id) => Some(id)
    case GetPlace(id) => Some(id)
    case GetBoundary(id) => Some(id)
    case ListDatasetDownloads(version) => Some(version)
    case DownloadDatasetArtifact(version, _, _) => Some(version)
    case _ => None
  }

  /** The path parameter is non-empty and no dot segment; an artifact is one the router serves. */
  ghost predicate Routable(r: Request) {
    && (Parameter(r).Some? ==> IsSegment(Parameter(r).value))
    && (r.DownloadDatasetArtifact? ==> KnownArtifact(r.entity, r.format))
  }

  /** The path parameter is UTF-8. */
  predicate Decodable(r: Request) { Parameter(r).Some? ==> IsUtf8(Parameter(r).value) }

  ghost predicate WellNamed(r: Request) { Routable(r) && Decodable(r) }

  lemma {:induction false} NoSlash(e: Encoder, id: Id)
    ensures '/' !in Encode(e, id)
  {
    EncodedChars(e, id);
  }

  lemma {:induction false} NoSlashes(e: Encoder, r: Request)
    ensures forall i :: 0 <= i < |RequestSegments(e, r)| ==> '/' !in RequestSegments(e, r)[i]
  {
    if r.DownloadDatasetArtifact? {
      var p := ArtifactSegments(e, r.version, r.entity, r.format);
      NoSlash(e, r.version);
      NoSlash(e, r.entity);
      NoSlash(e, r.format);
    } else if Parameter(r).Some? {
      NoSlash(e, Parameter(r).value);
    }
  }

  predicate NoDots(segments: seq<string>) { forall i :: 0 <= i < |segments| ==> !IsDot(segments[i]) }

  lemma {:induction false} NoDotsAppend(a: seq<string>, b: seq<string>)
    ensures NoDots(a + b) <==> NoDots(a) && NoDots(b)
  {
    if NoDots(a + b) {
      assert forall i :: 0 <= i < |a| ==> a[i] == (a + b)[i];
      assert forall i :: 0 <= i < |b| ==> b[i] == (a + b)[|a| + i];
    }
  }

  /** The path has `before`, one encoded parameter, and `after`; no fixed word is a dot segment. */
  lemma {:induction false} ParameterDecides(before: seq<string>, segment: string, after: seq<string>)
    requires NoDots(before) && NoDots(after)
    ensures NoDots(before + [segment] + after) <==> !IsDot(segment)
  {
    NoDotsAppend(before, [segment]);
    NoDotsAppend(before + [segment], after);
    assert [segment][0] == segment;
  }

  /** On its own segments a request meets its pattern exactly when it is routable. */
  ghost predicate OwnPattern(e: Encoder, r: Request) {
    NoDots(RequestSegments(e, r)) && Matches(OperationOf(r), RequestSegments(e, r)) <==> Routable(r)
  }

  lemma {:induction false} OwnPatternOfId(e: Encoder, id: Id, r: Request, before: seq<string>, after: seq<string>)
    requires RequestSegments(e, r) == before + [Encode(e, id)] + after
    requires NoDots(before) && NoDots(after)
    requires Routable(r) <==> IsSegment(id)
    requires Matches(OperationOf(r), before + [Encode(e, id)] + after) <==> Encode(e, id) != ""
    ensures OwnPattern(e, r)
  {
    SegmentIff(e, id);
    ParameterDecides(before, Encode(e, id), after);
  }

  lemma {:induction false} WordIsNoDot(s: string)
    requires |s| > 0 && 'a' <= s[0] <= 'z'
    ensures !IsDot(s)
  {
  }

  lemma {:induction false} TwoWordsNoDots(a: string, b: string)
    requires |a| > 0 && 'a' <= a[0] <= 'z' && |b| > 0 && 'a' <= b[0] <= 'z'
    ensures NoDots([a, b]) && NoDots([a])
  {
    WordIsNoDot(a);
    WordIsNoDot(b);
  }

  function ItemWord(r: Request): string
    requires r.GetRegion? || r.GetDistrict? || r.GetPlace? || r.GetBoundary?
  {
    match r
    case GetRegion(_) => "regions"
    case GetDistrict(_) => "districts"
    case GetPlace(_) => "places"
    case GetBoundary(_) => "boundaries"
  }

  lemma {:induction false} ItemSegments(e: Encoder, r: Request)
    requires r.GetRegion? || r.GetDistrict? || r.GetPlace? || r.GetBoundary?
    ensures RequestSegments(e, r) == ["v1", ItemWord(r)] + [Encode(e, r.id)] + []
  {
  }

  lemma {:induction false} ItemMatches(r: Request, segment: string)
    requires r.GetRegion? || r.GetDistrict? || r.GetPlace? || r.GetBoundary?
    ensures Matches(OperationOf(r), ["v1", ItemWord(r)] + [segment] + []) <==> segment != ""
  {
    assert ["v1", ItemWord(r)] + [segment] + [] == ["v1", ItemWord(r), segment];
  }

  lemma {:induction false} OwnPatternOfItem(e: Encoder, r: Request)
    requires r.GetRegion? || r.GetDistrict? || r.GetPlace? || r.GetBoundary?
    ensures OwnPattern(e, r)
  {
    ItemSegments(e, r);
    ItemMatches(r, Encode(e, r.id));
    TwoWordsNoDots("v1", ItemWord(r));
    OwnPatternOfId(e, r.id, r, ["v1", ItemWord(r)], []);
  }

  lemma {:induction false} ListMatches(op: Operation, list: string, item: string, segment: string)
    requires (op, list, item) in {
      (OpListRegionDistricts, "regions", "districts"), (OpListDistrictPlaces, "districts", "places"),
      (OpListDatasetDownloads, "datasets", "downloads")}
    ensures Matches(op, ["v1", list] + [segment] + [item]) <==> segment != ""
  {
    assert ["v1", list] + [segment] + [item] == ["v1", list, segment, item];
  }

  lemma {:induction false} OwnPatternOfRegion(e: Encoder, id: Id)
    ensures OwnPattern(e, ListRegionDistricts(id))
  {
    ListMatches(OpListRegionDistricts, "regions", "districts", Encode(e, id));
    TwoWordsNoDots("v1", "regions");
    TwoWordsNoDots("districts", "regions");
    OwnPatternOfId(e, id, ListRegionDistricts(id), ["v1", "regions"], ["districts"]);
  }

  lemma {:induction false} OwnPatternOfDistrict(e: Encoder, id: Id)
    ensures OwnPattern(e, ListDistrictPlaces(id))
  {
    ListMatches(OpListDistrictPlaces, "districts", "places", Encode(e, id));
    TwoWordsNoDots("v1", "districts");
    TwoWordsNoDots("places", "districts");
    OwnPatternOfId(e, id, ListDistrictPlaces(id), ["v1", "districts"], ["places"]);
  }

  lemma {:induction false} OwnPatternOfDownloads(e: Encoder, version: Id)
    ensures OwnPattern(e, ListDatasetDownloads(version))
  {
    ListMatches(OpListDatasetDownloads, "datasets", "downloads", Encode(e, version));
    TwoWordsNoDots("v1", "datasets");
    TwoWordsNoDots("downloads", "datasets");
    OwnPatternOfId(e, version, ListDatasetDownloads(version), ["v1", "datasets"], ["downloads"]);
  }

  /** The fixed words of all paths. */
  const WORDS := [
    "v1", "regions", "districts", "places", "search", "autocomplete", "geocode", "reverse", "nearby", "boundaries",
    "datasets", "downloads", "roads", "pois"]

  lemma {:induction false} FixedSegments(e: Encoder, r: Request) returns (word: string)
    requires InputOf(r).NoInput?
    ensures |word| > 0 && 'a' <= word[0] <= 'z' && word in WORDS
    ensures RequestSegments(e, r) == ["v1", word]
    ensures Matches(OperationOf(r), ["v1", word])
  {
    word := RequestSegments(e, r)[1];
    assert ["v1", word][1..] == [word];
  }

  lemma {:induction false} OwnPatternOfFixed(e: Encoder, r: Request)
    requires InputOf(r).NoInput?
    ensures OwnPattern(e, r)
  {
    var word := FixedSegments(e, r);
    TwoWordsNoDots("v1", word);
  }

  lemma {:induction false} ArtifactNoDots(segment: string, artifact: string)
    requires !IsDot(artifact)
    ensures NoDots(["v1", "datasets", segment, "downloads", artifact]) <==> !IsDot(segment)
  {
    TwoWordsNoDots("v1", "datasets");
    TwoWordsNoDots("downloads", "v1");
    ParameterDecides(["v1", "datasets"], segment, ["downloads"]);
    assert NoDots([artifact]);
    NoDotsAppend(["v1", "datasets"] + [segment] + ["downloads"], [artifact]);
    assert ["v1", "datasets", segment, "downloads", artifact] ==
      ["v1", "datasets"] + [segment] + ["downloads"] + [artifact];
  }

  lemma {:induction false} ArtifactSegments(e: Encoder, version: Id, entity: Id, format: Id) returns (p: seq<string>)
    ensures p == ["v1", "datasets", Encode(e, version), "downloads", Encode(e, entity) + "." + Encode(e, format)]
    ensures RequestSegments(e, DownloadDatasetArtifact(version, entity, format)) == p
  {
    p := ["v1"] + ["datasets", Encode(e, version), "downloads", Encode(e, entity) + "." + Encode(e, format)];
  }

  lemma {:induction false} ArtifactMatches(segment: string, artifact: string)
    ensures Matches(OpDownloadDatasetArtifact, ["v1", "datasets", segment, "downloads", artifact])
       <==> segment != "" && IsArtifact(artifact)
  {
  }

  lemma {:induction false} OwnPatternOfArtifact(e: Encoder, version: Id, entity: Id, format: Id)
    ensures OwnPattern(e, DownloadDatasetArtifact(version, entity, format))
  {
    var artifact := Encode(e, entity) + "." + Encode(e, format);
    var p := ArtifactSegments(e, version, entity, format);
    assert IsArtifact(artifact) <==> KnownArtifact(entity, format) by {
      ArtifactIff(e, entity, format);
    }
    assert KnownArtifact(entity, format) ==> !IsDot(artifact) by {
      if KnownArtifact(entity, format) {
        ArtifactReadBack(e, entity, format);
      }
    }
    PatternOfArtifact(e, DownloadDatasetArtifact(version, entity, format), artifact);
  }

  lemma {:induction false} PatternOfArtifact(e: Encoder, r: Request, artifact: string)
    requires r.DownloadDatasetArtifact?
    requires RequestSegments(e, r) == ["v1", "datasets", Encode(e, r.version), "downloads", artifact]
    requires IsArtifact(artifact) <==> KnownArtifact(r.entity, r.format)
    requires KnownArtifact(r.entity, r.format) ==> !IsDot(artifact)
    ensures OwnPattern(e, r)
  {
    var segment := Encode(e, r.version);
    ArtifactMatches(segment, artifact);
    SegmentIff(e, r.version);
    if KnownArtifact(r.entity, r.format) {
      ArtifactNoDots(segment, artifact);
    }
  }

  lemma {:induction false} OwnPatternHolds(e: Encoder, r: Request)
    ensures OwnPattern(e, r)
  {
    match r
    case DownloadDatasetArtifact(version, entity, format) => OwnPatternOfArtifact(e, version, entity, format);
    case ListDatasetDownloads(version) => OwnPatternOfDownloads(e, version);
    case ListRegionDistricts(id) => OwnPatternOfRegion(e, id);
    case ListDistrictPlaces(id) => OwnPatternOfDistrict(e, id);
    case GetRegion(_) => OwnPatternOfItem(e, r);
    case GetDistrict(_) => OwnPatternOfItem(e, r);
    case GetPlace(_) => OwnPatternOfItem(e, r);
    case GetBoundary(_) => OwnPatternOfItem(e, r);
    case _ => OwnPatternOfFixed(e, r);
  }

  lemma {:induction false} SegmentIff(e: Encoder, id: Id)
    ensures IsSegment(id) <==> Encode(e, id) != "" && !IsDot(Encode(e, id))
  {
    EncodedChars(e, id);
    EncodedDot(e, id);
  }

  /** A request's own segments are read back as its parameters when these are UTF-8; otherwise reading throws. */
  ghost predicate OwnInput(e: Encoder, r: Request) {
    InputAt(OperationOf(r), RequestSegments(e, r)) == if Decodable(r) then Some(InputOf(r)) else None
  }

  lemma {:induction false} DecodeAllAt(parts: seq<string>)
    ensures DecodeAll(parts).Some? <==> forall i :: 0 <= i < |parts| ==> Decode(parts[i]).Some?
    ensures DecodeAll(parts).Some? ==>
      forall i :: 0 <= i < |parts| ==> Decode(parts[i]) == Some(DecodeAll(parts).value[i])
  {
    if |parts| > 0 {
      var rest := parts[1..];
      DecodeAllAt(rest);
      assert forall i :: 1 <= i < |parts| ==> parts[i] == rest[i - 1];
      assert forall i :: 0 <= i < |rest| ==> rest[i] == parts[i + 1];
    }
  }

  lemma {:induction false} WordDecodes(e: Encoder, word: string)
    requires forall c :: c in word ==> Alphanumeric(c)
    ensures Decode(word).Some?
  {
    EncodeKept(e, word);
    DecodeEncode(e, Octets(word));
    OctetsAreAscii(word);
    AsciiIsUtf8(Octets(word));
  }

  lemma {:induction false} WordsDecode(e: Encoder, word: string)
    requires word in WORDS
    ensures Decode(word).Some?
  {
    assert forall c :: c in word ==> Alphanumeric(c);
    WordDecodes(e, word);
  }

  /** Three parts with the parameter last. */
  lemma {:induction false} ItemDecodes(e: Encoder, word: string, id: Id)
    requires word in WORDS
    ensures var ids := DecodeAll(["v1", word, Encode(e, id)]);
      (ids.Some? <==> IsUtf8(id)) && (ids.Some? ==> |ids.value| == 3 && ids.value[2] == id)
  {
    var p := ["v1", word, Encode(e, id)];
    DecodeAllAt(p);
    WordsDecode(e, p[0]);
    WordsDecode(e, p[1]);
    DecodeEncode(e, id);
    assert p[2] == Encode(e, id);
  }

  /** Four parts with the parameter third. */
  lemma {:induction false} ListDecodes(e: Encoder, list: string, id: Id, item: string)
    requires list in WORDS && item in WORDS
    ensures var ids := DecodeAll(["v1", list, Encode(e, id), item]);
      (ids.Some? <==> IsUtf8(id)) && (ids.Some? ==> |ids.value| == 4 && ids.value[2] == id)
  {
    var p := ["v1", list, Encode(e, id), item];
    DecodeAllAt(p);
    WordsDecode(e, p[0]);
    WordsDecode(e, p[1]);
    WordsDecode(e, p[3]);
    DecodeEncode(e, id);
    assert p[2] == Encode(e, id);
  }

  /** Five parts with the version third and an artifact last. */
  lemma {:induction false} ArtifactDecodes(e: Encoder, version: Id, entity: Id, format: Id)
    requires KnownArtifact(entity, format)
    ensures var ids := DecodeAll(["v1", "datasets", Encode(e, version), "downloads",
      Encode(e, entity) + "." + Encode(e, format)]);
      && (ids.Some? <==> IsUtf8(version))
      && (ids.Some? ==> |ids.value| == 5 && ids.value[2] == version && SplitDots(ids.value[4]) == [entity, format])
  {
    var artifact := Encode(e, entity) + "." + Encode(e, format);
    assert Decode(artifact).Some? && SplitDots(Decode(artifact).value) == [entity, format] by {
      ArtifactReadBack(e, entity, format);
    }
    assert Decode("v1").Some? && Decode("datasets").Some? && Decode("downloads").Some? by {
      WordsDecode(e, "v1");
      WordsDecode(e, "datasets");
      WordsDecode(e, "downloads");
    }
    DecodeEncode(e, version);
    FiveDecode("v1", "datasets", Encode(e, version), "downloads", artifact);
  }

  lemma {:induction false} FiveDecode(a: string, b: string, c: string, d: string, last: string)
    requires Decode(a).Some? && Decode(b).Some? && Decode(d).Some? && Decode(last).Some?
    ensures var ids := DecodeAll([a, b, c, d, last]);
      && (ids.Some? <==> Decode(c).Some?)
      && (ids.Some? ==> |ids.value| == 5 && ids.value[2] == Decode(c).value && ids.value[4] == Decode(last).value)
  {
    var p := [a, b, c, d, last];
    DecodeAllAt(p);
    assert p[0] == a && p[1] == b && p[2] == c && p[3] == d && p[4] == last;
  }

  lemma {:induction false} SelectItem(op: Operation, ids: seq<Id>)
    requires op in {OpGetRegion, OpGetDistrict, OpGetPlace, OpGetBoundary} && |ids| == 3
    ensures Select(op, ids) == Some(IdInput(ids[2]))
  {
  }

  lemma {:induction false} SelectList(op: Operation, ids: seq<Id>)
    requires |ids| == 4
    ensures op in {OpListRegionDistricts, OpListDistrictPlaces} ==> Select(op, ids) == Some(IdInput(ids[2]))
    ensures op == OpListDatasetDownloads ==> Select(op, ids) == Some(VersionInput(ids[2]))
  {
  }

  lemma {:induction false} SelectArtifact(ids: seq<Id>, entity: Id, format: Id)
    requires |ids| == 5 && SplitDots(ids[4]) == [entity, format]
    ensures Select(OpDownloadDatasetArtifact, ids) == Some(ArtifactInput(ids[2], entity, format))
  {
  }

  /** Own input from what all parts decode to and what is taken of it. */
  lemma {:induction false} OwnInputFrom(e: Encoder, r: Request, p: seq<string>)
    requires RequestSegments(e, r) == p
    requires DecodeAll(p).Some? <==> Decodable(r)
    requires DecodeAll(p).Some? ==> Select(OperationOf(r), DecodeAll(p).value) == Some(InputOf(r))
    ensures OwnInput(e, r)
  {
  }

  lemma {:induction false} OwnInputOfArtifact(e: Encoder, version: Id, entity: Id, format: Id)
    requires KnownArtifact(entity, format)
    ensures OwnInput(e, DownloadDatasetArtifact(version, entity, format))
  {
    var p := ArtifactSegments(e, version, entity, format);
    ArtifactDecodes(e, version, entity, format);
    InputOfArtifact(e, DownloadDatasetArtifact(version, entity, format), p);
  }

  lemma {:induction false} InputOfArtifact(e: Encoder, r: Request, p: seq<string>)
    requires r.DownloadDatasetArtifact? && RequestSegments(e, r) == p
    requires DecodeAll(p).Some? <==> IsUtf8(r.version)
    requires var ids := DecodeAll(p);
      ids.Some? ==> |ids.value| == 5 && ids.value[2] == r.version && SplitDots(ids.value[4]) == [r.entity, r.format]
    ensures OwnInput(e, r)
  {
    if DecodeAll(p).Some? {
      SelectArtifact(DecodeAll(p).value, r.entity, r.format);
    }
    OwnInputFrom(e, r, p);
  }

  predicate IsItem(op: Operation) { op in {OpGetRegion, OpGetDistrict, OpGetPlace, OpGetBoundary} }

  lemma {:induction false} ItemOperation(r: Request)
    requires r.GetRegion? || r.GetDistrict? || r.GetPlace? || r.GetBoundary?
    ensures IsItem(OperationOf(r)) && InputOf(r) == IdInput(r.id) && Parameter(r) == Some(r.id)
  {
  }

  lemma {:induction false} InputOfItem(e: Encoder, r: Request, id: Id, p: seq<string>)
    requires RequestSegments(e, r) == p && Parameter(r) == Some(id)
    requires IsItem(OperationOf(r)) && InputOf(r) == IdInput(id)
    requires var ids := DecodeAll(p);
      (ids.Some? <==> IsUtf8(id)) && (ids.Some? ==> |ids.value| == 3 && ids.value[2] == id)
    ensures OwnInput(e, r)
  {
    if DecodeAll(p).Some? {
      SelectItem(OperationOf(r), DecodeAll(p).value);
    }
    OwnInputFrom(e, r, p);
  }

  lemma {:induction false} OwnInputOfItem(e: Encoder, r: Request)
    requires r.GetRegion? || r.GetDistrict? || r.GetPlace? || r.GetBoundary?
    ensures OwnInput(e, r)
  {
    var p := ["v1", ItemWord(r), Encode(e, r.id)];
    ItemSegments(e, r);
    assert ["v1", ItemWord(r)] + [Encode(e, r.id)] + [] == p;
    ItemDecodes(e, ItemWord(r), r.id);
    ItemOperation(r);
    InputOfItem(e, r, r.id, p);
  }

  /** What is taken of a list's four parts. */
  function ListInput(op: Operation, id: Id): PathInput {
    if op == OpListDatasetDownloads then VersionInput(id) else IdInput(id)
  }

  predicate IsList(op: Operation) { op in {OpListRegionDistricts, OpListDistrictPlaces, OpListDatasetDownloads} }

  lemma {:induction false} InputOfList(e: Encoder, r: Request, id: Id, p: seq<string>)
    requires RequestSegments(e, r) == p && Parameter(r) == Some(id)
    requires IsList(OperationOf(r)) && InputOf(r) == ListInput(OperationOf(r), id)
    requires var ids := DecodeAll(p);
      (ids.Some? <==> IsUtf8(id)) && (ids.Some? ==> |ids.value| == 4 && ids.value[2] == id)
    ensures OwnInput(e, r)
  {
    if DecodeAll(p).Some? {
      SelectList(OperationOf(r), DecodeAll(p).value);
    }
    OwnInputFrom(e, r, p);
  }

  lemma {:induction false} OwnInputOfList(e: Encoder, r: Request, id: Id, list: string, item: string)
    requires list in WORDS && item in WORDS && RequestSegments(e, r) == ["v1", list, Encode(e, id), item]
    requires Parameter(r) == Some(id) && IsList(OperationOf(r)) && InputOf(r) == ListInput(OperationOf(r), id)
    ensures OwnInput(e, r)
  {
    ListDecodes(e, list, id, item);
    InputOfList(e, r, id, ["v1", list, Encode(e, id), item]);
  }

  lemma {:induction false} ListSegments(e: Encoder, id: Id)
    ensures RequestSegments(e, ListRegionDistricts(id)) == ["v1", "regions", Encode(e, id), "districts"]
    ensures RequestSegments(e, ListDistrictPlaces(id)) == ["v1", "districts", Encode(e, id), "places"]
    ensures RequestSegments(e, ListDatasetDownloads(id)) == ["v1", "datasets", Encode(e, id), "downloads"]
  {
  }

  lemma {:induction false} OwnInputOfFixed(e: Encoder, r: Request)
    requires InputOf(r).NoInput?
    ensures OwnInput(e, r)
  {
    var word := FixedSegments(e, r);
    DecodeAllAt(["v1", word]);
    WordsDecode(e, "v1");
    WordsDecode(e, word);
  }

  lemma {:induction false} OwnInputHolds(e: Encoder, r: Request)
    requires Routable(r)
    ensures OwnInput(e, r)
  {
    match r
    case DownloadDatasetArtifact(version, entity, format) => OwnInputOfArtifact(e, version, entity, format);
    case ListDatasetDownloads(version) =>
      ListSegments(e, version);
      OwnInputOfList(e, r, version, "datasets", "downloads");
    case ListRegionDistricts(id) =>
      ListSegments(e, id);
      OwnInputOfList(e, r, id, "regions", "districts");
    case ListDistrictPlaces(id) =>
      ListSegments(e, id);
      OwnInputOfList(e, r, id, "districts", "places");
    case GetRegion(_) => OwnInputOfItem(e, r);
    case GetDistrict(_) => OwnInputOfItem(e, r);
    case GetPlace(_) => OwnInputOfItem(e, r);
    case GetBoundary(_) => OwnInputOfItem(e, r);
    case _ => OwnInputOfFixed(e, r);
  }

  lemma {:induction false} KeepsAll(p: seq<string>)
    requires forall i :: 0 <= i < |p| ==> p[i] != ""
    ensures NonEmpty(p) == p
  {
    if |p| > 0 {
      KeepsAll(p[1..]);
      assert p == [p[0]] + p[1..];
    }
  }

  lemma {:induction false} MatchedParts(op: Operation, p: seq<string>)
    requires Matches(op, p)
    ensures forall i :: 0 <= i < |p| ==> p[i] != ""
  {
    if |p| == 2 {
      assert p[1] == p[1..][0];
    }
    if |p| == 5 {
      ArtifactNotEmpty(p[4]);
    }
  }

  lemma {:induction false} ArtifactNotEmpty(s: string)
    ensures IsArtifact(s) ==> s != ""
  {
  }

  /** A pattern that matches leaves no part empty, so dropping empty parts changes nothing. */
  lemma {:induction false} MatchedPartsNonEmpty(op: Operation, p: seq<string>)
    requires Matches(op, p)
    ensures NonEmpty(p) == p
  {
    MatchedParts(op, p);
    KeepsAll(p);
  }

  lemma {:induction false} ReceiveIff(path: string, op: Operation, input: Option<PathInput>)
    ensures Receive(path) == Some((op, input)) <==>
      Matches(op, PathnameSegments(path)) && InputAt(op, PathnameSegments(path)) == input
  {
    RouteIff(PathnameSegments(path), op);
    if Matches(op, PathnameSegments(path)) {
      MatchedPartsNonEmpty(op, PathnameSegments(path));
    }
  }

  /**
   * Whatever client encoder built the path, the server recovers operation and parameters exactly
   * when every path parameter is non-empty, in UTF-8 and no dot segment, and an artifact is a
   * served one.
   */
  lemma {:induction false} RouteRoundTrip(e: Encoder, r: Request)
    ensures Receive(RequestPath(e, r)) == Some((OperationOf(r), Some(InputOf(r)))) <==> WellNamed(r)
  {
    ReceivedOwn(e, r, Some(InputOf(r)));
    OwnPatternHolds(e, r);
    if Routable(r) {
      OwnInputHolds(e, r);
    }
  }

  /** A routable request whose parameter is not UTF-8 reaches its operation, where decoding throws. */
  lemma {:induction false} IllFormedThrows(e: Encoder, r: Request)
    requires Routable(r) && !Decodable(r)
    ensures Receive(RequestPath(e, r)) == Some((OperationOf(r), None))
  {
    ReceivedOwn(e, r, None);
    OwnPatternHolds(e, r);
    OwnInputHolds(e, r);
  }

  /** The octet 255 is such a parameter. */
  lemma {:induction false} IllFormedExample(e: Encoder)
    ensures Receive(RequestPath(e, GetRegion([255]))) == Some((OpGetRegion, None))
  {
    assert SequenceLength([255]) == 0;
    IllFormedThrows(e, GetRegion([255]));
  }

  lemma {:induction false} ReceivedOwn(e: Encoder, r: Request, input: Option<PathInput>)
    ensures Receive(RequestPath(e, r)) == Some((OperationOf(r), input)) <==>
      && NoDots(RequestSegments(e, r)) && Matches(OperationOf(r), RequestSegments(e, r))
      && InputAt(OperationOf(r), RequestSegments(e, r)) == input
  {
    var segments := RequestSegments(e, r);
    NoSlashes(e, r);
    forall p | Cut(p, |segments|) ensures !Matches(OperationOf(r), p) {
      NoMatchOtherwise(e, r, p);
    }
    Received(segments, OperationOf(r), input);
  }

  /** Shorter than `n` segments, or ending in a slash. */
  predicate Cut(p: seq<string>, n: nat) { |p| < n || (|p| > 0 && p[|p| - 1] == "") }

  /** The server takes the segments for `op` with `input` exactly when none is a dot and `op` itself reads them so. */
  lemma {:induction false} Received(segments: seq<string>, op: Operation, input: Option<PathInput>)
    requires |segments| > 0 && forall i :: 0 <= i < |segments| ==> '/' !in segments[i]
    requires forall p :: Cut(p, |segments|) ==> !Matches(op, p)
    ensures Receive(PathOf(segments)) == Some((op, input)) <==>
      NoDots(segments) && Matches(op, segments) && InputAt(op, segments) == input
  {
    ReceiveIff(PathOf(segments), op, input);
    Pathname(segments);
  }

  /** The server sees the segments as they were sent, or else a shorter path or one ending in a slash. */
  lemma {:induction false} Pathname(segments: seq<string>)
    requires |segments| > 0 && forall i :: 0 <= i < |segments| ==> '/' !in segments[i]
    ensures var p := PathnameSegments(PathOf(segments));
      if NoDots(segments) then p == segments else Cut(p, |segments|)
  {
    SplitPath(segments);
    if NoDots(segments) {
      NoDotsNoChange([], segments);
      assert [] + segments == segments;
    } else {
      var i :| 0 <= i < |segments| && IsDot(segments[i]);
      DotsShow([], segments, i);
    }
  }

  lemma {:induction false} NoMatchOtherwise(e: Encoder, r: Request, p: seq<string>)
    requires Cut(p, |RequestSegments(e, r)|)
    ensures !Matches(OperationOf(r), p)
  {
    if Matches(OperationOf(r), p) {
      MatchedParts(OperationOf(r), p);
      MatchedLength(e, r, p);
    }
  }

  lemma {:induction false} MatchedLength(e: Encoder, r: Request, p: seq<string>)
    requires Matches(OperationOf(r), p)
    ensures |p| == |RequestSegments(e, r)|
  {
  }

  lemma {:induction false} DotDotRemoved()
    ensures RemoveDots([], ["v1", "regions", "..", "districts"]) == ["v1", "districts"]
  {
    var segments := ["v1", "regions", "..", "districts"];
    var s1, s2, s3 := segments[1..], segments[2..], segments[3..];
    assert s1[1..] == s2 && s2[1..] == s3 && s3 == ["districts"] && s3[1..] == [];
    assert s1[0] == "regions" && s2[0] == ".." && |s2| == 2;
    WordIsNoDot("v1");
    WordIsNoDot("regions");
    WordIsNoDot("districts");
    calc {
      RemoveDots([], segments);
      { assert [] + ["v1"] == ["v1"]; }
      RemoveDots(["v1"], s1);
      { assert ["v1"] + ["regions"] == ["v1", "regions"]; }
      RemoveDots(["v1", "regions"], s2);
      { assert ["v1", "regions"][..1] + [] == ["v1"]; }
      RemoveDots(["v1"], s3);
      { assert ["v1"] + ["districts"] == ["v1", "districts"]; }
      RemoveDots(["v1", "districts"], []);
    }
  }

  lemma {:induction false} DotDotSegments(e: Encoder)
    ensures RequestSegments(e, ListRegionDistricts(['.' as int, '.' as int])) == ["v1", "regions", "..", "districts"]
  {
    DotsEncode(e);
  }

  /** The identifier `..` of a district listing lands on another operation altogether. */
  lemma {:induction false} DotDotMisroutes(e: Encoder)
    ensures var r := ListRegionDistricts(['.' as int, '.' as int]);
      Receive(RequestPath(e, r)) == Some((OpListDistricts, Some(NoInput)))
  {
    var r := ListRegionDistricts(['.' as int, '.' as int]);
    NoSlashes(e, r);
    SplitPath(RequestSegments(e, r));
    DotDotSegments(e);
    DotDotRemoved();
    var word := FixedSegments(e, ListDistricts);
    OwnInputOfFixed(e, ListDistricts);
    ReceiveIff(RequestPath(e, r), OpListDistricts, Some(NoInput));
  }
}
