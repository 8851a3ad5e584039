/**
 Bounding boxes of geometries in well-known binary form. The scan is a flat loop: it reads one
 geometry header after another and never returns to an enclosing collection. It is compared with
 the recursive meaning of the encoding.
 */
module Wkb {
  import opened Basics

  type byte = b: int | 0 <= b < 256

  /** A coordinate; the order of numbers is all that matters for a box. */
  datatype Coord = NaN | Num(value: int)

  datatype Range = Range(min: int, max: int) {

    /** As std::min and std::max do, which drop a second argument that is not a number. */
    function Extend(c: Coord): Range {
      if c.NaN? then this else Range(if c.value < min then c.value else min, if max < c.value then c.value else max)
    }

    function Combine(other: Range): Range {
      Range(if other.min < min then other.min else min, if max < other.max then other.max else max)
    }
  }

  /** A vertex; the dimensions that it does not have are not numbers. */
  datatype Vertex = Vertex(x: Coord, y: Coord, z: Coord, m: Coord)

  datatype Extent = Extent(x: Range, y: Range, z: Range, m: Range) {

    function Extend(v: Vertex): Extent {
      Extent(x.Extend(v.x), y.Extend(v.y), z.Extend(v.z), m.Extend(v.m))
    }

    function Combine(other: Extent): Extent {
      Extent(x.Combine(other.x), y.Combine(other.y), z.Combine(other.z), m.Combine(other.m))
    }
  }

  function ExtendAll(box: Extent, vertices: seq<Vertex>): Extent {
    if vertices == [] then box
    else ExtendAll(box, vertices[..|vertices| - 1]).Extend(vertices[|vertices| - 1])
  }

  predicate HasZ(flag: nat) { flag % 2 != 0 }

  predicate HasM(flag: nat) { flag / 2 % 2 != 0 }

  function Dims(flag: nat): nat {
    2 + (if HasZ(flag) then 1 else 0) + (if HasM(flag) then 1 else 0)
  }

  /** The number of bytes of a vertex. */
  function Width(flag: nat): (w: nat)
    ensures w == 16 || w == 24 || w == 32
  {
    8 * Dims(flag)
  }

  type Decoder = seq<byte> -> Coord

  /** The vertex in the bytes of one. */
  function Decode(D: Decoder, flag: nat, raw: seq<byte>): Vertex
    requires |raw| == Width(flag)
  {
    Vertex(D(raw[..8]), D(raw[8..16]),
           if HasZ(flag) then D(raw[16..24]) else NaN,
           if HasM(flag) then (if HasZ(flag) then D(raw[24..32]) else D(raw[16..24])) else NaN)
  }

  function LittleEndian(raw: seq<byte>): nat
    requires |raw| == 4
  {
    var b0: int, b1: int, b2: int, b3: int := raw[0], raw[1], raw[2], raw[3];
    b0 + 0x100 * b1 + 0x1_0000 * b2 + 0x100_0000 * b3
  }

  function Encode32(n: nat): (raw: seq<byte>)
    requires n < 0x1_0000_0000
    ensures |raw| == 4
  {
    [n % 0x100, n / 0x100 % 0x100, n / 0x1_0000 % 0x100, n / 0x100_0000]
  }

  lemma NumberRoundTrip(n: nat)
    requires n < 0x1_0000_0000
    ensures LittleEndian(Encode32(n)) == n
  {
    assert n / 0x1_0000 == n / 0x100 / 0x100;
    assert n / 0x100_0000 == n / 0x1_0000 / 0x100;
  }

  // ---------------------------------------------------------------- the recursive meaning

  /** The byte order marks: numbers and coordinates of a geometry are written in its own order. */
  const LITTLE: byte := 1
  const BIG: byte := 0

  function BigEncode32(n: nat): (raw: seq<byte>)
    requires n < 0x1_0000_0000
    ensures |raw| == 4
  {
    [n / 0x100_0000, n / 0x1_0000 % 0x100, n / 0x100 % 0x100, n % 0x100]
  }

  function Number(order: byte, n: nat): (raw: seq<byte>)
    requires n < 0x1_0000_0000
    ensures |raw| == 4
  {
    if order == LITTLE then Encode32(n) else BigEncode32(n)
  }

  /** The coordinates of a vertex, each with its bytes in reverse. */
  function Swapped(vertex: seq<byte>): (r: seq<byte>)
    requires |vertex| % 8 == 0
    ensures |r| == |vertex|
  {
    if vertex == [] then []
    else
      [vertex[7], vertex[6], vertex[5], vertex[4], vertex[3], vertex[2], vertex[1], vertex[0]] + Swapped(vertex[8..])
  }

  /** A vertex as it is written; vertices are kept with their bytes in little-endian order. */
  function Written(order: byte, flag: nat, vertex: seq<byte>): (r: seq<byte>)
    requires |vertex| == Width(flag)
    ensures |r| == |vertex|
  {
    if order == LITTLE then vertex else Swapped(vertex)
  }

  function WrittenLine(order: byte, flag: nat, line: seq<seq<byte>>): (r: seq<seq<byte>>)
    requires VerticesFit(flag, line)
  {
    if order == LITTLE then line
    else seq(|line|, i requires 0 <= i < |line| => Written(order, flag, line[i]))
  }

  /** A geometry: its byte order mark, its dimension flag and its parts. Vertices are kept as bytes. */
  datatype Geometry =
    | Point(order: byte, flag: nat, vertex: seq<byte>)
    | LineString(order: byte, flag: nat, line: seq<seq<byte>>)
    | Polygon(order: byte, flag: nat, rings: seq<seq<seq<byte>>>)
    | Multi(order: byte, flag: nat, kind: nat, parts: seq<Geometry>)

  predicate VerticesFit(flag: nat, line: seq<seq<byte>>) {
    |line| < 0x1_0000_0000 && forall i :: 0 <= i < |line| ==> |line[i]| == Width(flag)
  }

  predicate WellFormed(g: Geometry) {
    && g.flag <= 3 && (g.order == LITTLE || g.order == BIG)
    && match g
       case Point(_, flag, vertex) => |vertex| == Width(flag)
       case LineString(_, flag, line) => VerticesFit(flag, line)
       case Polygon(_, flag, rings) => |rings| < 0x1_0000_0000 && forall r :: 0 <= r < |rings| ==>
         VerticesFit(flag, rings[r])
       case Multi(_, _, kind, parts) =>
         4 <= kind <= 7 && |parts| < 0x1_0000_0000 && forall p :: 0 <= p < |parts| ==> WellFormed(parts[p])
  }

  /** A geometry that is little-endian throughout. */
  predicate AllLittle(g: Geometry) {
    g.order == LITTLE && (g.Multi? ==> forall p :: 0 <= p < |g.parts| ==> AllLittle(g.parts[p]))
  }

  function Kind(g: Geometry): nat {
    match g
    case Point(_, _, _) => 1
    case LineString(_, _, _) => 2
    case Polygon(_, _, _) => 3
    case Multi(_, _, kind, _) => kind
  }

  function Type(g: Geometry): nat {
    Kind(g) + 1000 * g.flag
  }

  function EncodeLine(order: byte, flag: nat, line: seq<seq<byte>>): seq<byte>
    requires VerticesFit(flag, line)
  {
    Number(order, |line|) + Concat(WrittenLine(order, flag, line))
  }

  function EncodeRings(order: byte, flag: nat, rings: seq<seq<seq<byte>>>): seq<byte>
    requires forall r :: 0 <= r < |rings| ==> VerticesFit(flag, rings[r])
  {
    if rings == [] then [] else EncodeLine(order, flag, rings[0]) + EncodeRings(order, flag, rings[1..])
  }

  function Header(g: Geometry): (h: seq<byte>)
    requires WellFormed(g)
    ensures |h| == 5
  {
    [g.order] + Number(g.order, Type(g))
  }

  /** The encoding of a geometry, each part in its own byte order. */
  function Encode(g: Geometry): seq<byte>
    requires WellFormed(g)
    decreases g, 1
  {
    Header(g) + EncodeBody(g)
  }

  function EncodeBody(g: Geometry): seq<byte>
    requires WellFormed(g)
    decreases g, 0
  {
    match g
    case Point(order, flag, vertex) => Written(order, flag, vertex)
    case LineString(order, flag, line) => EncodeLine(order, flag, line)
    case Polygon(order, flag, rings) => Number(order, |rings|) + EncodeRings(order, flag, rings)
    case Multi(order, _, _, parts) => Number(order, |parts|) + EncodeParts(parts)
  }

  function EncodeParts(parts: seq<Geometry>): seq<byte>
    requires forall p :: 0 <= p < |parts| ==> WellFormed(parts[p])
    decreases parts
  {
    if parts == [] then [] else Encode(parts[0]) + EncodeParts(parts[1..])
  }

  function LineVertices(D: Decoder, flag: nat, line: seq<seq<byte>>): seq<Vertex>
    requires VerticesFit(flag, line)
  {
    seq(|line|, i requires 0 <= i < |line| => Decode(D, flag, line[i]))
  }

  function RingVertices(D: Decoder, flag: nat, rings: seq<seq<seq<byte>>>): seq<Vertex>
    requires forall r :: 0 <= r < |rings| ==> VerticesFit(flag, rings[r])
  {
    if rings == [] then [] else LineVertices(D, flag, rings[0]) + RingVertices(D, flag, rings[1..])
  }

  /** All vertices of a geometry and of its parts. */
  function Vertices(D: Decoder, g: Geometry): seq<Vertex>
    requires WellFormed(g)
    decreases g, 0
  {
    match g
    case Point(_, flag, vertex) => [Decode(D, flag, vertex)]
    case LineString(_, flag, line) => LineVertices(D, flag, line)
    case Polygon(_, flag, rings) => RingVertices(D, flag, rings)
    case Multi(_, _, _, parts) => PartVertices(D, parts)
  }

  function PartVertices(D: Decoder, parts: seq<Geometry>): seq<Vertex>
    requires forall p :: 0 <= p < |parts| ==> WellFormed(parts[p])
    decreases parts
  {
    if parts == [] then [] else Vertices(D, parts[0]) + PartVertices(D, parts[1..])
  }

  // ---------------------------------------------------------------- the flat meaning

  /** How far a scan came: whether it met no early end, the box so far, the bytes left. */
  datatype Step = Step(ok: bool, box: Extent, rest: seq<byte>)

  /** The box after the first n vertices of an array; arrays with unknown dimensions are ignored. */
  function ExtendFirst(D: Decoder, box: Extent, flag: nat, raw: seq<byte>, n: nat): Extent
    requires n * Width(flag) <= |raw|
  {
    if n == 0 || flag > 3 then box
    else
      ArrayIndex(n, Width(flag));
      ExtendFirst(D, box, flag, raw, n - 1).Extend(Decode(D, flag, raw[(n - 1) * Width(flag)..n * Width(flag)]))
  }

  lemma ArrayIndex(n: nat, w: nat)
    requires n > 0
    ensures (n - 1) * w + w == n * w && 0 <= (n - 1) * w
  {
  }

  function ScanLine(D: Decoder, box: Extent, flag: nat, bytes: seq<byte>): (s: Step)
    ensures |s.rest| <= |bytes|
  {
    if |bytes| < 4 then Step(false, box, bytes)
    else
      var n, raw := LittleEndian(bytes[..4]), bytes[4..];
      if |raw| < n * Width(flag) then Step(false, box, raw)
      else Step(true, ExtendFirst(D, box, flag, raw[..n * Width(flag)], n), raw[n * Width(flag)..])
  }

  function ScanRings(D: Decoder, box: Extent, flag: nat, bytes: seq<byte>, n: nat): (s: Step)
    ensures |s.rest| <= |bytes|
    decreases n
  {
    if n == 0 then Step(true, box, bytes)
    else
      var s := ScanLine(D, box, flag, bytes);
      if s.ok then ScanRings(D, s.box, flag, s.rest, n - 1) else s
  }

  function ScanBody(D: Decoder, box: Extent, kind: nat, flag: nat, bytes: seq<byte>): (s: Step)
    ensures |s.rest| <= |bytes|
  {
    if kind == 1 then
      if |bytes| < Width(flag) then Step(false, box, bytes)
      else Step(true, box.Extend(Decode(D, flag, bytes[..Width(flag)])), bytes[Width(flag)..])
    else if kind == 2 then
      ScanLine(D, box, flag, bytes)
    else if kind == 3 then
      if |bytes| < 4 then Step(false, box, bytes)
      else ScanRings(D, box, flag, bytes[4..], LittleEndian(bytes[..4]))
    else if 4 <= kind <= 7 then
      if |bytes| < 4 then Step(false, box, bytes) else Step(true, box, bytes[4..])
    else
      Step(true, box, bytes)
  }

  function Scan(D: Decoder, box: Extent, bytes: seq<byte>): Step
    decreases |bytes|
  {
    if bytes == [] then Step(true, box, [])
    else if |bytes| < 5 then Step(false, box, bytes)
    else
      var type_ := LittleEndian(bytes[1..5]);
      var s := ScanBody(D, box, type_ % 1000, type_ / 1000, bytes[5..]);
      if s.ok then Scan(D, s.box, s.rest) else s
  }

  // ---------------------------------------------------------------- the two meanings agree

  lemma {:induction false} ExtendAllAppend(box: Extent, a: seq<Vertex>, b: seq<Vertex>)
    ensures ExtendAll(box, a + b) == ExtendAll(ExtendAll(box, a), b)
  {
    hide Extent.Extend;
    if b == [] {
      assert a + b == a;
    } else {
      ExtendAllAppend(box, a, b[..|b| - 1]);
      assert (a + b)[..|a + b| - 1] == a + b[..|b| - 1];
    }
  }

  lemma {:induction false} ExtendFirstPrefix(D: Decoder, box: Extent, flag: nat, raw: seq<byte>, more: seq<byte>,
                                             n: nat)
    requires n * Width(flag) <= |raw|
    ensures n * Width(flag) <= |raw + more|
    ensures ExtendFirst(D, box, flag, raw + more, n) == ExtendFirst(D, box, flag, raw, n)
  {
    hide Decode, Width, Extent.Extend;
    if n > 0 && flag <= 3 {
      ArrayIndex(n, Width(flag));
      ExtendFirstPrefix(D, box, flag, raw, more, n - 1);
      SliceOfPrefix(raw, more, (n - 1) * Width(flag), n * Width(flag));
    }
  }

  lemma SliceOfPrefix<E>(a: seq<E>, b: seq<E>, i: nat, j: nat)
    requires i <= j <= |a|
    ensures (a + b)[i..j] == a[i..j]
  {
  }

  lemma SliceOfRest<E>(a: seq<E>, b: seq<E>)
    ensures (a + b)[|a|..|a| + |b|] == b && (a + b)[..|a|] == a && (a + b)[|a|..] == b
  {
  }

  lemma {:induction false} ConcatLength(line: seq<seq<byte>>, flag: nat)
    requires VerticesFit(flag, line)
    ensures |Concat(line)| == |line| * Width(flag)
  {
    hide Width;
    if line != [] {
      ConcatLast(line);
      ConcatLength(line[..|line| - 1], flag);
      ArrayIndex(|line|, Width(flag));
    }
  }

  /** Walking over the bytes of an array of vertices is folding over its vertices. */
  lemma {:induction false} ArrayBox(D: Decoder, box: Extent, flag: nat, line: seq<seq<byte>>)
    requires VerticesFit(flag, line) && flag <= 3
    ensures |Concat(line)| == |line| * Width(flag)
    ensures ExtendFirst(D, box, flag, Concat(line), |line|) == ExtendAll(box, LineVertices(D, flag, line))
  {
    hide Width, Decode, Extent.Extend;
    ConcatLength(line, flag);
    if line != [] {
      var init, last := line[..|line| - 1], line[|line| - 1];
      ConcatLast(line);
      ConcatLength(init, flag);
      ArrayBox(D, box, flag, init);
      ExtendFirstPrefix(D, box, flag, Concat(init), last, |init|);
      ArrayIndex(|line|, Width(flag));
      SliceOfRest(Concat(init), last);
      LastVertex(D, flag, line);
    }
  }

  lemma LastVertex(D: Decoder, flag: nat, line: seq<seq<byte>>)
    requires VerticesFit(flag, line) && line != []
    ensures LineVertices(D, flag, line)[..|line| - 1] == LineVertices(D, flag, line[..|line| - 1])
    ensures LineVertices(D, flag, line)[|line| - 1] == Decode(D, flag, line[|line| - 1])
  {
    hide Decode, Width;
  }

  lemma LineScanned(D: Decoder, box: Extent, flag: nat, line: seq<seq<byte>>, rest: seq<byte>)
    requires VerticesFit(flag, line) && flag <= 3
    ensures ScanLine(D, box, flag, EncodeLine(LITTLE, flag, line) + rest) ==
      Step(true, ExtendAll(box, LineVertices(D, flag, line)), rest)
  {
    hide Width, Decode, ExtendFirst, ExtendAll, LineVertices, Encode32, LittleEndian;
    var count, raw := Encode32(|line|), Concat(line);
    NumberRoundTrip(|line|);
    ArrayBox(D, box, flag, line);
    Behind(count, raw, rest);
    SliceOfRest(raw, rest);
  }

  lemma Behind<E>(a: seq<E>, b: seq<E>, c: seq<E>)
    ensures (a + b + c)[..|a|] == a && (a + b + c)[|a|..] == b + c
  {
    assert a + b + c == a + (b + c);
  }

  lemma {:induction false} RingsScanned(D: Decoder, box: Extent, flag: nat, rings: seq<seq<seq<byte>>>, rest: seq<byte>)
    requires flag <= 3 && forall r :: 0 <= r < |rings| ==> VerticesFit(flag, rings[r])
    ensures ScanRings(D, box, flag, EncodeRings(LITTLE, flag, rings) + rest, |rings|) ==
      Step(true, ExtendAll(box, RingVertices(D, flag, rings)), rest)
    decreases |rings|
  {
    hide EncodeLine, ScanLine, LineVertices, VerticesFit;
    if rings == [] {
      assert EncodeRings(LITTLE, flag, rings) + rest == rest;
    } else {
      var first, later := LineVertices(D, flag, rings[0]), RingVertices(D, flag, rings[1..]);
      Behind(EncodeLine(LITTLE, flag, rings[0]), EncodeRings(LITTLE, flag, rings[1..]), rest);
      Regroup(EncodeLine(LITTLE, flag, rings[0]), EncodeRings(LITTLE, flag, rings[1..]), rest);
      LineScanned(D, box, flag, rings[0], EncodeRings(LITTLE, flag, rings[1..]) + rest);
      RingsScanned(D, ExtendAll(box, first), flag, rings[1..], rest);
      ExtendAllAppend(box, first, later);
    }
  }

  /** The header of a geometry as it is read: in little-endian order its type, in the other no known one. */
  lemma HeaderRead(g: Geometry, rest: seq<byte>)
    requires WellFormed(g)
    ensures |Encode(g) + rest| >= 5
    ensures LittleEndian((Encode(g) + rest)[1..5]) == LittleEndian(Number(g.order, Type(g)))
    ensures g.order == LITTLE ==> LittleEndian((Encode(g) + rest)[1..5]) == Type(g)
    ensures Type(g) % 1000 == Kind(g) && Type(g) / 1000 == g.flag
    ensures (Encode(g) + rest)[5..] == EncodeBody(g) + rest
  {
    hide EncodeBody, Encode32, LittleEndian;
    NumberRoundTrip(Type(g));
    Behind(Header(g), EncodeBody(g), rest);
    assert (Encode(g) + rest)[1..5] == Number(g.order, Type(g));
  }

  /** The flat scan over the encoding of a geometry extends the box by exactly its vertices. */
  lemma {:induction false} GeometryScanned(D: Decoder, box: Extent, g: Geometry, rest: seq<byte>)
    requires WellFormed(g) && AllLittle(g)
    ensures Scan(D, box, Encode(g) + rest) == Scan(D, ExtendAll(box, Vertices(D, g)), rest)
    decreases g, 1
  {
    hide Encode, EncodeBody, Vertices, ScanBody, ExtendAll, LittleEndian;
    HeaderRead(g, rest);
    match g
    case Multi(_, _, _, parts) =>
      CollectionScanned(D, box, g, rest);
      PartsScanned(D, box, parts, rest);
    case _ =>
      SimpleScanned(D, box, g, rest);
  }

  lemma CollectionScanned(D: Decoder, box: Extent, g: Geometry, rest: seq<byte>)
    requires WellFormed(g) && g.order == LITTLE && g.Multi?
    ensures ScanBody(D, box, Kind(g), g.flag, EncodeBody(g) + rest) == Step(true, box, EncodeParts(g.parts) + rest)
    ensures Vertices(D, g) == PartVertices(D, g.parts)
  {
    hide Encode32, EncodeParts, PartVertices;
    Behind(Encode32(|g.parts|), EncodeParts(g.parts), rest);
  }

  lemma SimpleScanned(D: Decoder, box: Extent, g: Geometry, rest: seq<byte>)
    requires WellFormed(g) && g.order == LITTLE && !g.Multi?
    ensures ScanBody(D, box, Kind(g), g.flag, EncodeBody(g) + rest) == Step(true, ExtendAll(box, Vertices(D, g)), rest)
  {
    hide Encode32, EncodeRings, RingVertices, EncodeLine, LineVertices, Width, Decode, Extent.Extend, LittleEndian,
      ScanLine, ScanRings;
    match g
    case Point(_, flag, vertex) =>
      SliceOfRest(vertex, rest);
      assert [Decode(D, flag, vertex)][..0] == [];
    case LineString(_, flag, line) =>
      LineScanned(D, box, flag, line, rest);
    case Polygon(_, flag, rings) =>
      Behind(Encode32(|rings|), EncodeRings(LITTLE, flag, rings), rest);
      NumberRoundTrip(|rings|);
      RingsScanned(D, box, flag, rings, rest);
  }

  lemma {:induction false} PartsScanned(D: Decoder, box: Extent, parts: seq<Geometry>, rest: seq<byte>)
    requires forall p :: 0 <= p < |parts| ==> WellFormed(parts[p]) && AllLittle(parts[p])
    ensures Scan(D, box, EncodeParts(parts) + rest) == Scan(D, ExtendAll(box, PartVertices(D, parts)), rest)
    decreases parts, 0
  {
    hide Encode, Vertices, Scan;
    if parts == [] {
      assert EncodeParts(parts) + rest == rest;
    } else {
      var first, later := Vertices(D, parts[0]), PartVertices(D, parts[1..]);
      Regroup(Encode(parts[0]), EncodeParts(parts[1..]), rest);
      GeometryScanned(D, box, parts[0], EncodeParts(parts[1..]) + rest);
      PartsScanned(D, ExtendAll(box, first), parts[1..], rest);
      ExtendAllAppend(box, first, later);
    }
  }

  // ---------------------------------------------------------------- the box as a meaning of its own

  const MAXIMUM: int := 0x7FFF_FFFF_FFFF_FFFF
  const MINIMUM: int := -0x7FFF_FFFF_FFFF_FFFF
  const NO_RANGE: Range := Range(MAXIMUM, MINIMUM)
  const NO_EXTENT: Extent := Extent(NO_RANGE, NO_RANGE, NO_RANGE, NO_RANGE)

  /** The box of a geometry is the union of the boxes of its parts. */
  function Box(D: Decoder, g: Geometry): Extent
    requires WellFormed(g)
    decreases g, 0
  {
    match g
    case Multi(_, _, _, parts) => PartBoxes(D, parts)
    case _ => ExtendAll(NO_EXTENT, Vertices(D, g))
  }

  function PartBoxes(D: Decoder, parts: seq<Geometry>): Extent
    requires forall p :: 0 <= p < |parts| ==> WellFormed(parts[p])
    decreases parts
  {
    if parts == [] then NO_EXTENT else Box(D, parts[0]).Combine(PartBoxes(D, parts[1..]))
  }

  predicate InRange(box: Extent) {
    && box.x.min <= MAXIMUM && box.y.min <= MAXIMUM && box.z.min <= MAXIMUM && box.m.min <= MAXIMUM
    && box.x.max >= MINIMUM && box.y.max >= MINIMUM && box.z.max >= MINIMUM && box.m.max >= MINIMUM
  }

  lemma {:induction false} ExtendAllIsCombine(box: Extent, vertices: seq<Vertex>)
    requires InRange(box)
    ensures InRange(ExtendAll(box, vertices))
    ensures ExtendAll(box, vertices) == box.Combine(ExtendAll(NO_EXTENT, vertices))
  {
    if vertices != [] {
      ExtendAllIsCombine(box, vertices[..|vertices| - 1]);
      CombineExtend(box, ExtendAll(NO_EXTENT, vertices[..|vertices| - 1]), vertices[|vertices| - 1]);
    }
  }

  lemma CombineExtend(a: Extent, b: Extent, v: Vertex)
    ensures a.Combine(b).Extend(v) == a.Combine(b.Extend(v))
  {
  }

  lemma {:induction false} BoxOfVertices(D: Decoder, g: Geometry)
    requires WellFormed(g)
    ensures Box(D, g) == ExtendAll(NO_EXTENT, Vertices(D, g))
    decreases g, 1
  {
    hide Extent.Combine, ExtendAll;
    match g
    case Multi(_, _, _, parts) => BoxOfParts(D, parts);
    case _ =>
  }

  lemma {:induction false} BoxOfParts(D: Decoder, parts: seq<Geometry>)
    requires forall p :: 0 <= p < |parts| ==> WellFormed(parts[p])
    ensures PartBoxes(D, parts) == ExtendAll(NO_EXTENT, PartVertices(D, parts))
    decreases parts, 0
  {
    hide Extent.Combine;
    if parts != [] {
      var first, later := Vertices(D, parts[0]), PartVertices(D, parts[1..]);
      BoxOfVertices(D, parts[0]);
      BoxOfParts(D, parts[1..]);
      ExtendAllAppend(NO_EXTENT, first, later);
      ExtendAllIsCombine(NO_EXTENT, first);
      ExtendAllIsCombine(ExtendAll(NO_EXTENT, first), later);
    }
  }

  /**
   What the flat loop computes from a box and a little-endian geometry followed by anything: it goes
   on behind the geometry with the union of the box and the recursive box.
   */
  lemma FlatScanIsRecursive(D: Decoder, box: Extent, g: Geometry, rest: seq<byte>)
    requires WellFormed(g) && AllLittle(g) && InRange(box)
    ensures Scan(D, box, Encode(g) + rest) == Scan(D, box.Combine(Box(D, g)), rest)
    ensures Scan(D, box, Encode(g)) == Step(true, box.Combine(Box(D, g)), [])
  {
    hide Encode, Vertices, ExtendAll, Box, Extent.Combine;
    GeometryScanned(D, box, g, rest);
    GeometryScanned(D, box, g, []);
    assert Encode(g) + [] == Encode(g);
    BoxOfVertices(D, g);
    ExtendAllIsCombine(box, Vertices(D, g));
  }

  /** A range holds every number and is no larger than needed. */
  predicate Tight(r: Range, numbers: seq<Coord>) {
    && (forall i :: 0 <= i < |numbers| && numbers[i].Num? ==> r.min <= numbers[i].value <= r.max)
    && (r.min == MAXIMUM || exists i :: 0 <= i < |numbers| && numbers[i] == Num(r.min))
    && (r.max == MINIMUM || exists i :: 0 <= i < |numbers| && numbers[i] == Num(r.max))
  }

  function Column(vertices: seq<Vertex>, pick: Vertex -> Coord): seq<Coord> {
    seq(|vertices|, i requires 0 <= i < |vertices| => pick(vertices[i]))
  }

  lemma TightExtend(r: Range, numbers: seq<Coord>, c: Coord)
    requires Tight(r, numbers)
    ensures Tight(r.Extend(c), numbers + [c])
  {
    var all := numbers + [c];
    assert forall i :: 0 <= i < |numbers| ==> all[i] == numbers[i];
    assert all[|numbers|] == c;
  }

  /** The box is the tightest one, in each dimension. */
  lemma {:induction false} BoxIsTight(vertices: seq<Vertex>)
    ensures
      var box := ExtendAll(NO_EXTENT, vertices);
      && Tight(box.x, Column(vertices, (v: Vertex) => v.x)) && Tight(box.y, Column(vertices, (v: Vertex) => v.y))
      && Tight(box.z, Column(vertices, (v: Vertex) => v.z)) && Tight(box.m, Column(vertices, (v: Vertex) => v.m))
  {
    hide Tight;
    if vertices == [] {
      TightNone((v: Vertex) => v.x);
      TightNone((v: Vertex) => v.y);
      TightNone((v: Vertex) => v.z);
      TightNone((v: Vertex) => v.m);
    } else {
      var init := vertices[..|vertices| - 1];
      BoxIsTight(init);
      var box := ExtendAll(NO_EXTENT, init);
      TightLast(box.x, vertices, (v: Vertex) => v.x);
      TightLast(box.y, vertices, (v: Vertex) => v.y);
      TightLast(box.z, vertices, (v: Vertex) => v.z);
      TightLast(box.m, vertices, (v: Vertex) => v.m);
    }
  }

  lemma TightNone(pick: Vertex -> Coord)
    ensures Tight(NO_RANGE, Column([], pick))
  {
  }

  lemma TightLast(r: Range, vertices: seq<Vertex>, pick: Vertex -> Coord)
    requires vertices != [] && Tight(r, Column(vertices[..|vertices| - 1], pick))
    ensures Tight(r.Extend(pick(vertices[|vertices| - 1])), Column(vertices, pick))
  {
    hide Tight;
    TightExtend(r, Column(vertices[..|vertices| - 1], pick), pick(vertices[|vertices| - 1]));
    assert Column(vertices, pick) == Column(vertices[..|vertices| - 1], pick) + [pick(vertices[|vertices| - 1])];
  }

  // ---------------------------------------------------------------- the scanner

  class BinaryReader {
    const data: seq<byte>
    var ptr: nat

    ghost predicate Valid()
      reads this
    {
      ptr <= |data|
    }

    /** The bytes not yet read. */
    ghost function Rest(): seq<byte>
      reads this
      requires Valid()
    {
      data[ptr..]
    }

    constructor (data: seq<byte>)
      ensures Valid() && Rest() == data && this.data == data && ptr == 0
    {
      this.data := data;
      ptr := 0;
    }

    /** Takes the next bytes, or fails without moving. */
    method Reserve(len: nat) returns (ok: bool, raw: seq<byte>)
      requires Valid()
      modifies this
      ensures Valid() && ok == (len <= |old(Rest())|)
      ensures ok ==> raw == old(Rest())[..len] && Rest() == old(Rest())[len..]
      ensures !ok ==> raw == [] && ptr == old(ptr)
    {
      if ptr + len > |data| {
        return false, [];
      }
      raw := data[ptr..ptr + len];
      ptr := ptr + len;
      ok := true;
    }

    method Read32() returns (ok: bool, value: nat)
      requires Valid()
      modifies this
      ensures Valid() && ok == (4 <= |old(Rest())|)
      ensures ok ==> value == LittleEndian(old(Rest())[..4]) && Rest() == old(Rest())[4..]
      ensures !ok ==> ptr == old(ptr)
    {
      hide LittleEndian;
      var raw;
      ok, raw := Reserve(4);
      value := if ok then LittleEndian(raw) else 0;
    }
  }

  /** The geometry types met, one bit for each of seven kinds, one byte for each of four dimension flags. */
  class GeometryKindSet {
    var bits: seq<bv8>

    ghost predicate Valid()
      reads this
    {
      |bits| == 4
    }

    constructor ()
      ensures Valid() && bits == [0, 0, 0, 0] && forall t: nat :: !HasType(bits, t)
    {
      bits := [0, 0, 0, 0];
    }

    method Add(wkbType: nat)
      requires Valid()
      modifies this
      ensures Valid() && bits == AddType(old(bits), wkbType)
    {
      var kind, dims := wkbType % 1000, wkbType / 1000;
      if kind < 1 || kind > 7 || dims > 3 {
        return;
      }
      bits := bits[dims := SetBit(bits[dims], kind)];
    }

    /** The types met, in increasing order. */
    method ToList() returns (list: seq<nat>)
      requires Valid()
      ensures forall t: nat :: t in list <==> HasType(bits, t)
      ensures forall i, j :: 0 <= i < j < |list| ==> list[i] < list[j]
    {
      list := [];
      for d := 0 to 4
        invariant forall t: nat :: t in list <==> HasType(bits, t) && t < 1000 * d
        invariant forall k :: 0 <= k < |list| ==> list[k] < 1000 * d
        invariant forall i, j :: 0 <= i < j < |list| ==> list[i] < list[j]
      {
        for i := 1 to 8
          invariant forall t: nat :: t in list <==> HasType(bits, t) && t < 1000 * d + i
          invariant forall k :: 0 <= k < |list| ==> list[k] < 1000 * d + i
          invariant forall i, j :: 0 <= i < j < |list| ==> list[i] < list[j]
        {
          var t := i + 1000 * d;
          assert t % 1000 == i && t / 1000 == d;
          if HasBit(bits[d], i) {
            list := list + [t];
          }
        }
      }
    }
  }

  function Bit(kind: nat): bv8
    requires 1 <= kind <= 7
  {
    (1 as bv8) << (kind - 1)
  }

  predicate HasBit(b: bv8, kind: nat)
    requires 1 <= kind <= 7
  {
    b & Bit(kind) != 0
  }

  function SetBit(b: bv8, kind: nat): bv8
    requires 1 <= kind <= 7
  {
    b | Bit(kind)
  }

  predicate HasPart(bits: seq<bv8>, kind: nat, dims: nat)
    requires |bits| == 4
  {
    1 <= kind <= 7 && dims <= 3 && HasBit(bits[dims], kind)
  }

  predicate HasType(bits: seq<bv8>, t: nat)
    requires |bits| == 4
  {
    HasPart(bits, t % 1000, t / 1000)
  }

  function AddPart(bits: seq<bv8>, kind: nat, dims: nat): (r: seq<bv8>)
    requires |bits| == 4
    ensures |r| == 4
  {
    if kind < 1 || kind > 7 || dims > 3 then bits else bits[dims := SetBit(bits[dims], kind)]
  }

  function AddType(bits: seq<bv8>, wkbType: nat): (r: seq<bv8>)
    requires |bits| == 4
    ensures |r| == 4
  {
    AddPart(bits, wkbType % 1000, wkbType / 1000)
  }

  lemma Bits()
    ensures Bit(1) == 1 && Bit(2) == 2 && Bit(3) == 4 && Bit(4) == 8 && Bit(5) == 16 && Bit(6) == 32 && Bit(7) == 64
  {
  }

  lemma BitsDiffer(i: nat, j: nat)
    requires 1 <= i <= 7 && 1 <= j <= 7
    ensures Bit(i) != 0 && (i != j ==> Bit(i) & Bit(j) == 0)
  {
    hide Bit;
    Bits();
  }

  lemma OtherBits(b: bv8, m: bv8, n: bv8)
    ensures m & n == 0 ==> (b | m) & n == b & n
    ensures (b | m) & m == m
  {
  }

  lemma OneBit(b: bv8, i: nat, j: nat)
    requires 1 <= i <= 7 && 1 <= j <= 7
    ensures HasBit(SetBit(b, i), j) <==> HasBit(b, j) || i == j
  {
    hide Bit;
    BitsDiffer(i, j);
    OtherBits(b, Bit(i), Bit(j));
  }

  lemma AddedPart(bits: seq<bv8>, kind: nat, dims: nat, k: nat, d: nat)
    requires |bits| == 4
    ensures HasPart(AddPart(bits, kind, dims), k, d) <==>
      HasPart(bits, k, d) || (k == kind && d == dims && 1 <= kind <= 7 && dims <= 3)
  {
    hide HasBit, SetBit;
    if 1 <= kind <= 7 && dims <= 3 && 1 <= k <= 7 && d == dims {
      OneBit(bits[dims], kind, k);
    }
  }

  lemma SameParts(t: nat, u: nat)
    ensures t % 1000 == u % 1000 && t / 1000 == u / 1000 <==> t == u
  {
  }

  /** Adding a type adds it, if it is a known one, and nothing else. */
  lemma AddedType(bits: seq<bv8>, wkbType: nat, t: nat)
    requires |bits| == 4
    ensures HasType(AddType(bits, wkbType), t) <==>
      HasType(bits, t) || (t == wkbType && 1 <= wkbType % 1000 <= 7 && wkbType / 1000 <= 3)
  {
    hide HasPart, AddPart;
    SameParts(t, wkbType);
    AddedPart(bits, wkbType % 1000, wkbType / 1000, t % 1000, t / 1000);
  }

  class GeometryStats {
    const types: GeometryKindSet
    var bbox: Extent

    constructor ()
      ensures types.Valid() && types.bits == [0, 0, 0, 0] && bbox == NO_EXTENT
    {
      types := new GeometryKindSet();
      bbox := NO_EXTENT;
    }

    method UpdateBoundsFromVertexArray(D: Decoder, flag: nat, raw: seq<byte>, count: nat)
      requires |raw| == count * Width(flag)
      modifies this`bbox
      ensures bbox == ExtendFirst(D, old(bbox), flag, raw, count)
    {
      if flag > 3 {
        return;
      }
      var width := Width(flag);
      for i := 0 to count
        invariant i * width <= |raw|
        invariant bbox == ExtendFirst(D, old(bbox), flag, raw, i)
      {
        Inside(i, count, width);
        var vert := raw[i * width..(i + 1) * width];
        bbox := bbox.(x := bbox.x.Extend(D(vert[..8])));
        bbox := bbox.(y := bbox.y.Extend(D(vert[8..16])));
        if flag == 1 {
          bbox := bbox.(z := bbox.z.Extend(D(vert[16..24])));
        } else if flag == 2 {
          bbox := bbox.(m := bbox.m.Extend(D(vert[16..24])));
        } else if flag == 3 {
          bbox := bbox.(z := bbox.z.Extend(D(vert[16..24])));
          bbox := bbox.(m := bbox.m.Extend(D(vert[24..32])));
        }
      }
    }

    /** A point whose coordinates are all not numbers is empty. */
    method UpdatePoint(D: Decoder, flag: nat, raw: seq<byte>)
      requires |raw| == Width(flag)
      modifies this`bbox
      ensures bbox == old(bbox).Extend(Decode(D, flag, raw))
    {
      var point := seq(4, i requires 0 <= i < 4 => if i < Dims(flag) then D(raw[8 * i..8 * i + 8]) else Num(0));
      assert point[0] == D(raw[..8]) && point[1] == D(raw[8..16]);
      assert Dims(flag) >= 3 ==> point[2] == D(raw[16..24]);
      assert Dims(flag) == 4 ==> point[3] == D(raw[24..32]);
      var dim := 0;
      while dim < Dims(flag)
        invariant dim <= Dims(flag)
        invariant bbox == old(bbox)
        invariant forall i :: 0 <= i < dim ==> point[i].NaN?
      {
        if !point[dim].NaN? {
          bbox := bbox.(x := bbox.x.Extend(point[0]));
          bbox := bbox.(y := bbox.y.Extend(point[1]));
          if HasZ(flag) && HasM(flag) {
            bbox := bbox.(z := bbox.z.Extend(point[2]));
            bbox := bbox.(m := bbox.m.Extend(point[3]));
          } else if HasZ(flag) {
            bbox := bbox.(z := bbox.z.Extend(point[2]));
          } else if HasM(flag) {
            bbox := bbox.(m := bbox.m.Extend(point[2]));
          }
          return;
        }
        dim := dim + 1;
      }
    }

    /** One vertex array: its count and its vertices. */
    method UpdateLine(D: Decoder, flag: nat, reader: BinaryReader) returns (ok: bool)
      requires reader.Valid()
      modifies this`bbox, reader
      ensures reader.Valid()
      ensures var s := ScanLine(D, old(bbox), flag, old(reader.Rest()));
        ok == s.ok && bbox == s.box && reader.Rest() == s.rest
    {
      hide LittleEndian, Width, ExtendFirst;
      var count, raw;
      ok, count := reader.Read32();
      if ok {
        ok, raw := reader.Reserve(count * Width(flag));
      }
      if ok {
        UpdateBoundsFromVertexArray(D, flag, raw, count);
      }
    }

    method UpdateRings(D: Decoder, flag: nat, rings: nat, reader: BinaryReader) returns (ok: bool)
      requires reader.Valid()
      modifies this`bbox, reader
      ensures reader.Valid()
      ensures var s := ScanRings(D, old(bbox), flag, old(reader.Rest()), rings);
        ok == s.ok && bbox == s.box && reader.Rest() == s.rest
    {
      hide ScanLine;
      ok := true;
      var ring := 0;
      while ok && ring < rings
        invariant reader.Valid() && ring <= rings
        invariant var s := ScanRings(D, old(bbox), flag, old(reader.Rest()), rings);
          if ok then s == ScanRings(D, bbox, flag, reader.Rest(), rings - ring)
          else s == Step(false, bbox, reader.Rest())
        decreases rings - ring
      {
        ok := UpdateLine(D, flag, reader);
        ring := ring + 1;
      }
    }

    /** Byte order mark, which is ignored, and type. */
    method ReadHeader(reader: BinaryReader) returns (ok: bool, wkbType: nat)
      requires reader.Valid()
      modifies reader
      ensures reader.Valid() && ok == (5 <= |old(reader.Rest())|)
      ensures ok ==> wkbType == LittleEndian(old(reader.Rest())[1..5]) && reader.Rest() == old(reader.Rest())[5..]
    {
      hide LittleEndian;
      var raw;
      ghost var bytes := reader.Rest();
      wkbType := 0;
      ok, raw := reader.Reserve(1);
      if ok {
        ok, wkbType := reader.Read32();
        if ok {
          assert bytes[1..][..4] == bytes[1..5] && bytes[1..][4..] == bytes[5..];
        }
      }
    }

    /** The body of a geometry, by its kind; collections only lose their count. */
    method UpdateBody(D: Decoder, kind: nat, flag: nat, reader: BinaryReader) returns (ok: bool)
      requires reader.Valid()
      modifies this`bbox, reader
      ensures reader.Valid()
      ensures var s := ScanBody(D, old(bbox), kind, flag, old(reader.Rest()));
        ok == s.ok && bbox == s.box && reader.Rest() == s.rest
    {
      hide LittleEndian, Width, ExtendFirst, ScanLine, Decode, Extent.Extend;
      var raw;
      match kind {
        case 1 =>
          ok, raw := reader.Reserve(Width(flag));
          if ok {
            UpdatePoint(D, flag, raw);
          }
        case 2 =>
          ok := UpdateLine(D, flag, reader);
        case 3 =>
          var rings;
          ok, rings := reader.Read32();
          if ok {
            ok := UpdateRings(D, flag, rings, reader);
          }
        case _ =>
          ok := true;
          if 4 <= kind <= 7 {
            ok, raw := reader.Reserve(4);
          }
      }
    }

    /** Scans the bytes from the first to the last; only the first header adds its type. */
    method Update(D: Decoder, wkb: seq<byte>) returns (ok: bool)
      requires types.Valid()
      modifies this`bbox, types
      ensures types.Valid()
      ensures var s := Scan(D, old(bbox), wkb); ok == s.ok && bbox == s.box
      ensures types.bits == if |wkb| < 5 then old(types.bits) else AddType(old(types.bits), LittleEndian(wkb[1..5]))
    {
      hide LittleEndian, Width, ExtendFirst, ScanLine, Decode, Extent.Extend, ScanBody, AddType;
      hide Scan;
      var reader := new BinaryReader(wkb);
      var firstGeom := true;
      ok := true;
      while ok && reader.ptr < |wkb|
        invariant reader.data == wkb && reader.Valid() && types.Valid()
        invariant var s := Scan(D, old(bbox), wkb);
          if ok then s == Scan(D, bbox, reader.Rest()) else !s.ok && s.box == bbox
        invariant if firstGeom then ok ==> reader.ptr == 0 else |wkb| >= 5
        invariant firstGeom && !ok ==> |wkb| < 5
        invariant types.bits == if firstGeom then old(types.bits) else AddType(old(types.bits), LittleEndian(wkb[1..5]))
        decreases ok, |wkb| - reader.ptr
      {
        ScanOne(D, bbox, reader.Rest());
        assert reader.ptr == 0 ==> reader.Rest() == wkb;
        var wkbType;
        ok, wkbType := ReadHeader(reader);
        if ok {
          if firstGeom {
            types.Add(wkbType);
            firstGeom := false;
          }
          ok := UpdateBody(D, wkbType % 1000, wkbType / 1000, reader);
        }
      }
      ScanNone(D, bbox);
      assert ok ==> reader.Rest() == [];
    }
  }

  lemma ScanOne(D: Decoder, box: Extent, bytes: seq<byte>)
    requires bytes != []
    ensures Scan(D, box, bytes) ==
      if |bytes| < 5 then Step(false, box, bytes)
      else
        var s := ScanBody(D, box, LittleEndian(bytes[1..5]) % 1000, LittleEndian(bytes[1..5]) / 1000, bytes[5..]);
        if s.ok then Scan(D, s.box, s.rest) else s
  {
    hide ScanBody, LittleEndian;
  }

  lemma ScanNone(D: Decoder, box: Extent)
    ensures Scan(D, box, []) == Step(true, box, [])
  {
  }

  lemma Inside(i: nat, n: nat, w: nat)
    requires i < n
    ensures (i + 1) * w == i * w + w <= n * w
  {
  }

  // ---------------------------------------------------------------- byte order

  lemma SwappedWord(lo: nat, hi: nat)
    requires lo < 0x100 && hi < 0x100
    ensures LittleEndian(BigEncode32(lo + 0x100 * hi)) == 0x1_0000 * hi + 0x100_0000 * lo
  {
    assert BigEncode32(lo + 0x100 * hi) == [0, 0, hi, lo];
  }

  lemma RestIs(x: nat, q: nat, r: nat)
    requires x == 1000 * q + r && r < 1000
    ensures x % 1000 == r
  {
  }

  /** The type word in the other byte order is no known type, whatever the kind and the dimensions. */
  lemma SwappedType(kind: nat, flag: nat)
    requires 1 <= kind <= 7 && flag <= 3
    ensures
      var word := LittleEndian(BigEncode32(kind + 1000 * flag));
      word % 1000 > 7
  {
    hide LittleEndian, BigEncode32;
    // 1000, 2000 and 3000 are 3, 7 and 11 times 256 and 232, 208 and 184
    var hi := if flag == 0 then 0 else 4 * flag - 1;
    var lo := if flag == 0 then kind else 256 - 24 * flag + kind;
    assert kind + 1000 * flag == lo + 0x100 * hi;
    SwappedWord(lo, hi);
    var small := 536 * hi + 216 * lo;
    var thousands := if flag == 0 then 0 else 54 - 3 * flag;
    var left := small - 1000 * thousands;
    var more := if left < 1000 then 0 else if left < 2000 then 1 else 2;
    RestIs(0x1_0000 * hi + 0x100_0000 * lo, 65 * hi + 16777 * lo + thousands + more, left - 1000 * more);
  }

  /** A geometry's type is added from its header exactly if the header is little-endian. */
  lemma TypeAddedExactly(bits: seq<bv8>, g: Geometry, t: nat)
    requires |bits| == 4 && WellFormed(g)
    ensures HasType(AddType(bits, LittleEndian(Number(g.order, Type(g)))), t) <==>
      HasType(bits, t) || (t == Type(g) && g.order == LITTLE)
  {
    hide HasType, LittleEndian, Encode32, BigEncode32;
    NumberRoundTrip(Type(g));
    SwappedType(Kind(g), g.flag);
    AddedType(bits, LittleEndian(Number(g.order, Type(g))), t);
    assert 1 <= Type(g) % 1000 <= 7 && Type(g) / 1000 <= 3;
  }

  /** A big-endian header takes no body with it: the body is read as further headers. */
  lemma BigEndianHeaderIsSkipped(D: Decoder, box: Extent, g: Geometry, rest: seq<byte>)
    requires WellFormed(g) && g.order == BIG
    ensures Scan(D, box, Encode(g) + rest) == Scan(D, box, EncodeBody(g) + rest)
  {
    hide Encode, EncodeBody, LittleEndian, BigEncode32, Scan;
    HeaderRead(g, rest);
    SwappedType(Kind(g), g.flag);
    ScanOne(D, box, Encode(g) + rest);
  }

  lemma {:induction false} ShortRings(D: Decoder, box: Extent, flag: nat, bytes: seq<byte>, n: nat)
    requires |bytes| < 16
    ensures ScanRings(D, box, flag, bytes, n).box == box
    ensures ScanRings(D, box, flag, bytes, n).ok ==> (|bytes| - |ScanRings(D, box, flag, bytes, n).rest|) % 4 == 0
    decreases n
  {
    hide ScanLine, Width;
    if n > 0 {
      ShortLine(D, box, flag, bytes);
      var s := ScanLine(D, box, flag, bytes);
      if s.ok {
        ShortRings(D, box, flag, s.rest, n - 1);
        FourMore(|bytes|, |ScanRings(D, box, flag, bytes, n).rest|);
      }
    }
  }

  lemma FourMore(a: int, b: int)
    ensures (a - b) % 4 == 0 <==> (a - 4 - b) % 4 == 0
  {
  }

  lemma ShortLine(D: Decoder, box: Extent, flag: nat, bytes: seq<byte>)
    requires |bytes| < 16
    ensures ScanLine(D, box, flag, bytes).box == box
    ensures ScanLine(D, box, flag, bytes).ok ==> |ScanLine(D, box, flag, bytes).rest| == |bytes| - 4
  {
    hide LittleEndian;
    if |bytes| >= 4 && LittleEndian(bytes[..4]) > 0 {
      AtLeast(LittleEndian(bytes[..4]), Width(flag));
    }
  }

  lemma AtLeast(n: nat, w: nat)
    requires n > 0
    ensures n * w >= w
  {
  }

  /** In fewer bytes than a vertex has, a body takes a multiple of four bytes and extends nothing. */
  lemma ShortBody(D: Decoder, box: Extent, kind: nat, flag: nat, bytes: seq<byte>)
    requires |bytes| < 16
    ensures
      var s := ScanBody(D, box, kind, flag, bytes);
      s.box == box && (s.ok ==> (|bytes| - |s.rest|) % 4 == 0)
  {
    hide ScanLine, ScanRings, LittleEndian;
    ShortLine(D, box, flag, bytes);
    if |bytes| >= 4 {
      ShortRings(D, box, flag, bytes[4..], LittleEndian(bytes[..4]));
    }
  }

  /** Lengths that headers of five bytes and bodies of multiples of four cannot make up. */
  predicate Uneven(n: nat) {
    1 <= n <= 4 || n == 6 || n == 7 || n == 11 || n == 16
  }

  lemma {:induction false} UnevenIsRejected(D: Decoder, box: Extent, bytes: seq<byte>)
    requires Uneven(|bytes|)
    ensures !Scan(D, box, bytes).ok && Scan(D, box, bytes).box == box
    decreases |bytes|
  {
    hide ScanBody, LittleEndian;
    if |bytes| >= 5 {
      var word := LittleEndian(bytes[1..5]);
      ShortBody(D, box, word % 1000, word / 1000, bytes[5..]);
      var s := ScanBody(D, box, word % 1000, word / 1000, bytes[5..]);
      if s.ok {
        UnevenIsRejected(D, s.box, s.rest);
      }
    }
  }

  /** A whole point in the plane is accepted exactly if it is little-endian; a big-endian one changes nothing. */
  lemma PointExactly(D: Decoder, box: Extent, g: Geometry)
    requires WellFormed(g) && g.Point? && g.flag == 0
    ensures Scan(D, box, Encode(g)).ok <==> g.order == LITTLE
    ensures Scan(D, box, Encode(g)).box == if g.order == LITTLE then box.Extend(Decode(D, 0, g.vertex)) else box
  {
    hide Encode, Scan, Extent.Extend, Decode;
    assert Encode(g) + [] == Encode(g);
    if g.order == LITTLE {
      GeometryScanned(D, box, g, []);
      ScanNone(D, ExtendAll(box, Vertices(D, g)));
      OneVertex(box, Decode(D, 0, g.vertex));
    } else {
      BigEndianHeaderIsSkipped(D, box, g, []);
      assert EncodeBody(g) + [] == EncodeBody(g);
      UnevenIsRejected(D, box, EncodeBody(g));
    }
  }

  lemma OneVertex(box: Extent, v: Vertex)
    ensures ExtendAll(box, [v]) == box.Extend(v)
  {
    assert [v][..0] == [];
  }

  /**
   A point, line or polygon is accounted for exactly if it is little-endian: the scan reads all of it,
   its box joins the box so far, and its type, if it is new, is the only one that is added.
   */
  lemma SimpleExactly(D: Decoder, box: Extent, bits: seq<bv8>, g: Geometry)
    requires WellFormed(g) && !g.Multi? && InRange(box) && |bits| == 4 && !HasType(bits, Type(g))
    ensures
      var added := AddType(bits, LittleEndian(Encode(g)[1..5]));
      g.order == LITTLE <==>
        && Scan(D, box, Encode(g)) == Step(true, box.Combine(Box(D, g)), [])
        && forall t: nat :: HasType(added, t) <==> HasType(bits, t) || t == Type(g)
  {
    hide Encode, Box, LittleEndian, Number, AddType, Extent.Combine, HasType, Scan;
    HeaderRead(g, []);
    assert Encode(g) + [] == Encode(g);
    TypeAddedExactly(bits, g, Type(g));
    if g.order == LITTLE {
      FlatScanIsRecursive(D, box, g, []);
      forall t: nat ensures HasType(AddType(bits, LittleEndian(Encode(g)[1..5])), t) <==>
        HasType(bits, t) || t == Type(g) {
        TypeAddedExactly(bits, g, t);
      }
    }
  }

  function Zeros(n: nat): (r: seq<byte>)
    ensures |r| == n
  {
    seq(n, i => 0)
  }

  /** Headers of type 0 are passed over. */
  lemma {:induction false} ZeroHeaders(D: Decoder, box: Extent, n: nat)
    ensures Scan(D, box, Zeros(5 * n)) == Step(true, box, [])
    decreases n
  {
    hide Scan, ScanBody;
    if n == 0 {
      ScanNone(D, box);
    } else {
      assert Zeros(5 * n)[5..] == Zeros(5 * (n - 1));
      SkippedHeader(D, box, Zeros(5 * n));
      ZeroHeaders(D, box, n - 1);
    }
  }

  lemma SkippedHeader(D: Decoder, box: Extent, bytes: seq<byte>)
    requires |bytes| >= 5
    requires var kind := LittleEndian(bytes[1..5]) % 1000; kind == 0 || kind > 7
    ensures Scan(D, box, bytes) == Scan(D, box, bytes[5..])
  {
    hide Scan, LittleEndian;
    ScanOne(D, box, bytes);
  }

  /** A big-endian point that is accepted, although neither its type nor its vertex is accounted for. */
  function HiddenPoint(): Geometry {
    Point(BIG, 1, [0, 0, 0, 0, 0, 0, 4, 0] + Zeros(16))
  }

  lemma HiddenPointIsAccepted(D: Decoder, box: Extent)
    ensures WellFormed(HiddenPoint()) && Scan(D, box, Encode(HiddenPoint())) == Step(true, box, [])
    ensures
      var x := D(HiddenPoint().vertex[..8]);
      InRange(box) && x.Num? && MINIMUM <= x.value < box.x.min ==> box.Combine(Box(D, HiddenPoint())) != box
  {
    hide Scan, LittleEndian;
    var g := HiddenPoint();
    BigEndianHeaderIsSkipped(D, box, g, []);
    assert Encode(g) + [] == Encode(g) && EncodeBody(g) + [] == EncodeBody(g);
    HiddenBody(D, box);
  }

  lemma HiddenBody(D: Decoder, box: Extent)
    ensures WellFormed(HiddenPoint()) && Scan(D, box, EncodeBody(HiddenPoint())) == Step(true, box, [])
  {
    hide Scan, EncodeBody, LittleEndian;
    HiddenBytes();
    var body := EncodeBody(HiddenPoint());
    FourIs();
    ScanOne(D, box, body);
    assert body[5..][4..] == Zeros(15);
    ZeroHeaders(D, box, 3);
  }

  lemma FourIs()
    ensures LittleEndian([4, 0, 0, 0]) == 4
  {
  }

  lemma HiddenBytes()
    ensures WellFormed(HiddenPoint())
    ensures var body := EncodeBody(HiddenPoint()); |body| == 24 && body[1..5] == [4, 0, 0, 0] && body[9..] == Zeros(15)
  {
    hide Swapped, Zeros;
    var vertex := HiddenPoint().vertex;
    SwappedCoordinate(vertex);
    SwappedZeros(2);
    assert vertex[8..] == Zeros(16);
    FrontAndZeros([0, 4, 0, 0, 0, 0, 0, 0]);
  }

  lemma FrontAndZeros(front: seq<byte>)
    requires |front| == 8 && front[1..5] == [4, 0, 0, 0] && front[5..] == [0, 0, 0]
    ensures (front + Zeros(16))[1..5] == [4, 0, 0, 0] && (front + Zeros(16))[9..] == Zeros(15)
  {
    assert (front + Zeros(16))[1..5] == front[1..5];
  }

  lemma SwappedCoordinate(vertex: seq<byte>)
    requires |vertex| >= 8 && |vertex| % 8 == 0
    ensures Swapped(vertex) == [vertex[7], vertex[6], vertex[5], vertex[4], vertex[3], vertex[2], vertex[1],
      vertex[0]] + Swapped(vertex[8..])
  {
  }

  lemma {:induction false} SwappedZeros(n: nat)
    ensures Swapped(Zeros(8 * n)) == Zeros(8 * n)
    decreases n
  {
    if n > 0 {
      assert Zeros(8 * n)[8..] == Zeros(8 * (n - 1));
      SwappedZeros(n - 1);
    }
  }

  /**
   So a collection that is not little-endian throughout can be accepted, and even with the right box:
   for collections there is no equivalence.
   */
  lemma MixedIsAccepted(D: Decoder, box: Extent)
    requires InRange(box) && forall raw :: D(raw) == NaN
    ensures
      var g := Multi(LITTLE, 0, 7, [HiddenPoint()]);
      && WellFormed(g) && !AllLittle(g)
      && Scan(D, box, Encode(g)) == Step(true, box.Combine(Box(D, g)), [])
  {
    hide Scan, LittleEndian, Encode, EncodeBody, Box, ScanBody, HiddenPoint, AllLittle;
    HiddenPointIsAccepted(D, box);
    HiddenBox(D, box);
    var p := HiddenPoint();
    var g := Multi(LITTLE, 0, 7, [p]);
    OnePart(p);
    HeaderRead(g, []);
    assert Encode(g) + [] == Encode(g) && Encode(p) + [] == Encode(p);
    ScanOne(D, box, Encode(g));
    CollectionScanned(D, box, g, []);
  }

  lemma OnePart(p: Geometry)
    requires WellFormed(p)
    ensures EncodeParts([p]) == Encode(p) && !AllLittle(HiddenPoint())
    ensures AllLittle(Multi(LITTLE, 0, 7, [p])) ==> AllLittle(p)
  {
    hide Encode;
    assert [p][1..] == [];
    assert Encode(p) + [] == Encode(p);
    assert [p][0] == p;
  }

  lemma HiddenBox(D: Decoder, box: Extent)
    requires InRange(box) && forall raw :: D(raw) == NaN
    ensures WellFormed(HiddenPoint()) && box.Combine(Box(D, Multi(LITTLE, 0, 7, [HiddenPoint()]))) == box
  {
    var p := HiddenPoint();
    assert [p][1..] == [];
    OneVertex(NO_EXTENT, Decode(D, 1, p.vertex));
  }

  /**
   A geometry that is little-endian throughout is read to its end and its box joins the box so far.
   Of all the types in a geometry at most its own is added, and exactly if its header is little-endian.
   */
  method UpdateEncoded(stats: GeometryStats, D: Decoder, g: Geometry) returns (ok: bool)
    requires stats.types.Valid() && WellFormed(g) && InRange(stats.bbox)
    modifies stats`bbox, stats.types
    ensures AllLittle(g) ==> ok && stats.bbox == old(stats.bbox).Combine(Box(D, g))
    ensures stats.types.Valid() && forall t: nat ::
      HasType(stats.types.bits, t) <==> old(HasType(stats.types.bits, t)) || (t == Type(g) && g.order == LITTLE)
    ensures g.Point? && g.flag == 0 ==> (ok <==> g.order == LITTLE) && (!ok ==> stats.bbox == old(stats.bbox))
  {
    hide Encode, Box, LittleEndian, Number, AddType, Extent.Combine, Extent.Extend, HasType, Scan, AllLittle, Decode;
    if AllLittle(g) {
      FlatScanIsRecursive(D, stats.bbox, g, []);
    }
    if g.Point? && g.flag == 0 {
      PointExactly(D, stats.bbox, g);
    }
    HeaderRead(g, []);
    assert Encode(g) + [] == Encode(g);
    forall t: nat
      ensures HasType(AddType(stats.types.bits, LittleEndian(Number(g.order, Type(g)))), t)
              <==> HasType(stats.types.bits, t) || (t == Type(g) && g.order == LITTLE)
    {
      TypeAddedExactly(stats.types.bits, g, t);
    }
    ok := stats.Update(D, Encode(g));
  }

  // ---------------------------------------------------------------- the bytes themselves

  /** Which bytes of a vertex are which coordinate. */
  lemma DecodeWritten(D: Decoder, x: seq<byte>, y: seq<byte>, z: seq<byte>, m: seq<byte>)
    requires |x| == |y| == |z| == |m| == 8
    ensures |x + y| == Width(0) && Decode(D, 0, x + y) == Vertex(D(x), D(y), NaN, NaN)
    ensures |x + y + z| == Width(1) && Decode(D, 1, x + y + z) == Vertex(D(x), D(y), D(z), NaN)
    ensures |x + y + m| == Width(2) && Decode(D, 2, x + y + m) == Vertex(D(x), D(y), NaN, D(m))
    ensures |x + y + z + m| == Width(3) && Decode(D, 3, x + y + z + m) == Vertex(D(x), D(y), D(z), D(m))
  {
    FirstFour(x, y, z, m);
    FirstThree(x, y, z);
    FirstThree(x, y, m);
    assert (x + y)[..8] == x && (x + y)[8..16] == y;
  }

  lemma FirstThree(a: seq<byte>, b: seq<byte>, c: seq<byte>)
    requires |a| == |b| == |c| == 8
    ensures (a + b + c)[..8] == a && (a + b + c)[8..16] == b && (a + b + c)[16..24] == c
  {
  }

  lemma FirstFour(a: seq<byte>, b: seq<byte>, c: seq<byte>, d: seq<byte>)
    requires |a| == |b| == |c| == |d| == 8
    ensures (a + b + c + d)[..8] == a && (a + b + c + d)[8..16] == b
    ensures (a + b + c + d)[16..24] == c && (a + b + c + d)[24..32] == d
  {
  }

  /** A little-endian point, byte by byte: each coordinate extends its own dimension and no other. */
  lemma PointWritten(D: Decoder, box: Extent, x: seq<byte>, y: seq<byte>, z: seq<byte>, m: seq<byte>)
    requires |x| == |y| == |z| == |m| == 8
    ensures Scan(D, box, [1, 1, 0, 0, 0] + (x + y)) ==
      Step(true, Extent(box.x.Extend(D(x)), box.y.Extend(D(y)), box.z, box.m), [])
    ensures Scan(D, box, [1, 0xE9, 3, 0, 0] + (x + y + z)) ==
      Step(true, Extent(box.x.Extend(D(x)), box.y.Extend(D(y)), box.z.Extend(D(z)), box.m), [])
    ensures Scan(D, box, [1, 0xD1, 7, 0, 0] + (x + y + m)) ==
      Step(true, Extent(box.x.Extend(D(x)), box.y.Extend(D(y)), box.z, box.m.Extend(D(m))), [])
    ensures Scan(D, box, [1, 0xB9, 11, 0, 0] + (x + y + z + m)) ==
      Step(true, Extent(box.x.Extend(D(x)), box.y.Extend(D(y)), box.z.Extend(D(z)), box.m.Extend(D(m))), [])
  {
    hide Scan, Range.Extend, Decode, Width, Encode32;
    DecodeWritten(D, x, y, z, m);
    PointBytes(D, box, 0, x + y);
    PointBytes(D, box, 1, x + y + z);
    PointBytes(D, box, 2, x + y + m);
    PointBytes(D, box, 3, x + y + z + m);
    TypeBytes();
    ExtendNothing(box);
  }

  lemma ExtendNothing(box: Extent)
    ensures box.x.Extend(NaN) == box.x && box.y.Extend(NaN) == box.y
    ensures box.z.Extend(NaN) == box.z && box.m.Extend(NaN) == box.m
  {
  }

  /** The mark and the word of a type of points or lines. */
  lemma TypeBytes()
    ensures [1] + Encode32(1) == [1, 1, 0, 0, 0]
    ensures [1] + Encode32(1001) == [1, 0xE9, 3, 0, 0]
    ensures [1] + Encode32(2001) == [1, 0xD1, 7, 0, 0]
    ensures [1] + Encode32(3001) == [1, 0xB9, 11, 0, 0]
    ensures [1] + Encode32(2) == [1, 2, 0, 0, 0]
    ensures [1] + Encode32(1002) == [1, 0xEA, 3, 0, 0]
    ensures [1] + Encode32(2002) == [1, 0xD2, 7, 0, 0]
    ensures [1] + Encode32(3002) == [1, 0xBA, 11, 0, 0]
  {
  }

  lemma PointBytes(D: Decoder, box: Extent, flag: nat, vertex: seq<byte>)
    requires flag <= 3 && |vertex| == Width(flag)
    ensures Scan(D, box, [1] + Encode32(1 + 1000 * flag) + vertex) ==
      Step(true, box.Extend(Decode(D, flag, vertex)), [])
  {
    hide Scan, Extent.Extend, Decode, Width, Encode32;
    var g := Point(LITTLE, flag, vertex);
    assert Encode(g) == [1] + Encode32(1 + 1000 * flag) + vertex;
    assert Encode(g) + [] == Encode(g);
    GeometryScanned(D, box, g, []);
    OneVertex(box, Decode(D, flag, vertex));
    ScanNone(D, box.Extend(Decode(D, flag, vertex)));
  }

  /** A range after some coordinates. */
  function Reach(r: Range, coords: seq<Coord>): Range {
    if coords == [] then r else Reach(r, coords[..|coords| - 1]).Extend(coords[|coords| - 1])
  }

  function Coords(D: Decoder, raws: seq<seq<byte>>): seq<Coord> {
    seq(|raws|, i requires 0 <= i < |raws| => D(raws[i]))
  }

  function Nones(n: nat): seq<Coord> {
    seq(n, i => NaN)
  }

  lemma {:induction false} ReachNone(r: Range, n: nat)
    ensures Reach(r, Nones(n)) == r
    decreases n
  {
    if n > 0 {
      ReachNone(r, n - 1);
      assert Nones(n)[..n - 1] == Nones(n - 1);
    }
  }

  /** Extending a box by vertices is extending its four ranges, each by its own coordinates. */
  lemma {:induction false} ByDimension(box: Extent, vs: seq<Vertex>, xs: seq<Coord>, ys: seq<Coord>, zs: seq<Coord>,
                                       ms: seq<Coord>)
    requires |vs| == |xs| == |ys| == |zs| == |ms|
    requires forall i :: 0 <= i < |vs| ==> vs[i] == Vertex(xs[i], ys[i], zs[i], ms[i])
    ensures ExtendAll(box, vs) == Extent(Reach(box.x, xs), Reach(box.y, ys), Reach(box.z, zs), Reach(box.m, ms))
    decreases |vs|
  {
    hide Range.Extend;
    if vs != [] {
      var n := |vs| - 1;
      ByDimension(box, vs[..n], xs[..n], ys[..n], zs[..n], ms[..n]);
    }
  }

  lemma LineBytes(D: Decoder, box: Extent, flag: nat, line: seq<seq<byte>>)
    requires flag <= 3 && VerticesFit(flag, line)
    ensures Scan(D, box, [1] + Encode32(2 + 1000 * flag) + (Encode32(|line|) + Concat(line))) ==
      Step(true, ExtendAll(box, LineVertices(D, flag, line)), [])
  {
    hide Scan, Extent.Extend, Decode, Width, Encode32, LineVertices, Concat;
    var g := LineString(LITTLE, flag, line);
    assert Encode(g) == [1] + Encode32(2 + 1000 * flag) + (Encode32(|line|) + Concat(line));
    assert Encode(g) + [] == Encode(g);
    GeometryScanned(D, box, g, []);
    ScanNone(D, ExtendAll(box, LineVertices(D, flag, line)));
  }

  predicate Lists(n: nat, xs: seq<seq<byte>>) {
    |xs| == n && forall i :: 0 <= i < n ==> |xs[i]| == 8
  }

  /** A little-endian line, byte by byte, without further coordinates and with either or both of them. */
  lemma LineXYWritten(D: Decoder, box: Extent, n: nat, xs: seq<seq<byte>>, ys: seq<seq<byte>>, line: seq<seq<byte>>)
    requires n < 0x1_0000_0000 && Lists(n, xs) && Lists(n, ys)
    requires |line| == n && forall i :: 0 <= i < n ==> line[i] == xs[i] + ys[i]
    ensures Scan(D, box, [1, 2, 0, 0, 0] + (Encode32(n) + Concat(line))) ==
      Step(true, Extent(Reach(box.x, Coords(D, xs)), Reach(box.y, Coords(D, ys)), box.z, box.m), [])
  {
    hide Scan, Extent.Extend, Range.Extend, Decode, Encode32, Concat, Reach;
    forall i | 0 <= i < n
      ensures |line[i]| == Width(0)
      ensures Decode(D, 0, line[i]) == Vertex(D(xs[i]), D(ys[i]), NaN, NaN)
    {
      DecodeWritten(D, xs[i], ys[i], xs[i], xs[i]);
    }
    TypeBytes();
    LineBytes(D, box, 0, line);
    ByDimension(box, LineVertices(D, 0, line), Coords(D, xs), Coords(D, ys), Nones(n), Nones(n));
    ReachNone(box.z, n);
    ReachNone(box.m, n);
  }

  lemma LineXYZWritten(D: Decoder, box: Extent, n: nat, xs: seq<seq<byte>>, ys: seq<seq<byte>>, zs: seq<seq<byte>>,
                       line: seq<seq<byte>>)
    requires n < 0x1_0000_0000 && Lists(n, xs) && Lists(n, ys) && Lists(n, zs)
    requires |line| == n && forall i :: 0 <= i < n ==> line[i] == xs[i] + ys[i] + zs[i]
    ensures Scan(D, box, [1, 0xEA, 3, 0, 0] + (Encode32(n) + Concat(line))) ==
      Step(true, Extent(Reach(box.x, Coords(D, xs)), Reach(box.y, Coords(D, ys)), Reach(box.z, Coords(D, zs)), box.m),
        [])
  {
    hide Scan, Extent.Extend, Range.Extend, Decode, Encode32, Concat, Reach;
    forall i | 0 <= i < n
      ensures |line[i]| == Width(1)
      ensures Decode(D, 1, line[i]) == Vertex(D(xs[i]), D(ys[i]), D(zs[i]), NaN)
    {
      DecodeWritten(D, xs[i], ys[i], zs[i], xs[i]);
    }
    TypeBytes();
    LineBytes(D, box, 1, line);
    ByDimension(box, LineVertices(D, 1, line), Coords(D, xs), Coords(D, ys), Coords(D, zs), Nones(n));
    ReachNone(box.m, n);
  }

  lemma LineXYMWritten(D: Decoder, box: Extent, n: nat, xs: seq<seq<byte>>, ys: seq<seq<byte>>, ms: seq<seq<byte>>,
                       line: seq<seq<byte>>)
    requires n < 0x1_0000_0000 && Lists(n, xs) && Lists(n, ys) && Lists(n, ms)
    requires |line| == n && forall i :: 0 <= i < n ==> line[i] == xs[i] + ys[i] + ms[i]
    ensures Scan(D, box, [1, 0xD2, 7, 0, 0] + (Encode32(n) + Concat(line))) ==
      Step(true, Extent(Reach(box.x, Coords(D, xs)), Reach(box.y, Coords(D, ys)), box.z, Reach(box.m, Coords(D, ms))),
        [])
  {
    hide Scan, Extent.Extend, Range.Extend, Decode, Encode32, Concat, Reach;
    forall i | 0 <= i < n
      ensures |line[i]| == Width(2)
      ensures Decode(D, 2, line[i]) == Vertex(D(xs[i]), D(ys[i]), NaN, D(ms[i]))
    {
      DecodeWritten(D, xs[i], ys[i], xs[i], ms[i]);
    }
    TypeBytes();
    LineBytes(D, box, 2, line);
    ByDimension(box, LineVertices(D, 2, line), Coords(D, xs), Coords(D, ys), Nones(n), Coords(D, ms));
    ReachNone(box.z, n);
  }

  lemma LineXYZMWritten(D: Decoder, box: Extent, n: nat, xs: seq<seq<byte>>, ys: seq<seq<byte>>, zs: seq<seq<byte>>,
                        ms: seq<seq<byte>>, line: seq<seq<byte>>)
    requires n < 0x1_0000_0000 && Lists(n, xs) && Lists(n, ys) && Lists(n, zs) && Lists(n, ms)
    requires |line| == n && forall i :: 0 <= i < n ==> line[i] == xs[i] + ys[i] + zs[i] + ms[i]
    ensures Scan(D, box, [1, 0xBA, 11, 0, 0] + (Encode32(n) + Concat(line))) ==
      Step(true, Extent(Reach(box.x, Coords(D, xs)), Reach(box.y, Coords(D, ys)), Reach(box.z, Coords(D, zs)),
        Reach(box.m, Coords(D, ms))), [])
  {
    hide Scan, Extent.Extend, Range.Extend, Decode, Encode32, Concat, Reach;
    forall i | 0 <= i < n
      ensures |line[i]| == Width(3)
      ensures Decode(D, 3, line[i]) == Vertex(D(xs[i]), D(ys[i]), D(zs[i]), D(ms[i]))
    {
      DecodeWritten(D, xs[i], ys[i], zs[i], ms[i]);
    }
    TypeBytes();
    LineBytes(D, box, 3, line);
    ByDimension(box, LineVertices(D, 3, line), Coords(D, xs), Coords(D, ys), Coords(D, zs), Coords(D, ms));
  }

  /** A little-endian polygon of one ring has the box of a line. */
  lemma PolygonWritten(D: Decoder, box: Extent, n: nat, xs: seq<seq<byte>>, ys: seq<seq<byte>>, ring: seq<seq<byte>>)
    requires n < 0x1_0000_0000 && Lists(n, xs) && Lists(n, ys)
    requires |ring| == n && forall i :: 0 <= i < n ==> ring[i] == xs[i] + ys[i]
    ensures Scan(D, box, [1, 3, 0, 0, 0] + ([1, 0, 0, 0] + (Encode32(n) + Concat(ring)))) ==
      Step(true, Extent(Reach(box.x, Coords(D, xs)), Reach(box.y, Coords(D, ys)), box.z, box.m), [])
  {
    hide Scan, Extent.Extend, Range.Extend, Decode, Encode32, Concat, Reach, LittleEndian, ScanLine;
    var line := Encode32(n) + Concat(ring);
    var body, after := [1, 0, 0, 0] + line, [1, 3, 0, 0, 0] + ([1, 0, 0, 0] + line);
    LineXYWritten(D, box, n, xs, ys, ring);
    var same := [1, 2, 0, 0, 0] + line;
    assert same[1..5] == [2, 0, 0, 0] && same[5..] == line;
    assert after[1..5] == [3, 0, 0, 0] && after[5..] == body && body[..4] == [1, 0, 0, 0] && body[4..] == line;
    SmallNumbers();
    ScanOne(D, box, same);
    ScanOne(D, box, after);
    OneRing(D, box, line);
  }

  lemma SmallNumbers()
    ensures forall b: byte :: LittleEndian([b, 0, 0, 0]) == b
  {
  }

  lemma OneRing(D: Decoder, box: Extent, line: seq<byte>)
    ensures ScanRings(D, box, 0, line, 1) == ScanLine(D, box, 0, line)
  {
    hide ScanLine;
  }

  /** A little-endian collection, of whatever kind, is passed over up to its first part. */
  lemma CollectionWritten(D: Decoder, box: Extent, kind: byte, count: seq<byte>, parts: seq<byte>)
    requires 4 <= kind <= 7 && |count| == 4
    ensures Scan(D, box, [1, kind, 0, 0, 0] + (count + parts)) == Scan(D, box, parts)
  {
    hide Scan, LittleEndian;
    var bytes := [1, kind, 0, 0, 0] + (count + parts);
    assert bytes[1..5] == [kind, 0, 0, 0] && bytes[5..] == count + parts && bytes[5..][4..] == parts;
    SmallNumbers();
    ScanOne(D, box, bytes);
  }
}
