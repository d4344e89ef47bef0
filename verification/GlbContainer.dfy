/**
 * GLB access, scripts/finished_island_glb.py: the two-chunk container and the rows of an accessor. JSON
 * text and 32-bit floats are abstract codecs. The container is the one of section 4.4 of the glTF 2.0
 * specification, with one JSON chunk and one binary chunk; a document names the fields that the scripts
 * read and keeps all others as an opaque rest.
 */
module GlbContainer {
  import opened Arithmetic
  import opened Bytes
  import opened Common

  // ---------------------------------------------------------------------
  // Documents
  // ---------------------------------------------------------------------

  /** The accessor types the code knows; any other is an error. */
  datatype Kind = SCALAR | VEC2 | VEC3 | VEC4 | OtherKind

  datatype Accessor = Accessor(view: nat, byteOffset: nat, componentType: int, kind: Kind, count: nat,
                               normalized: bool, rest: string)

  datatype View = View(byteOffset: nat, byteLength: nat, byteStride: Option<nat>, rest: string)

  /** A document: the accessors used as COLOR_0 by some primitive, and everything else it holds. */
  datatype Document = Document(colors: set<nat>, accessors: seq<Accessor>, views: seq<View>, bufferLength: nat, rest: string)

  datatype Codec = Codec(write: Document -> seq<byte>, read: seq<byte> -> Option<Document>, float32: seq<byte> -> Option<real>)

  function Repeat(b: byte, n: nat): (s: seq<byte>)
    ensures |s| == n && forall i :: 0 <= i < n ==> s[i] == b
  {
    seq(n, i => b)
  }

  /** JSON reading inverts writing and does not mind trailing spaces. */
  ghost predicate Lawful(codec: Codec) {
    forall d: Document, n: nat {:trigger codec.write(d), Repeat(0x20, n)} :: codec.read(codec.write(d) + Repeat(0x20, n)) == Some(d)
  }

  // ---------------------------------------------------------------------
  // Constants and padding
  // ---------------------------------------------------------------------

  const MAGIC: int := 0x4654_6c67
  const JSON_CHUNK: int := 0x4e4f_534a
  const BIN_CHUNK: int := 0x004e_4942

  /** `-n % 4`. */
  function Padding(n: nat): (p: nat)
    ensures p < 4 && (n + p) % 4 == 0
    ensures n % 4 == 0 ==> p == 0
  {
    (4 - n % 4) % 4
  }

  function Padded(s: seq<byte>, b: byte): (r: seq<byte>)
    ensures |r| % 4 == 0 && s <= r
    ensures |s| % 4 == 0 ==> r == s
  {
    s + Repeat(b, Padding(|s|))
  }

  // ---------------------------------------------------------------------
  // The container
  // ---------------------------------------------------------------------

  /** The bytes of a container with these two chunks. */
  function Container(metadata: seq<byte>, binary: seq<byte>): seq<byte>
    requires 28 + |metadata| + |binary| < WORD
  {
    U32(MAGIC) + U32(2) + U32(28 + |metadata| + |binary|)
    + U32(|metadata|) + U32(JSON_CHUNK) + metadata
    + U32(|binary|) + U32(BIN_CHUNK) + binary
  }

  /** `save`: None when a length does not fit its field. */
  function Save(codec: Codec, document: Document, binary: seq<byte>): Option<seq<byte>> {
    var metadata, packed := Padded(codec.write(document), 0x20), Padded(binary, 0);
    if 28 + |metadata| + |packed| < WORD then Some(Container(metadata, packed)) else None
  }

  datatype Parts = Parts(document: Option<Document>, binary: Option<seq<byte>>)

  /** One chunk read into the parts; None where an assertion fails. */
  function Absorb(codec: Codec, parts: Parts, kind: int, chunk: seq<byte>): Option<Parts> {
    if kind == JSON_CHUNK then
      if parts.document.None? && codec.read(chunk).Some? then Some(parts.(document := codec.read(chunk))) else None
    else if kind == BIN_CHUNK then
      if parts.binary.None? then Some(parts.(binary := Some(chunk))) else None
    else None
  }

  /** The size and kind of the chunk at `offset`; None where an assertion fails. */
  function Head(raw: seq<byte>, offset: nat): (r: Option<(nat, int)>)
    requires offset < |raw|
    ensures r.Some? ==> offset + 8 + r.value.0 <= |raw|
  {
    if offset + 8 > |raw| then None
    else
      var size := FromU32(raw[offset..offset + 4]);
      if size % 4 != 0 || offset + 8 + size > |raw| then None else Some((size, FromU32(raw[offset + 4..offset + 8])))
  }

  /** The magic number, the version and the length. */
  predicate Headed(raw: seq<byte>) {
    |raw| >= 12 && FromU32(raw[0..4]) == MAGIC && FromU32(raw[4..8]) == 2 && FromU32(raw[8..12]) == |raw|
  }

  /** What the chunks from `offset` on make of the parts read so far. */
  function Chunks(codec: Codec, raw: seq<byte>, offset: nat, parts: Parts): Option<Parts>
    requires offset <= |raw|
    decreases |raw| - offset
  {
    if offset == |raw| then Some(parts)
    else
      match Head(raw, offset)
      case None => None
      case Some((size, kind)) =>
        match Absorb(codec, parts, kind, raw[offset + 8..offset + 8 + size])
        case None => None
        case Some(more) => Chunks(codec, raw, offset + 8 + size, more)
  }

  function Parsed(codec: Codec, raw: seq<byte>): Option<(Document, seq<byte>)> {
    if !Headed(raw) then None
    else
      match Chunks(codec, raw, 12, Parts(None, None))
      case Some(Parts(Some(document), Some(binary))) => Some((document, binary))
      case _ => None
  }

  function Chunk(kind: int, data: seq<byte>): seq<byte>
    requires |data| < WORD && 0 <= kind < WORD
  {
    U32(|data|) + U32(kind) + data
  }

  function Header(length: int): seq<byte>
    requires 0 <= length < WORD
  {
    U32(MAGIC) + U32(2) + U32(length)
  }

  /**
   * A well-formed container: the header with its own length, and exactly one JSON chunk that reads as the
   * document and one binary chunk, in either order, both of a length that is a multiple of four.
   */
  ghost predicate WellFormed(codec: Codec, raw: seq<byte>, document: Document, binary: seq<byte>) {
    && |raw| < WORD && |binary| < WORD && |binary| % 4 == 0
    && exists metadata: seq<byte> ::
         && |metadata| < WORD && |metadata| % 4 == 0 && codec.read(metadata) == Some(document)
         && (|| raw == Header(|raw|) + Chunk(JSON_CHUNK, metadata) + Chunk(BIN_CHUNK, binary)
             || raw == Header(|raw|) + Chunk(BIN_CHUNK, binary) + Chunk(JSON_CHUNK, metadata))
  }

  lemma Words(a: seq<byte>, b: seq<byte>, c: seq<byte>)
    requires |a| == |b| == 4
    ensures var s := a + b + c; s[0..4] == a && s[4..8] == b && s[8..] == c && s[8..8 + |c|] == c
  {
  }

  lemma HeadedExactly(raw: seq<byte>)
    ensures Headed(raw) <==> |raw| < WORD && |raw| >= 12 && raw[..12] == Header(|raw|)
  {
    if |raw| >= 12 {
      Stretch(raw, 0, 12);
      assert raw[..12] == raw[0..12];
      if Headed(raw) {
        WordBytes(raw[0..4]);
        WordBytes(raw[4..8]);
        WordBytes(raw[8..12]);
      }
      if |raw| < WORD && raw[..12] == Header(|raw|) {
        SameThirds(raw[0..4], raw[4..8], raw[8..12], U32(MAGIC), U32(2), U32(|raw|));
        WordRoundTrip(MAGIC);
        WordRoundTrip(2);
        WordRoundTrip(|raw|);
      }
    }
  }

  /** The three parts of a stretch of bytes. */
  lemma Stretch(raw: seq<byte>, offset: nat, end: nat)
    requires offset + 8 <= end <= |raw|
    ensures raw[offset..end] == raw[offset..offset + 4] + raw[offset + 4..offset + 8] + raw[offset + 8..end]
  {
  }

  lemma SameThirds(a: seq<byte>, b: seq<byte>, c: seq<byte>, x: seq<byte>, y: seq<byte>, z: seq<byte>)
    requires |a| == |b| == |x| == |y| == 4 && a + b + c == x + y + z
    ensures a == x && b == y && c == z
  {
    Words(a, b, c);
    Words(x, y, z);
  }

  /** A chunk that is there is read. */
  lemma HeadThere(raw: seq<byte>, offset: nat, kind: int, data: seq<byte>)
    requires |data| < WORD && 0 <= kind < WORD && |data| % 4 == 0 && offset + 8 + |data| <= |raw|
    requires raw[offset..offset + 8 + |data|] == Chunk(kind, data)
    ensures Head(raw, offset) == Some((|data|, kind)) && raw[offset + 8..offset + 8 + |data|] == data
  {
    var end := offset + 8 + |data|;
    Stretch(raw, offset, end);
    SameThirds(raw[offset..offset + 4], raw[offset + 4..offset + 8], raw[offset + 8..end], U32(|data|), U32(kind), data);
    WordRoundTrip(|data|);
    WordRoundTrip(kind);
  }

  /** A head that is read is that of a chunk. */
  lemma HeadFound(raw: seq<byte>, offset: nat, kind: int, size: nat)
    requires offset < |raw| && Head(raw, offset) == Some((size, kind))
    ensures 0 <= kind < WORD && size < WORD && size % 4 == 0
    ensures raw[offset..offset + 8 + size] == Chunk(kind, raw[offset + 8..offset + 8 + size])
  {
    Stretch(raw, offset, offset + 8 + size);
    WordBytes(raw[offset..offset + 4]);
    WordBytes(raw[offset + 4..offset + 8]);
  }

  /** What lies at `offset`: one more chunk of this kind with this content, up to `end`. */
  predicate ChunkAt(raw: seq<byte>, offset: nat, kind: int, data: seq<byte>, end: nat) {
    && |data| < WORD && 0 <= kind < WORD && |data| % 4 == 0
    && end == offset + 8 + |data| <= |raw| && raw[offset..end] == Chunk(kind, data)
  }

  lemma AbsorbsChunk(codec: Codec, raw: seq<byte>, offset: nat, parts: Parts, kind: int, data: seq<byte>, end: nat)
    requires offset < |raw| && ChunkAt(raw, offset, kind, data, end)
    ensures Chunks(codec, raw, offset, parts)
            == (match Absorb(codec, parts, kind, data) case None => None case Some(more) => Chunks(codec, raw, end, more))
  {
    HeadThere(raw, offset, kind, data);
  }

  /** When both parts have been read nothing may follow. */
  lemma NothingFollows(codec: Codec, raw: seq<byte>, offset: nat, parts: Parts)
    requires offset <= |raw| && parts.document.Some? && parts.binary.Some?
    ensures Chunks(codec, raw, offset, parts).Some? <==> offset == |raw|
  {
  }

  /** A step of a successful reading. */
  lemma NextChunk(codec: Codec, raw: seq<byte>, offset: nat, parts: Parts) returns (kind: int, data: seq<byte>, end: nat)
    requires offset < |raw| < WORD && Chunks(codec, raw, offset, parts).Some?
    ensures ChunkAt(raw, offset, kind, data, end) && Absorb(codec, parts, kind, data).Some?
    ensures Chunks(codec, raw, offset, parts) == Chunks(codec, raw, end, Absorb(codec, parts, kind, data).value)
  {
    var (size, word) := Head(raw, offset).value;
    kind, data, end := word, raw[offset + 8..offset + 8 + size], offset + 8 + size;
    HeadFound(raw, offset, kind, size);
  }

  lemma InThree(raw: seq<byte>, middle: nat)
    requires 12 <= middle <= |raw|
    ensures raw == raw[..12] + raw[12..middle] + raw[middle..|raw|]
  {
  }

  lemma AcceptedIsWellFormed(codec: Codec, raw: seq<byte>)
    requires Parsed(codec, raw).Some?
    ensures WellFormed(codec, raw, Parsed(codec, raw).value.0, Parsed(codec, raw).value.1)
  {
    HeadedExactly(raw);
    var (document, binary) := Parsed(codec, raw).value;
    var none := Parts(None, None);
    assert Chunks(codec, raw, 12, none) == Some(Parts(Some(document), Some(binary)));
    assert |raw| > 12;
    var kind, data, middle := NextChunk(codec, raw, 12, none);
    var one := Absorb(codec, none, kind, data).value;
    assert middle < |raw|;
    var kind', data', end := NextChunk(codec, raw, middle, one);
    var both := Absorb(codec, one, kind', data').value;
    NothingFollows(codec, raw, end, both);
    InThree(raw, middle);
    assert raw == Header(|raw|) + Chunk(kind, data) + Chunk(kind', data');
  }

  lemma JsonFirstIsAccepted(codec: Codec, raw: seq<byte>, metadata: seq<byte>, document: Document, binary: seq<byte>)
    requires |raw| < WORD && |metadata| < WORD && |binary| < WORD && |metadata| % 4 == 0 && |binary| % 4 == 0
    requires codec.read(metadata) == Some(document)
    requires raw == Header(|raw|) + Chunk(JSON_CHUNK, metadata) + Chunk(BIN_CHUNK, binary)
    ensures Parsed(codec, raw) == Some((document, binary))
  {
    TwoChunksRead(codec, raw, JSON_CHUNK, metadata, BIN_CHUNK, binary, Parts(Some(document), None), Parts(Some(document), Some(binary)));
  }

  lemma BinaryFirstIsAccepted(codec: Codec, raw: seq<byte>, metadata: seq<byte>, document: Document, binary: seq<byte>)
    requires |raw| < WORD && |metadata| < WORD && |binary| < WORD && |metadata| % 4 == 0 && |binary| % 4 == 0
    requires codec.read(metadata) == Some(document)
    requires raw == Header(|raw|) + Chunk(BIN_CHUNK, binary) + Chunk(JSON_CHUNK, metadata)
    ensures Parsed(codec, raw) == Some((document, binary))
  {
    TwoChunksRead(codec, raw, BIN_CHUNK, binary, JSON_CHUNK, metadata, Parts(None, Some(binary)), Parts(Some(document), Some(binary)));
  }

  lemma WellFormedIsAccepted(codec: Codec, raw: seq<byte>, document: Document, binary: seq<byte>)
    requires WellFormed(codec, raw, document, binary)
    ensures Parsed(codec, raw) == Some((document, binary))
  {
    var metadata: seq<byte> :|
      && |metadata| < WORD && |metadata| % 4 == 0 && codec.read(metadata) == Some(document)
      && (|| raw == Header(|raw|) + Chunk(JSON_CHUNK, metadata) + Chunk(BIN_CHUNK, binary)
          || raw == Header(|raw|) + Chunk(BIN_CHUNK, binary) + Chunk(JSON_CHUNK, metadata));
    if raw == Header(|raw|) + Chunk(JSON_CHUNK, metadata) + Chunk(BIN_CHUNK, binary) {
      JsonFirstIsAccepted(codec, raw, metadata, document, binary);
    } else {
      BinaryFirstIsAccepted(codec, raw, metadata, document, binary);
    }
  }

  lemma TwoChunksRead(codec: Codec, raw: seq<byte>, kind: int, data: seq<byte>, kind': int, data': seq<byte>, one: Parts, both: Parts)
    requires |raw| < WORD && |data| < WORD && |data'| < WORD && 0 <= kind < WORD && 0 <= kind' < WORD
    requires |data| % 4 == 0 && |data'| % 4 == 0
    requires raw == Header(|raw|) + Chunk(kind, data) + Chunk(kind', data')
    requires Absorb(codec, Parts(None, None), kind, data) == Some(one) && Absorb(codec, one, kind', data') == Some(both)
    ensures Headed(raw) && Chunks(codec, raw, 12, Parts(None, None)) == Some(both)
  {
    var middle := 12 + 8 + |data|;
    assert raw[..12] == Header(|raw|) && raw[12..middle] == Chunk(kind, data) && raw[middle..|raw|] == Chunk(kind', data');
    HeadedExactly(raw);
    AbsorbsChunk(codec, raw, 12, Parts(None, None), kind, data, middle);
    AbsorbsChunk(codec, raw, middle, one, kind', data', |raw|);
  }

  /** `parse` accepts exactly the well-formed containers, and returns their parts. */
  lemma ParsedExactly(codec: Codec, raw: seq<byte>, document: Document, binary: seq<byte>)
    ensures Parsed(codec, raw) == Some((document, binary)) <==> WellFormed(codec, raw, document, binary)
  {
    if Parsed(codec, raw) == Some((document, binary)) {
      AcceptedIsWellFormed(codec, raw);
    }
    if WellFormed(codec, raw, document, binary) {
      WellFormedIsAccepted(codec, raw, document, binary);
    }
  }

  /** `parse`: it accepts exactly the well-formed containers. */
  method Parse(codec: Codec, raw: seq<byte>) returns (r: Option<(Document, seq<byte>)>)
    ensures r == Parsed(codec, raw)
    ensures forall document, binary :: r == Some((document, binary)) <==> WellFormed(codec, raw, document, binary)
  {
    forall document, binary {
      ParsedExactly(codec, raw, document, binary);
    }
    r := ReadChunks(codec, raw);
  }

  /** The loop over the chunks. */
  method ReadChunks(codec: Codec, raw: seq<byte>) returns (r: Option<(Document, seq<byte>)>)
    ensures r == Parsed(codec, raw)
  {
    if !Headed(raw) {
      return None;
    }
    var offset, parts := 12, Parts(None, None);
    while offset < |raw|
      invariant 12 <= offset <= |raw|
      invariant Chunks(codec, raw, offset, parts) == Chunks(codec, raw, 12, Parts(None, None))
    {
      var head := Head(raw, offset);
      if head.None? {
        return None;
      }
      var (size, kind) := head.value;
      offset := offset + 8;
      var more := Absorb(codec, parts, kind, raw[offset..offset + size]);
      offset := offset + size;
      if more.None? {
        return None;
      }
      parts := more.value;
    }
    if parts.document.None? || parts.binary.None? {
      return None;
    }
    return Some((parts.document.value, parts.binary.value));
  }

  /** Five words, a chunk, two words and another chunk. */
  lemma WordsAt(a: seq<byte>, b: seq<byte>, c: seq<byte>, d: seq<byte>, e: seq<byte>, m: seq<byte>, f: seq<byte>, g: seq<byte>, n: seq<byte>)
    requires |a| == |b| == |c| == |d| == |e| == |f| == |g| == 4
    ensures var raw := a + b + c + d + e + m + f + g + n;
            && raw[0..4] == a && raw[4..8] == b && raw[8..12] == c && raw[12..16] == d && raw[16..20] == e
            && raw[20..20 + |m|] == m && raw[20 + |m|..24 + |m|] == f && raw[24 + |m|..28 + |m|] == g
            && raw[28 + |m|..] == n && raw[28 + |m|..28 + |m| + |n|] == n
  {
  }

  /** Where everything is in a container. */
  lemma ContainerParts(metadata: seq<byte>, binary: seq<byte>)
    requires 28 + |metadata| + |binary| < WORD
    ensures var raw, m := Container(metadata, binary), |metadata|;
            && |raw| == 28 + m + |binary|
            && raw[0..4] == U32(MAGIC) && raw[4..8] == U32(2) && raw[8..12] == U32(|raw|)
            && raw[12..16] == U32(m) && raw[16..20] == U32(JSON_CHUNK) && raw[20..20 + m] == metadata
            && raw[20 + m..24 + m] == U32(|binary|) && raw[24 + m..28 + m] == U32(BIN_CHUNK)
            && raw[28 + m..] == binary && raw[28 + m..28 + m + |binary|] == binary
  {
    WordsAt(U32(MAGIC), U32(2), U32(28 + |metadata| + |binary|), U32(|metadata|), U32(JSON_CHUNK), metadata,
            U32(|binary|), U32(BIN_CHUNK), binary);
  }

  lemma HeadOf(raw: seq<byte>, offset: nat, kind: int, size: nat)
    requires 0 <= kind < WORD && size < WORD && size % 4 == 0 && offset + 8 + size <= |raw|
    requires raw[offset..offset + 4] == U32(size) && raw[offset + 4..offset + 8] == U32(kind)
    ensures Head(raw, offset) == Some((size, kind))
  {
    WordRoundTrip(size);
    WordRoundTrip(kind);
  }

  lemma ContainerHeaded(metadata: seq<byte>, binary: seq<byte>)
    requires 28 + |metadata| + |binary| < WORD
    ensures Headed(Container(metadata, binary))
  {
    ContainerParts(metadata, binary);
    WordRoundTrip(MAGIC);
    WordRoundTrip(2);
    WordRoundTrip(28 + |metadata| + |binary|);
  }

  /** A two-chunk container parses back into its chunks. */
  lemma ContainerParses(codec: Codec, metadata: seq<byte>, binary: seq<byte>, document: Document)
    requires 28 + |metadata| + |binary| < WORD && |metadata| % 4 == 0 && |binary| % 4 == 0
    requires codec.read(metadata) == Some(document)
    ensures Parsed(codec, Container(metadata, binary)) == Some((document, binary))
  {
    var raw, m := Container(metadata, binary), |metadata|;
    ContainerParts(metadata, binary);
    ContainerHeaded(metadata, binary);
    HeadOf(raw, 12, JSON_CHUNK, m);
    HeadOf(raw, 20 + m, BIN_CHUNK, |binary|);
    var first, both := Parts(Some(document), None), Parts(Some(document), Some(binary));
    assert Chunks(codec, raw, |raw|, both) == Some(both);
    assert Chunks(codec, raw, 20 + m, first) == Some(both);
    assert Chunks(codec, raw, 12, Parts(None, None)) == Some(both);
  }

  /** What `save` writes, `parse` reads back: the document, and the binary up to its padding. */
  lemma SaveParses(codec: Codec, document: Document, binary: seq<byte>)
    requires Lawful(codec) && Save(codec, document, binary).Some?
    ensures Parsed(codec, Save(codec, document, binary).value) == Some((document, Padded(binary, 0)))
  {
    var text := codec.write(document);
    assert Padded(text, 0x20) == text + Repeat(0x20, Padding(|text|));
    ContainerParses(codec, Padded(text, 0x20), Padded(binary, 0), document);
  }

  // ---------------------------------------------------------------------
  // Rows
  // ---------------------------------------------------------------------

  /** Bytes per component; None for an unknown type. */
  function Width(componentType: int): (bytes: Option<nat>)
    ensures bytes.Some? <==> 5120 <= componentType <= 5126 && componentType != 5124
    ensures bytes.Some? ==> bytes.value == if componentType < 5122 then 1 else if componentType < 5124 then 2 else 4
  {
    if componentType in {5120, 5121} then Some(1)
    else if componentType in {5122, 5123} then Some(2)
    else if componentType in {5125, 5126} then Some(4)
    else None
  }

  function Components(kind: Kind): (n: Option<nat>)
    ensures n.None? <==> kind == OtherKind
    ensures n.Some? ==> 1 <= n.value <= 4 && [SCALAR, VEC2, VEC3, VEC4][n.value - 1] == kind
  {
    match kind
    case SCALAR => Some(1)
    case VEC2 => Some(2)
    case VEC3 => Some(3)
    case VEC4 => Some(4)
    case OtherKind => None
  }

  datatype Layout = Layout(offset: nat, stride: nat, size: nat)

  /** `layout`: None where it raises. */
  function LayoutOf(document: Document, index: nat): Option<Layout> {
    if index >= |document.accessors| then None
    else
      var accessor := document.accessors[index];
      if accessor.view >= |document.views| || Width(accessor.componentType).None? || Components(accessor.kind).None? then None
      else
        var view := document.views[accessor.view];
        var size := Width(accessor.componentType).value * Components(accessor.kind).value;
        var stride := view.byteStride.GetOr(size);
        if stride < size then None else Some(Layout(view.byteOffset + accessor.byteOffset, stride, size))
  }

  lemma RowFits(i: int, count: int, stride: int)
    requires 0 <= i < count && 0 <= stride
    ensures 0 <= i * stride <= (count - 1) * stride
  {
    var d := count - 1 - i;
    assert d * stride >= 0;
    assert (count - 1) * stride == i * stride + d * stride;
  }

  /** The bounds check of `values`. */
  predicate InBounds(l: Layout, count: nat, length: nat) {
    l.offset + (count - 1) * l.stride + l.size <= length
  }

  function Row(binary: seq<byte>, l: Layout, count: nat, i: nat): (row: seq<byte>)
    requires i < count && InBounds(l, count, |binary|)
    ensures |row| == l.size
  {
    RowFits(i, count, l.stride);
    binary[l.offset + i * l.stride..l.offset + i * l.stride + l.size]
  }

  /** The raw rows that `values` unpacks; None where it raises. */
  function Rows(document: Document, binary: seq<byte>, index: nat): Option<seq<seq<byte>>> {
    match LayoutOf(document, index)
    case None => None
    case Some(l) =>
      var count := document.accessors[index].count;
      if !InBounds(l, count, |binary|) then None
      else Some(seq(count, i requires 0 <= i < count => Row(binary, l, count, i)))
  }

  // ---------------------------------------------------------------------
  // set_values()
  // ---------------------------------------------------------------------

  /** Whether byte `at` belongs to some row. */
  predicate InRow(l: Layout, count: nat, at: int) {
    exists i {:trigger i * l.stride} :: 0 <= i < count && l.offset + i * l.stride <= at < l.offset + i * l.stride + l.size
  }

  lemma RowsApart(l: Layout, i: int, j: int)
    requires l.size <= l.stride && 0 <= i < j
    ensures i * l.stride + l.size <= j * l.stride
  {
    var d := j - i - 1;
    assert d * l.stride >= 0;
    assert j * l.stride == i * l.stride + d * l.stride + l.stride;
  }

  /** `binary[start:start + |row|] = row` on a bytearray: both ends of the slice are clipped to its length. */
  function Assigned(binary: seq<byte>, start: nat, row: seq<byte>): seq<byte> {
    var length := |binary|;
    var from, to := if start < length then start else length, if start + |row| < length then start + |row| else length;
    binary[..from] + row + binary[to..]
  }

  /** The end of row `i`, or the old length if that is further. */
  function Reached(length: nat, l: Layout, i: nat): nat {
    if i == 0 then length
    else
      RowFits(i - 1, i, l.stride);
      var end := l.offset + (i - 1) * l.stride + l.size;
      if length < end then end else length
  }

  /** No row starts beyond what the rows before it have reached. */
  predicate WithinReach(l: Layout, count: nat, length: nat) {
    l.offset <= length && (l.stride == l.size || l.offset + (count - 1) * l.stride <= length)
  }

  /** The first `i` rows are in their places, and every byte outside the rows is as before. */
  ghost predicate Laid(before: seq<byte>, now: seq<byte>, l: Layout, rows: seq<seq<byte>>, i: nat) {
    && |now| == Reached(|before|, l, i)
    && (forall k: nat {:trigger rows[k]} :: k < i && k < |rows| ==> HasRow(now, l, k, rows[k]))
    && (forall at: nat {:trigger now[at]} :: at < |before| && !InRow(l, |rows|, at) ==> now[at] == before[at])
  }

  ghost predicate HasRow(binary: seq<byte>, l: Layout, k: nat, row: seq<byte>) {
    var start := l.offset + k * l.stride;
    0 <= start && start + |row| <= |binary| && binary[start..start + |row|] == row
  }

  lemma AssignedKeeps(binary: seq<byte>, start: nat, row: seq<byte>, at: nat)
    requires start <= |binary| && at < |binary| && !(start <= at < start + |row|)
    ensures at < |Assigned(binary, start, row)| && Assigned(binary, start, row)[at] == binary[at]
  {
  }

  lemma AssignedHas(binary: seq<byte>, start: nat, row: seq<byte>)
    requires start <= |binary|
    ensures |Assigned(binary, start, row)| == if start + |row| < |binary| then |binary| else start + |row|
    ensures Assigned(binary, start, row)[start..start + |row|] == row
  {
  }

  lemma RowStays(binary: seq<byte>, l: Layout, k: nat, i: nat, earlier: seq<byte>, row: seq<byte>)
    requires l.size <= l.stride && k < i && |earlier| == l.size && HasRow(binary, l, k, earlier)
    requires 0 <= l.offset + i * l.stride <= |binary|
    ensures HasRow(Assigned(binary, l.offset + i * l.stride, row), l, k, earlier)
  {
    RowsApart(l, k, i);
    var start, written := l.offset + k * l.stride, l.offset + i * l.stride;
    AssignedHas(binary, written, row);
    forall at | start <= at < start + l.size
      ensures Assigned(binary, written, row)[at] == binary[at]
    {
      AssignedKeeps(binary, written, row, at);
    }
  }

  /** One row written where the ones before it have reached. */
  lemma LaidFurther(before: seq<byte>, now: seq<byte>, l: Layout, rows: seq<seq<byte>>, i: nat)
    requires l.size <= l.stride && Laid(before, now, l, rows, i) && i < |rows|
    requires forall k {:trigger rows[k]} :: 0 <= k < |rows| ==> |rows[k]| == l.size
    requires 0 <= l.offset + i * l.stride <= |now|
    ensures Laid(before, Assigned(now, l.offset + i * l.stride, rows[i]), l, rows, i + 1)
  {
    var start := l.offset + i * l.stride;
    var after := Assigned(now, start, rows[i]);
    AssignedHas(now, start, rows[i]);
    assert |after| == Reached(|before|, l, i + 1) by {
      if i > 0 {
        RowsApart(l, i - 1, i);
      }
    }
    forall k: nat | k < i + 1
      ensures HasRow(after, l, k, rows[k])
    {
      if k < i {
        RowStays(now, l, k, i, rows[k], rows[i]);
      }
    }
    forall at: nat | at < |before| && !InRow(l, |rows|, at)
      ensures after[at] == before[at]
    {
      assert !(start <= at < start + l.size) by {
        assert i * l.stride == i * l.stride;
      }
      AssignedKeeps(now, start, rows[i], at);
    }
  }

  /** The step at which a row starts beyond what has been reached, if there is one. */
  lemma BeyondReach(l: Layout, count: nat, length: nat, i: nat)
    requires l.size <= l.stride && i < count && Reached(length, l, i) < l.offset + i * l.stride
    ensures !WithinReach(l, count, length)
  {
    RowFits(i, count, l.stride);
    if i > 0 {
      assert l.offset + (i - 1) * l.stride + l.stride == l.offset + i * l.stride;
    }
  }

  /** A growable array of bytes, written in place. */
  class ByteArray {
    var bytes: seq<byte>

    constructor (contents: seq<byte>)
      ensures bytes == contents
    {
      bytes := contents;
    }

    /**
     * `set_values`. Rows that do not start beyond the bytes reached so far go where they belong: all of
     * them read back, and no byte outside them changes. If and only if some row starts further out, the
     * slice assignments append instead, and the array ends up too short to be read.
     */
    method SetRows(l: Layout, rows: seq<seq<byte>>)
      requires l.size <= l.stride && rows != []
      requires forall i {:trigger rows[i]} :: 0 <= i < |rows| ==> |rows[i]| == l.size
      modifies this
      ensures InBounds(l, |rows|, |bytes|) <==> WithinReach(l, |rows|, |old(bytes)|)
      ensures WithinReach(l, |rows|, |old(bytes)|) ==>
                && |bytes| == Reached(|old(bytes)|, l, |rows|)
                && (forall i {:trigger rows[i]} :: 0 <= i < |rows| ==> Row(bytes, l, |rows|, i) == rows[i])
                && (forall at: nat {:trigger bytes[at]} ::
                      at < |old(bytes)| && !InRow(l, |rows|, at) ==> bytes[at] == old(bytes)[at])
    {
      ghost var before, short := bytes, false;
      for i := 0 to |rows|
        invariant if short
                  then i > 0 && |bytes| < l.offset + (i - 1) * l.stride + l.size && !WithinReach(l, |rows|, |before|)
                  else Laid(before, bytes, l, rows, i) && (i > 0 ==> WithinReach(l, i, |before|))
      {
        NonNegative(i, l.stride);
        var start := l.offset + i * l.stride;
        assert start == l.offset + (i - 1) * l.stride + l.stride;
        if short || |bytes| < start {
          if !short {
            BeyondReach(l, |rows|, |before|, i);
          }
          short := true;
        } else {
          LaidFurther(before, bytes, l, rows, i);
        }
        bytes := Assigned(bytes, start, rows[i]);
      }
      if !short {
        forall i | 0 <= i < |rows|
          ensures Row(bytes, l, |rows|, i) == rows[i]
        {
          assert HasRow(bytes, l, i, rows[i]);
        }
      }
    }
  }
}
