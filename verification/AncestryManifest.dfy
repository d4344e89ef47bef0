/**
 * The manifest side of the packed ancestry: preflight bounds before any payload is read, the binary
 * expansion that the chunk sizes must form, and the whole of `packed_seed_evidence`.
 */
module AncestryManifest {
  import opened Common
  import opened Bytes
  import opened AncestryPack

  // ---------------------------------------------------------------------
  // Powers of two
  // ---------------------------------------------------------------------

  /** Python's `&` on non-negative integers. */
  function And(a: nat, b: nat): nat {
    if a == 0 || b == 0 then 0 else 2 * And(a / 2, b / 2) + (if a % 2 == 1 && b % 2 == 1 then 1 else 0)
  }

  predicate IsPower(n: nat) {
    n == 1 || (n > 0 && n % 2 == 0 && IsPower(n / 2))
  }

  lemma {:induction false} AndSelf(n: nat)
    ensures And(n, n) == n
  {
    if n > 0 {
      AndSelf(n / 2);
    }
  }

  /** `size & (size - 1) == 0` is the test for a power of two. */
  lemma {:induction false} AndTestsPowers(n: nat)
    requires n > 0
    ensures And(n, n - 1) == 0 <==> IsPower(n)
  {
    if n % 2 == 1 {
      assert (n - 1) / 2 == n / 2;
      AndSelf(n / 2);
    } else {
      assert (n - 1) / 2 == n / 2 - 1;
      AndTestsPowers(n / 2);
    }
  }

  /** The largest power of two that is at most `n`. */
  function Largest(n: nat): (p: nat)
    requires n > 0
    ensures IsPower(p) && p <= n < 2 * p
  {
    if n == 1 then 1 else
      var p := Largest(n / 2);
      assert (2 * p) / 2 == p;
      2 * p
  }

  lemma {:induction false} PowersApart(p: nat, q: nat)
    requires IsPower(p) && IsPower(q) && p < q
    ensures 2 * p <= q
  {
    if p > 1 {
      PowersApart(p / 2, q / 2);
    }
  }

  /** The powers of two that add up to `n`, largest first: its binary expansion. */
  function Binary(n: nat): seq<nat> {
    if n == 0 then [] else [Largest(n)] + Binary(n - Largest(n))
  }

  function Sum(sizes: seq<nat>): nat {
    if sizes == [] then 0 else sizes[0] + Sum(sizes[1..])
  }

  /** Powers of two, each smaller than the one before. */
  predicate Falling(sizes: seq<nat>, previous: nat) {
    sizes != [] ==> 0 < sizes[0] < previous && IsPower(sizes[0]) && Falling(sizes[1..], sizes[0])
  }

  lemma {:induction false} FallingSum(sizes: seq<nat>, previous: nat)
    requires Falling(sizes, previous) && (sizes == [] || IsPower(previous))
    ensures sizes != [] ==> Sum(sizes) < previous
    decreases |sizes|
  {
    if sizes != [] {
      FallingSum(sizes[1..], sizes[0]);
      PowersApart(sizes[0], previous);
    }
  }

  /** Falling powers of two are the binary expansion of their sum, and of no other number. */
  lemma {:induction false} FallingIsBinary(sizes: seq<nat>, previous: nat)
    requires Falling(sizes, previous)
    ensures sizes == Binary(Sum(sizes))
    decreases |sizes|
  {
    if sizes != [] {
      var n, p := Sum(sizes), sizes[0];
      FallingSum(sizes[1..], p);
      assert n == p + Sum(sizes[1..]) && (sizes[1..] == [] ==> Sum(sizes[1..]) == 0);
      var q := Largest(n);
      if p < q {
        PowersApart(p, q);
      } else if q < p {
        PowersApart(q, p);
      }
      FallingIsBinary(sizes[1..], p);
      HeadAndTail(sizes);
    }
  }

  /** And every number's expansion falls, so there is a manifest for it. */
  lemma {:induction false} BinaryFalls(n: nat, previous: nat)
    requires n < previous && (n > 0 ==> IsPower(previous))
    ensures Falling(Binary(n), previous) && Sum(Binary(n)) == n
    decreases n
  {
    if n > 0 {
      var p := Largest(n);
      assert n - p < p;
      BinaryFalls(n - p, p);
      assert Binary(n)[1..] == Binary(n - p);
    }
  }

  // ---------------------------------------------------------------------
  // Preflight
  // ---------------------------------------------------------------------

  datatype Chunk = Chunk(digest: Digest, receipts: int)

  /** The entries of the lineage directory. */
  datatype Name = ManifestFile | PackFile(digest: Digest) | Other(name: string)

  function SizesOf(chunks: seq<Chunk>): (sizes: seq<nat>)
    requires forall c :: c in chunks ==> c.receipts >= 0
    ensures |sizes| == |chunks|
  {
    seq(|chunks|, i requires 0 <= i < |chunks| => chunks[i].receipts)
  }

  /** Frame bytes that are not receipts: the header, the end mark and the record heads. */
  function Overhead(size: nat): nat { 34 + size * 72 }

  /** One chunk's checks. */
  predicate ChunkFits(chunk: Chunk, previous: int, count: int, files: map<Name, seq<byte>>) {
    && IsDigest(chunk.digest) && 0 < chunk.receipts < previous && And(chunk.receipts, chunk.receipts - 1) == 0
    && count + chunk.receipts <= 124 && PackFile(chunk.digest) in files
    && |files[PackFile(chunk.digest)]| >= Overhead(chunk.receipts)
  }

  /** The loop over the manifest's chunks: the total it arrives at, or None where it raises. */
  function Preflighted(chunks: seq<Chunk>, previous: int, count: int, total: int, files: map<Name, seq<byte>>): Option<int> {
    if chunks == [] then Some(total)
    else
      match Charged(chunks[0], previous, count, total, files)
      case None => None
      case Some(more) => Preflighted(chunks[1..], chunks[0].receipts, count + chunks[0].receipts, more, files)
  }

  /** The new total after one chunk; None where a check fails. */
  function Charged(chunk: Chunk, previous: int, count: int, total: int, files: map<Name, seq<byte>>): Option<int> {
    if !ChunkFits(chunk, previous, count, files) then None
    else
      var more := total + |files[PackFile(chunk.digest)]| - Overhead(chunk.receipts);
      if more > 16 * MIB then None else Some(more)
  }

  method Preflight(rootSize: nat, chunks: seq<Chunk>, files: map<Name, seq<byte>>) returns (r: Option<int>, names: set<Name>)
    ensures r == Preflighted(chunks, 131072, 1, rootSize, files)
    ensures names <= NamesOf(chunks) && (r.Some? ==> names == NamesOf(chunks))
  {
    var previous, count, total := 131072, 1, rootSize;
    names := {ManifestFile};
    assert chunks[0..] == chunks;
    for i := 0 to |chunks|
      invariant Preflighted(chunks[i..], previous, count, total, files) == Preflighted(chunks, 131072, 1, rootSize, files)
      invariant names == NamesOf(chunks[..i])
    {
      var chunk := chunks[i];
      NamesMore(chunks, i);
      if !ChunkFits(chunk, previous, count, files) {
        return None, names;
      }
      previous, count := chunk.receipts, count + chunk.receipts;
      total := total + |files[PackFile(chunk.digest)]| - Overhead(chunk.receipts);
      if total > 16 * MIB {
        return None, names;
      }
      names := names + {PackFile(chunk.digest)};
    }
    assert chunks[..|chunks|] == chunks;
    r := Some(total);
  }

  function NamesOf(chunks: seq<Chunk>): set<Name> {
    {ManifestFile} + set i | 0 <= i < |chunks| :: PackFile(chunks[i].digest)
  }

  lemma NamesMore(chunks: seq<Chunk>, i: nat)
    requires i < |chunks|
    ensures NamesOf(chunks[..i + 1]) == NamesOf(chunks[..i]) + {PackFile(chunks[i].digest)}
    ensures NamesOf(chunks[..i]) <= NamesOf(chunks)
    ensures chunks[i..][0] == chunks[i] && chunks[i..][1..] == chunks[i + 1..]
  {
    TakeOneMore(chunks, i);
    var front := chunks[..i];
    forall name | name in NamesOf(front)
      ensures name in NamesOf(chunks)
    {
      if name != ManifestFile {
        var k :| 0 <= k < |front| && PackFile(front[k].digest) == name;
        assert chunks[k] == front[k];
      }
    }
    forall name | name in NamesOf(front + [chunks[i]])
      ensures name in NamesOf(front) + {PackFile(chunks[i].digest)}
    {
      if name != ManifestFile {
        var k :| 0 <= k <= |front| && PackFile((front + [chunks[i]])[k].digest) == name;
        assert k < |front| ==> front[k] == (front + [chunks[i]])[k];
      }
    }
    forall name | name in NamesOf(front) + {PackFile(chunks[i].digest)}
      ensures name in NamesOf(front + [chunks[i]])
    {
      var both := front + [chunks[i]];
      if name in NamesOf(front) && name != ManifestFile {
        var k :| 0 <= k < |front| && PackFile(front[k].digest) == name;
        assert both[k] == front[k];
      } else {
        assert both[|front|] == chunks[i];
      }
    }
  }

  /** What passing the preflight says: the sizes fall through powers of two, and stay within the bound. */
  lemma {:induction false} PreflightFalls(chunks: seq<Chunk>, previous: int, count: int, total: int, files: map<Name, seq<byte>>)
    requires Preflighted(chunks, previous, count, total, files).Some? && previous >= 0
    ensures forall c :: c in chunks ==> c.receipts > 0
    ensures Falling(SizesOf(chunks), previous) && (chunks != [] ==> count + Sum(SizesOf(chunks)) <= 124)
    decreases |chunks|
  {
    if chunks != [] {
      var chunk := chunks[0];
      var more := total + |files[PackFile(chunk.digest)]| - Overhead(chunk.receipts);
      PreflightFalls(chunks[1..], chunk.receipts, count + chunk.receipts, more, files);
      HeadAndTail(chunks);
      assert SizesOf(chunks)[1..] == SizesOf(chunks[1..]);
      AndTestsPowers(chunk.receipts);
    }
  }

  // ---------------------------------------------------------------------
  // Payloads
  // ---------------------------------------------------------------------

  function ReadChunk(sha: Receipt -> Digest, chunk: Chunk, files: map<Name, seq<byte>>, seen: set<Digest>): Option<seq<Receipt>> {
    if PackFile(chunk.digest) !in files || chunk.receipts < 0 then None
    else
      var raw := files[PackFile(chunk.digest)];
      if sha(raw) != chunk.digest then None else ReadPack(sha, raw, chunk.receipts, seen)
  }

  /** The payload loop over the packs. */
  function ReadAll(sha: Receipt -> Digest, chunks: seq<Chunk>, files: map<Name, seq<byte>>, seen: set<Digest>): Option<seq<Receipt>> {
    if chunks == [] then Some([])
    else
      match ReadChunk(sha, chunks[0], files, seen)
      case None => None
      case Some(receipts) => Before(receipts, ReadAll(sha, chunks[1..], files, seen + Hashes(sha, receipts)))
  }

  /** The packs hold these receipts, in order, each pack as many as its chunk says. */
  predicate Holds(sha: Receipt -> Digest, chunks: seq<Chunk>, files: map<Name, seq<byte>>, receipts: seq<Receipt>, seen: set<Digest>) {
    if chunks == [] then receipts == []
    else
      var chunk := chunks[0];
      && 0 <= chunk.receipts <= |receipts| && chunk.receipts < WORD * WORD
      && PackFile(chunk.digest) in files && sha(files[PackFile(chunk.digest)]) == chunk.digest
      && IsPack(sha, files[PackFile(chunk.digest)], receipts[..chunk.receipts], seen)
      && Holds(sha, chunks[1..], files, receipts[chunk.receipts..], seen + Hashes(sha, receipts[..chunk.receipts]))
  }

  predicate SmallChunks(chunks: seq<Chunk>) {
    forall i {:trigger chunks[i]} :: 0 <= i < |chunks| ==> 0 < chunks[i].receipts < WORD * WORD
  }

  lemma ChunkIsRead(sha: Receipt -> Digest, chunk: Chunk, files: map<Name, seq<byte>>, seen: set<Digest>, receipts: seq<Receipt>)
    requires 0 < chunk.receipts < WORD * WORD
    ensures ReadChunk(sha, chunk, files, seen) == Some(receipts) <==>
            && |receipts| == chunk.receipts && PackFile(chunk.digest) in files
            && sha(files[PackFile(chunk.digest)]) == chunk.digest && IsPack(sha, files[PackFile(chunk.digest)], receipts, seen)
  {
    if PackFile(chunk.digest) in files {
      PackExact(sha, files[PackFile(chunk.digest)], chunk.receipts, seen, receipts);
    }
  }

  lemma SmallRest(chunks: seq<Chunk>)
    requires SmallChunks(chunks) && chunks != []
    ensures SmallChunks(chunks[1..]) && 0 < chunks[0].receipts < WORD * WORD
  {
    assert forall i {:trigger chunks[1..][i]} :: 0 <= i < |chunks| - 1 ==> chunks[1..][i] == chunks[i + 1];
    assert chunks[0] == chunks[0];
  }

  lemma {:induction false} ReadIsHeld(sha: Receipt -> Digest, chunks: seq<Chunk>, files: map<Name, seq<byte>>, seen: set<Digest>)
    requires SmallChunks(chunks)
    ensures var r := ReadAll(sha, chunks, files, seen); r.Some? ==> Holds(sha, chunks, files, r.value, seen)
    decreases |chunks|
  {
    var r := ReadAll(sha, chunks, files, seen);
    if chunks != [] && r.Some? {
      SmallRest(chunks);
      var first := ReadChunk(sha, chunks[0], files, seen).value;
      var after := seen + Hashes(sha, first);
      var more := ReadAll(sha, chunks[1..], files, after).value;
      ChunkIsRead(sha, chunks[0], files, seen, first);
      ReadIsHeld(sha, chunks[1..], files, after);
      assert r.value == first + more && r.value[..|first|] == first && r.value[|first|..] == more;
    }
  }

  lemma {:induction false} HeldIsRead(sha: Receipt -> Digest, chunks: seq<Chunk>, files: map<Name, seq<byte>>, seen: set<Digest>, receipts: seq<Receipt>)
    requires SmallChunks(chunks) && Holds(sha, chunks, files, receipts, seen)
    ensures ReadAll(sha, chunks, files, seen) == Some(receipts)
    decreases |chunks|
  {
    if chunks != [] {
      SmallRest(chunks);
      var size := chunks[0].receipts;
      ChunkIsRead(sha, chunks[0], files, seen, receipts[..size]);
      HeldIsRead(sha, chunks[1..], files, seen + Hashes(sha, receipts[..size]), receipts[size..]);
      assert receipts == receipts[..size] + receipts[size..];
    }
  }

  /** The payload loop. */
  method ReadPayloads(sha: Receipt -> Digest, chunks: seq<Chunk>, files: map<Name, seq<byte>>) returns (r: Option<seq<Receipt>>)
    requires forall c :: c in chunks ==> c.receipts > 0 && PackFile(c.digest) in files
    ensures r == ReadAll(sha, chunks, files, {})
  {
    var documents: seq<Receipt>, seen: set<Digest> := [], {};
    ghost var whole := ReadAll(sha, chunks, files, {});
    NothingBefore(whole);
    assert chunks[0..] == chunks;
    for i := 0 to |chunks|
      invariant Before(documents, ReadAll(sha, chunks[i..], files, seen)) == whole
    {
      var chunk, raw := chunks[i], files[PackFile(chunks[i].digest)];
      PayloadStep(sha, chunks, files, i, seen, documents);
      if sha(raw) != chunk.digest {
        return None;
      }
      var pack, now := Unpack(sha, raw, chunk.receipts, seen);
      if pack.None? {
        return None;
      }
      documents, seen := documents + pack.value, now;
    }
    assert documents + [] == documents;
    r := Some(documents);
  }

  lemma NothingBefore(rest: Option<seq<Receipt>>)
    ensures Before([], rest) == rest
  {
    if rest.Some? {
      assert [] + rest.value == rest.value;
    }
  }

  lemma PayloadStep(sha: Receipt -> Digest, chunks: seq<Chunk>, files: map<Name, seq<byte>>, i: nat, seen: set<Digest>, documents: seq<Receipt>)
    requires i < |chunks|
    ensures var first := ReadChunk(sha, chunks[i], files, seen);
            Before(documents, ReadAll(sha, chunks[i..], files, seen)) ==
            if first.None? then None
            else Before(documents + first.value, ReadAll(sha, chunks[i + 1..], files, seen + Hashes(sha, first.value)))
  {
    var first := ReadChunk(sha, chunks[i], files, seen);
    assert chunks[i..][0] == chunks[i] && chunks[i..][1..] == chunks[i + 1..];
    if first.Some? {
      var more := ReadAll(sha, chunks[i + 1..], files, seen + Hashes(sha, first.value));
      if more.Some? {
        assert documents + (first.value + more.value) == documents + first.value + more.value;
      }
    }
  }

  // ---------------------------------------------------------------------
  // The whole evidence
  // ---------------------------------------------------------------------

  function BytesOf(receipts: seq<Receipt>): nat {
    if receipts == [] then 0 else |receipts[0]| + BytesOf(receipts[1..])
  }

  lemma {:induction false} BytesSplit(receipts: seq<Receipt>, n: nat)
    requires n <= |receipts|
    ensures BytesOf(receipts) == BytesOf(receipts[..n]) + BytesOf(receipts[n..])
  {
    if n > 0 {
      BytesSplit(receipts[1..], n - 1);
      assert receipts[..n][1..] == receipts[1..][..n - 1];
      assert receipts[n..] == receipts[1..][n - 1..];
    }
  }

  lemma {:induction false} RecordsLength(sha: Receipt -> Digest, receipts: seq<Receipt>, seen: set<Digest>)
    requires Admissible(sha, receipts, seen) && forall r :: r in receipts ==> |r| < WORD * WORD
    ensures |Records(sha, receipts)| == 72 * |receipts| + BytesOf(receipts)
  {
    if receipts != [] {
      HeadAndTail(receipts);
      RecordsLength(sha, receipts[1..], seen + {sha(receipts[0])});
    }
  }

  lemma PackLength(sha: Receipt -> Digest, raw: seq<byte>, receipts: seq<Receipt>, seen: set<Digest>)
    requires IsPack(sha, raw, receipts, seen)
    ensures |raw| == Overhead(|receipts|) + BytesOf(receipts)
  {
    AdmissibleSizes(sha, receipts, seen);
    RecordsLength(sha, receipts, seen);
  }

  /** What the first chunk's file holds, and what is left for the others. */
  lemma FirstChunkHeld(sha: Receipt -> Digest, chunks: seq<Chunk>, files: map<Name, seq<byte>>, receipts: seq<Receipt>, seen: set<Digest>)
    requires chunks != [] && Holds(sha, chunks, files, receipts, seen)
    ensures var size := chunks[0].receipts;
            && |files[PackFile(chunks[0].digest)]| == Overhead(size) + BytesOf(receipts[..size])
            && BytesOf(receipts) == BytesOf(receipts[..size]) + BytesOf(receipts[size..])
            && Holds(sha, chunks[1..], files, receipts[size..], seen + Hashes(sha, receipts[..size]))
  {
    var size := chunks[0].receipts;
    PackLength(sha, files[PackFile(chunks[0].digest)], receipts[..size], seen);
    BytesSplit(receipts, size);
  }

  /** The bytes the packs hold are the total the preflight arrived at before reading any of them. */
  lemma {:induction false} TotalsAgree(sha: Receipt -> Digest, chunks: seq<Chunk>, files: map<Name, seq<byte>>, receipts: seq<Receipt>,
                                       seen: set<Digest>, previous: int, count: int, total: int)
    requires Holds(sha, chunks, files, receipts, seen) && Preflighted(chunks, previous, count, total, files).Some?
    ensures Preflighted(chunks, previous, count, total, files) == Some(total + BytesOf(receipts))
    decreases |chunks|
  {
    if chunks != [] {
      var size := chunks[0].receipts;
      FirstChunkHeld(sha, chunks, files, receipts, seen);
      TotalsAgree(sha, chunks[1..], files, receipts[size..], seen + Hashes(sha, receipts[..size]), size, count + size,
                  total + BytesOf(receipts[..size]));
    }
  }

  predicate DigestsAre(chunks: seq<Chunk>) {
    forall i {:trigger chunks[i]} :: 0 <= i < |chunks| ==> IsDigest(chunks[i].digest)
  }

  /** A manifest, root receipt and lineage directory that record exactly these receipts. */
  predicate Describes(sha: Receipt -> Digest, rootSize: nat, chunks: seq<Chunk>, files: map<Name, seq<byte>>, receipts: seq<Receipt>) {
    && 1 <= |receipts| <= 123 && SmallChunks(chunks) && DigestsAre(chunks)
    && SizesMatch(chunks, Binary(|receipts|))
    && rootSize + BytesOf(receipts) <= 16 * MIB
    && files.Keys == NamesOf(chunks) && Holds(sha, chunks, files, receipts, {})
  }

  predicate SizesMatch(chunks: seq<Chunk>, sizes: seq<nat>) {
    |chunks| == |sizes| && forall i {:trigger chunks[i]} :: 0 <= i < |chunks| ==> chunks[i].receipts == sizes[i]
  }

  lemma {:induction false} HeldCount(sha: Receipt -> Digest, chunks: seq<Chunk>, files: map<Name, seq<byte>>, receipts: seq<Receipt>, seen: set<Digest>)
    requires Holds(sha, chunks, files, receipts, seen) && forall c :: c in chunks ==> c.receipts > 0
    ensures Sum(SizesOf(chunks)) == |receipts|
    decreases |chunks|
  {
    if chunks != [] {
      var size := chunks[0].receipts;
      HeadAndTail(chunks);
      HeldCount(sha, chunks[1..], files, receipts[size..], seen + Hashes(sha, receipts[..size]));
      assert SizesOf(chunks)[1..] == SizesOf(chunks[1..]);
    }
  }

  /** What passed the preflight and was read is described by the manifest. */
  lemma AcceptedIsDescribed(sha: Receipt -> Digest, rootSize: nat, chunks: seq<Chunk>, files: map<Name, seq<byte>>, receipts: seq<Receipt>)
    requires chunks != [] && Preflighted(chunks, 131072, 1, rootSize, files).Some? && files.Keys == NamesOf(chunks)
    requires forall c :: c in chunks ==> c.receipts > 0
    requires SmallChunks(chunks) && DigestsAre(chunks) && Holds(sha, chunks, files, receipts, {})
    ensures Describes(sha, rootSize, chunks, files, receipts)
  {
    PreflightFalls(chunks, 131072, 1, rootSize, files);
    FallingIsBinary(SizesOf(chunks), 131072);
    HeldCount(sha, chunks, files, receipts, {});
    TotalsAgree(sha, chunks, files, receipts, {}, 131072, 1, rootSize);
    PreflightBound(chunks, 131072, 1, rootSize, files);
    assert chunks[0] in chunks && SizesOf(chunks)[0] == chunks[0].receipts;
  }

  lemma {:induction false} PreflightBound(chunks: seq<Chunk>, previous: int, count: int, total: int, files: map<Name, seq<byte>>)
    requires Preflighted(chunks, previous, count, total, files).Some? && chunks != []
    ensures Preflighted(chunks, previous, count, total, files).value <= 16 * MIB
    decreases |chunks|
  {
    var chunk := chunks[0];
    var more := total + |files[PackFile(chunk.digest)]| - Overhead(chunk.receipts);
    if |chunks| > 1 {
      PreflightBound(chunks[1..], chunk.receipts, count + chunk.receipts, more, files);
    }
  }

  lemma {:induction false} PreflightChunks(chunks: seq<Chunk>, previous: int, count: int, total: int, files: map<Name, seq<byte>>)
    requires Preflighted(chunks, previous, count, total, files).Some? && count >= 0
    ensures DigestsAre(chunks) && SmallChunks(chunks) && forall c :: c in chunks ==> c.receipts > 0 && PackFile(c.digest) in files
    decreases |chunks|
  {
    if chunks != [] {
      var chunk := chunks[0];
      var more := total + |files[PackFile(chunk.digest)]| - Overhead(chunk.receipts);
      PreflightChunks(chunks[1..], chunk.receipts, count + chunk.receipts, more, files);
      HeadAndTail(chunks);
      assert forall i {:trigger chunks[i]} :: 0 < i < |chunks| ==> chunks[i] == chunks[1..][i - 1];
    }
  }

  lemma MatchRest(chunks: seq<Chunk>, sizes: seq<nat>)
    requires chunks != [] && SizesMatch(chunks, sizes)
    ensures sizes != [] && chunks[0].receipts == sizes[0] && SizesMatch(chunks[1..], sizes[1..])
  {
    assert forall i {:trigger chunks[1..][i]} :: 0 <= i < |chunks| - 1 ==> chunks[1..][i] == chunks[i + 1];
  }

  /** Whatever is described passes the preflight. */
  lemma {:induction false} DescribedPasses(sha: Receipt -> Digest, chunks: seq<Chunk>, files: map<Name, seq<byte>>, receipts: seq<Receipt>,
                                           seen: set<Digest>, sizes: seq<nat>, previous: nat, count: int, total: nat)
    requires DigestsAre(chunks) && Holds(sha, chunks, files, receipts, seen)
    requires SizesMatch(chunks, sizes) && Falling(sizes, previous)
    requires count + |receipts| <= 124 && total + BytesOf(receipts) <= 16 * MIB
    ensures Preflighted(chunks, previous, count, total, files).Some?
    decreases |chunks|
  {
    if chunks != [] {
      var size := chunks[0].receipts;
      MatchRest(chunks, sizes);
      FirstChunkHeld(sha, chunks, files, receipts, seen);
      AndTestsPowers(size);
      DigestsRest(chunks);
      assert ChunkFits(chunks[0], previous, count, files);
      DescribedPasses(sha, chunks[1..], files, receipts[size..], seen + Hashes(sha, receipts[..size]), sizes[1..], size, count + size,
                      total + BytesOf(receipts[..size]));
    }
  }

  lemma DigestsRest(chunks: seq<Chunk>)
    requires DigestsAre(chunks) && chunks != []
    ensures DigestsAre(chunks[1..])
  {
    assert forall i {:trigger chunks[1..][i]} :: 0 <= i < |chunks| - 1 ==> chunks[1..][i] == chunks[i + 1];
  }

  lemma {:induction false} BinaryLength(n: nat, p: nat, k: nat)
    requires IsPower(p) && n < p && p <= Exp2(k)
    ensures |Binary(n)| <= k
    decreases n
  {
    if n > 0 {
      var q := Largest(n);
      assert k > 0;
      Exp2IsPower(k - 1);
      if q > Exp2(k - 1) {
        PowersApart(Exp2(k - 1), q);
      }
      BinaryLength(n - q, q, k - 1);
    }
  }

  function Exp2(k: nat): (p: nat)
    ensures p > 0
  {
    if k == 0 then 1 else 2 * Exp2(k - 1)
  }

  lemma {:induction false} Exp2IsPower(k: nat)
    ensures IsPower(Exp2(k))
  {
    if k > 0 {
      Exp2IsPower(k - 1);
      assert Exp2(k) / 2 == Exp2(k - 1);
    }
  }

  lemma DescribedFits(sha: Receipt -> Digest, rootSize: nat, chunks: seq<Chunk>, files: map<Name, seq<byte>>, receipts: seq<Receipt>)
    requires Describes(sha, rootSize, chunks, files, receipts)
    ensures 1 <= |chunks| <= 17 && Preflighted(chunks, 131072, 1, rootSize, files).Some?
  {
    Powers();
    BinaryFalls(|receipts|, 131072);
    BinaryLength(|receipts|, 128, 7);
    DescribedPasses(sha, chunks, files, receipts, {}, Binary(|receipts|), 131072, 1, rootSize);
  }

  lemma Powers()
    ensures IsPower(128) && IsPower(131072) && Exp2(7) == 128
  {
    assert IsPower(64) && IsPower(128);
    assert IsPower(1024);
    assert IsPower(16384) && IsPower(131072);
    assert Exp2(3) == 8 && Exp2(5) == 32;
  }

  /** `packed_seed_evidence` up to the JSON parsing of the receipts: None where it raises. */
  function Evidence(sha: Receipt -> Digest, rootSize: nat, chunks: seq<Chunk>, files: map<Name, seq<byte>>): Option<seq<Receipt>> {
    if 1 <= |chunks| <= 17 && Preflighted(chunks, 131072, 1, rootSize, files).Some? && files.Keys == NamesOf(chunks)
    then ReadAll(sha, chunks, files, {}) else None
  }

  lemma EvidenceIsDescribed(sha: Receipt -> Digest, rootSize: nat, chunks: seq<Chunk>, files: map<Name, seq<byte>>, receipts: seq<Receipt>)
    requires Evidence(sha, rootSize, chunks, files) == Some(receipts)
    ensures Describes(sha, rootSize, chunks, files, receipts)
    ensures Preflighted(chunks, 131072, 1, rootSize, files) == Some(rootSize + BytesOf(receipts))
  {
    PreflightChunks(chunks, 131072, 1, rootSize, files);
    ReadIsHeld(sha, chunks, files, {});
    AcceptedIsDescribed(sha, rootSize, chunks, files, receipts);
    TotalsAgree(sha, chunks, files, receipts, {}, 131072, 1, rootSize);
  }

  /**
   * It accepts exactly the described lineages and returns exactly their receipts, in order: the sizes
   * are the binary expansion of the number of packed receipts, the hashes are distinct, and the bytes
   * read are the total that the preflight arrived at.
   */
  lemma EvidenceExact(sha: Receipt -> Digest, rootSize: nat, chunks: seq<Chunk>, files: map<Name, seq<byte>>, receipts: seq<Receipt>)
    ensures Evidence(sha, rootSize, chunks, files) == Some(receipts) <==> Describes(sha, rootSize, chunks, files, receipts)
    ensures Describes(sha, rootSize, chunks, files, receipts) ==>
              Preflighted(chunks, 131072, 1, rootSize, files) == Some(rootSize + BytesOf(receipts))
  {
    if Evidence(sha, rootSize, chunks, files) == Some(receipts) {
      EvidenceIsDescribed(sha, rootSize, chunks, files, receipts);
    }
    if Describes(sha, rootSize, chunks, files, receipts) {
      DescribedFits(sha, rootSize, chunks, files, receipts);
      HeldIsRead(sha, chunks, files, {}, receipts);
      EvidenceIsDescribed(sha, rootSize, chunks, files, receipts);
    }
  }

  /** `packed_seed_evidence`: the preflight over all chunks, the directory listing, then the payloads. */
  method PackedSeedEvidence(sha: Receipt -> Digest, rootSize: nat, chunks: seq<Chunk>, files: map<Name, seq<byte>>)
    returns (r: Option<seq<Receipt>>)
    ensures r == Evidence(sha, rootSize, chunks, files)
  {
    if !(1 <= |chunks| <= 17) {
      return None;
    }
    var total, names := Preflight(rootSize, chunks, files);
    if total.None? || files.Keys != names {
      return None;
    }
    PreflightChunks(chunks, 131072, 1, rootSize, files);
    r := ReadPayloads(sha, chunks, files);
  }
}
