/**
 * The packed ancestry of scripts/compare_cpu_care_rounds.py: a manifest lists packs whose sizes are
 * decreasing powers of two, and every pack frames its receipts with their hashes and lengths.
 */
module AncestryPack {
  import opened Common
  import opened Bytes

  const MIB: int := 1024 * 1024
  const PACK_MAGIC: seq<byte> := [65, 76, 73, 70, 69, 45, 65, 78, 67, 69, 83, 84, 82, 89, 49, 10]  // "ALIFE-ANCESTRY1\n"
  const PACK_END: seq<byte> := [65, 76, 73, 70, 69, 45, 69, 78, 68, 10]                            // "ALIFE-END\n"

  /** A receipt, and a digest in lower-case hexadecimal. */
  type Receipt = seq<byte>
  type Digest = seq<byte>

  predicate IsDigest(d: seq<byte>) {
    |d| == 64 && forall i :: 0 <= i < 64 ==> 48 <= d[i] <= 57 || 97 <= d[i] <= 102
  }

  // ---------------------------------------------------------------------
  // One pack: the format, and its reader
  // ---------------------------------------------------------------------

  /** `hash, length, bytes` for each receipt. */
  function Records(sha: Receipt -> Digest, receipts: seq<Receipt>): seq<byte>
    requires forall r :: r in receipts ==> |r| < WORD * WORD
  {
    if receipts == [] then [] else sha(receipts[0]) + U64(|receipts[0]|) + receipts[0] + Records(sha, receipts[1..])
  }

  /** Receipts a pack may hold when the hashes `seen` have occurred before it. */
  predicate Admissible(sha: Receipt -> Digest, receipts: seq<Receipt>, seen: set<Digest>) {
    receipts != [] ==>
      && IsDigest(sha(receipts[0])) && sha(receipts[0]) !in seen && |receipts[0]| <= 64 * MIB
      && Admissible(sha, receipts[1..], seen + {sha(receipts[0])})
  }

  function Hashes(sha: Receipt -> Digest, receipts: seq<Receipt>): set<Digest> {
    if receipts == [] then {} else {sha(receipts[0])} + Hashes(sha, receipts[1..])
  }

  lemma {:induction false} AdmissibleSizes(sha: Receipt -> Digest, receipts: seq<Receipt>, seen: set<Digest>)
    requires Admissible(sha, receipts, seen)
    ensures forall r :: r in receipts ==> |r| < WORD * WORD
  {
    if receipts != [] {
      HeadAndTail(receipts);
      AdmissibleSizes(sha, receipts[1..], seen + {sha(receipts[0])});
    }
  }

  /** One record at the start of `rest`; None where a check fails. */
  function FirstRecord(sha: Receipt -> Digest, rest: seq<byte>, seen: set<Digest>): (r: Option<Receipt>)
    ensures r.Some? ==> |rest| >= 72 + |r.value|
  {
    if |rest| < 72 || !IsDigest(rest[..64]) || rest[..64] in seen then None
    else
      var size := FromU64(rest[64..72]);
      if size > 64 * MIB || 72 + size > |rest| then None
      else if sha(rest[72..72 + size]) != rest[..64] then None
      else Some(rest[72..72 + size])
  }

  /** The record loop and the check for the end mark, on what is left of the pack. */
  function Unpacked(sha: Receipt -> Digest, rest: seq<byte>, n: nat, seen: set<Digest>): Option<seq<Receipt>> {
    if n == 0 then (if rest == PACK_END then Some([]) else None)
    else
      match FirstRecord(sha, rest, seen)
      case None => None
      case Some(receipt) => Before([receipt], Unpacked(sha, rest[72 + |receipt|..], n - 1, seen + {sha(receipt)}))
  }

  function Before(first: seq<Receipt>, rest: Option<seq<Receipt>>): Option<seq<Receipt>> {
    match rest
    case None => None
    case Some(receipts) => Some(first + receipts)
  }

  /** The bytes begin with this receipt's record, and it may come next. */
  predicate Leads(sha: Receipt -> Digest, rest: seq<byte>, seen: set<Digest>, receipt: Receipt) {
    && IsDigest(sha(receipt)) && sha(receipt) !in seen && |receipt| <= 64 * MIB
    && |rest| >= 72 + |receipt|
    && rest[..72 + |receipt|] == sha(receipt) + U64(|receipt|) + receipt
  }

  lemma RecordIsWritten(sha: Receipt -> Digest, rest: seq<byte>, seen: set<Digest>)
    ensures FirstRecord(sha, rest, seen).Some? ==> Leads(sha, rest, seen, FirstRecord(sha, rest, seen).value)
  {
    if FirstRecord(sha, rest, seen).Some? {
      var receipt := FirstRecord(sha, rest, seen).value;
      LongBytes(rest[64..72]);
      assert rest[..72 + |receipt|] == rest[..64] + rest[64..72] + rest[72..72 + |receipt|];
    }
  }

  lemma ThreeParts(front: seq<byte>, a: seq<byte>, b: seq<byte>, c: seq<byte>)
    requires front == a + b + c && |a| == 64 && |b| == 8
    ensures front[..64] == a && front[64..72] == b && front[72..] == c
  {
  }

  lemma RecordIsRead(sha: Receipt -> Digest, rest: seq<byte>, seen: set<Digest>, receipt: Receipt)
    requires Leads(sha, rest, seen, receipt)
    ensures FirstRecord(sha, rest, seen) == Some(receipt)
  {
    var front := rest[..72 + |receipt|];
    ThreeParts(front, sha(receipt), U64(|receipt|), receipt);
    LongRoundTrip(|receipt|);
    assert rest[..64] == front[..64] && rest[64..72] == front[64..72];
    assert rest[72..72 + |receipt|] == front[72..];
  }

  /** `rest` is the records of admissible receipts and the end mark. */
  predicate Framed(sha: Receipt -> Digest, rest: seq<byte>, receipts: seq<Receipt>, seen: set<Digest>) {
    && Admissible(sha, receipts, seen)
    && (AdmissibleSizes(sha, receipts, seen); rest == Records(sha, receipts) + PACK_END)
  }

  lemma FrameOne(sha: Receipt -> Digest, rest: seq<byte>, receipts: seq<Receipt>, seen: set<Digest>)
    requires receipts != []
    ensures Framed(sha, rest, receipts, seen) <==>
            && Leads(sha, rest, seen, receipts[0])
            && Framed(sha, rest[72 + |receipts[0]|..], receipts[1..], seen + {sha(receipts[0])})
  {
    var receipt, after := receipts[0], seen + {sha(receipts[0])};
    if Admissible(sha, receipts, seen) {
      AdmissibleSizes(sha, receipts, seen);
      AdmissibleSizes(sha, receipts[1..], after);
      var front := sha(receipt) + U64(|receipt|) + receipt;
      assert Records(sha, receipts) + PACK_END == front + (Records(sha, receipts[1..]) + PACK_END);
      if |rest| >= 72 + |receipt| {
        assert rest == rest[..72 + |receipt|] + rest[72 + |receipt|..];
      }
      if rest == front + (Records(sha, receipts[1..]) + PACK_END) {
        assert rest[..72 + |receipt|] == front;
        assert rest[72 + |receipt|..] == Records(sha, receipts[1..]) + PACK_END;
      }
    }
  }

  lemma NoFrame(sha: Receipt -> Digest, rest: seq<byte>, seen: set<Digest>)
    ensures Framed(sha, rest, [], seen) <==> rest == PACK_END
  {
    assert Records(sha, []) + PACK_END == PACK_END;
  }

  lemma FrameMore(sha: Receipt -> Digest, rest: seq<byte>, receipt: Receipt, more: seq<Receipt>, seen: set<Digest>)
    requires Leads(sha, rest, seen, receipt) && Framed(sha, rest[72 + |receipt|..], more, seen + {sha(receipt)})
    ensures Framed(sha, rest, [receipt] + more, seen)
  {
    assert ([receipt] + more)[1..] == more;
    FrameOne(sha, rest, [receipt] + more, seen);
  }

  /** Decoding inverts: what the reader returns is what the bytes are the framing of. */
  lemma {:induction false} UnpackedIsFramed(sha: Receipt -> Digest, rest: seq<byte>, n: nat, seen: set<Digest>)
    ensures var r := Unpacked(sha, rest, n, seen); r.Some? ==> |r.value| == n && Framed(sha, rest, r.value, seen)
    decreases n
  {
    var r := Unpacked(sha, rest, n, seen);
    if n == 0 {
      NoFrame(sha, rest, seen);
    } else if r.Some? {
      var receipt := FirstRecord(sha, rest, seen).value;
      var tail, after := rest[72 + |receipt|..], seen + {sha(receipt)};
      var more := Unpacked(sha, tail, n - 1, after).value;
      RecordIsWritten(sha, rest, seen);
      UnpackedIsFramed(sha, tail, n - 1, after);
      FrameMore(sha, rest, receipt, more, seen);
      assert r.value == [receipt] + more;
    }
  }

  /** And every framing is accepted and decoded. */
  lemma {:induction false} FramedIsUnpacked(sha: Receipt -> Digest, rest: seq<byte>, seen: set<Digest>, receipts: seq<Receipt>)
    requires Framed(sha, rest, receipts, seen)
    ensures Unpacked(sha, rest, |receipts|, seen) == Some(receipts)
    decreases |receipts|
  {
    if receipts == [] {
      NoFrame(sha, rest, seen);
    } else {
      FrameOne(sha, rest, receipts, seen);
      RecordIsRead(sha, rest, seen, receipts[0]);
      FramedIsUnpacked(sha, rest[72 + |receipts[0]|..], seen + {sha(receipts[0])}, receipts[1..]);
      HeadAndTail(receipts);
    }
  }

  // ---------------------------------------------------------------------
  // One pack: the loop
  // ---------------------------------------------------------------------

  /** The bytes of a pack. */
  function Pack(sha: Receipt -> Digest, receipts: seq<Receipt>): seq<byte>
    requires |receipts| < WORD * WORD && forall r :: r in receipts ==> |r| < WORD * WORD
  {
    PACK_MAGIC + U64(|receipts|) + (Records(sha, receipts) + PACK_END)
  }

  /** `raw` is the pack of these receipts. */
  predicate IsPack(sha: Receipt -> Digest, raw: seq<byte>, receipts: seq<Receipt>, seen: set<Digest>) {
    && |receipts| < WORD * WORD && Admissible(sha, receipts, seen)
    && (AdmissibleSizes(sha, receipts, seen); raw == Pack(sha, receipts))
  }

  predicate HeaderOf(raw: seq<byte>, size: nat) {
    |raw| >= 24 && raw[..16] == PACK_MAGIC && FromU64(raw[16..24]) == size
  }

  /** Reading a pack: the header, then the records. */
  function ReadPack(sha: Receipt -> Digest, raw: seq<byte>, size: nat, seen: set<Digest>): Option<seq<Receipt>> {
    if HeaderOf(raw, size) then Unpacked(sha, raw[24..], size, seen) else None
  }

  lemma PackSplits(sha: Receipt -> Digest, raw: seq<byte>, receipts: seq<Receipt>, seen: set<Digest>)
    requires |receipts| < WORD * WORD
    ensures IsPack(sha, raw, receipts, seen) <==> HeaderOf(raw, |receipts|) && Framed(sha, raw[24..], receipts, seen)
  {
    if Admissible(sha, receipts, seen) {
      AdmissibleSizes(sha, receipts, seen);
      var rest := Records(sha, receipts) + PACK_END;
      if HeaderOf(raw, |receipts|) {
        LongBytes(raw[16..24]);
        assert raw == raw[..16] + raw[16..24] + raw[24..];
      }
      if raw == PACK_MAGIC + U64(|receipts|) + rest {
        LongRoundTrip(|receipts|);
        assert raw[..16] == PACK_MAGIC && raw[16..24] == U64(|receipts|) && raw[24..] == rest;
      }
    }
  }

  /** The reader inverts the format it fixes, and accepts nothing else. */
  lemma PackExact(sha: Receipt -> Digest, raw: seq<byte>, size: nat, seen: set<Digest>, receipts: seq<Receipt>)
    requires size < WORD * WORD
    ensures ReadPack(sha, raw, size, seen) == Some(receipts) <==> |receipts| == size && IsPack(sha, raw, receipts, seen)
  {
    if HeaderOf(raw, size) {
      UnpackedIsFramed(sha, raw[24..], size, seen);
      if Unpacked(sha, raw[24..], size, seen) == Some(receipts) {
        PackSplits(sha, raw, receipts, seen);
      }
    }
    if |receipts| == size && IsPack(sha, raw, receipts, seen) {
      PackSplits(sha, raw, receipts, seen);
      FramedIsUnpacked(sha, raw[24..], seen, receipts);
    }
  }

  /** With `rest` unread and `n` records to come, the receipts read so far begin whatever the reader will return. */
  predicate Reading(sha: Receipt -> Digest, whole: Option<seq<Receipt>>, rest: seq<byte>, n: nat, seen: set<Digest>, receipts: seq<Receipt>) {
    Before(receipts, Unpacked(sha, rest, n, seen)) == whole
  }

  lemma ReadingStarts(sha: Receipt -> Digest, rest: seq<byte>, n: nat, seen: set<Digest>)
    ensures Reading(sha, Unpacked(sha, rest, n, seen), rest, n, seen, [])
  {
    var whole := Unpacked(sha, rest, n, seen);
    if whole.Some? {
      assert [] + whole.value == whole.value;
    }
  }

  lemma ReadingGoesOn(sha: Receipt -> Digest, whole: Option<seq<Receipt>>, rest: seq<byte>, n: nat, seen: set<Digest>, receipts: seq<Receipt>)
    requires Reading(sha, whole, rest, n, seen, receipts) && n > 0
    ensures var next := FirstRecord(sha, rest, seen);
            if next.None? then whole == None
            else Reading(sha, whole, rest[72 + |next.value|..], n - 1, seen + {sha(next.value)}, receipts + [next.value])
  {
    var next := FirstRecord(sha, rest, seen);
    if next.Some? {
      var more := Unpacked(sha, rest[72 + |next.value|..], n - 1, seen + {sha(next.value)});
      if more.Some? {
        assert receipts + ([next.value] + more.value) == receipts + [next.value] + more.value;
      }
    }
  }

  lemma ReadingEnds(sha: Receipt -> Digest, whole: Option<seq<Receipt>>, rest: seq<byte>, seen: set<Digest>, receipts: seq<Receipt>)
    requires Reading(sha, whole, rest, 0, seen, receipts)
    ensures whole == if rest == PACK_END then Some(receipts) else None
  {
    assert receipts + [] == receipts;
  }

  lemma DropTwice(raw: seq<byte>, i: nat, j: nat)
    requires i + j <= |raw|
    ensures raw[i..][j..] == raw[i + j..]
  {
  }

  /** The loop of `packed_seed_evidence` over one pack; the cursor never leaves the buffer. */
  method Unpack(sha: Receipt -> Digest, raw: seq<byte>, size: nat, before: set<Digest>)
    returns (r: Option<seq<Receipt>>, seen: set<Digest>)
    ensures r == ReadPack(sha, raw, size, before)
    ensures r.Some? ==> seen == before + Hashes(sha, r.value)
  {
    r, seen := None, before;
    if HeaderOf(raw, size) {
      r, seen := UnpackRecords(sha, raw, size, before);
    }
  }

  method UnpackRecords(sha: Receipt -> Digest, raw: seq<byte>, size: nat, before: set<Digest>)
    returns (r: Option<seq<Receipt>>, seen: set<Digest>)
    requires |raw| >= 24
    ensures r == Unpacked(sha, raw[24..], size, before)
    ensures r.Some? ==> seen == before + Hashes(sha, r.value)
  {
    seen := before;
    ghost var whole := Unpacked(sha, raw[24..], size, before);
    var offset: nat, receipts: seq<Receipt> := 24, [];
    ReadingStarts(sha, raw[24..], size, before);
    for k := 0 to size
      invariant offset <= |raw| && seen == before + Hashes(sha, receipts)
      invariant Reading(sha, whole, raw[offset..], size - k, seen, receipts)
    {
      ghost var rest := raw[offset..];
      ReadingGoesOn(sha, whole, rest, size - k, seen, receipts);
      var receipt := FirstRecord(sha, raw[offset..], seen);
      if receipt.None? {
        return None, seen;
      }
      var length := 72 + |receipt.value|;
      HashesMore(sha, receipts, receipt.value);
      DropTwice(raw, offset, length);
      offset := offset + length;
      assert raw[offset..] == rest[length..];
      receipts, seen := receipts + [receipt.value], seen + {sha(receipt.value)};
    }
    ReadingEnds(sha, whole, raw[offset..], seen, receipts);
    r := if raw[offset..] == PACK_END then Some(receipts) else None;
  }

  lemma {:induction false} HashesMore(sha: Receipt -> Digest, receipts: seq<Receipt>, receipt: Receipt)
    ensures Hashes(sha, receipts + [receipt]) == Hashes(sha, receipts) + {sha(receipt)}
  {
    if receipts != [] {
      HashesMore(sha, receipts[1..], receipt);
      assert (receipts + [receipt])[1..] == receipts[1..] + [receipt];
    }
  }
}
