/** The two-level content digest (APK Signature Scheme v2, "Integrity-protected
    Contents"): sections cut into 1 MiB chunks, each hashed from short reads. */
module ZipDigest {
  import opened Bytes
  import opened MachineInts
  import opened ZipRecords
  import opened ZipArchive

  const CHUNK: nat := 1048576

  /** SHA-256 is a parameter of everything below. */
  type Digest = s: seq<Byte> | |s| == 32 witness Le(0, 32)
  type Hash = seq<Byte> -> Digest

  /** AvbSHA256Ctx: the bytes fed so far. */
  class Sha256 {
    var fed: seq<Byte>

    constructor ()
      ensures fed == []
    {
      fed := [];
    }

    method Update(s: seq<Byte>)
      modifies this
      ensures fed == old(fed) + s
    {
      fed := fed + s;
    }
  }

  // ----- specification

  function ChunkDigest(h: Hash, s: seq<Byte>): Digest {
    h([0xa5] + Le(|s|, 4) + s)
  }

  /** The digests of the chunks of a section, one after another. */
  function SectionDigests(h: Hash, s: seq<Byte>): seq<Byte>
    decreases |s|
  {
    if s == [] then []
    else if |s| <= CHUNK then ChunkDigest(h, s)
    else ChunkDigest(h, s[..CHUNK]) + SectionDigests(h, s[CHUNK..])
  }

  function ChunkCount(s: seq<Byte>): nat {
    (|s| + CHUNK - 1) / CHUNK
  }

  /** The end record with its directory offset replaced. */
  function WithOffset(eocd: seq<Byte>, offset: nat): (r: seq<Byte>)
    requires |eocd| >= 20
    ensures |r| == |eocd|
  {
    eocd[..16] + Le(offset, 4) + eocd[20..]
  }

  /** What is hashed at the second level: the number of chunks and the chunk digests. */
  function TopInput(chunks: nat, data: seq<Byte>, directory: seq<Byte>, eocd: seq<Byte>): seq<Byte> {
    [0x5a] + Le(chunks, 4) + data + directory + eocd
  }

  function AllChunks(data: seq<Byte>, directory: seq<Byte>, eocd: seq<Byte>): nat {
    ChunkCount(data) + ChunkCount(directory) + ChunkCount(eocd)
  }

  function ApkInput(h: Hash, data: seq<Byte>, directory: seq<Byte>, eocd: seq<Byte>): seq<Byte> {
    TopInput(AllChunks(data, directory, eocd),
             SectionDigests(h, data), SectionDigests(h, directory), SectionDigests(h, eocd))
  }

  /** The content digest of the three sections. */
  function ApkDigest(h: Hash, data: seq<Byte>, directory: seq<Byte>, eocd: seq<Byte>): Digest {
    h(ApkInput(h, data, directory, eocd))
  }

  /** The count hashed up front is the number of chunk digests that follow. */
  lemma {:induction false} CountMatches(h: Hash, s: seq<Byte>)
    ensures |SectionDigests(h, s)| == 32 * ChunkCount(s)
    decreases |s|
  {
    if |s| > CHUNK {
      CountMatches(h, s[CHUNK..]);
      assert ChunkCount(s) == 1 + ChunkCount(s[CHUNK..]);
    }
  }

  // ----- what the digest covers, byte by byte

  /** Where chunk i of a section of this length ends. */
  function ChunkEnd(length: nat, i: nat): nat {
    Min(length, (i + 1) * CHUNK)
  }

  /** What is hashed for chunk i. */
  function ChunkInput(s: seq<Byte>, i: nat): seq<Byte>
    requires i < ChunkCount(s)
  {
    [0xa5] + Le(ChunkEnd(|s|, i) - i * CHUNK, 4) + s[i * CHUNK..ChunkEnd(|s|, i)]
  }

  /** Bytes 32 * i to 32 * i + 32 of the digests of a section are the hash of 0xa5, the
      length of chunk i in four bytes, and its bytes. */
  lemma {:induction false} DigestAt(h: Hash, s: seq<Byte>, i: nat)
    requires i < ChunkCount(s)
    ensures i * CHUNK < ChunkEnd(|s|, i) <= |s| && 32 * i + 32 <= |SectionDigests(h, s)|
    ensures SectionDigests(h, s)[32 * i..32 * i + 32] ==
            h([0xa5] + Le(ChunkEnd(|s|, i) - i * CHUNK, 4) + s[i * CHUNK..ChunkEnd(|s|, i)])
    decreases i
  {
    hide Le;
    CountMatches(h, s);
    if i == 0 {
      FirstDigest(h, s);
    } else {
      var t := s[CHUNK..];
      assert ChunkCount(s) == 1 + ChunkCount(t);
      DigestAt(h, t, i - 1);
      var lo, hi := (i - 1) * CHUNK, ChunkEnd(|t|, i - 1);
      assert lo + CHUNK == i * CHUNK && hi + CHUNK == ChunkEnd(|s|, i);
      assert t[lo..hi] == s[lo + CHUNK..hi + CHUNK];
      TailDigests(ChunkDigest(h, s[..CHUNK]), SectionDigests(h, t), i);
    }
  }

  lemma FirstDigest(h: Hash, s: seq<Byte>)
    requires s != []
    ensures |SectionDigests(h, s)| >= 32
    ensures SectionDigests(h, s)[..32] == h([0xa5] + Le(ChunkEnd(|s|, 0), 4) + s[..ChunkEnd(|s|, 0)])
  {
    hide Le;
    if |s| <= CHUNK {
      assert s[..|s|] == s;
    }
  }

  lemma TailDigests(first: Digest, rest: seq<Byte>, i: nat)
    requires 0 < i && 32 * i <= |rest|
    ensures (first + rest)[32 * i..32 * i + 32] == rest[32 * (i - 1)..32 * (i - 1) + 32]
  {
  }

  /** The number of MiB, a last partial one included. */
  function Mebibytes(length: nat): (n: nat)
    ensures 1048576 * n - 1048576 < length <= 1048576 * n
  {
    (length + 1048575) / 1048576
  }

  /** The content digest hashes 0x5a, the number of all chunks in four bytes, and the
      digests of the chunks of all three sections in order. */
  lemma ApkDigestIs(h: Hash, data: seq<Byte>, directory: seq<Byte>, eocd: seq<Byte>)
    ensures var chunks := Mebibytes(|data|) + Mebibytes(|directory|) + Mebibytes(|eocd|);
            ApkDigest(h, data, directory, eocd) ==
            h([0x5a] + Le(chunks, 4) + SectionDigests(h, data) + SectionDigests(h, directory) + SectionDigests(h, eocd))
  {
    hide Le, SectionDigests, AllChunks, Mebibytes;
    AllChunksIs(data, directory, eocd);
  }

  lemma AllChunksIs(data: seq<Byte>, directory: seq<Byte>, eocd: seq<Byte>)
    ensures AllChunks(data, directory, eocd) == Mebibytes(|data|) + Mebibytes(|directory|) + Mebibytes(|eocd|)
  {
    hide Mebibytes, ChunkCount;
    ChunkCountIs(data);
    ChunkCountIs(directory);
    ChunkCountIs(eocd);
  }

  lemma ChunkCountIs(s: seq<Byte>)
    ensures ChunkCount(s) == Mebibytes(|s|)
  {
  }

  // ----- tampering

  /** Two inputs that differ and hash alike. */
  predicate Collide(h: Hash, u: seq<Byte>, v: seq<Byte>) {
    u != v && h(u) == h(v)
  }

  /** Some chunk of the one section and the same chunk of the other. */
  ghost predicate ChunksCollide(h: Hash, s: seq<Byte>, t: seq<Byte>) {
    exists i :: 0 <= i < ChunkCount(s) && i < ChunkCount(t) && Collide(h, ChunkInput(s, i), ChunkInput(t, i))
  }

  /** The sections are equal, or the hash collides on a chunk of theirs. */
  ghost predicate Intact(h: Hash, s: seq<Byte>, t: seq<Byte>) {
    s == t || ChunksCollide(h, s, t)
  }

  /** Sections with as many chunks and the same digests are equal, unless the hash collides
      on a chunk of theirs. */
  lemma SectionTamper(h: Hash, s: seq<Byte>, t: seq<Byte>)
    requires ChunkCount(s) == ChunkCount(t) && SectionDigests(h, s) == SectionDigests(h, t)
    ensures Intact(h, s, t)
  {
    if !ChunksCollide(h, s, t) {
      forall i | 0 <= i < ChunkCount(s)
        ensures ChunkInput(s, i) == ChunkInput(t, i)
      {
        DigestAt(h, s, i);
        DigestAt(h, t, i);
        assert !Collide(h, ChunkInput(s, i), ChunkInput(t, i));
      }
      SameChunks(s, t);
    }
  }

  lemma SameChunks(s: seq<Byte>, t: seq<Byte>)
    requires ChunkCount(s) == ChunkCount(t)
    requires forall i :: 0 <= i < ChunkCount(s) ==> ChunkInput(s, i) == ChunkInput(t, i)
    ensures s == t
  {
    hide Le;
    var n := ChunkCount(s);
    if n > 0 {
      assert |ChunkInput(s, n - 1)| == |ChunkInput(t, n - 1)|;
      assert |s| == |t|;
      forall p | 0 <= p < |s|
        ensures s[p] == t[p]
      {
        var i := p / CHUNK;
        assert i < n;
        assert s[p] == ChunkInput(s, i)[5 + p - i * CHUNK];
        assert t[p] == ChunkInput(t, i)[5 + p - i * CHUNK];
      }
    }
  }

  /** Archives with as many chunks in each section and the same content digest have the same
      sections, unless the hash collides on the inputs named. */
  lemma ContentTamper(h: Hash, data: seq<Byte>, directory: seq<Byte>, eocd: seq<Byte>,
                      data2: seq<Byte>, directory2: seq<Byte>, eocd2: seq<Byte>)
    requires ChunkCount(data) == ChunkCount(data2) && ChunkCount(directory) == ChunkCount(directory2)
    requires ChunkCount(eocd) == ChunkCount(eocd2)
    requires ApkDigest(h, data, directory, eocd) == ApkDigest(h, data2, directory2, eocd2)
    ensures || (Intact(h, data, data2) && Intact(h, directory, directory2) && Intact(h, eocd, eocd2))
            || Collide(h, ApkInput(h, data, directory, eocd), ApkInput(h, data2, directory2, eocd2))
  {
    hide ApkInput, Intact, ChunkCount, SectionDigests;
    if ApkInput(h, data, directory, eocd) == ApkInput(h, data2, directory2, eocd2) {
      SameInputs(h, data, directory, eocd, data2, directory2, eocd2);
    }
  }

  lemma SameInputs(h: Hash, data: seq<Byte>, directory: seq<Byte>, eocd: seq<Byte>,
                   data2: seq<Byte>, directory2: seq<Byte>, eocd2: seq<Byte>)
    requires ChunkCount(data) == ChunkCount(data2) && ChunkCount(directory) == ChunkCount(directory2)
    requires ChunkCount(eocd) == ChunkCount(eocd2)
    requires ApkInput(h, data, directory, eocd) == ApkInput(h, data2, directory2, eocd2)
    ensures Intact(h, data, data2) && Intact(h, directory, directory2) && Intact(h, eocd, eocd2)
  {
    hide TopInput, SectionDigests, ChunkCount, Intact;
    SameCounts(h, data, data2);
    SameCounts(h, directory, directory2);
    SameCounts(h, eocd, eocd2);
    SameParts(AllChunks(data, directory, eocd),
              SectionDigests(h, data), SectionDigests(h, directory), SectionDigests(h, eocd),
              SectionDigests(h, data2), SectionDigests(h, directory2), SectionDigests(h, eocd2));
  }

  lemma SameCounts(h: Hash, s: seq<Byte>, t: seq<Byte>)
    requires ChunkCount(s) == ChunkCount(t)
    ensures |SectionDigests(h, s)| == |SectionDigests(h, t)|
    ensures SectionDigests(h, s) == SectionDigests(h, t) ==> Intact(h, s, t)
  {
    CountMatches(h, s);
    CountMatches(h, t);
    if SectionDigests(h, s) == SectionDigests(h, t) {
      SectionTamper(h, s, t);
    }
  }

  lemma SameParts(n: nat, a: seq<Byte>, b: seq<Byte>, c: seq<Byte>, a2: seq<Byte>, b2: seq<Byte>, c2: seq<Byte>)
    requires |a| == |a2| && |b| == |b2| && TopInput(n, a, b, c) == TopInput(n, a2, b2, c2)
    ensures a == a2 && b == b2 && c == c2
  {
    hide Le;
    var s, t := TopInput(n, a, b, c), TopInput(n, a2, b2, c2);
    var i, j := 5 + |a|, 5 + |a| + |b|;
    assert s[5..i] == a && s[i..j] == b && s[j..] == c;
    assert t[5..i] == a2 && t[i..j] == b2 && t[j..] == c2;
  }

  // ----- chunk geometry

  /** `calc_chunk_count`, in unsigned 32 bit arithmetic. */
  function CalcChunkCount(length: nat): nat {
    U32Wrap(length + CHUNK - 1) / CHUNK
  }

  /** Offset of chunk i: an `int` product, wrapped to 32 bits where C leaves overflow undefined. */
  function ChunkOffset(i: nat): int {
    Int32(i * CHUNK)
  }

  function ChunkLength(length: nat, i: nat): int {
    if length - i * CHUNK > CHUNK then CHUNK else length - i * CHUNK
  }

  /** The chunks of a block are contiguous, non-empty, at most 1 MiB and cover it. */
  predicate ChunksTile(length: nat) {
    var n := CalcChunkCount(length);
    && (forall i :: 0 <= i < n ==> ChunkOffset(i) == i * CHUNK && 0 < ChunkLength(length, i) <= CHUNK)
    && (forall i :: 0 <= i < n - 1 ==> ChunkOffset(i) + ChunkLength(length, i) == ChunkOffset(i + 1))
    && (if n == 0 then length == 0 else ChunkOffset(n - 1) + ChunkLength(length, n - 1) == length)
  }

  /** That holds for blocks of up to 2 GiB and for no larger one. */
  lemma TilesUpTo2GiB(length: nat)
    requires length < 0x1_0000_0000
    ensures ChunksTile(length) <==> length <= 0x8000_0000
  {
    var n := CalcChunkCount(length);
    if length <= 0x8000_0000 {
      forall i | 0 <= i < n
        ensures ChunkOffset(i) == i * CHUNK && 0 < ChunkLength(length, i) <= CHUNK
      {
        assert i <= 2047;
      }
    } else if length <= 0x1_0000_0000 - CHUNK {
      assert n > 2048;
      assert ChunkOffset(2048) != 2048 * CHUNK;
    } else {
      assert n == 0;
    }
  }

  /** The block can be hashed without overflow of the chunk offset. */
  predicate NoOverflow(length: nat) {
    CalcChunkCount(length) <= 2048
  }

  /** Those are the blocks of up to 2 GiB, and the largest ones, whose count wraps to 0. */
  lemma NoOverflowIs(length: nat)
    requires length < 0x1_0000_0000
    ensures NoOverflow(length) <==> length <= 0x8000_0000 || length > 0x1_0000_0000 - CHUNK
    ensures length > 0x1_0000_0000 - CHUNK ==> CalcChunkCount(length) == 0
    ensures length <= 0x8000_0000 ==>
              var n := CalcChunkCount(length);
              (n == 0 <==> length == 0) && (n > 0 ==> (n - 1) * CHUNK < length <= n * CHUNK)
  {
  }

  /** A directory offset behind the end record wraps the length of the directory; no chunk
      of it is counted or hashed exactly when it lies less than 1 MiB behind. */
  lemma WrappedDirectory(eocd: nat, directory: nat)
    requires eocd < directory < 0x1_0000_0000
    ensures U32Wrap(eocd - directory) == 0x1_0000_0000 - (directory - eocd)
    ensures CalcChunkCount(U32Wrap(eocd - directory)) == 0 <==> directory - eocd < CHUNK
  {
    assert U32Wrap(eocd - directory) == 0x1_0000_0000 - (directory - eocd);
  }

  // ----- the reads of a chunk

  datatype Outcome = Outcome(ok: bool, count: nat)

  /** Reading n bytes from `pos` on with a buffer of `bufLen`, starting with the k-th read
      of the schedule: whether all arrive, and how many reads have then been made. */
  function ReadChunk(env: Reads, size: nat, bufLen: nat, pos: nat, n: nat, k: nat): (o: Outcome)
    ensures o.count >= k
    ensures o.ok && n > 0 ==> pos + n <= size && o.count > k
    decreases n
  {
    if n == 0 then Outcome(true, k)
    else
      var r := Delivered(env(k), Min(n, bufLen), pos, size);
      if r <= 0 then Outcome(false, k + 1) else ReadChunk(env, size, bufLen, pos + r, n - r, k + 1)
  }

  lemma ReadStep(env: Reads, size: nat, bufLen: nat, pos: nat, n: nat, k: nat)
    ensures var r := Delivered(env(k), Min(n, bufLen), pos, size);
            ReadChunk(env, size, bufLen, pos, n, k) ==
            if n == 0 then Outcome(true, k)
            else if r <= 0 then Outcome(false, k + 1)
            else ReadChunk(env, size, bufLen, pos + r, n - r, k + 1)
  {
  }

  /** Without a failure every chunk inside the file is read. */
  lemma {:induction false} ChunkArrives(env: Reads, size: nat, bufLen: nat, pos: nat, n: nat, k: nat)
    requires NoFailureFrom(env, k) && bufLen > 0 && (n > 0 ==> pos + n <= size)
    ensures ReadChunk(env, size, bufLen, pos, n, k).ok
    decreases n
  {
    if n > 0 {
      var r := Delivered(env(k), Min(n, bufLen), pos, size);
      assert r > 0;
      ChunkArrives(env, size, bufLen, pos + r, n - r, k + 1);
    }
  }

  /** `md_one_chunk`: the digest of the region, whatever the buffer size and however the
      reads are cut; it fails when they do not all deliver something. */
  method MdOneChunk(h: Hash, fd: File, block: Block, bufLen: nat) returns (res: int, output: seq<Byte>)
    requires block.length > 0
    modifies fd
    ensures var o := ReadChunk(fd.env, |fd.bytes|, bufLen, block.data, block.length, old(fd.count));
            && res == (if o.ok then 0 else -1) && fd.count == o.count
            && (o.ok ==> output == h([0xa5] + Le(block.length, 4) + fd.bytes[block.data..End(block)]))
  {
    hide Delivered, Le, ReadChunk;
    var sum := 0;
    var ctx := new Sha256();
    ctx.Update([0xa5]);
    ctx.Update(Le(block.length, 4));
    var _ := fd.Lseek(block.data, false);
    ghost var o := ReadChunk(fd.env, |fd.bytes|, bufLen, block.data, block.length, fd.count);
    while sum < block.length
      invariant sum <= block.length && fd.pos == block.data + sum
      invariant sum > 0 ==> fd.pos <= |fd.bytes|
      invariant sum > 0 ==> ctx.fed == [0xa5] + Le(block.length, 4) + fd.bytes[block.data..fd.pos]
      invariant sum == 0 ==> ctx.fed == [0xa5] + Le(block.length, 4)
      invariant o == ReadChunk(fd.env, |fd.bytes|, bufLen, fd.pos, block.length - sum, fd.count)
      decreases block.length - sum
    {
      ReadStep(fd.env, |fd.bytes|, bufLen, fd.pos, block.length - sum, fd.count);
      var readLen := block.length - sum;
      if readLen > bufLen {
        readLen := bufLen;
      }
      var r, got := fd.Read(readLen);
      if r <= 0 {
        return -1, [];
      }
      ghost var before := sum;
      sum := sum + r;
      ctx.Update(got);
      assert before > 0 ==>
        fd.bytes[block.data..block.data + before] + got == fd.bytes[block.data..fd.pos];
    }
    ReadStep(fd.env, |fd.bytes|, bufLen, fd.pos, 0, fd.count);
    output := h(ctx.fed);
    res := 0;
  }

  /** Contents of a region, empty when it has no length. */
  function Region(bytes: seq<Byte>, b: Block): seq<Byte>
    requires Inside(bytes, b)
  {
    if b.length == 0 then [] else bytes[b.data..End(b)]
  }

  predicate Inside(bytes: seq<Byte>, b: Block) {
    b.length > 0 ==> End(b) <= |bytes|
  }

  lemma SectionStep(h: Hash, bytes: seq<Byte>, b: Block)
    requires b.length > 0 && Inside(bytes, b)
    ensures var n := Min(b.length, CHUNK);
            SectionDigests(h, Region(bytes, b)) ==
            ChunkDigest(h, bytes[b.data..b.data + n])
            + SectionDigests(h, Region(bytes, Block(b.data + n, b.length - n)))
  {
    var s := Region(bytes, b);
    if b.length > CHUNK {
      assert s[..CHUNK] == bytes[b.data..b.data + CHUNK];
      assert s[CHUNK..] == bytes[b.data + CHUNK..End(b)];
    }
  }

  /** What hashing a block feeds, whether that is all of it, and how many reads have then
      been made. */
  datatype Fed = Fed(ok: bool, sent: seq<Byte>, count: nat)

  /** The digests of the chunks of a block up to the first one that cannot be read. */
  function FeedChunks(h: Hash, env: Reads, bytes: seq<Byte>, bufLen: nat, b: Block, k: nat): (r: Fed)
    ensures r.count >= k
    decreases b.length
  {
    if b.length == 0 then Fed(true, [], k)
    else
      var n := Min(b.length, CHUNK);
      var o := ReadChunk(env, |bytes|, bufLen, b.data, n, k);
      if !o.ok then Fed(false, [], o.count)
      else
        var rest := FeedChunks(h, env, bytes, bufLen, Block(b.data + n, b.length - n), o.count);
        rest.(sent := ChunkDigest(h, bytes[b.data..b.data + n]) + rest.sent)
  }

  /** Nothing is fed of a block whose chunk count has wrapped to 0. */
  function Feed(h: Hash, env: Reads, bytes: seq<Byte>, bufLen: nat, b: Block, k: nat): (r: Fed)
    ensures r.count >= k
  {
    if b.length > 0x8000_0000 then Fed(true, [], k) else FeedChunks(h, env, bytes, bufLen, b, k)
  }

  lemma FeedStep(h: Hash, env: Reads, bytes: seq<Byte>, bufLen: nat, b: Block, k: nat)
    ensures FeedChunks(h, env, bytes, bufLen, b, k) ==
            if b.length == 0 then Fed(true, [], k)
            else
              var n := Min(b.length, CHUNK);
              var o := ReadChunk(env, |bytes|, bufLen, b.data, n, k);
              if !o.ok then Fed(false, [], o.count)
              else
                var rest := FeedChunks(h, env, bytes, bufLen, Block(b.data + n, b.length - n), o.count);
                Behind(ChunkDigest(h, bytes[b.data..b.data + n]), rest)
  {
  }

  /** What was fed after something else. */
  function Behind(before: seq<Byte>, fed: Fed): Fed {
    fed.(sent := before + fed.sent)
  }

  lemma BehindTwo(a: seq<Byte>, b: seq<Byte>, fed: Fed)
    ensures Behind(a, Behind(b, fed)) == Behind(a + b, fed)
  {
    Assoc(a, b, fed.sent);
  }

  lemma BehindNothing(fed: Fed)
    ensures Behind([], fed) == fed
  {
    assert [] + fed.sent == fed.sent;
  }

  lemma NothingBehind(sent: seq<Byte>, ok: bool, k: nat)
    ensures Behind(sent, Fed(ok, [], k)) == Fed(ok, sent, k)
  {
    assert sent + [] == sent;
  }

  lemma DigestOf(h: Hash, bytes: seq<Byte>, data: nat, n: nat)
    requires data + n <= |bytes|
    ensures ChunkDigest(h, bytes[data..data + n]) == h([0xa5] + Le(n, 4) + bytes[data..data + n])
  {
  }

  /** `md_file_block`, for every block whose chunk offsets fit an `int`. */
  method MdFileBlock(h: Hash, ctx: Sha256, fd: File, block: Block, bufLen: nat) returns (res: int)
    requires block.length < 0x1_0000_0000 && NoOverflow(block.length)
    modifies ctx, fd
    ensures var fed := Feed(h, fd.env, fd.bytes, bufLen, block, old(fd.count));
            && res == (if fed.ok then 0 else -1) && fd.count == fed.count
            && ctx.fed == old(ctx.fed) + fed.sent
  {
    hide ChunkDigest, CalcChunkCount, ReadChunk, FeedChunks, Delivered, Behind, Le;
    var length := block.length;
    var cnt := CalcChunkCount(block.length);
    NoOverflowIs(block.length);
    ghost var rest := block;
    ghost var sent := [];
    ghost var goal := Feed(h, fd.env, fd.bytes, bufLen, block, fd.count);
    BehindNothing(goal);
    if block.length == 0 {
      FeedStep(h, fd.env, fd.bytes, bufLen, block, fd.count);
    }
    var i := 0;
    while i < cnt
      invariant 0 <= i <= cnt && block.data <= rest.data && End(rest) == End(block)
      invariant i < cnt ==> rest.data == block.data + i * CHUNK && length == rest.length > 0
      invariant i == cnt ==> rest.length == 0 || cnt == 0
      invariant ctx.fed == old(ctx.fed) + sent
      invariant goal == Behind(sent, if cnt == 0 then Fed(true, [], fd.count)
                                     else FeedChunks(h, fd.env, fd.bytes, bufLen, rest, fd.count))
    {
      var start := block.data + i * CHUNK;
      var chunkLen;
      if length > CHUNK {
        chunkLen := CHUNK;
        length := length - CHUNK;
      } else {
        chunkLen := length;
      }
      FeedStep(h, fd.env, fd.bytes, bufLen, rest, fd.count);
      var md;
      res, md := MdOneChunk(h, fd, Block(start, chunkLen), bufLen);
      if res != 0 {
        NothingBehind(sent, false, fd.count);
        return;
      }
      DigestOf(h, fd.bytes, start, chunkLen);
      ghost var next := Block(rest.data + chunkLen, rest.length - chunkLen);
      BehindTwo(sent, md, FeedChunks(h, fd.env, fd.bytes, bufLen, next, fd.count));
      Assoc(old(ctx.fed), sent, md);
      ctx.Update(md);
      sent := sent + md;
      rest := next;
      i := i + 1;
    }
    if rest.length == 0 {
      FeedStep(h, fd.env, fd.bytes, bufLen, rest, fd.count);
    }
    NothingBehind(sent, true, fd.count);
    res := 0;
  }

  // ----- what is fed of a block

  /** Any number of the chunk digests of a section, from the first one on. */
  predicate SomeChunks(h: Hash, s: seq<Byte>, fed: seq<Byte>) {
    fed <= SectionDigests(h, s) && |fed| % 32 == 0
  }

  /** Under any schedule: chunk digests of the block from the first one on, and all of them
      when the result says so, which it does when no read fails. */
  lemma {:induction false} FedChunks(h: Hash, env: Reads, bytes: seq<Byte>, bufLen: nat, b: Block, k: nat)
    requires Inside(bytes, b)
    ensures var r := FeedChunks(h, env, bytes, bufLen, b, k);
            && SomeChunks(h, Region(bytes, b), r.sent)
            && (r.ok ==> r.sent == SectionDigests(h, Region(bytes, b)))
            && (bufLen > 0 && NoFailureFrom(env, k) ==> r.ok)
    decreases b.length
  {
    hide SectionDigests, ChunkDigest, Region, ReadChunk;
    if b.length == 0 {
      NoSection(h, bytes, b);
    } else {
      var n := Min(b.length, CHUNK);
      var o := ReadChunk(env, |bytes|, bufLen, b.data, n, k);
      var next := Block(b.data + n, b.length - n);
      SectionStep(h, bytes, b);
      if o.ok {
        FedChunks(h, env, bytes, bufLen, next, o.count);
        Onto(ChunkDigest(h, bytes[b.data..b.data + n]), FeedChunks(h, env, bytes, bufLen, next, o.count).sent,
             SectionDigests(h, Region(bytes, next)));
      }
      if bufLen > 0 && NoFailureFrom(env, k) {
        ChunkArrives(env, |bytes|, bufLen, b.data, n, k);
      }
    }
  }

  lemma Onto(md: seq<Byte>, fed: seq<Byte>, all: seq<Byte>)
    requires fed <= all
    ensures md + fed <= md + all
  {
  }

  lemma NoSection(h: Hash, bytes: seq<Byte>, b: Block)
    requires b.length == 0
    ensures SectionDigests(h, Region(bytes, b)) == []
  {
  }

  /** When the first read of a block fails, nothing is fed. */
  lemma FirstReadFeedsNothing(h: Hash, env: Reads, bytes: seq<Byte>, bufLen: nat, b: Block, k: nat)
    requires 0 < b.length && env(k) < 0
    ensures FeedChunks(h, env, bytes, bufLen, b, k) == Fed(false, [], k + 1)
  {
  }

  // ----- hashing an archive

  /** The end record with its directory offset set to the start of the signing block. */
  function UnsignedEocd(bytes: seq<Byte>, app: AppBlock): seq<Byte>
    requires End(app.eocd) <= |bytes| && app.eocd.length >= 22
  {
    WithOffset(bytes[app.eocd.data..End(app.eocd)], app.data.length)
  }

  lemma CutRecord(bytes: seq<Byte>, from: nat, to: nat)
    requires from + 20 <= to <= |bytes|
    ensures bytes[from..to][..16] == bytes[from..from + 16] && bytes[from..to][20..] == bytes[from + 20..to]
  {
  }

  /** The end record, read in one go and hashed as a single chunk with its directory
      offset replaced. Anything but its length as result is an error. A position of
      2 GiB or more is refused with that position cut to 32 bits as result. */
  method HashEocd(h: Hash, fd: File, app: AppBlock) returns (ok: bool, res: int, md: seq<Byte>)
    requires 22 <= app.eocd.length <= 65557
    modifies fd
    ensures app.eocd.data >= 0x8000_0000 ==> !ok && res == Int32(app.eocd.data)
    ensures app.eocd.data < 0x8000_0000 ==>
              && res == Delivered(fd.env(old(fd.count)), app.eocd.length, app.eocd.data, |fd.bytes|)
              && (ok <==> res == app.eocd.length)
    ensures ok ==>
              && End(app.eocd) <= |fd.bytes|
              && var e := app.eocd.data;
              && md == h([0xa5] + Le(app.eocd.length, 4)
                         + (fd.bytes[e..e + 16] + Le(app.data.length, 4) + fd.bytes[e + 20..End(app.eocd)]))
              && md == ChunkDigest(h, UnsignedEocd(fd.bytes, app))
  {
    hide Le;
    ok, md := false, [];
    var eocdCtx := new Sha256();
    res := fd.Lseek(app.eocd.data, false);
    res := Int32(res);
    if res != app.eocd.data {
      return;
    }
    var buf;
    res, buf := fd.Read(app.eocd.length);
    if res != app.eocd.length {
      return;
    }
    ghost var record := buf;
    buf := buf[..16] + Le(app.data.length, 4) + buf[20..];
    eocdCtx.Update([0xa5]);
    eocdCtx.Update(Le(app.eocd.length, 4));
    eocdCtx.Update(buf);
    ok, md := true, h(eocdCtx.fed);
    assert eocdCtx.fed == [0xa5] + Le(|buf|, 4) + buf;
    CutRecord(fd.bytes, app.eocd.data, End(app.eocd));
    assert record == fd.bytes[app.eocd.data..End(app.eocd)];
  }

  function Counted(app: AppBlock): nat {
    CalcChunkCount(app.data.length) + CalcChunkCount(app.directory.length) + CalcChunkCount(app.eocd.length)
  }

  function FedData(h: Hash, env: Reads, bytes: seq<Byte>, app: AppBlock, bufLen: nat): Fed {
    Feed(h, env, bytes, bufLen, app.data, 0)
  }

  function FedDirectory(h: Hash, env: Reads, bytes: seq<Byte>, app: AppBlock, bufLen: nat): Fed {
    Feed(h, env, bytes, bufLen, app.directory, FedData(h, env, bytes, app, bufLen).count)
  }

  /** Which read of the schedule is that of the end record. */
  function EocdRead(h: Hash, env: Reads, bytes: seq<Byte>, app: AppBlock, bufLen: nat): nat {
    FedDirectory(h, env, bytes, app, bufLen).count
  }

  /** How much of the end record that read delivers. */
  function EocdDelivered(h: Hash, env: Reads, bytes: seq<Byte>, app: AppBlock, bufLen: nat): int {
    Delivered(env(EocdRead(h, env, bytes, app, bufLen)), app.eocd.length, app.eocd.data, |bytes|)
  }

  /** Which digests are accepted, for any regions and under any schedule. */
  predicate DigestAccepted(h: Hash, env: Reads, bytes: seq<Byte>, app: AppBlock, digest: seq<Byte>, bufLen: nat)
    requires app.eocd.length >= 22
  {
    if app.eocd.data >= 0x8000_0000 then app.eocd.data % 0x1_0000_0000 == 0
    else
      var got := EocdDelivered(h, env, bytes, app, bufLen);
      || got == 0
      || (got == app.eocd.length
          && digest == h(TopInput(Counted(app), FedData(h, env, bytes, app, bufLen).sent,
                                  FedDirectory(h, env, bytes, app, bufLen).sent,
                                  ChunkDigest(h, UnsignedEocd(bytes, app)))))
  }

  /** `verify_digest`. The results of hashing the first two sections are not looked at, and
      that of a refused or empty read of the end record is returned as it is. */
  method VerifyDigest(h: Hash, bytes: seq<Byte>, app: AppBlock, digest: seq<Byte>, bufLen: nat, env: Reads)
    returns (res: int)
    requires |digest| >= 32
    requires app.data.length < 0x1_0000_0000 && NoOverflow(app.data.length)
    requires app.directory.length < 0x1_0000_0000 && NoOverflow(app.directory.length)
    requires 22 <= app.eocd.length <= 65557
    ensures res == 0 <==> DigestAccepted(h, env, bytes, app, digest[..32], bufLen)
  {
    hide SectionDigests, ChunkDigest, Le, Region, CalcChunkCount, UnsignedEocd, Feed, Delivered;
    res := -1;
    var chunkCount := 0;
    var ctx := new Sha256();
    var fd := new File(bytes, env);
    chunkCount := chunkCount + CalcChunkCount(app.data.length);
    chunkCount := chunkCount + CalcChunkCount(app.directory.length);
    chunkCount := chunkCount + CalcChunkCount(app.eocd.length);
    ctx.Update([0x5a]);
    ctx.Update(Le(chunkCount, 4));

    var _ := MdFileBlock(h, ctx, fd, app.data, bufLen);
    var _ := MdFileBlock(h, ctx, fd, app.directory, bufLen);
    var ok, md;
    ok, res, md := HashEocd(h, fd, app);
    if !ok {
      return;
    }
    ctx.Update(md);
    var final := h(ctx.fed);
    res := if digest[..32] == final then 0 else 1;
    assert ctx.fed == TopInput(Counted(app), FedData(h, env, bytes, app, bufLen).sent,
                               FedDirectory(h, env, bytes, app, bufLen).sent, md);
  }

  // ----- what is accepted

  /** All regions lie inside the file, and the sections have at most 2 GiB. */
  predicate Covered(bytes: seq<Byte>, app: AppBlock) {
    && End(app.data) <= |bytes| && End(app.directory) <= |bytes| && End(app.eocd) <= |bytes|
    && app.data.length <= 0x8000_0000 && app.directory.length <= 0x8000_0000 && 22 <= app.eocd.length <= 65557
  }

  /** The specified digest of the archive. */
  function ContentDigest(h: Hash, bytes: seq<Byte>, app: AppBlock): Digest
    requires Covered(bytes, app)
  {
    ApkDigest(h, Region(bytes, app.data), Region(bytes, app.directory), UnsignedEocd(bytes, app))
  }

  lemma CountsAgree(h: Hash, bytes: seq<Byte>, app: AppBlock)
    requires Covered(bytes, app)
    ensures var eocd := UnsignedEocd(bytes, app);
            && CalcChunkCount(app.data.length) == ChunkCount(Region(bytes, app.data))
            && CalcChunkCount(app.directory.length) == ChunkCount(Region(bytes, app.directory))
            && CalcChunkCount(app.eocd.length) == ChunkCount(eocd) == 1
            && SectionDigests(h, eocd) == ChunkDigest(h, eocd)
  {
  }

  /** When no read fails, whatever the buffer size and however the reads are cut, exactly
      the specified digest is accepted, provided the one read of the end record was not cut. */
  lemma ExactDigest(h: Hash, env: Reads, bytes: seq<Byte>, app: AppBlock, digest: seq<Byte>, bufLen: nat)
    requires Covered(bytes, app) && app.eocd.data < 0x8000_0000 && NoFailure(env) && bufLen > 0
    ensures DigestAccepted(h, env, bytes, app, digest, bufLen) <==>
              && env(EocdRead(h, env, bytes, app, bufLen)) >= app.eocd.length
              && digest == ContentDigest(h, bytes, app)
  {
    hide SectionDigests, ChunkDigest, Region, CalcChunkCount, UnsignedEocd, ChunkCount, FeedChunks, TopInput;
    FedChunks(h, env, bytes, bufLen, app.data, 0);
    FedChunks(h, env, bytes, bufLen, app.directory, FedData(h, env, bytes, app, bufLen).count);
    CountsAgree(h, bytes, app);
  }

  /** The digest of the archive with chunk digests missing at the end of the first two
      sections. */
  ghost predicate PartialDigest(h: Hash, bytes: seq<Byte>, app: AppBlock, digest: seq<Byte>)
    requires Covered(bytes, app)
  {
    exists data, directory ::
      && SomeChunks(h, Region(bytes, app.data), data) && SomeChunks(h, Region(bytes, app.directory), directory)
      && digest == h(TopInput(
                       AllChunks(Region(bytes, app.data), Region(bytes, app.directory), UnsignedEocd(bytes, app)),
                       data, directory, SectionDigests(h, UnsignedEocd(bytes, app))))
  }

  /** Under every schedule nothing worse is accepted. */
  lemma OnlyPartialDigests(h: Hash, env: Reads, bytes: seq<Byte>, app: AppBlock, digest: seq<Byte>, bufLen: nat)
    requires Covered(bytes, app) && app.eocd.data < 0x8000_0000
    requires DigestAccepted(h, env, bytes, app, digest, bufLen)
    ensures PartialDigest(h, bytes, app, digest)
  {
    hide SectionDigests, ChunkDigest, Region, CalcChunkCount, UnsignedEocd, ChunkCount, FeedChunks, TopInput,
         SomeChunks;
    var data, directory := FedData(h, env, bytes, app, bufLen), FedDirectory(h, env, bytes, app, bufLen);
    FedChunks(h, env, bytes, bufLen, app.data, 0);
    FedChunks(h, env, bytes, bufLen, app.directory, data.count);
    CountsAgree(h, bytes, app);
    assert SomeChunks(h, Region(bytes, app.data), data.sent)
           && SomeChunks(h, Region(bytes, app.directory), directory.sent);
  }

  /** The digest accepted when the first read of the data section fails. */
  function DigestWithoutData(h: Hash, data: seq<Byte>, directory: seq<Byte>, eocd: seq<Byte>): Digest {
    h(TopInput(AllChunks(data, directory, eocd), [], SectionDigests(h, directory), SectionDigests(h, eocd)))
  }

  /** When the first read fails and no other does, exactly the digest without the chunks of
      the data section is accepted. */
  lemma DataNotRead(h: Hash, env: Reads, bytes: seq<Byte>, app: AppBlock, digest: seq<Byte>, bufLen: nat)
    requires Covered(bytes, app) && app.eocd.data < 0x8000_0000 && app.data.length > 0 && bufLen > 0
    requires env(0) < 0 && NoFailureFrom(env, 1)
    ensures DigestAccepted(h, env, bytes, app, digest, bufLen) <==>
              && env(EocdRead(h, env, bytes, app, bufLen)) >= app.eocd.length
              && digest == DigestWithoutData(h, Region(bytes, app.data), Region(bytes, app.directory),
                                             UnsignedEocd(bytes, app))
  {
    hide SectionDigests, ChunkDigest, Region, CalcChunkCount, UnsignedEocd, ChunkCount, FeedChunks, TopInput;
    FirstReadFeedsNothing(h, env, bytes, bufLen, app.data, 0);
    FedChunks(h, env, bytes, bufLen, app.directory, 1);
    CountsAgree(h, bytes, app);
  }

  /** That digest hashes something other than the specified input, and it is the same
      for all data sections with as many chunks. */
  lemma DataIsOmitted(h: Hash, data: seq<Byte>, other: seq<Byte>, directory: seq<Byte>, eocd: seq<Byte>)
    requires data != []
    ensures TopInput(AllChunks(data, directory, eocd), [], SectionDigests(h, directory), SectionDigests(h, eocd))
            != TopInput(AllChunks(data, directory, eocd), SectionDigests(h, data), SectionDigests(h, directory),
                        SectionDigests(h, eocd))
    ensures ChunkCount(other) == ChunkCount(data) ==>
              DigestWithoutData(h, other, directory, eocd) == DigestWithoutData(h, data, directory, eocd)
  {
    hide Le, SectionDigests;
    CountMatches(h, data);
    assert ChunkCount(data) > 0;
    hide ChunkCount;
  }

  /** When every digest is accepted: exactly when the end record starts at a multiple of
      4 GiB, or at or past the end of a file and its read does not fail. */
  lemma UncheckedDigest(h: Hash, env: Reads, bytes: seq<Byte>, app: AppBlock, bufLen: nat)
    requires app.eocd.length >= 22
    ensures (forall digest: Digest :: DigestAccepted(h, env, bytes, app, digest, bufLen)) <==>
              if app.eocd.data >= 0x8000_0000 then app.eocd.data % 0x1_0000_0000 == 0
              else app.eocd.data >= |bytes| && env(EocdRead(h, env, bytes, app, bufLen)) >= 0
  {
    hide EocdRead, TopInput, ChunkDigest, FedData, FedDirectory, UnsignedEocd;
    var zero: Digest := Le(0, 32);
    var one: Digest := Le(1, 32);
    assert zero[0] == 0 && one[0] == 1;
    assert EocdDelivered(h, env, bytes, app, bufLen) == 0 <==>
             app.eocd.data >= |bytes| && env(EocdRead(h, env, bytes, app, bufLen)) >= 0;
    hide EocdDelivered;
    if app.eocd.data >= 0x8000_0000 || EocdDelivered(h, env, bytes, app, bufLen) != 0 {
      assert DigestAccepted(h, env, bytes, app, zero, bufLen) && DigestAccepted(h, env, bytes, app, one, bufLen) ==>
               app.eocd.data >= 0x8000_0000 && app.eocd.data % 0x1_0000_0000 == 0;
    }
  }
}
