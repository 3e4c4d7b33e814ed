/** The whole check of zip_verify: locate the regions, read the first signer, compare
    algorithms, verify the signature over the signed data, compare the content digest. */
module ZipVerify {
  import opened Bytes
  import opened ZipRecords
  import opened ZipArchive
  import opened ZipDigest

  /** RSA verification is a parameter: public key, hash of the signed data, signature. */
  type Rsa = (seq<Byte>, Digest, seq<Byte>) -> bool

  /** The signing block without its leading size. */
  function SignatureBuffer(bytes: seq<Byte>, commentLen: nat): seq<Byte>
    requires Locatable(bytes, commentLen)
  {
    Slice(bytes, Regions(bytes, commentLen).signature)
  }

  /** Where the first signer lies: after the pair's length and id and the length of the
      list of signers. */
  const SIGNER_AT: nat := 16

  /** What the C code takes for granted when a signing block is found: it lies inside the
      file, the lengths in its first signer stay inside it, and no chunk offset of a section
      overflows. Neither the size of the file nor the order of its regions is restricted. */
  predicate Workable(bytes: seq<Byte>, commentLen: nat) {
    && commentLen < 65536
    && (HasSigningBlock(bytes, commentLen) ==>
          var app := Regions(bytes, commentLen);
          && End(app.signature) <= |bytes| && SignerReadable(SignatureBuffer(bytes, commentLen))
          && NoOverflow(app.data.length) && NoOverflow(app.directory.length))
  }

  predicate SignerReadable(buf: seq<Byte>) {
    && |buf| >= SIGNER_AT && Readable(buf, SIGNER_AT)
    && var i := InfoAt(buf, SIGNER_AT);
    && i.oneDigest.data + 32 <= |buf|
    && End(i.signedData) <= |buf| && End(i.signaturesContent) <= |buf|
  }

  /** There is a signing block, and its first signer names one algorithm twice. */
  predicate AlgorithmsAgree(bytes: seq<Byte>, commentLen: nat)
    requires Workable(bytes, commentLen)
  {
    && HasSigningBlock(bytes, commentLen)
    && var i := InfoAt(SignatureBuffer(bytes, commentLen), SIGNER_AT);
    && i.digestAlgorithm == i.signatureAlgorithm
  }

  predicate SignatureValid(h: Hash, rsa: Rsa, bytes: seq<Byte>, commentLen: nat, key: seq<Byte>)
    requires Workable(bytes, commentLen) && AlgorithmsAgree(bytes, commentLen)
  {
    var buf := SignatureBuffer(bytes, commentLen);
    var i := InfoAt(buf, SIGNER_AT);
    rsa(key, h(Slice(buf, i.signedData)), Slice(buf, i.signaturesContent))
  }

  /** The digest the first signer states. */
  function StatedDigest(bytes: seq<Byte>, commentLen: nat): (digest: seq<Byte>)
    requires Workable(bytes, commentLen) && AlgorithmsAgree(bytes, commentLen)
    ensures |digest| == 32
  {
    var buf := SignatureBuffer(bytes, commentLen);
    var at := InfoAt(buf, SIGNER_AT).oneDigest.data;
    buf[at..at + 32]
  }

  /** The key file: whether its size can be asked for, whether it can be opened, contents. */
  datatype KeyFile = KeyFile(found: bool, opens: bool, key: seq<Byte>)

  /** What the code accepts, by the schedule of the reads that hash the file. For a key file
      that is there but cannot be opened it returns the success of having found it. */
  predicate ReturnsZero(h: Hash, rsa: Rsa, bytes: seq<Byte>, commentLen: nat, cert: KeyFile, bufLen: nat,
                        second: Reads)
    requires Workable(bytes, commentLen)
  {
    && cert.found && AlgorithmsAgree(bytes, commentLen)
    && (cert.opens ==>
          && SignatureValid(h, rsa, bytes, commentLen, cert.key)
          && DigestAccepted(h, second, bytes, Regions(bytes, commentLen), StatedDigest(bytes, commentLen), bufLen))
  }

  /** `verify_app`, with the schedules of the two times the file is opened. */
  method VerifyApp(h: Hash, rsa: Rsa, bytes: seq<Byte>, commentLen: nat, cert: KeyFile, bufLen: nat,
                   first: Reads, second: Reads)
    returns (res: int)
    requires Workable(bytes, commentLen)
    ensures res == 0 <==> LocatingReads(first) && ReturnsZero(h, rsa, bytes, commentLen, cert, bufLen, second)
  {
    hide DigestAccepted, InfoAt, Readable, LeValue, CalcChunkCount;
    res := -1;
    var app := ParseAppBlock(bytes, commentLen, first);
    if app.None? {
      return;
    }
    var buf := Slice(bytes, app.value.signature);
    var id, value, _ := ParseKvBlock(buf, 0);
    var signers, _ := ParseBlock(buf, value);
    var info := new SignatureInfo();
    var _ := info.Get(buf, signers.data);
    ghost var i := InfoAt(buf, SIGNER_AT);
    FieldsAre(info.Fields());
    if info.digestAlgorithm != info.signatureAlgorithm {
      return;
    }
    res := if cert.found then 0 else -1;
    if res != 0 {
      return;
    }
    if !cert.opens {
      return;
    }
    var signed := Slice(buf, info.signedData);
    res := if rsa(cert.key, h(signed), Slice(buf, info.signaturesContent)) then 0 else 1;
    if res != 0 {
      return;
    }
    var digest := buf[info.oneDigest.data..info.oneDigest.data + 32];
    res := VerifyDigest(h, bytes, app.value, digest, bufLen, second);
    assert digest[..32] == digest;
  }

  /** No read fails, and that of the end record is not cut. */
  ghost predicate CompleteReads(h: Hash, env: Reads, bytes: seq<Byte>, commentLen: nat, bufLen: nat)
    requires Locatable(bytes, commentLen)
  {
    && NoFailure(env) && bufLen > 0
    && env(EocdRead(h, env, bytes, Regions(bytes, commentLen), bufLen)) >= 22 + commentLen
  }

  /** What that means for a file whose regions lie inside it. When no read fails and that of
      the end record is not cut: with a readable key exactly the files with a valid signature
      and the specified digest are accepted, but for an end record at 2 GiB or later, where the
      digest is not compared. Under any schedule a digest leaves out chunks at most. */
  lemma AcceptedFiles(h: Hash, rsa: Rsa, bytes: seq<Byte>, commentLen: nat, cert: KeyFile, bufLen: nat, second: Reads)
    requires Workable(bytes, commentLen) && AlgorithmsAgree(bytes, commentLen)
    requires Covered(bytes, Regions(bytes, commentLen)) && cert.found && cert.opens
    ensures var app, stated := Regions(bytes, commentLen), StatedDigest(bytes, commentLen);
            var zero := ReturnsZero(h, rsa, bytes, commentLen, cert, bufLen, second);
            && (CompleteReads(h, second, bytes, commentLen, bufLen) ==>
                  (zero <==>
                    && SignatureValid(h, rsa, bytes, commentLen, cert.key)
                    && (if app.eocd.data < 0x8000_0000 then stated == ContentDigest(h, bytes, app)
                        else app.eocd.data % 0x1_0000_0000 == 0)))
            && (zero ==>
                  && SignatureValid(h, rsa, bytes, commentLen, cert.key)
                  && (app.eocd.data < 0x8000_0000 ==> PartialDigest(h, bytes, app, stated)))
  {
    hide Regions, InfoAt, ZipRecords.Readable, LeValue, ContentDigest, PartialDigest, EocdRead, EocdDelivered,
         FedData, FedDirectory, TopInput, SignatureValid, CalcChunkCount;
    EocdLength(bytes, commentLen);
    var app, stated := Regions(bytes, commentLen), StatedDigest(bytes, commentLen);
    if app.eocd.data < 0x8000_0000 {
      if CompleteReads(h, second, bytes, commentLen, bufLen) {
        ExactDigest(h, second, bytes, app, stated, bufLen);
      }
      if ReturnsZero(h, rsa, bytes, commentLen, cert, bufLen, second) {
        OnlyPartialDigests(h, second, bytes, app, stated, bufLen);
      }
    }
  }

  /** When every digest is accepted for located regions: exactly when the end record starts
      at a multiple of 4 GiB other than 0. */
  lemma UncheckedFiles(h: Hash, bytes: seq<Byte>, commentLen: nat, bufLen: nat, second: Reads)
    requires HasSigningBlock(bytes, commentLen) && commentLen < 65536
    ensures Regions(bytes, commentLen).eocd.length == commentLen + 22
    ensures (forall digest: Digest ::
               DigestAccepted(h, second, bytes, Regions(bytes, commentLen), digest, bufLen)) <==>
              EocdStart(bytes, commentLen) > 0 && EocdStart(bytes, commentLen) % 0x1_0000_0000 == 0
  {
    hide DigestAccepted, EocdRead, LeValue;
    EocdLength(bytes, commentLen);
    UncheckedDigest(h, second, bytes, Regions(bytes, commentLen), bufLen);
    if EocdStart(bytes, commentLen) < 0x8000_0000 {
      EocdInsideFile(bytes, commentLen);
    }
  }

  /** Nothing of a directory behind the end record is counted or hashed. */
  lemma DirectoryBehindUncounted(h: Hash, bytes: seq<Byte>, commentLen: nat, bufLen: nat, second: Reads, k: nat)
    requires HasSigningBlock(bytes, commentLen) && commentLen < 65536 && commentLen + 22 <= |bytes|
    requires DirectoryOffset(bytes, commentLen) >= 16
    requires DirectoryOffset(bytes, commentLen) > EocdStart(bytes, commentLen)
    ensures var directory := Regions(bytes, commentLen).directory;
            CalcChunkCount(directory.length) == 0 && Feed(h, second, bytes, bufLen, directory, k) == Fed(true, [], k)
  {
    hide LeValue, FeedChunks;
    var eocd, directory := EocdStart(bytes, commentLen), DirectoryOffset(bytes, commentLen);
    LeBound(bytes[FieldAt(bytes, commentLen)..FieldAt(bytes, commentLen) + 4]);
    Widths();
    DirectoryNotFarBehind(bytes, commentLen);
    WrappedDirectory(eocd, directory);
  }

  lemma EocdLength(bytes: seq<Byte>, commentLen: nat)
    requires Locatable(bytes, commentLen) && commentLen < 65536
    ensures Regions(bytes, commentLen).eocd.length == commentLen + 22
  {
    hide LeValue;
  }

  lemma FieldsAre(i: Info)
    ensures i == Info(i.oneSignBlock, i.signedData, i.signatures, i.publicKey, i.digests, i.digestAlgorithm,
                      i.oneDigest, i.certificate, i.signatureAlgorithm, i.signaturesContent)
  {
  }

  // ----- archives that are signed

  /** A pair of the signing block: length, id, value. */
  function Pair(id: nat, value: seq<Byte>): (r: seq<Byte>)
    ensures |r| == 12 + |value|
  {
    Le(|value| + 4, 8) + Le(id, 4) + value
  }

  /** Signing block contents whose first pair holds a list of signers, first `s`. */
  function Pairs(id: nat, s: Signer, otherSigners: seq<Byte>, otherPairs: seq<Byte>): seq<Byte> {
    Pair(id, Lp(EncodeSigner(s) + otherSigners)) + otherPairs
  }

  predicate SignedArchive(a: Archive, id: nat, s: Signer, otherSigners: seq<Byte>, otherPairs: seq<Byte>) {
    && WellFormedArchive(a) && |a.data| <= 0x8000_0000 && |a.directory| <= 0x8000_0000
    && a.pairs == Pairs(id, s, otherSigners, otherPairs)
    && WellFormedSigner(s) && |s.digests[0].value| == 32
  }

  /** Which archives are accepted, in terms of what was put in them, when no read fails and
      that of the end record is not cut. With a readable key: exactly those whose first digest
      and first signature name the same algorithm, whose signature verifies over the signed
      data, and whose first digest is the content digest of data, central directory and end
      record, the latter with the directory offset of the unsigned file. But from 2 GiB on the
      digest plays no part: an end record at a multiple of 4 GiB is accepted with any digest,
      one elsewhere with none. With a key that cannot be opened, the algorithms are the only
      condition. */
  lemma AcceptedArchives(h: Hash, rsa: Rsa, a: Archive, id: nat, s: Signer, otherSigners: seq<Byte>,
                         otherPairs: seq<Byte>, cert: KeyFile, bufLen: nat, second: Reads)
    requires SignedArchive(a, id, s, otherSigners, otherPairs)
    ensures Workable(FileBytes(a), |a.comment|) && Locatable(FileBytes(a), |a.comment|)
    ensures EocdAt(a) >= 0x8000_0000 || CompleteReads(h, second, FileBytes(a), |a.comment|, bufLen) ==>
              (ReturnsZero(h, rsa, FileBytes(a), |a.comment|, cert, bufLen, second) <==>
                && cert.found
                && s.digests[0].algorithm == s.signatures[0].algorithm
                && (cert.opens ==>
                      && rsa(cert.key, h(SignedBytes(s)), s.signatures[0].value)
                      && (if EocdAt(a) < 0x8000_0000 then
                            s.digests[0].value == ApkDigest(h, a.data, a.directory, EocdRecord(a, |a.data|))
                          else EocdAt(a) % 0x1_0000_0000 == 0)))
  {
    hide InfoAt, Readable, FileBytes, SignedBytes, EncodeSigner, Regions, MagicBefore, DirectoryOffset, ApkDigest,
         LeValue, DigestAccepted, EocdRead;
    SignerPlaced(a, id, s, otherSigners, otherPairs);
    RegionsAre(a);
    var f := FileBytes(a);
    var app := Regions(f, |a.comment|);
    NoOverflowIs(|a.data|);
    NoOverflowIs(|a.directory|);
    if EocdAt(a) >= 0x8000_0000 || CompleteReads(h, second, f, |a.comment|, bufLen) {
      DigestOfArchive(h, a, s.digests[0].value, bufLen, second);
    }
  }

  /** The signer is found in the signing block and its fields read back. */
  lemma SignerPlaced(a: Archive, id: nat, s: Signer, otherSigners: seq<Byte>, otherPairs: seq<Byte>)
    requires SignedArchive(a, id, s, otherSigners, otherPairs)
    ensures HasSigningBlock(FileBytes(a), |a.comment|)
    ensures var buf := SignatureBuffer(FileBytes(a), |a.comment|);
            && buf == SignatureBody(a) && SignerReadable(buf)
            && var i := InfoAt(buf, SIGNER_AT);
            && i.digestAlgorithm == s.digests[0].algorithm && i.signatureAlgorithm == s.signatures[0].algorithm
            && Slice(buf, i.signedData) == SignedBytes(s)
            && Slice(buf, i.signaturesContent) == s.signatures[0].value
            && buf[i.oneDigest.data..i.oneDigest.data + 32] == s.digests[0].value
  {
    hide InfoAt, Readable, FileBytes, SignedBytes, EncodeSigner, Regions, MagicBefore, DirectoryOffset, LeValue, Le;
    ArchiveRoundTrip(a);
    SignerInBuffer(a, id, s, otherSigners, otherPairs);
    SignerRecovered(SignatureBody(a), SIGNER_AT, s);
    SignerInside(SignatureBody(a), s);
  }

  /** Which digests are accepted for a laid out archive. */
  lemma DigestOfArchive(h: Hash, a: Archive, digest: seq<Byte>, bufLen: nat, second: Reads)
    requires WellFormedArchive(a) && |a.data| <= 0x8000_0000 && |a.directory| <= 0x8000_0000
    requires Locatable(FileBytes(a), |a.comment|)
    requires EocdAt(a) >= 0x8000_0000 || CompleteReads(h, second, FileBytes(a), |a.comment|, bufLen)
    ensures DigestAccepted(h, second, FileBytes(a), Regions(FileBytes(a), |a.comment|), digest, bufLen) <==>
              if EocdAt(a) < 0x8000_0000 then digest == ApkDigest(h, a.data, a.directory, EocdRecord(a, |a.data|))
              else EocdAt(a) % 0x1_0000_0000 == 0
  {
    hide FileBytes, Regions, MagicBefore, DirectoryOffset, ApkDigest, LeValue, Le, EocdRead, EocdDelivered, EocdRecord;
    ArchiveRoundTrip(a);
    RegionsAre(a);
    EocdOffset(a);
    var f := FileBytes(a);
    var app := Regions(f, |a.comment|);
    if EocdAt(a) < 0x8000_0000 {
      ExactDigest(h, second, f, app, digest, bufLen);
      RegionsOf(f, app, a);
    }
  }

  /** Two archives below 2 GiB with the same signer and as many chunks in each section that
      are both accepted have the same data, directory and end record, unless the hash collides
      on the inputs named. So a byte changed in any of them is noticed. */
  lemma TamperNoticed(h: Hash, rsa: Rsa, a: Archive, b: Archive, id: nat, s: Signer, otherSigners: seq<Byte>,
                      otherPairs: seq<Byte>, cert: KeyFile, bufLen: nat, second: Reads)
    requires SignedArchive(a, id, s, otherSigners, otherPairs) && SignedArchive(b, id, s, otherSigners, otherPairs)
    requires EocdAt(a) < 0x8000_0000 && EocdAt(b) < 0x8000_0000
    requires ChunkCount(a.data) == ChunkCount(b.data) && ChunkCount(a.directory) == ChunkCount(b.directory)
    requires Accepted(h, rsa, a, cert, bufLen, second) && Accepted(h, rsa, b, cert, bufLen, second)
    ensures var e, f := EocdRecord(a, |a.data|), EocdRecord(b, |b.data|);
            || (Intact(h, a.data, b.data) && Intact(h, a.directory, b.directory) && Intact(h, e, f))
            || Collide(h, ApkInput(h, a.data, a.directory, e), ApkInput(h, b.data, b.directory, f))
  {
    hide FileBytes, ReturnsZero, Workable, Locatable, CompleteReads, ApkInput, EocdRecord, ChunkCount, Pairs,
         WellFormedArchive, WellFormedSigner, Intact;
    AcceptedArchives(h, rsa, a, id, s, otherSigners, otherPairs, cert, bufLen, second);
    AcceptedArchives(h, rsa, b, id, s, otherSigners, otherPairs, cert, bufLen, second);
    EocdIsOneChunk(a);
    EocdIsOneChunk(b);
    ContentTamper(h, a.data, a.directory, EocdRecord(a, |a.data|), b.data, b.directory, EocdRecord(b, |b.data|));
  }

  /** Read completely, with a readable key, and accepted. */
  ghost predicate Accepted(h: Hash, rsa: Rsa, a: Archive, cert: KeyFile, bufLen: nat, second: Reads) {
    && cert.opens && Workable(FileBytes(a), |a.comment|) && Locatable(FileBytes(a), |a.comment|)
    && CompleteReads(h, second, FileBytes(a), |a.comment|, bufLen)
    && ReturnsZero(h, rsa, FileBytes(a), |a.comment|, cert, bufLen, second)
  }

  lemma EocdIsOneChunk(a: Archive)
    requires WellFormedArchive(a)
    ensures ChunkCount(EocdRecord(a, |a.data|)) == 1
  {
    hide Le;
  }

  // ----- a rejected archive that is accepted

  /** A signer with one digest, one blank certificate and one blank signature. */
  function BlankSigner(digest: Digest): Signer {
    Signer([AlgValue(0x103, digest)], [[]], [], [AlgValue(0x103, [])], [])
  }

  function BlankPairs(digest: Digest): seq<Byte> {
    Pairs(0x7109_871a, BlankSigner(digest), [], [])
  }

  /** An archive of that signer with blank sections of some size. */
  function BlankArchive(digest: Digest, data: nat, directory: nat): Archive {
    Archive(Blank(data), BlankPairs(digest), Blank(directory), Le(0, 16), [])
  }

  function Blank(n: nat): (s: seq<Byte>)
    ensures |s| == n
  {
    seq(n, i => 0)
  }

  lemma BlankIsSigned(digest: Digest, data: nat, directory: nat)
    requires data <= 0x8000_0000 && directory <= 0x8000_0000
    ensures |BlankPairs(digest)| == 100
    ensures SignedArchive(BlankArchive(digest, data, directory), 0x7109_871a, BlankSigner(digest), [], [])
  {
    hide Le;
    var s := BlankSigner(digest);
    OneRecord(EncodeAlg(s.digests[0]));
    OneRecord(EncodeAlg(s.signatures[0]));
    OneRecord(s.certificates[0]);
    assert EncodeAlgs(s.digests) == [EncodeAlg(s.digests[0])];
    assert EncodeAlgs(s.signatures) == [EncodeAlg(s.signatures[0])];
    assert |EncodeSigner(s)| == 84;
  }

  lemma OneRecord(r: seq<Byte>)
    ensures LpAll([r]) == Lp(r)
  {
    hide Le;
    assert [r][1..] == [];
  }

  /** An archive that is rejected with a readable key is accepted when the key file is
      there but cannot be opened, even if no signature is valid at all. */
  lemma UnopenedKeyAccepts(h: Hash, rsa: Rsa, digest: Digest, key: seq<Byte>, bufLen: nat, second: Reads)
    requires forall k, d, s :: !rsa(k, d, s)
    ensures var f := FileBytes(BlankArchive(digest, 0, 0));
            && Workable(f, 0)
            && !ReturnsZero(h, rsa, f, 0, KeyFile(true, true, key), bufLen, second)
            && ReturnsZero(h, rsa, f, 0, KeyFile(true, false, key), bufLen, second)
  {
    hide FileBytes, Regions, InfoAt, ZipRecords.Readable, MagicBefore, DirectoryOffset, SizeReadable, SignerReadable,
         CalcChunkCount, DigestAccepted, BlankSigner, BlankPairs;
    BlankIsSigned(digest, 0, 0);
    BlankAlgorithms(digest);
    SignerPlaced(BlankArchive(digest, 0, 0), 0x7109_871a, BlankSigner(digest), [], []);
    RegionsAre(BlankArchive(digest, 0, 0));
    NoOverflowIs(0);
  }

  lemma BlankAlgorithms(digest: Digest)
    ensures var s := BlankSigner(digest);
            && s.digests != [] && s.signatures != []
            && s.digests[0].algorithm == s.signatures[0].algorithm && s.signatures[0].value == []
  {
  }

  /** An archive of just over 4 GiB whose end record starts at 4 GiB is accepted with every
      digest, so also with wrong ones, when its signature is valid, whatever the reads deliver. */
  lemma FourGiBAccepts(h: Hash, rsa: Rsa, digest: Digest, key: seq<Byte>, bufLen: nat, second: Reads)
    requires rsa(key, h(SignedBytes(BlankSigner(digest))), [])
    ensures var a := BlankArchive(digest, 0x8000_0000 - 132, 0x8000_0000);
            && EocdAt(a) == 0x1_0000_0000 && Workable(FileBytes(a), 0)
            && ReturnsZero(h, rsa, FileBytes(a), 0, KeyFile(true, true, key), bufLen, second)
  {
    hide FileBytes, SignedArchive, Workable, Locatable, ReturnsZero, CompleteReads, ApkDigest, BlankSigner, BlankPairs;
    BlankIsSigned(digest, 0x8000_0000 - 132, 0x8000_0000);
    BlankAlgorithms(digest);
    var a, s := BlankArchive(digest, 0x8000_0000 - 132, 0x8000_0000), BlankSigner(digest);
    AcceptedArchives(h, rsa, a, 0x7109_871a, s, [], [], KeyFile(true, true, key), bufLen, second);
  }

  lemma SignerInBuffer(a: Archive, id: nat, s: Signer, otherSigners: seq<Byte>, otherPairs: seq<Byte>)
    requires a.pairs == Pairs(id, s, otherSigners, otherPairs)
    ensures At(SignatureBody(a), SIGNER_AT, EncodeSigner(s))
  {
    hide Le, EncodeSigner;
    var buf := SignatureBody(a);
    var list := EncodeSigner(s) + otherSigners;
    assert At(buf, 0, buf);
    AtSplit(buf, 0, a.pairs + Le(|a.pairs| + 24, 8), MAGIC);
    AtSplit(buf, 0, a.pairs, Le(|a.pairs| + 24, 8));
    AtSplit(buf, 0, Pair(id, Lp(list)), otherPairs);
    AtSplit(buf, 0, Le(|Lp(list)| + 4, 8) + Le(id, 4), Lp(list));
    AtSplit(buf, 12, Le(|list|, 4), list);
    AtSplit(buf, 16, EncodeSigner(s), otherSigners);
  }

  lemma SignerInside(buf: seq<Byte>, s: Signer)
    requires WellFormedSigner(s) && At(buf, SIGNER_AT, EncodeSigner(s)) && |s.digests[0].value| == 32
    ensures SignerReadable(buf)
    ensures var i := InfoAt(buf, SIGNER_AT);
            && buf[i.oneDigest.data..i.oneDigest.data + 32] == s.digests[0].value
            && i.oneDigest.length == 32
  {
    hide InfoAt, Readable, EncodeSigner;
    SignerRecovered(buf, SIGNER_AT, s);
    var i := InfoAt(buf, SIGNER_AT);
    assert End(i.oneDigest) <= |buf|;
    assert Slice(buf, i.oneDigest) == s.digests[0].value;
  }

  lemma EocdOffset(a: Archive)
    requires WellFormedArchive(a)
    ensures |EocdRecord(a, DirectoryAt(a))| == 22 + |a.comment|
    ensures WithOffset(EocdRecord(a, DirectoryAt(a)), |a.data|) == EocdRecord(a, |a.data|)
  {
    hide Le;
    var e := EocdRecord(a, DirectoryAt(a));
    assert e[..16] == a.head;
    assert e[20..] == Le(|a.comment|, 2) + a.comment;
    assert a.head + Le(|a.data|, 4) + (Le(|a.comment|, 2) + a.comment) == EocdRecord(a, |a.data|);
  }

  lemma RegionsOf(f: seq<Byte>, app: AppBlock, a: Archive)
    requires Tiles(app, |f|)
    requires Slice(f, app.data) == a.data && Slice(f, app.directory) == a.directory
    requires Slice(f, app.eocd) == EocdRecord(a, DirectoryAt(a))
    ensures Region(f, app.data) == a.data && Region(f, app.directory) == a.directory
    ensures Region(f, app.eocd) == EocdRecord(a, DirectoryAt(a))
  {
  }
}
