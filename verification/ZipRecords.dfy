/** Length-prefixed records of the APK signing block (APK Signature Scheme v2, "APK
    Signing Block: Format"): the cursor parsers of zip_verify and the encoding they read. */
module ZipRecords {
  import opened Bytes

  /** data_block_t: a cursor into the buffer and a length. */
  datatype Block = Block(data: nat, length: nat)

  function End(b: Block): nat {
    b.data + b.length
  }

  predicate Within(inner: Block, outer: Block) {
    outer.data <= inner.data && End(inner) <= End(outer)
  }

  function U32(buf: seq<Byte>, off: nat): nat
    requires off + 4 <= |buf|
  {
    LeValue(buf[off..off + 4])
  }

  function BlockAt(buf: seq<Byte>, off: nat): Block
    requires off + 4 <= |buf|
  {
    Block(off + 4, U32(buf, off))
  }

  method ParseBlock(buf: seq<Byte>, data: nat) returns (block: Block, offset: nat)
    requires data + 4 <= |buf|
    ensures block == BlockAt(buf, data) && offset == End(block)
  {
    var len := U32(buf, data);
    offset := data;
    offset := offset + 4;
    block := Block(offset, len);
    offset := offset + block.length;
  }

  /** The cursor after a pair: the length counts the four bytes of the key. */
  method ParseKvBlock(buf: seq<Byte>, data: nat) returns (key: nat, value: nat, offset: int)
    requires data + 12 <= |buf|
    ensures key == U32(buf, data + 8) && value == data + 12
    ensures offset == data + 8 + LeValue(buf[data..data + 8])
  {
    var length := LeValue(buf[data..data + 8]);
    offset := data + 8;
    key := U32(buf, offset);
    offset := offset + 4;
    value := offset;
    offset := offset + length - 4;
  }

  // ----- one signer

  datatype Info = Info(oneSignBlock: Block, signedData: Block, signatures: Block, publicKey: Block,
                       digests: Block, digestAlgorithm: nat, oneDigest: Block, certificate: Block,
                       signatureAlgorithm: nat, signaturesContent: Block)

  predicate CanRead(buf: seq<Byte>, off: nat) {
    off + 4 <= |buf|
  }

  /** The fields of a signer record, each as the format describes it relative to its
      enclosing record; readable when every length and number lies in the buffer. */
  predicate Readable(buf: seq<Byte>, data: nat) {
    && CanRead(buf, data)
    && var one := BlockAt(buf, data);
    && CanRead(buf, one.data)
    && var signed := BlockAt(buf, one.data);
    && CanRead(buf, End(signed))
    && var sigs := BlockAt(buf, End(signed));
    && CanRead(buf, End(sigs))
    && CanRead(buf, signed.data)
    && var digests := BlockAt(buf, signed.data);
    && CanRead(buf, digests.data + 4)
    && CanRead(buf, digests.data + 8)
    && var digest := BlockAt(buf, digests.data + 8);
    && CanRead(buf, End(digest))
    && CanRead(buf, BlockAt(buf, End(digest)).data)
    && CanRead(buf, sigs.data)
    && var first := BlockAt(buf, sigs.data);
    && CanRead(buf, first.data)
    && CanRead(buf, first.data + 4)
  }

  function InfoAt(buf: seq<Byte>, data: nat): Info
    requires Readable(buf, data)
  {
    var one := BlockAt(buf, data);
    var signed := BlockAt(buf, one.data);
    var sigs := BlockAt(buf, End(signed));
    var digests := BlockAt(buf, signed.data);
    var digest := BlockAt(buf, digests.data + 8);
    var first := BlockAt(buf, sigs.data);
    Info(one, signed, sigs, BlockAt(buf, End(sigs)),
         digests, U32(buf, digests.data + 4), digest,
         BlockAt(buf, BlockAt(buf, End(digest)).data),
         U32(buf, first.data), BlockAt(buf, first.data + 4))
  }

  /** signature_block_t, filled in place. */
  class SignatureInfo {
    var oneSignBlock: Block
    var signedData: Block
    var signatures: Block
    var publicKey: Block
    var digests: Block
    var digestAlgorithm: nat
    var oneDigest: Block
    var certificate: Block
    var signatureAlgorithm: nat
    var signaturesContent: Block

    constructor () {
      var zero := Block(0, 0);
      oneSignBlock, signedData, signatures, publicKey := zero, zero, zero, zero;
      digests, digestAlgorithm, oneDigest, certificate := zero, 0, zero, zero;
      signatureAlgorithm, signaturesContent := 0, zero;
    }

    function Fields(): Info
      reads this
    {
      Info(oneSignBlock, signedData, signatures, publicKey, digests, digestAlgorithm,
           oneDigest, certificate, signatureAlgorithm, signaturesContent)
    }

    /** `get_signature_info`: two of the blocks are parsed over themselves. */
    method Get(buf: seq<Byte>, data: nat) returns (ret: nat)
      requires Readable(buf, data)
      modifies this
      ensures Fields() == InfoAt(buf, data)
      ensures ret == End(oneSignBlock)
    {
      hide BlockAt, U32;
      var offset;
      oneSignBlock, offset := ParseBlock(buf, data);
      ret := offset;
      signedData, offset := ParseBlock(buf, oneSignBlock.data);
      signatures, offset := ParseBlock(buf, offset);
      publicKey, offset := ParseBlock(buf, offset);
      digests, offset := ParseBlock(buf, signedData.data);
      digestAlgorithm := U32(buf, digests.data + 4);
      oneDigest, offset := ParseBlock(buf, digests.data + 8);
      certificate, offset := ParseBlock(buf, offset);
      certificate, offset := ParseBlock(buf, certificate.data);
      signaturesContent, offset := ParseBlock(buf, signatures.data);
      signatureAlgorithm := U32(buf, signaturesContent.data);
      signaturesContent, offset := ParseBlock(buf, signaturesContent.data + 4);
    }
  }

  // ----- encoding

  function Lp(s: seq<Byte>): (r: seq<Byte>)
    ensures |r| == 4 + |s|
  {
    Le(|s|, 4) + s
  }

  function LpAll(items: seq<seq<Byte>>): seq<Byte> {
    if items == [] then [] else Lp(items[0]) + LpAll(items[1..])
  }

  datatype AlgValue = AlgValue(algorithm: nat, value: seq<Byte>)

  function EncodeAlg(a: AlgValue): seq<Byte> {
    Le(a.algorithm, 4) + Lp(a.value)
  }

  function EncodeAlgs(xs: seq<AlgValue>): (r: seq<seq<Byte>>)
    ensures |r| == |xs|
  {
    if xs == [] then [] else [EncodeAlg(xs[0])] + EncodeAlgs(xs[1..])
  }

  /** A signer: digests and certificates and further attributes, which are signed, then
      signatures and a public key. */
  datatype Signer = Signer(digests: seq<AlgValue>, certificates: seq<seq<Byte>>, attributes: seq<Byte>,
                           signatures: seq<AlgValue>, publicKey: seq<Byte>)

  function DigestBytes(s: Signer): seq<Byte> {
    LpAll(EncodeAlgs(s.digests))
  }

  function SignedBytes(s: Signer): seq<Byte> {
    Lp(DigestBytes(s)) + Lp(LpAll(s.certificates)) + s.attributes
  }

  function SignatureBytes(s: Signer): seq<Byte> {
    LpAll(EncodeAlgs(s.signatures))
  }

  function SignerBody(s: Signer): seq<Byte> {
    Lp(SignedBytes(s)) + Lp(SignatureBytes(s)) + Lp(s.publicKey)
  }

  function EncodeSigner(s: Signer): seq<Byte> {
    Lp(SignerBody(s))
  }

  predicate WellFormedSigner(s: Signer) {
    && s.digests != [] && s.certificates != [] && s.signatures != []
    && s.digests[0].algorithm < 0x1_0000_0000 && s.signatures[0].algorithm < 0x1_0000_0000
    && |EncodeSigner(s)| < 0x1_0000_0000
  }

  // ----- reading what was written

  predicate At(buf: seq<Byte>, off: nat, s: seq<Byte>) {
    off + |s| <= |buf| && buf[off..off + |s|] == s
  }

  function Slice(buf: seq<Byte>, b: Block): seq<Byte> {
    if End(b) <= |buf| then buf[b.data..End(b)] else []
  }

  lemma AtSplit(buf: seq<Byte>, off: nat, s: seq<Byte>, t: seq<Byte>)
    requires At(buf, off, s + t)
    ensures At(buf, off, s) && At(buf, off + |s|, t)
  {
    assert (s + t)[..|s|] == s && (s + t)[|s|..] == t;
    assert buf[off..off + |s|] == buf[off..off + |s + t|][..|s|];
    assert buf[off + |s|..off + |s| + |t|] == buf[off..off + |s + t|][|s|..];
  }

  lemma AtLp(buf: seq<Byte>, off: nat, s: seq<Byte>)
    requires At(buf, off, Lp(s)) && |s| < 0x1_0000_0000
    ensures CanRead(buf, off) && BlockAt(buf, off) == Block(off + 4, |s|)
    ensures At(buf, off + 4, s) && Slice(buf, BlockAt(buf, off)) == s
  {
    AtSplit(buf, off, Le(|s|, 4), s);
    Widths();
    LeRoundTrip(|s|, 4);
  }

  lemma AtU32(buf: seq<Byte>, off: nat, n: nat, rest: seq<Byte>)
    requires At(buf, off, Le(n, 4) + rest) && n < 0x1_0000_0000
    ensures CanRead(buf, off) && U32(buf, off) == n && At(buf, off + 4, rest)
  {
    AtSplit(buf, off, Le(n, 4), rest);
    Widths();
    LeRoundTrip(n, 4);
  }

  lemma FirstOfAll(xs: seq<AlgValue>)
    requires xs != []
    ensures LpAll(EncodeAlgs(xs)) == Lp(EncodeAlg(xs[0])) + LpAll(EncodeAlgs(xs[1..]))
  {
    assert EncodeAlgs(xs)[1..] == EncodeAlgs(xs[1..]);
  }

  /** A record holding algorithm and value pairs: where its first pair is found. */
  lemma AtFirstAlg(buf: seq<Byte>, off: nat, xs: seq<AlgValue>)
    requires xs != [] && xs[0].algorithm < 0x1_0000_0000
    requires At(buf, off, LpAll(EncodeAlgs(xs))) && |LpAll(EncodeAlgs(xs))| < 0x1_0000_0000
    ensures CanRead(buf, off + 4) && U32(buf, off + 4) == xs[0].algorithm
    ensures CanRead(buf, off) && BlockAt(buf, off) == Block(off + 4, 8 + |xs[0].value|)
    ensures CanRead(buf, off + 8) && BlockAt(buf, off + 8) == Block(off + 12, |xs[0].value|)
    ensures Slice(buf, BlockAt(buf, off + 8)) == xs[0].value
    ensures At(buf, off + 12 + |xs[0].value|, LpAll(EncodeAlgs(xs[1..])))
    ensures |LpAll(EncodeAlgs(xs))| == 12 + |xs[0].value| + |LpAll(EncodeAlgs(xs[1..]))|
  {
    hide LpAll, EncodeAlgs, Le, LeValue;
    var first := EncodeAlg(xs[0]);
    FirstOfAll(xs);
    AtSplit(buf, off, Lp(first), LpAll(EncodeAlgs(xs[1..])));
    AtLp(buf, off, first);
    AtU32(buf, off + 4, xs[0].algorithm, Lp(xs[0].value));
    AtLp(buf, off + 8, xs[0].value);
  }

  /** Every field of an encoded signer is recovered, wherever the record lies in the
      buffer: the signed bytes as a whole, the first digest, the first signature and
      the public key, with their algorithms; every cursor stays in its enclosing record. */
  lemma SignerRecovered(buf: seq<Byte>, off: nat, s: Signer)
    requires WellFormedSigner(s) && At(buf, off, EncodeSigner(s))
    ensures Readable(buf, off)
    ensures var i := InfoAt(buf, off);
            && End(i.oneSignBlock) == off + |EncodeSigner(s)|
            && Slice(buf, i.signedData) == SignedBytes(s)
            && Slice(buf, i.publicKey) == s.publicKey
            && i.digestAlgorithm == s.digests[0].algorithm
            && Slice(buf, i.oneDigest) == s.digests[0].value
            && i.signatureAlgorithm == s.signatures[0].algorithm
            && Slice(buf, i.signaturesContent) == s.signatures[0].value
    ensures var i := InfoAt(buf, off);
            && Within(i.signedData, i.oneSignBlock) && Within(i.signatures, i.oneSignBlock)
            && Within(i.publicKey, i.oneSignBlock)
            && Within(i.digests, i.signedData) && Within(i.oneDigest, i.digests)
            && Within(i.signaturesContent, i.signatures)
    ensures var i := InfoAt(buf, off);
            && End(i.oneDigest) + |LpAll(EncodeAlgs(s.digests[1..]))| == End(i.digests)
            && At(buf, End(i.oneDigest), LpAll(EncodeAlgs(s.digests[1..])))
            && At(buf, End(i.digests), Lp(LpAll(s.certificates)))
  {
    hide LpAll, EncodeAlgs, EncodeAlg, U32, BlockAt, SignedBytes, SignatureBytes, DigestBytes, SignerBody, Lp, At;
    TopRecords(buf, off, s);
    SignedRecords(buf, off, s);
    DigestRecords(buf, off, s);
    SignatureRecords(buf, off, s);
  }

  function SignaturesOff(off: nat, s: Signer): nat {
    off + 8 + |SignedBytes(s)|
  }

  lemma TopRecords(buf: seq<Byte>, off: nat, s: Signer)
    requires WellFormedSigner(s) && At(buf, off, EncodeSigner(s))
    ensures CanRead(buf, off) && BlockAt(buf, off) == Block(off + 4, |SignerBody(s)|)
    ensures |EncodeSigner(s)| == 4 + |SignerBody(s)|
    ensures |SignerBody(s)| == 12 + |SignedBytes(s)| + |SignatureBytes(s)| + |s.publicKey|
    ensures CanRead(buf, off + 4) && BlockAt(buf, off + 4) == Block(off + 8, |SignedBytes(s)|)
    ensures At(buf, off + 8, SignedBytes(s)) && Slice(buf, BlockAt(buf, off + 4)) == SignedBytes(s)
    ensures var o := SignaturesOff(off, s);
            && CanRead(buf, o) && BlockAt(buf, o) == Block(o + 4, |SignatureBytes(s)|)
            && At(buf, o + 4, SignatureBytes(s))
            && CanRead(buf, o + 4 + |SignatureBytes(s)|)
            && BlockAt(buf, o + 4 + |SignatureBytes(s)|) == Block(o + 8 + |SignatureBytes(s)|, |s.publicKey|)
            && Slice(buf, BlockAt(buf, o + 4 + |SignatureBytes(s)|)) == s.publicKey
  {
    hide LpAll, EncodeAlgs, LeValue, Le;
    var signed, sigs := SignedBytes(s), SignatureBytes(s);
    AtLp(buf, off, SignerBody(s));
    AtSplit(buf, off + 4, Lp(signed) + Lp(sigs), Lp(s.publicKey));
    AtSplit(buf, off + 4, Lp(signed), Lp(sigs));
    AtLp(buf, off + 4, signed);
    var o := SignaturesOff(off, s);
    AtLp(buf, o, sigs);
    AtLp(buf, o + 4 + |sigs|, s.publicKey);
  }

  lemma SignedRecords(buf: seq<Byte>, off: nat, s: Signer)
    requires At(buf, off + 8, SignedBytes(s)) && |SignedBytes(s)| < 0x1_0000_0000
    ensures CanRead(buf, off + 8) && BlockAt(buf, off + 8) == Block(off + 12, |DigestBytes(s)|)
    ensures At(buf, off + 12, DigestBytes(s)) && At(buf, off + 12 + |DigestBytes(s)|, Lp(LpAll(s.certificates)))
    ensures |SignedBytes(s)| == 8 + |DigestBytes(s)| + |LpAll(s.certificates)| + |s.attributes|
  {
    hide LpAll, EncodeAlgs, LeValue, Le;
    AtSplit(buf, off + 8, Lp(DigestBytes(s)) + Lp(LpAll(s.certificates)), s.attributes);
    AtSplit(buf, off + 8, Lp(DigestBytes(s)), Lp(LpAll(s.certificates)));
    AtLp(buf, off + 8, DigestBytes(s));
  }

  lemma DigestRecords(buf: seq<Byte>, off: nat, s: Signer)
    requires WellFormedSigner(s) && At(buf, off + 12, DigestBytes(s))
    requires At(buf, off + 12 + |DigestBytes(s)|, Lp(LpAll(s.certificates)))
    requires |DigestBytes(s)| < 0x1_0000_0000
    ensures CanRead(buf, off + 16) && U32(buf, off + 16) == s.digests[0].algorithm
    ensures CanRead(buf, off + 20) && BlockAt(buf, off + 20) == Block(off + 24, |s.digests[0].value|)
    ensures Slice(buf, BlockAt(buf, off + 20)) == s.digests[0].value
    ensures var next := off + 24 + |s.digests[0].value|;
            && CanRead(buf, next) && CanRead(buf, next + 4) && BlockAt(buf, next).data == next + 4
            && At(buf, next, LpAll(EncodeAlgs(s.digests[1..])))
            && next + |LpAll(EncodeAlgs(s.digests[1..]))| == off + 12 + |DigestBytes(s)|
  {
    hide LpAll, EncodeAlgs, LeValue, Le;
    AtFirstAlg(buf, off + 12, s.digests);
    AfterDigest(buf, off + 24 + |s.digests[0].value|, s);
  }

  lemma SignatureRecords(buf: seq<Byte>, off: nat, s: Signer)
    requires WellFormedSigner(s) && At(buf, SignaturesOff(off, s) + 4, SignatureBytes(s))
    requires |SignatureBytes(s)| < 0x1_0000_0000
    ensures var o := SignaturesOff(off, s) + 4;
            && CanRead(buf, o) && BlockAt(buf, o) == Block(o + 4, 8 + |s.signatures[0].value|)
            && CanRead(buf, o + 4) && U32(buf, o + 4) == s.signatures[0].algorithm
            && CanRead(buf, o + 8) && BlockAt(buf, o + 8) == Block(o + 12, |s.signatures[0].value|)
            && Slice(buf, BlockAt(buf, o + 8)) == s.signatures[0].value
            && 12 + |s.signatures[0].value| <= |SignatureBytes(s)|
  {
    AtFirstAlg(buf, SignaturesOff(off, s) + 4, s.signatures);
  }

  /** The bytes after the first digest are a record of at least eight bytes: the next
      digest, or the certificates. */
  lemma AfterDigest(buf: seq<Byte>, off: nat, s: Signer)
    requires s.digests != [] && s.certificates != []
    requires At(buf, off, LpAll(EncodeAlgs(s.digests[1..])))
    requires At(buf, off + |LpAll(EncodeAlgs(s.digests[1..]))|, Lp(LpAll(s.certificates)))
    ensures CanRead(buf, off) && CanRead(buf, off + 4)
  {
    if |s.digests| > 1 {
      var rest := s.digests[1..];
      assert EncodeAlgs(rest)[0] == EncodeAlg(rest[0]);
      assert |LpAll(EncodeAlgs(rest))| >= 12;
    } else {
      assert |LpAll(s.certificates)| >= 4;
    }
  }

  /** The certificate is looked for right behind the first digest. That is where the
      first certificate lies exactly when the signer has a single digest. */
  lemma CertificateRecovered(buf: seq<Byte>, off: nat, s: Signer)
    requires WellFormedSigner(s) && At(buf, off, EncodeSigner(s))
    ensures Readable(buf, off)
    ensures var i := InfoAt(buf, off);
            i.certificate.data == End(i.digests) + 8 <==> |s.digests| == 1
    ensures var i := InfoAt(buf, off);
            |s.digests| == 1 ==> Slice(buf, i.certificate) == s.certificates[0] && Within(i.certificate, i.signedData)
  {
    hide LpAll, EncodeAlgs, EncodeAlg, SignedBytes, SignatureBytes, DigestBytes, SignerBody, Lp, At, Le, LeValue;
    SignerRecovered(buf, off, s);
    RestDigests(s);
    if |s.digests| == 1 {
      CertificatesFit(s);
      TopRecords(buf, off, s);
      SignedRecords(buf, off, s);
      FirstCertificate(buf, End(InfoAt(buf, off).digests), s);
    }
  }

  lemma RestDigests(s: Signer)
    requires s.digests != []
    ensures |s.digests| == 1 <==> |LpAll(EncodeAlgs(s.digests[1..]))| == 0
  {
    if |s.digests| > 1 {
      var rest := s.digests[1..];
      assert EncodeAlgs(rest)[0] == EncodeAlg(rest[0]);
    }
  }

  lemma FirstCertificate(buf: seq<Byte>, at: nat, s: Signer)
    requires s.certificates != [] && At(buf, at, Lp(LpAll(s.certificates)))
    requires |LpAll(s.certificates)| < 0x1_0000_0000 && |s.certificates[0]| < 0x1_0000_0000
    ensures CanRead(buf, at) && BlockAt(buf, at) == Block(at + 4, |LpAll(s.certificates)|)
    ensures CanRead(buf, at + 4) && BlockAt(buf, at + 4) == Block(at + 8, |s.certificates[0]|)
    ensures Slice(buf, BlockAt(buf, at + 4)) == s.certificates[0]
  {
    hide Le, LeValue;
    AtLp(buf, at, LpAll(s.certificates));
    AtSplit(buf, at + 4, Lp(s.certificates[0]), LpAll(s.certificates[1..]));
    AtLp(buf, at + 4, s.certificates[0]);
  }

  lemma CertificatesFit(s: Signer)
    requires WellFormedSigner(s)
    ensures |s.certificates[0]| + 4 <= |LpAll(s.certificates)|
    ensures |LpAll(s.certificates)| + 8 + |DigestBytes(s)| <= |SignedBytes(s)| < 0x1_0000_0000
  {
  }
}
