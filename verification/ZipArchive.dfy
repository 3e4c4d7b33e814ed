/** A signed archive as a file: data, signing block, central directory and end of
    central directory record, and how zip_verify finds them from the end. */
module ZipArchive {
  import opened Bytes
  import opened MachineInts
  import opened Wrappers
  import opened ZipRecords

  function Min(a: int, b: int): int {
    if a <= b then a else b
  }

  /** What the environment does to the reads of an open file: the k-th read fails when
      env(k) is negative, and otherwise delivers at most that many bytes, but at least
      one unless the end is reached. */
  type Reads = nat -> int

  ghost predicate NoFailure(env: Reads) {
    forall k: nat :: env(k) >= 0
  }

  /** None from the k-th read on. */
  ghost predicate NoFailureFrom(env: Reads, k: nat) {
    forall j: nat :: j >= k ==> env(j) >= 0
  }

  /** The result of a read of n bytes at `pos` in a file of this size. */
  function Delivered(limit: int, n: nat, pos: nat, size: nat): (r: int)
    ensures -1 <= r <= n
    ensures r == n > 0 ==> pos + n <= size
    ensures n > 1 && limit < n ==> r < n
    ensures limit >= n && pos + n <= size ==> r == n
  {
    if limit < 0 then -1
    else if n == 0 || pos >= size then 0
    else if limit < 1 then 1
    else Min(limit, Min(n, size - pos))
  }

  class File {
    const bytes: seq<Byte>
    const env: Reads
    var pos: nat
    var count: nat

    constructor (bytes: seq<Byte>, env: Reads)
      ensures this.bytes == bytes && this.env == env && pos == 0 && count == 0
    {
      this.bytes, this.env, pos, count := bytes, env, 0, 0;
    }

    /** Sets the position relative to the start or the end; a negative target is refused. */
    method Lseek(off: int, fromEnd: bool) returns (r: int)
      modifies this`pos
      ensures var target := off + if fromEnd then |bytes| else 0;
              if target < 0 then r == -1 && pos == old(pos) else r == pos == target
    {
      var target := off + if fromEnd then |bytes| else 0;
      if target < 0 {
        return -1;
      }
      pos := target;
      r := target;
    }

    method Read(n: nat) returns (r: int, got: seq<Byte>)
      modifies this
      ensures count == old(count) + 1
      ensures r == Delivered(env(old(count)), n, old(pos), |bytes|)
      ensures pos == old(pos) + |got| && |got| == if r < 0 then 0 else r
      ensures r > 0 ==> pos <= |bytes| && got == bytes[old(pos)..pos]
    {
      var limit := env(count);
      count := count + 1;
      if limit < 0 {
        return -1, [];
      }
      var avail := if pos >= |bytes| then 0 else |bytes| - pos;
      var most := if n <= avail then n else avail;
      if most == 0 {
        return 0, [];
      }
      var k := if limit < 1 then 1 else if limit < most then limit else most;
      got := bytes[pos..pos + k];
      pos := pos + k;
      r := k;
    }
  }

  // ----- locating the regions

  datatype AppBlock = AppBlock(data: Block, signature: Block, directory: Block, eocd: Block)

  const MAGIC: seq<Byte> :=
    [0x41, 0x50, 0x4b, 0x20, 0x53, 0x69, 0x67, 0x20, 0x42, 0x6c, 0x6f, 0x63, 0x6b, 0x20, 0x34, 0x32]

  lemma MagicSpells()
    ensures |MAGIC| == |"APK Sig Block 42"|
    ensures forall i :: 0 <= i < |MAGIC| ==> MAGIC[i] == "APK Sig Block 42"[i] as int
  {
  }

  /** Where the directory offset is read: in the end record, unless the comment is said
      to be longer than the file; then the seek is refused and the start is read. */
  function FieldAt(bytes: seq<Byte>, commentLen: nat): nat {
    if commentLen + 6 <= |bytes| then |bytes| - commentLen - 6 else 0
  }

  predicate FieldReadable(bytes: seq<Byte>, commentLen: nat) {
    FieldAt(bytes, commentLen) + 4 <= |bytes|
  }

  function DirectoryOffset(bytes: seq<Byte>, commentLen: nat): nat
    requires FieldReadable(bytes, commentLen)
  {
    U32(bytes, FieldAt(bytes, commentLen))
  }

  /** Start of the end record; when the seek to it is refused, where the last read ended. */
  function EocdStart(bytes: seq<Byte>, commentLen: nat): nat
    requires FieldReadable(bytes, commentLen)
  {
    if commentLen + 22 <= |bytes| then |bytes| - commentLen - 22
    else U32Wrap(DirectoryOffset(bytes, commentLen) - 24) + 8
  }

  predicate MagicBefore(bytes: seq<Byte>, directory: nat) {
    && U32Wrap(directory - 16) + 16 <= |bytes|
    && bytes[U32Wrap(directory - 16)..U32Wrap(directory - 16) + 16] == MAGIC
  }

  predicate SizeReadable(bytes: seq<Byte>, directory: nat) {
    U32Wrap(directory - 24) + 8 <= |bytes|
  }

  predicate Locatable(bytes: seq<Byte>, commentLen: nat) {
    FieldReadable(bytes, commentLen) && SizeReadable(bytes, DirectoryOffset(bytes, commentLen))
  }

  /** There is a signing block before the directory. */
  predicate HasSigningBlock(bytes: seq<Byte>, commentLen: nat) {
    Locatable(bytes, commentLen) && MagicBefore(bytes, DirectoryOffset(bytes, commentLen))
  }

  /** The regions zip_verify works with, in the 32 bit arithmetic it uses. */
  function Regions(bytes: seq<Byte>, commentLen: nat): AppBlock
    requires Locatable(bytes, commentLen)
  {
    var dir := DirectoryOffset(bytes, commentLen);
    var eocd := EocdStart(bytes, commentLen);
    var at := U32Wrap(dir - 24);
    var sigLen := U32Wrap(LeValue(bytes[at..at + 8]));
    var sig := U32Wrap(dir - sigLen);
    AppBlock(Block(0, U32Wrap(sig - 8)), Block(sig, sigLen), Block(dir, U32Wrap(eocd - dir)),
             Block(eocd, U32Wrap(commentLen + 22)))
  }

  /** The three reads that locate the regions deliver what they ask for. */
  predicate LocatingReads(env: Reads) {
    env(0) >= 4 && env(1) >= 16 && env(2) >= 8
  }

  /** `parse_app_block`, for any file, any comment length and any schedule. Its reads are
      not retried and its seeks not checked. */
  method ParseAppBlock(bytes: seq<Byte>, commentLen: nat, env: Reads) returns (r: Option<AppBlock>)
    ensures r.Some? <==> LocatingReads(env) && HasSigningBlock(bytes, commentLen)
    ensures r.Some? ==> r.value == Regions(bytes, commentLen)
  {
    hide LeValue, U32Wrap;
    var fd := new File(bytes, env);
    var pointer: int := 0 - commentLen - 4 - 2;
    var ok, field := ReadAt(fd, pointer, true, 4);
    if !ok {
      return None;
    }
    var dir: int := LeValue(field);
    assert dir == DirectoryOffset(bytes, commentLen);

    var magic, size;
    ok, magic := ReadAt(fd, U32Wrap(dir - 16), false, 16);
    if !ok {
      return None;
    }
    if magic != MAGIC {
      return None;
    }

    ok, size := ReadAt(fd, U32Wrap(dir - 16 - 8), false, 8);
    if !ok {
      return None;
    }
    var sigLen: int := U32Wrap(LeValue(size));
    var sig: int := U32Wrap(dir - sigLen);

    var eocdStart: int := pointer - 16;
    var _ := fd.Lseek(eocdStart, true);
    var eocdLen := U32Wrap(-eocdStart);
    eocdStart := fd.pos;
    var dirLen := U32Wrap(eocdStart - dir);
    var dataLen := U32Wrap(sig - 8);
    r := Some(AppBlock(Block(0, dataLen), Block(sig, sigLen), Block(dir, dirLen), Block(eocdStart, eocdLen)));
  }

  /** A seek, which leaves the position when it is refused, and a read that must be complete. */
  method ReadAt(fd: File, off: int, fromEnd: bool, n: nat) returns (ok: bool, got: seq<Byte>)
    requires n > 1
    modifies fd
    ensures fd.count == old(fd.count) + 1
    ensures var target := off + if fromEnd then |fd.bytes| else 0;
            var at := if target < 0 then old(fd.pos) else target;
            && (ok <==> at + n <= |fd.bytes| && fd.env(old(fd.count)) >= n)
            && (ok ==> got == fd.bytes[at..at + n] && fd.pos == at + n)
  {
    var _ := fd.Lseek(off, fromEnd);
    var res;
    res, got := fd.Read(n);
    ok := res == n;
  }

  // ----- tiling

  /** The four regions, and the eight bytes of the signing block's leading size, lie
      end to end and cover the file. */
  predicate Tiles(a: AppBlock, size: nat) {
    && a.data.data == 0 && End(a.data) + 8 == a.signature.data
    && End(a.signature) == a.directory.data
    && End(a.directory) == a.eocd.data && End(a.eocd) == size
  }

  /** For any file, whatever its contents, the regions found tile it exactly when the end
      record fits, the directory lies less than 4 GiB before it, and the signing block,
      with its leading size, before the directory. */
  lemma RegionsTile(bytes: seq<Byte>, commentLen: nat)
    requires Locatable(bytes, commentLen) && commentLen < 65536
    ensures var a := Regions(bytes, commentLen);
            Tiles(a, |bytes|) <==>
              && commentLen + 22 <= |bytes|
              && 0 <= EocdStart(bytes, commentLen) - a.directory.data < 0x1_0000_0000
              && a.signature.length + 8 <= a.directory.data
  {
    hide LeValue;
    LeBound(bytes[FieldAt(bytes, commentLen)..FieldAt(bytes, commentLen) + 4]);
    Widths();
  }

  /** The end record of located regions starts inside the file, if below 2 GiB. */
  lemma EocdInsideFile(bytes: seq<Byte>, commentLen: nat)
    requires HasSigningBlock(bytes, commentLen) && EocdStart(bytes, commentLen) < 0x8000_0000
    ensures EocdStart(bytes, commentLen) < |bytes|
  {
    hide LeValue;
  }

  /** A directory offset behind the end record is less than 1 MiB behind, unless the magic
      before it wraps around: the directory lies behind the magic and so inside the file. */
  lemma DirectoryNotFarBehind(bytes: seq<Byte>, commentLen: nat)
    requires HasSigningBlock(bytes, commentLen) && commentLen < 65536 && commentLen + 22 <= |bytes|
    requires DirectoryOffset(bytes, commentLen) >= 16
    ensures DirectoryOffset(bytes, commentLen) - EocdStart(bytes, commentLen) <= 22 + commentLen < 1048576
  {
    hide LeValue;
    LeBound(bytes[FieldAt(bytes, commentLen)..FieldAt(bytes, commentLen) + 4]);
    Widths();
  }

  // ----- building an archive

  /** The parts of an archive; `head` is the end record up to the directory offset. */
  datatype Archive = Archive(data: seq<Byte>, pairs: seq<Byte>, directory: seq<Byte>, head: seq<Byte>,
                             comment: seq<Byte>)

  function SignatureBody(a: Archive): seq<Byte> {
    a.pairs + Le(|a.pairs| + 24, 8) + MAGIC
  }

  function SigningBlock(a: Archive): seq<Byte> {
    Le(|a.pairs| + 24, 8) + SignatureBody(a)
  }

  function DirectoryAt(a: Archive): nat {
    |a.data| + 8 + |a.pairs| + 24
  }

  function EocdRecord(a: Archive, offset: nat): seq<Byte> {
    a.head + Le(offset, 4) + Le(|a.comment|, 2) + a.comment
  }

  function FileBytes(a: Archive): seq<Byte> {
    a.data + SigningBlock(a) + a.directory + EocdRecord(a, DirectoryAt(a))
  }

  predicate WellFormedArchive(a: Archive) {
    |a.head| == 16 && |a.comment| < 65536 && DirectoryAt(a) < 0x1_0000_0000 && |a.directory| < 0x1_0000_0000
  }

  function EocdAt(a: Archive): nat {
    DirectoryAt(a) + |a.directory|
  }

  lemma Whole(f: seq<Byte>)
    ensures At(f, 0, f)
  {
  }

  lemma Cut(a: Archive)
    requires WellFormedArchive(a)
    ensures var f := FileBytes(a);
            && |f| == EocdAt(a) + 22 + |a.comment|
            && At(f, 0, a.data)
            && At(f, |a.data| + 8, SignatureBody(a))
            && At(f, DirectoryAt(a), a.directory)
            && At(f, EocdAt(a), EocdRecord(a, DirectoryAt(a)))
  {
    hide Le, LeValue, At, EocdRecord, SignatureBody;
    Sizes(a);
    var f := FileBytes(a);
    Whole(f);
    AtSplit(f, 0, a.data + SigningBlock(a) + a.directory, EocdRecord(a, DirectoryAt(a)));
    AtSplit(f, 0, a.data + SigningBlock(a), a.directory);
    AtSplit(f, 0, a.data, SigningBlock(a));
    AtSplit(f, |a.data|, Le(|a.pairs| + 24, 8), SignatureBody(a));
  }

  /** The parts of a file laid out by FileBytes, each at its position. */
  lemma Parts(a: Archive)
    requires WellFormedArchive(a)
    ensures var f := FileBytes(a);
            && |f| == EocdAt(a) + 22 + |a.comment|
            && At(f, 0, a.data)
            && At(f, |a.data| + 8, SignatureBody(a))
            && At(f, |a.data| + 8, a.pairs)
            && At(f, DirectoryAt(a) - 24, Le(|a.pairs| + 24, 8))
            && At(f, DirectoryAt(a) - 16, MAGIC)
            && At(f, DirectoryAt(a), a.directory)
            && At(f, EocdAt(a), EocdRecord(a, DirectoryAt(a)))
            && At(f, EocdAt(a) + 16, Le(DirectoryAt(a), 4))
  {
    hide Le, LeValue, FileBytes;
    var f := FileBytes(a);
    Cut(a);
    AtSplit(f, |a.data| + 8, a.pairs + Le(|a.pairs| + 24, 8), MAGIC);
    AtSplit(f, |a.data| + 8, a.pairs, Le(|a.pairs| + 24, 8));
    OffsetAt(f, EocdAt(a), a, DirectoryAt(a));
  }

  lemma OffsetAt(f: seq<Byte>, at: nat, a: Archive, offset: nat)
    requires At(f, at, EocdRecord(a, offset))
    ensures At(f, at + |a.head|, Le(offset, 4))
  {
    hide Le;
    AtSplit(f, at, a.head + Le(offset, 4) + Le(|a.comment|, 2), a.comment);
    AtSplit(f, at, a.head + Le(offset, 4), Le(|a.comment|, 2));
    AtSplit(f, at, a.head, Le(offset, 4));
  }

  /** The end record and the trailing size of the signing block are found and read back. */
  lemma FieldsRead(a: Archive)
    requires WellFormedArchive(a)
    ensures var f := FileBytes(a);
            && |f| == EocdAt(a) + 22 + |a.comment|
            && HasSigningBlock(f, |a.comment|) && DirectoryOffset(f, |a.comment|) == DirectoryAt(a)
            && LeValue(f[DirectoryAt(a) - 24..DirectoryAt(a) - 16]) == |a.pairs| + 24
  {
    hide Le, LeValue, FileBytes, EocdRecord;
    Parts(a);
    Sizes(a);
    Widths();
    LeRoundTrip(DirectoryAt(a), 4);
    LeRoundTrip(|a.pairs| + 24, 8);
  }

  lemma RegionsAre(a: Archive)
    requires WellFormedArchive(a)
    ensures Locatable(FileBytes(a), |a.comment|)
    ensures Regions(FileBytes(a), |a.comment|) ==
            AppBlock(Block(0, |a.data|), Block(|a.data| + 8, |a.pairs| + 24),
                     Block(DirectoryAt(a), |a.directory|), Block(EocdAt(a), 22 + |a.comment|))
  {
    hide Le, LeValue, FileBytes, MagicBefore, DirectoryOffset;
    FieldsRead(a);
  }

  /** Laying out an archive, with any comment, and locating its regions gives back the
      same four regions, which tile the file. */
  lemma ArchiveRoundTrip(a: Archive)
    requires WellFormedArchive(a)
    ensures var f := FileBytes(a);
            && HasSigningBlock(f, |a.comment|) && DirectoryOffset(f, |a.comment|) == DirectoryAt(a)
            && var r := Regions(f, |a.comment|);
            && Tiles(r, |f|)
            && Slice(f, r.data) == a.data
            && Slice(f, r.signature) == SignatureBody(a)
            && Slice(f, r.directory) == a.directory
            && Slice(f, r.eocd) == EocdRecord(a, DirectoryAt(a))
            && r.data.length == |a.data|
  {
    hide Le, LeValue, FileBytes, EocdRecord, Regions, DirectoryOffset, MagicBefore;
    Parts(a);
    Sizes(a);
    FieldsRead(a);
    RegionsAre(a);
  }

  lemma Sizes(a: Archive)
    requires WellFormedArchive(a)
    ensures |EocdRecord(a, DirectoryAt(a))| == 22 + |a.comment|
    ensures |SignatureBody(a)| == |a.pairs| + 24
  {
  }

  // ----- taking a file apart

  /** Regions as a well-formed file has them: tiling, with the magic inside the signing
      block. */
  predicate Located(bytes: seq<Byte>, commentLen: nat) {
    && HasSigningBlock(bytes, commentLen) && commentLen < 65536
    && Tiles(Regions(bytes, commentLen), |bytes|) && Regions(bytes, commentLen).signature.length >= 24
  }

  function PartsOf(bytes: seq<Byte>, commentLen: nat): Archive
    requires Located(bytes, commentLen)
  {
    var r := Regions(bytes, commentLen);
    Archive(Slice(bytes, r.data), bytes[r.signature.data..r.directory.data - 24], Slice(bytes, r.directory),
            bytes[r.eocd.data..r.eocd.data + 16], bytes[r.eocd.data + 22..])
  }

  /** The fields zip_verify does not look at agree with those it does: the leading size
      of the signing block with the trailing one, and the comment length in the end record
      with the length of the comment. */
  predicate Consistent(bytes: seq<Byte>, commentLen: nat)
    requires Located(bytes, commentLen)
  {
    var r := Regions(bytes, commentLen);
    var size := bytes[r.directory.data - 24..r.directory.data - 16];
    && bytes[r.data.length..r.signature.data] == size && LeValue(size) < 0x1_0000_0000
    && LeValue(bytes[r.eocd.data + 20..r.eocd.data + 22]) == commentLen
  }

  /** The five parts and the fields between them, by position. */
  predicate Cuts(bytes: seq<Byte>, a: Archive, d: nat, dir: nat, e: nat) {
    && d + 32 <= dir <= e && e + 22 <= |bytes|
    && a.data == bytes[..d] && a.pairs == bytes[d + 8..dir - 24] && a.directory == bytes[dir..e]
    && a.head == bytes[e..e + 16] && a.comment == bytes[e + 22..]
    && bytes[dir - 16..dir] == MAGIC && LeValue(bytes[e + 16..e + 20]) == dir
  }

  lemma PartsAre(bytes: seq<Byte>, commentLen: nat)
    requires Located(bytes, commentLen)
    ensures var r := Regions(bytes, commentLen);
            var d, n, dir, e := r.data.length, r.signature.length, r.directory.data, r.eocd.data;
            && Cuts(bytes, PartsOf(bytes, commentLen), d, dir, e)
            && r.signature.data == d + 8 && dir == d + 8 + n && e + 22 + commentLen == |bytes|
            && n == U32Wrap(LeValue(bytes[dir - 24..dir - 16])) && dir < 0x1_0000_0000
  {
    hide LeValue;
    LeBound(bytes[FieldAt(bytes, commentLen)..FieldAt(bytes, commentLen) + 4]);
    Widths();
  }

  /** Reading a number of k bytes and laying it out are inverse to each other. */
  lemma ReadsBack(n: nat, k: nat, s: seq<Byte>)
    requires |s| == k && n < Pow256(k)
    ensures Le(n, k) == s <==> LeValue(s) == n
  {
    LeRoundTrip(n, k);
    LeUnique(s);
  }

  /** The converse of the round trip: a file whose regions are located is the one laid out
      from its own parts exactly when those fields are consistent. */
  lemma RebuildsFile(bytes: seq<Byte>, commentLen: nat)
    requires Located(bytes, commentLen)
    ensures FileBytes(PartsOf(bytes, commentLen)) == bytes <==> Consistent(bytes, commentLen)
  {
    hide Le, LeValue, FileBytes, Regions, MagicBefore, SizeReadable, DirectoryOffset, Tiles, PartsOf, Cuts;
    PartsAre(bytes, commentLen);
    var r := Regions(bytes, commentLen);
    var d, dir, e := r.data.length, r.directory.data, r.eocd.data;
    Rebuilt(bytes, PartsOf(bytes, commentLen), d, dir, e);
  }

  lemma Rebuilt(bytes: seq<Byte>, a: Archive, d: nat, dir: nat, e: nat)
    requires Cuts(bytes, a, d, dir, e) && dir < 0x1_0000_0000 && |bytes| - e - 22 < 65536
    ensures FileBytes(a) == bytes <==>
              && bytes[d..d + 8] == bytes[dir - 24..dir - 16] && LeValue(bytes[dir - 24..dir - 16]) == dir - d - 8
              && LeValue(bytes[e + 20..e + 22]) == |bytes| - e - 22
  {
    hide Le, LeValue, FileBytes, Pieces;
    var size, length := Le(dir - d - 8, 8), Le(|bytes| - e - 22, 2);
    Widths();
    ReadsBack(dir - d - 8, 8, bytes[dir - 24..dir - 16]);
    ReadsBack(|bytes| - e - 22, 2, bytes[e + 20..e + 22]);
    ReadsBack(dir, 4, bytes[e + 16..e + 20]);
    Assembled(bytes, a, d, dir, e, size, length);
    PiecesSame(bytes, d, dir, e, size, length);
  }

  lemma LaidOut(a: Archive, size: seq<Byte>, offset: seq<Byte>, length: seq<Byte>)
    requires size == Le(|a.pairs| + 24, 8) && offset == Le(DirectoryAt(a), 4) && length == Le(|a.comment|, 2)
    ensures FileBytes(a) ==
            a.data + (size + (a.pairs + size + MAGIC)) + a.directory + (a.head + offset + length + a.comment)
  {
    hide Le;
  }

  lemma Assembled(bytes: seq<Byte>, a: Archive, d: nat, dir: nat, e: nat, size: seq<Byte>, length: seq<Byte>)
    requires Cuts(bytes, a, d, dir, e) && bytes[e + 16..e + 20] == Le(dir, 4)
    requires size == Le(dir - d - 8, 8) && length == Le(|a.comment|, 2)
    ensures FileBytes(a) == Pieces(bytes, d, dir, e, size, size, length)
  {
    hide Le, FileBytes, EocdRecord;
    var offset := Le(dir, 4);
    LaidOut(a, size, offset, length);
    InARow(bytes, dir - 16, dir, e, e + 16, e + 20);
    Regroup(a.data, size, a.pairs, MAGIC, a.directory, a.head, offset, length, a.comment);
  }

  lemma InARow(s: seq<Byte>, i: nat, j: nat, k: nat, l: nat, m: nat)
    requires i <= j <= k <= l <= m <= |s|
    ensures s[i..m] == s[i..j] + s[j..k] + s[k..l] + s[l..m]
  {
    assert s[i..m] == s[i..l] + s[l..m] && s[i..l] == s[i..k] + s[k..l] && s[i..k] == s[i..j] + s[j..k];
  }

  lemma Regroup(data: seq<Byte>, size: seq<Byte>, pairs: seq<Byte>, magic: seq<Byte>, directory: seq<Byte>,
                head: seq<Byte>, offset: seq<Byte>, length: seq<Byte>, comment: seq<Byte>)
    ensures data + (size + (pairs + size + magic)) + directory + (head + offset + length + comment) ==
            data + size + pairs + size + (magic + directory + head + offset) + length + comment
  {
    var front := data + size + pairs + size;
    Assoc(data, size, pairs + size + magic);
    Assoc(data + size, pairs + size, magic);
    Assoc(data + size, pairs, size);
    var x := front + magic + directory;
    Assoc(x, head + offset + length, comment);
    Assoc(x, head + offset, length);
    Assoc(x, head, offset);
    Assoc(front, magic, directory);
    Assoc(front, magic + directory, head);
    Assoc(front, magic + directory + head, offset);
  }

  /** The file with these bytes in place of its two size fields and its comment length. */
  function Pieces(bytes: seq<Byte>, d: nat, dir: nat, e: nat, leading: seq<Byte>, trailing: seq<Byte>,
                  comment: seq<Byte>): seq<Byte>
    requires d + 32 <= dir <= e && e + 22 <= |bytes|
  {
    bytes[..d] + leading + bytes[d + 8..dir - 24] + trailing + bytes[dir - 16..e + 20] + comment + bytes[e + 22..]
  }

  lemma PiecesSame(bytes: seq<Byte>, d: nat, dir: nat, e: nat, size: seq<Byte>, comment: seq<Byte>)
    requires d + 32 <= dir <= e && e + 22 <= |bytes| && |size| == 8 && |comment| == 2
    ensures Pieces(bytes, d, dir, e, size, size, comment) == bytes <==>
              size == bytes[d..d + 8] == bytes[dir - 24..dir - 16] && comment == bytes[e + 20..e + 22]
  {
    var p := Pieces(bytes, d, dir, e, size, size, comment);
    assert p[d..d + 8] == size && p[dir - 24..dir - 16] == size && p[e + 20..e + 22] == comment;
    assert Pieces(bytes, d, dir, e, bytes[d..d + 8], bytes[dir - 24..dir - 16], bytes[e + 20..e + 22]) == bytes;
  }
}
