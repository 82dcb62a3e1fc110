/** The checkpoint file: a relation file, a progress trailer, a cluster block of any node count
    and a footer at the very end. */
module CheckpointFile {

  import opened Basics
  import opened Bytes
  import opened ByteCodec
  import opened Relations
  import opened RelationFile

  const TRAILER_MAGIC: seq<nat> := [77, 80, 81, 83, 95, 67, 75, 80, 84]
  const FOOTER_MAGIC: seq<nat> := [77, 80, 81, 83, 95, 67, 75, 70, 84]
  const SCHEMA: nat := 1
  const FOOTER_SIZE: nat := 29
  const TRAILER_SIZE: nat := 138

  /** Six 64-bit counters (cursor, target, raw and deduplicated smooths, partials, large prime
      bound), the sieve bound, the modulus, the cluster flag and the elapsed seconds. */
  datatype Trailer = Trailer(
    counters: seq<nat>,
    sieveBound: nat,
    N: nat,
    clusterPresent: nat,
    elapsed: nat)

  datatype ClusterBlock = ClusterBlock(cursor: nat, highWater: seq<nat>)

  const NO_BLOCK := ClusterBlock(0, [])

  datatype Loaded = Loaded(trailer: Trailer, cluster: ClusterBlock, contents: Contents)

  const TRAILER_SHAPE := [Section(9, 1), Section(1, 4), Section(6, 8), Section(1, 4),
                          Section(1, 64), Section(1, 1), Section(1, 8)]
  const FOOTER_SHAPE := [Section(9, 1), Section(2, 8), Section(1, 4)]

  // ---------------------------------------------------------------------------
  // Writing
  // ---------------------------------------------------------------------------

  ghost predicate TrailerFits(t: Trailer) {
    && |t.counters| == 6 && Below(t.counters, WORD64)
    && t.sieveBound < WORD32 && t.N < Pow256(64) && t.clusterPresent < 256 && t.elapsed < WORD64
  }

  ghost predicate BlockFits(b: ClusterBlock) {
    b.cursor < WORD64 && |b.highWater| < WORD32 && Below(b.highWater, WORD64)
  }

  function TrailerWords(t: Trailer): seq<seq<nat>> {
    [TRAILER_MAGIC, [SCHEMA], t.counters, [t.sieveBound], [t.N], [t.clusterPresent], [t.elapsed]]
  }

  ghost function PutTrailer(t: Trailer): (s: seq<byte>)
    requires TrailerFits(t)
  {
    PutFrom(TrailerWords(t), TRAILER_SHAPE, 0)
  }

  function PutBlock(b: ClusterBlock): (s: seq<byte>)
    ensures |s| == 12 + 8 * |b.highWater|
  {
    LittleEndian(b.cursor, 8) + (LittleEndian(|b.highWater|, 4) + PutWords(b.highWater, 8))
  }

  /** The block goes in only if the trailer announces it and there is one. */
  function PutCluster(t: Trailer, cluster: Option<ClusterBlock>): seq<byte> {
    if t.clusterPresent != 0 && cluster.Some? then PutBlock(cluster.value) else []
  }

  function PutFooter(offset: nat, length: nat): seq<byte> {
    PutFrom([FOOTER_MAGIC, [offset, length], [SCHEMA]], FOOTER_SHAPE, 0)
  }

  ghost function PutTail(t: Trailer, cluster: Option<ClusterBlock>, offset: nat): seq<byte>
    requires TrailerFits(t)
  {
    var region := PutTrailer(t) + PutCluster(t, cluster);
    region + PutFooter(offset, |region|)
  }

  ghost predicate Writable(full: Batch, partials: Batch, m: Meta, t: Trailer,
                           cluster: Option<ClusterBlock>) {
    && FileFits(full, partials, m) && TrailerFits(t)
    && (cluster.Some? ==> BlockFits(cluster.value))
    && |SerializeV2(full, partials, m)| + |PutTrailer(t) + PutCluster(t, cluster)| + FOOTER_SIZE
       < WORD64
  }

  /** The bytes of a checkpoint file. */
  ghost function CheckpointBytes(full: Batch, partials: Batch, m: Meta, t: Trailer,
                                 cluster: Option<ClusterBlock>): seq<byte>
    requires Writable(full, partials, m, t, cluster)
  {
    var payload := SerializeV2(full, partials, m);
    payload + PutTail(t, cluster, |payload|)
  }

  // ---------------------------------------------------------------------------
  // Reading
  // ---------------------------------------------------------------------------

  function ReadTrailer(s: seq<byte>): Read<Trailer> {
    match TakeFrom(s, TRAILER_SHAPE, 0)
    case Short => Short
    case Got(x, rest) =>
      TakeFromShaped(s, TRAILER_SHAPE, 0);
      assert TRAILER_SHAPE[0..] == TRAILER_SHAPE;
      if x[0] != TRAILER_MAGIC || x[1] != [SCHEMA] then Short
      else Got(Trailer(x[2], x[3][0], x[4][0], x[5][0], x[6][0]), rest)
  }

  /** A node count that cannot fit the region left is corrupt. */
  function ReadBlock(s: seq<byte>, regionLeft: nat): Read<ClusterBlock> {
    match TakeOne(s, 8)
    case Short => Short
    case Got(cursor, s1) =>
      match TakeOne(s1, 4)
      case Short => Short
      case Got(n, s2) =>
        if n * 8 + 12 > regionLeft then Short
        else
          match Take(s2, n, 8)
          case Short => Short
          case Got(hw, rest) => Got(ClusterBlock(cursor, hw), rest)
  }

  /** Trailer and cluster block at `offset`; the block must end where the region does. */
  function ReadRegion(file: seq<byte>, offset: nat, length: nat): Option<(Trailer, ClusterBlock)> {
    if offset > |file| then None
    else
      match ReadTrailer(file[offset..])
      case Short => None
      case Got(t, rest) =>
        if t.clusterPresent == 0 then Some((t, NO_BLOCK))
        else
          match ReadBlock(rest, if length > TRAILER_SIZE then length - TRAILER_SIZE else 0)
          case Short => None
          case Got(b, later) => if |file| - |later| != offset + length then None else Some((t, b))
  }

  /** Offset and length of the trailer region, from the last bytes of the file. */
  function ReadFooter(s: seq<byte>): Option<(nat, nat)> {
    match TakeFrom(s, FOOTER_SHAPE, 0)
    case Short => None
    case Got(x, _) =>
      TakeFromShaped(s, FOOTER_SHAPE, 0);
      assert FOOTER_SHAPE[0..] == FOOTER_SHAPE;
      if x[0] != FOOTER_MAGIC || x[2] != [SCHEMA] then None else Some((x[1][0], x[1][1]))
  }

  function ReadCheckpoint(file: seq<byte>): Option<Loaded> {
    if |file| < FOOTER_SIZE then None
    else
      match ReadFooter(file[|file| - FOOTER_SIZE..])
      case None => None
      case Some((offset, length)) =>
        if (offset + length + FOOTER_SIZE) % WORD64 != |file| then None
        else
          match ReadRegion(file, offset, length)
          case None => None
          case Some((trailer, cluster)) =>
            match DeserializeV2(file)
            case Short => None
            case Got(contents, _) => Some(Loaded(trailer, cluster, contents))
  }

  // ---------------------------------------------------------------------------
  // Reading what was written
  // ---------------------------------------------------------------------------

  lemma TrailerShaped(t: Trailer)
    requires TrailerFits(t)
    ensures Shaped(TrailerWords(t), TRAILER_SHAPE)
  {
    Pow256Values();
  }

  lemma TrailerSize(t: Trailer)
    requires TrailerFits(t)
    ensures |PutTrailer(t)| == TRAILER_SIZE
  {
    hide PutWords;
    var x, sh := TrailerWords(t), TRAILER_SHAPE;
    assert |PutFrom(x, sh, 7)| == 0;
    assert |PutFrom(x, sh, 6)| == 8;
    assert |PutFrom(x, sh, 5)| == 9;
    assert |PutFrom(x, sh, 4)| == 73;
    assert |PutFrom(x, sh, 3)| == 77;
    assert |PutFrom(x, sh, 2)| == 125;
    assert |PutFrom(x, sh, 1)| == 129;
  }

  lemma FooterSize(offset: nat, length: nat)
    ensures |PutFooter(offset, length)| == FOOTER_SIZE
  {
    hide PutWords;
    var x, sh := [FOOTER_MAGIC, [offset, length], [SCHEMA]], FOOTER_SHAPE;
    assert |PutFrom(x, sh, 3)| == 0;
    assert |PutFrom(x, sh, 2)| == 4;
    assert |PutFrom(x, sh, 1)| == 20;
  }

  lemma ReadTrailerPut(t: Trailer, rest: seq<byte>)
    requires TrailerFits(t)
    ensures ReadTrailer(PutTrailer(t) + rest) == Got(t, rest)
  {
    TrailerShaped(t);
    hide TakeFrom, PutFrom;
    TakeFromPut(TrailerWords(t), TRAILER_SHAPE, 0, rest);
    assert TrailerWords(t)[0..] == TrailerWords(t);
  }

  lemma ReadBlockPut(b: ClusterBlock, rest: seq<byte>, regionLeft: nat)
    requires BlockFits(b) && regionLeft >= |PutBlock(b)|
    ensures ReadBlock(PutBlock(b) + rest, regionLeft) == Got(b, rest)
  {
    hide Take, TakeOne, PutWords, LittleEndian;
    Pow256Values();
    var c, n, h := LittleEndian(b.cursor, 8), LittleEndian(|b.highWater|, 4),
                   PutWords(b.highWater, 8);
    assert (c + (n + h)) + rest == c + (n + (h + rest));
    TakeOnePut(b.cursor, 8, n + (h + rest));
    TakeOnePut(|b.highWater|, 4, h + rest);
    TakePut(b.highWater, 8, rest);
  }

  /** Without a block in the region its first read fails the size check. */
  lemma NoBlockFails(s: seq<byte>)
    ensures ReadBlock(s, 0).Short?
  {
  }

  /** The trailer announces a block exactly if one was passed, or announces none. */
  predicate Announced(t: Trailer, cluster: Option<ClusterBlock>) {
    t.clusterPresent != 0 ==> cluster.Some?
  }

  function KeptBlock(t: Trailer, cluster: Option<ClusterBlock>): ClusterBlock
    requires Announced(t, cluster)
  {
    if t.clusterPresent != 0 then cluster.value else NO_BLOCK
  }

  lemma ReadRegionPut(payload: seq<byte>, t: Trailer, cluster: Option<ClusterBlock>,
                      footer: seq<byte>)
    requires TrailerFits(t) && (cluster.Some? ==> BlockFits(cluster.value))
    ensures var region := PutTrailer(t) + PutCluster(t, cluster);
            ReadRegion(payload + (region + footer), |payload|, |region|)
            == if Announced(t, cluster) then Some((t, KeptBlock(t, cluster))) else None
  {
    hide PutTrailer, ReadTrailer, PutBlock, ReadBlock, TrailerFits, BlockFits;
    var tr, cl := PutTrailer(t), PutCluster(t, cluster);
    var file := payload + ((tr + cl) + footer);
    assert file[|payload|..] == tr + (cl + footer);
    ReadTrailerPut(t, cl + footer);
    TrailerSize(t);
    if t.clusterPresent != 0 {
      if cluster.Some? {
        ReadBlockPut(cluster.value, footer, |cl|);
      } else {
        NoBlockFails(cl + footer);
      }
    }
  }

  lemma FooterShaped(offset: nat, length: nat)
    requires offset < WORD64 && length < WORD64
    ensures Shaped([FOOTER_MAGIC, [offset, length], [SCHEMA]], FOOTER_SHAPE)
  {
    Pow256Values();
    hide Pow256;
  }

  lemma ReadFooterPut(offset: nat, length: nat)
    requires offset < WORD64 && length < WORD64
    ensures ReadFooter(PutFooter(offset, length)) == Some((offset, length))
  {
    hide TakeFrom, PutFrom, Shaped;
    var x := [FOOTER_MAGIC, [offset, length], [SCHEMA]];
    FooterShaped(offset, length);
    TakeFromPut(x, FOOTER_SHAPE, 0, []);
    assert x[0..] == x && PutFooter(offset, length) + [] == PutFooter(offset, length);
  }

  /** A written checkpoint reads back with trailer, cluster block and relations, if and only if
      the trailer does not announce a cluster block that was not passed. */
  lemma WrittenIsReadIff(full: Batch, partials: Batch, m: Meta, t: Trailer,
                         cluster: Option<ClusterBlock>)
    requires Writable(full, partials, m, t, cluster)
    ensures ReadCheckpoint(CheckpointBytes(full, partials, m, t, cluster)) ==
            if Announced(t, cluster)
            then Some(Loaded(t, KeptBlock(t, cluster), KeptContents(full, partials, m)))
            else None
  {
    hide SerializeV2, DeserializeV2, PutTrailer, PutCluster, PutFooter, ReadRegion, ReadFooter,
      FileFits, TrailerFits, BlockFits, KeptContents, KeptBlock, Announced;
    var payload := SerializeV2(full, partials, m);
    var region := PutTrailer(t) + PutCluster(t, cluster);
    var footer := PutFooter(|payload|, |region|);
    var file := payload + (region + footer);
    FooterSize(|payload|, |region|);
    assert file[|file| - FOOTER_SIZE..] == footer;
    ReadFooterPut(|payload|, |region|);
    ReadRegionPut(payload, t, cluster, footer);
    FileRoundTrip(full, partials, m, region + footer);
  }

  /** A footer reads only if it starts with its magic bytes and ends with the schema number. */
  lemma FooterChecked(f: seq<byte>)
    requires |f| == FOOTER_SIZE && ReadFooter(f).Some?
    ensures f[..9] == FOOTER_MAGIC && FromLittleEndian(f[25..29]) == SCHEMA
    ensures ReadFooter(f).value == (FromLittleEndian(f[9..17]), FromLittleEndian(f[17..25]))
  {
    hide FromLittleEndian, GetWords;
    assert FOOTER_SHAPE[0] == Section(9, 1) && FOOTER_SHAPE[1] == Section(2, 8)
           && FOOTER_SHAPE[2] == Section(1, 4);
    GetBytes(f[..9]);
    assert f[9..][..16] == f[9..25] && f[9..][16..] == f[25..];
    TwoWords(f[9..25], 8);
    assert f[9..25][..8] == f[9..17] && f[9..25][8..] == f[17..25];
    assert f[25..][..4] == f[25..29];
    OneWord(f[25..29], 4);
  }

  lemma TwoWords(s: seq<byte>, k: nat)
    requires |s| == 2 * k
    ensures GetWords(s, 2, k) == [FromLittleEndian(s[..k]), FromLittleEndian(s[k..])]
  {
    OneWord(s[k..], k);
  }

  /** A checkpoint loads only if the footer carries its magic bytes and schema number and places
      the trailer region right before itself, and the relation file in front is one. */
  lemma CheckpointChecked(file: seq<byte>)
    requires ReadCheckpoint(file).Some?
    ensures |file| >= FOOTER_SIZE
    ensures var f := file[|file| - FOOTER_SIZE..];
            && f[..9] == FOOTER_MAGIC && FromLittleEndian(f[25..29]) == SCHEMA
            && (FromLittleEndian(f[9..17]) + FromLittleEndian(f[17..25]) + FOOTER_SIZE) % WORD64
               == |file|
    ensures |file| >= 16 && file[..8] == V2_MAGIC && FromLittleEndian(file[8..12]) == 2
  {
    hide ReadFooter, ReadRegion, DeserializeV2, FromLittleEndian;
    FooterChecked(file[|file| - FOOTER_SIZE..]);
    HeaderChecked(file);
  }
}
