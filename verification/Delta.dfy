/**
 Delta sync (`delta/`): a rolling Adler checksum that equals the plain one at every window,
 fixed-size chunks, and a plan that rebuilds the client's file from the server's.
 */
module Delta {
  import opened Results
  import opened Native

  const ADLER: nat := 65521
  const BLOCK: nat := 4096

  // ---------------------------------------------------------------- the checksum

  function Sum(w: Bytes): nat {
    if w == [] then 0 else w[0] as nat + Sum(w[1..])
  }

  /** The first byte counts as often as the window is long, the last once. */
  function Weighted(w: Bytes): nat {
    if w == [] then 0 else |w| * w[0] as nat + Weighted(w[1..])
  }

  /** What the checksum means: two sums modulo 65521, packed into 32 bits. */
  function Checksum(w: Bytes): nat {
    Weighted(w) % ADLER * 65536 + Sum(w) % ADLER
  }

  lemma OneByte(b: Byte)
    ensures Sum([b]) == b as nat && Weighted([b]) == b as nat
  {
    var w: Bytes := [b];
    assert w[1..] == [] && |w| * w[0] as nat == b as nat;
    assert Sum(w[1..]) == 0 && Weighted(w[1..]) == 0;
  }

  lemma {:induction false} SumSnoc(w: Bytes, b: Byte)
    ensures Sum(w + [b]) == Sum(w) + b as nat
    ensures Weighted(w + [b]) == Weighted(w) + Sum(w + [b])
  {
    if w == [] {
      assert w + [b] == [b];
      OneByte(b);
    } else {
      assert (w + [b])[1..] == w[1..] + [b];
      SumSnoc(w[1..], b);
    }
  }

  lemma SlideSums(w: Bytes, b: Byte)
    requires w != []
    ensures var v := w[1..] + [b];
            && Sum(v) + w[0] as nat == Sum(w) + b as nat
            && Weighted(v) + |w| * w[0] as nat == Weighted(w) + Sum(v)
  {
    SumSnoc(w[1..], b);
  }

  lemma SameModulo(a: int, b: int, k: int)
    requires a == b + ADLER * k
    ensures a % ADLER == b % ADLER
  {
  }

  function RolledFirst(s1: nat, removed: Byte, added: Byte): nat {
    (s1 + added as nat + ADLER - removed as nat) % ADLER
  }

  /** The product of the window length and the byte that leaves never exceeds what is added. */
  function RolledSecond(s1: nat, s2: nat, n: nat, removed: Byte): nat {
    assert n * removed as nat <= n * ADLER;
    (s2 + s1 + ADLER * n - n * removed as nat) % ADLER
  }

  lemma RollFirst(sum: nat, next: nat, removed: Byte, added: Byte)
    requires next + removed as nat == sum + added as nat
    ensures RolledFirst(sum % ADLER, removed, added) == next % ADLER
  {
    SameModulo(next, sum % ADLER + added as nat + ADLER - removed as nat, sum / ADLER - 1);
  }

  lemma RollSecond(weighted: nat, next: nat, sum: nat, n: nat, removed: Byte, product: nat)
    requires product == n * removed as nat && next + product == weighted + sum
    ensures RolledSecond(sum % ADLER, weighted % ADLER, n, removed) == next % ADLER
  {
    SameModulo(next, weighted % ADLER + sum % ADLER + ADLER * n - product, weighted / ADLER + sum / ADLER - n);
  }

  /** The loop shared by `adler32_full` and `RollingChecksum::new`. */
  method Sums(data: Bytes) returns (s1: nat, s2: nat)
    ensures s1 == Sum(data) % ADLER && s2 == Weighted(data) % ADLER
  {
    s1, s2 := 0, 0;
    for i := 0 to |data|
      invariant s1 == Sum(data[..i]) % ADLER && s2 == Weighted(data[..i]) % ADLER
    {
      assert data[..i + 1] == data[..i] + [data[i]];
      SumSnoc(data[..i], data[i]);
      ghost var p, q := Sum(data[..i]), Weighted(data[..i]);
      SameModulo(p + data[i] as nat, s1 + data[i] as nat, p / ADLER);
      s1 := (s1 + data[i] as nat) % ADLER;
      SameModulo(q + Sum(data[..i + 1]), s2 + s1, q / ADLER + Sum(data[..i + 1]) / ADLER);
      s2 := (s2 + s1) % ADLER;
    }
    assert data[..|data|] == data;
  }

  /** `adler32_full`. */
  method AdlerFull(data: Bytes) returns (digest: nat)
    ensures digest == Checksum(data)
  {
    var s1, s2 := Sums(data);
    return s2 * 65536 + s1;
  }

  const TWO_64: nat := 0x1_0000_0000_0000_0000

  /** The largest window on which the 64-bit sum of `roll` cannot overflow. */
  const MAX_WINDOW: nat := 281_539_415_969_069

  /** The largest intermediate value of `roll` on a window fits in 64 bits. */
  ghost predicate Fits(w: Bytes, added: Byte)
    requires w != []
  {
    Weighted(w) % ADLER + Sum(w[1..] + [added]) % ADLER + ADLER * |w| < TWO_64
  }

  /** Up to the largest safe window `roll` never overflows, and two bytes further it always does. */
  lemma OverflowsBeyond(w: Bytes, added: Byte)
    requires w != []
    ensures |w| <= MAX_WINDOW ==> Fits(w, added)
    ensures |w| > MAX_WINDOW + 2 ==> !Fits(w, added)
  {
    hide Sum, Weighted;
  }

  class RollingChecksum {
    var s1: nat
    var s2: nat
    var n: nat

    /** The state is that of the window `w`. */
    ghost predicate Tracks(w: Bytes)
      reads this
    {
      n == |w| && s1 == Sum(w) % ADLER && s2 == Weighted(w) % ADLER
    }

    constructor (window: Bytes)
      ensures Tracks(window)
    {
      var a, b := Sums(window);
      s1, s2, n := a, b, |window|;
    }

    /** `roll`: one byte leaves on the left, one enters on the right.  It fails exactly when the
        64-bit sum overflows. */
    method Roll(ghost w: Bytes, removed: Byte, added: Byte) returns (ok: bool)
      requires Tracks(w) && w != [] && removed == w[0]
      modifies this
      ensures ok <==> Fits(w, added)
      ensures ok ==> Tracks(w[1..] + [added])
    {
      ghost var v := w[1..] + [added];
      SlideSums(w, added);
      hide Sum, Weighted, RolledFirst, RolledSecond;
      RollFirst(Sum(w), Sum(v), removed, added);
      RollSecond(Weighted(w), Weighted(v), Sum(v), n, removed, |w| * w[0] as nat);
      s1 := RolledFirst(s1, removed, added);
      if s2 + s1 + ADLER * n >= TWO_64 {
        return false;
      }
      s2 := RolledSecond(s1, s2, n, removed);
      return true;
    }

    method Digest(ghost w: Bytes) returns (digest: nat)
      requires Tracks(w)
      ensures digest == Checksum(w)
    {
      return s2 * 65536 + s1;
    }
  }

  lemma Slides(data: Bytes, i: nat, n: nat)
    requires 0 < n && i + n < |data|
    ensures data[i..i + n][1..] + [data[i + n]] == data[i + 1..i + 1 + n]
  {
    assert data[i..i + n][1..] == data[i + 1..i + n];
    assert data[i + 1..i + 1 + n] == data[i + 1..i + n] + [data[i + n]];
  }

  ghost predicate FitsAt(data: Bytes, i: nat, n: nat)
    requires 0 < n && i + n < |data|
  {
    Fits(data[i..i + n], data[i + n])
  }

  /** Rolling across a file gives the plain checksum of every window, unless a window is so long
      that the sum overflows. */
  method RollAcross(data: Bytes, n: nat) returns (ok: bool, digests: seq<nat>)
    requires 0 < n <= |data|
    ensures ok <==> forall i: nat :: i < |data| - n ==> FitsAt(data, i, n)
    ensures n <= MAX_WINDOW ==> ok
    ensures ok ==> |digests| == |data| - n + 1
    ensures forall i :: 0 <= i < |digests| ==> i + n <= |data| && digests[i] == Checksum(data[i..i + n])
  {
    hide Checksum, Sum, Weighted, Fits;
    var rc := new RollingChecksum(data[..n]);
    assert data[..n] == data[0..n];
    var first := rc.Digest(data[..n]);
    digests := [first];
    for i := 0 to |data| - n
      invariant |digests| == i + 1 && rc.Tracks(data[i..i + n])
      invariant forall j :: 0 <= j <= i ==> digests[j] == Checksum(data[j..j + n])
      invariant forall j: nat :: j < i ==> FitsAt(data, j, n)
      invariant fresh(rc)
    {
      ghost var window := data[i..i + n];
      Slides(data, i, n);
      OverflowsBeyond(window, data[i + n]);
      var rolled := rc.Roll(window, data[i], data[i + n]);
      if !rolled {
        assert !FitsAt(data, i, n);
        return false, digests;
      }
      var next := rc.Digest(data[i + 1..i + 1 + n]);
      digests := digests + [next];
    }
    return true, digests;
  }

  // ---------------------------------------------------------------- chunks

  datatype Chunk = Chunk(offset: nat, weak: nat, strong: string, data: Bytes)

  type Hash = Bytes -> string

  function BlockCount(data: Bytes): nat {
    (|data| + BLOCK - 1) / BLOCK
  }

  function BlockAt(data: Bytes, i: nat): (block: Bytes)
    requires i < BlockCount(data)
    ensures block != []
  {
    data[i * BLOCK..if (i + 1) * BLOCK <= |data| then (i + 1) * BLOCK else |data|]
  }

  function ChunkOf(hash: Hash, offset: nat, block: Bytes): Chunk {
    Chunk(offset, Checksum(block), hash(block), block)
  }

  /** Consecutive blocks, all full but perhaps the last. */
  function ChunksOf(hash: Hash, data: Bytes): seq<Chunk> {
    seq(BlockCount(data), i requires 0 <= i < BlockCount(data) => ChunkOf(hash, i * BLOCK, BlockAt(data, i)))
  }

  function Joined(chunks: seq<Chunk>): Bytes {
    if chunks == [] then [] else Joined(chunks[..|chunks| - 1]) + chunks[|chunks| - 1].data
  }

  /** `chunks`. */
  method Chunks(hash: Hash, data: Bytes) returns (chunks: seq<Chunk>)
    ensures chunks == ChunksOf(hash, data)
    ensures forall i :: 0 <= i < |chunks| ==>
              && chunks[i].offset == 4096 * i && 0 < |chunks[i].data| <= 4096
              && (i < |chunks| - 1 ==> |chunks[i].data| == 4096)
              && chunks[i].weak == Checksum(chunks[i].data) && chunks[i].strong == hash(chunks[i].data)
  {
    hide Checksum, ChunksOf, BlockAt;
    chunks := [];
    var offset := 0;
    CountOfChunks(hash, data);
    while offset < |data|
      invariant |chunks| <= BlockCount(data)
      invariant offset == if |chunks| == BlockCount(data) then |data| else |chunks| * BLOCK
      invariant chunks == ChunksOf(hash, data)[..|chunks|]
    {
      var end := if |data| - offset <= BLOCK then |data| else offset + BLOCK;
      NextBlock(hash, data, |chunks|);
      hide BlockCount;
      var block := data[offset..end];
      var weak := AdlerFull(block);
      chunks := chunks + [Chunk(offset, weak, hash(block), block)];
      offset := end;
    }
    assert ChunksOf(hash, data)[..|chunks|] == ChunksOf(hash, data);
    forall i | 0 <= i < |chunks|
      ensures && chunks[i].offset == 4096 * i && 0 < |chunks[i].data| <= 4096
              && (i < |chunks| - 1 ==> |chunks[i].data| == 4096)
              && chunks[i].weak == Checksum(chunks[i].data) && chunks[i].strong == hash(chunks[i].data)
    {
      ChunkIs(hash, data, i);
    }
  }

  lemma ChunkIs(hash: Hash, data: Bytes, i: nat)
    requires i < BlockCount(data)
    ensures i < |ChunksOf(hash, data)|
    ensures var c := ChunksOf(hash, data)[i];
            && c.offset == 4096 * i && 0 < |c.data| <= 4096 && (i + 1 < BlockCount(data) ==> |c.data| == 4096)
            && c.weak == Checksum(c.data) && c.strong == hash(c.data)
  {
    hide Checksum;
  }

  lemma NextBlock(hash: Hash, data: Bytes, k: nat)
    requires k < BlockCount(data)
    ensures k * BLOCK < |data| && k < |ChunksOf(hash, data)|
    ensures |data| - k * BLOCK <= BLOCK <==> k + 1 == BlockCount(data)
    ensures BlockAt(data, k) == data[k * BLOCK..if |data| - k * BLOCK <= BLOCK then |data| else k * BLOCK + BLOCK]
    ensures ChunksOf(hash, data)[..k + 1] == ChunksOf(hash, data)[..k] + [ChunkOf(hash, k * BLOCK, BlockAt(data, k))]
  {
    hide Checksum, ChunkOf;
  }

  lemma CountOfChunks(hash: Hash, data: Bytes)
    ensures |ChunksOf(hash, data)| == BlockCount(data)
  {
  }

  /** The blocks make up the file. */
  lemma {:induction false} JoinedBlocks(hash: Hash, data: Bytes, i: nat)
    requires i <= BlockCount(data)
    ensures Joined(ChunksOf(hash, data)[..i]) == if i == BlockCount(data) then data else data[..i * BLOCK]
  {
    hide Checksum;
    if i > 0 {
      JoinedBlocks(hash, data, i - 1);
      var chunks := ChunksOf(hash, data);
      assert chunks[..i][..i - 1] == chunks[..i - 1];
      assert Joined(chunks[..i]) == data[..(i - 1) * BLOCK] + BlockAt(data, i - 1);
    }
  }

  // ---------------------------------------------------------------- plans

  datatype DeltaEntry = Hit(offset: nat, len: nat) | Miss(data: Bytes)

  function Key(c: Chunk): (nat, string) {
    (c.weak, c.strong)
  }

  /** The last chunk with a key, or the number of chunks. */
  function LastWith(chunks: seq<Chunk>, key: (nat, string)): (k: nat)
    ensures k <= |chunks| && (k < |chunks| ==> Key(chunks[k]) == key)
    ensures forall j :: 0 <= j < |chunks| && Key(chunks[j]) == key ==> j <= k < |chunks|
  {
    if chunks == [] then 0
    else if Key(chunks[|chunks| - 1]) == key then |chunks| - 1
    else
      var k := LastWith(chunks[..|chunks| - 1], key);
      if k == |chunks| - 1 then |chunks| else k
  }

  function EntryFor(base: seq<Chunk>, c: Chunk): DeltaEntry {
    var k := LastWith(base, Key(c));
    if k < |base| then Hit(base[k].offset, |base[k].data|) else Miss(c.data)
  }

  /** Keys to offsets, later chunks winning. */
  method Indexed(chunks: seq<Chunk>) returns (index: map<(nat, string), nat>)
    ensures forall key :: key in index <==> LastWith(chunks, key) < |chunks|
    ensures forall key :: key in index ==> index[key] == chunks[LastWith(chunks, key)].offset
  {
    index := map[];
    for i := 0 to |chunks|
      invariant forall key :: key in index <==> LastWith(chunks[..i], key) < i
      invariant forall key :: key in index ==> index[key] == chunks[LastWith(chunks[..i], key)].offset
    {
      assert chunks[..i + 1][..i] == chunks[..i];
      index := index[Key(chunks[i]) := chunks[i].offset];
    }
    assert chunks[..|chunks|] == chunks;
  }

  /** `build_plan_with_data`. */
  method BuildPlan(hash: Hash, client: seq<Chunk>, base: Bytes) returns (plan: seq<DeltaEntry>)
    ensures plan == Plan(ChunksOf(hash, base), client)
  {
    hide ChunksOf;
    var chunks := Chunks(hash, base);
    var index := Indexed(chunks);
    plan := [];
    for i := 0 to |client|
      invariant plan == Plan(chunks, client[..i])
    {
      assert client[..i + 1][..i] == client[..i];
      var key := Key(client[i]);
      if key in index {
        LengthThere(hash, base, LastWith(chunks, key));
        plan := plan + [Hit(index[key], LengthAt(chunks, index[key]))];
      } else {
        plan := plan + [Miss(client[i].data)];
      }
    }
    assert client[..|client|] == client;
  }

  function Plan(base: seq<Chunk>, client: seq<Chunk>): (plan: seq<DeltaEntry>) {
    if client == [] then []
    else Plan(base, client[..|client| - 1]) + [EntryFor(base, client[|client| - 1])]
  }

  /** Length of the first chunk at an offset. */
  function LengthAt(chunks: seq<Chunk>, offset: nat): nat {
    if chunks == [] then BLOCK
    else if chunks[0].offset == offset then |chunks[0].data|
    else LengthAt(chunks[1..], offset)
  }

  lemma {:induction false} FirstAt(chunks: seq<Chunk>, k: nat)
    requires k < |chunks| && forall i :: 0 <= i < k ==> chunks[i].offset != chunks[k].offset
    ensures LengthAt(chunks, chunks[k].offset) == |chunks[k].data|
  {
    if k > 0 {
      FirstAt(chunks[1..], k - 1);
    }
  }

  lemma LengthThere(hash: Hash, base: Bytes, k: nat)
    requires k < |ChunksOf(hash, base)|
    ensures LengthAt(ChunksOf(hash, base), ChunksOf(hash, base)[k].offset) == |ChunksOf(hash, base)[k].data|
  {
    hide Checksum;
    FirstAt(ChunksOf(hash, base), k);
  }

  /** `apply_plan`. */
  method ApplyPlan(base: Bytes, plan: seq<DeltaEntry>) returns (out: Result<Bytes>)
    ensures out == Expanded(base, plan)
  {
    var bytes := [];
    for i := 0 to |plan|
      invariant Expanded(base, plan[..i]) == Ok(bytes)
    {
      assert plan[..i + 1][..i] == plan[..i];
      match plan[i]
      case Hit(offset, len) =>
        if offset + len > |base| {
          Stops(base, plan, i + 1);
          return Err(Unavailable);
        }
        bytes := bytes + base[offset..offset + len];
      case Miss(data) =>
        if data == [] {
          Stops(base, plan, i + 1);
          return Err(NotAvailable);
        }
        bytes := bytes + data;
    }
    assert plan[..|plan|] == plan;
    return Ok(bytes);
  }

  /** What an entry stands for: out-of-range hits and misses without data are refused. */
  function Piece(base: Bytes, e: DeltaEntry): Result<Bytes> {
    match e
    case Hit(offset, len) => if offset + len > |base| then Err(Unavailable) else Ok(base[offset..offset + len])
    case Miss(data) => if data == [] then Err(NotAvailable) else Ok(data)
  }

  function Expanded(base: Bytes, plan: seq<DeltaEntry>): Result<Bytes> {
    if plan == [] then Ok([])
    else
      var front :- Expanded(base, plan[..|plan| - 1]);
      var last :- Piece(base, plan[|plan| - 1]);
      Ok(front + last)
  }

  lemma {:induction false} Stops(base: Bytes, plan: seq<DeltaEntry>, i: nat)
    requires i <= |plan| && Expanded(base, plan[..i]).Err?
    ensures Expanded(base, plan) == Expanded(base, plan[..i])
  {
    if i < |plan| {
      assert plan[..|plan| - 1][..i] == plan[..i];
      Stops(base, plan[..|plan| - 1], i);
    } else {
      assert plan[..i] == plan;
    }
  }

  // ---------------------------------------------------------------- the round trip

  /** The bytes a plan puts in the place of a chunk: the last server block with its key, or its own. */
  function Taken(base: seq<Chunk>, c: Chunk): Bytes {
    var k := LastWith(base, Key(c));
    if k < |base| then base[k].data else c.data
  }

  function Rebuilt(base: seq<Chunk>, client: seq<Chunk>): Bytes {
    if client == [] then [] else Rebuilt(base, client[..|client| - 1]) + Taken(base, client[|client| - 1])
  }

  /** No client chunk is replaced by different bytes. */
  ghost predicate TakenRight(base: seq<Chunk>, client: seq<Chunk>) {
    forall i :: 0 <= i < |client| ==> Taken(base, client[i]) == client[i].data
  }

  /** No block but the last is replaced by the server's short last block. */
  ghost predicate FullBlocksTaken(base: seq<Chunk>, client: seq<Chunk>) {
    forall i :: 0 <= i < |client| - 1 ==> |Taken(base, client[i])| == |client[i].data|
  }

  lemma BlockIsInPlace(hash: Hash, base: Bytes, k: nat)
    requires k < |ChunksOf(hash, base)|
    ensures var c := ChunksOf(hash, base)[k];
            Piece(base, Hit(c.offset, |c.data|)) == Ok(c.data) && c.data != []
  {
    hide Checksum;
  }

  lemma EntryGives(hash: Hash, file: Bytes, base: Bytes, i: nat)
    requires i < |ChunksOf(hash, file)|
    ensures var c, chunks := ChunksOf(hash, file)[i], ChunksOf(hash, base);
            Piece(base, EntryFor(chunks, c)) == Ok(Taken(chunks, c))
  {
    BlockIsInPlace(hash, file, i);
    assert Piece(base, Miss(ChunksOf(hash, file)[i].data)) == Ok(ChunksOf(hash, file)[i].data);
    hide Checksum, LastWith, Piece, ChunksOf;
    var k := LastWith(ChunksOf(hash, base), Key(ChunksOf(hash, file)[i]));
    if k < |ChunksOf(hash, base)| {
      BlockIsInPlace(hash, base, k);
    }
  }

  /** A plan always applies, and puts together what was taken for each chunk. */
  lemma {:induction false} PlanExpands(hash: Hash, file: Bytes, base: Bytes, i: nat)
    requires i <= |ChunksOf(hash, file)|
    ensures var client, chunks := ChunksOf(hash, file), ChunksOf(hash, base);
            Expanded(base, Plan(chunks, client[..i])) == Ok(Rebuilt(chunks, client[..i]))
  {
    hide ChunksOf, Piece, EntryFor, Taken;
    if i > 0 {
      var client, chunks := ChunksOf(hash, file), ChunksOf(hash, base);
      PlanExpands(hash, file, base, i - 1);
      EntryGives(hash, file, base, i - 1);
      assert client[..i][..i - 1] == client[..i - 1];
      var front, last := Plan(chunks, client[..i - 1]), EntryFor(chunks, client[i - 1]);
      assert Plan(chunks, client[..i]) == front + [last];
      assert (front + [last])[..|front + [last]| - 1] == front;
    }
  }

  lemma {:induction false} RightRebuilds(base: seq<Chunk>, client: seq<Chunk>)
    requires TakenRight(base, client)
    ensures Rebuilt(base, client) == Joined(client)
  {
    hide Taken;
    if client != [] {
      RightRebuilds(base, client[..|client| - 1]);
    }
  }

  lemma {:induction false} SameLengths(base: seq<Chunk>, client: seq<Chunk>)
    requires forall i :: 0 <= i < |client| ==> |Taken(base, client[i])| == |client[i].data|
    ensures |Rebuilt(base, client)| == |Joined(client)|
  {
    hide Taken;
    if client != [] {
      SameLengths(base, client[..|client| - 1]);
    }
  }

  lemma HalvesAgree(a: Bytes, b: Bytes, c: Bytes, d: Bytes)
    requires a + b == c + d && |a| == |c|
    ensures a == c && b == d
  {
    assert a == (a + b)[..|a|] == (c + d)[..|a|] == c;
    assert b == (a + b)[|a|..] == (c + d)[|a|..] == d;
  }

  lemma {:induction false} RebuildsOnlyRight(base: seq<Chunk>, client: seq<Chunk>)
    requires FullBlocksTaken(base, client) && Rebuilt(base, client) == Joined(client)
    ensures TakenRight(base, client)
  {
    hide Taken;
    if client != [] {
      var front, last := client[..|client| - 1], client[|client| - 1];
      SameLengths(base, front);
      HalvesAgree(Rebuilt(base, front), Taken(base, last), Joined(front), last.data);
      RebuildsOnlyRight(base, front);
      assert client == front + [last];
    }
  }

  /** Exactly when a plan rebuilds the client's file, for files of any number of blocks: if and
      only if no chunk was replaced by different bytes. */
  lemma RebuildsExactly(hash: Hash, file: Bytes, base: Bytes)
    ensures var client, chunks := ChunksOf(hash, file), ChunksOf(hash, base);
            var out := Expanded(base, Plan(chunks, client));
            && out.Ok?
            && (TakenRight(chunks, client) ==> out == Ok(file))
            && (FullBlocksTaken(chunks, client) ==> (out == Ok(file) <==> TakenRight(chunks, client)))
  {
    hide ChunksOf, Plan, Expanded, TakenRight, FullBlocksTaken, Rebuilt, Joined;
    var client, chunks := ChunksOf(hash, file), ChunksOf(hash, base);
    assert client[..|client|] == client;
    CountOfChunks(hash, file);
    PlanExpands(hash, file, base, |client|);
    JoinedBlocks(hash, file, |client|);
    if TakenRight(chunks, client) {
      RightRebuilds(chunks, client);
    } else if FullBlocksTaken(chunks, client) && Rebuilt(chunks, client) == Joined(client) {
      RebuildsOnlyRight(chunks, client);
    }
  }

  /** The side condition of the other direction holds whenever the server's file has no short
      last block, and whenever the client's file has one block at most. */
  lemma FullBlocksAreTaken(hash: Hash, file: Bytes, base: Bytes)
    requires |base| % BLOCK == 0 || |file| <= BLOCK
    ensures FullBlocksTaken(ChunksOf(hash, base), ChunksOf(hash, file))
  {
    CountOfChunks(hash, file);
    CountOfChunks(hash, base);
    hide ChunksOf;
    var client, chunks := ChunksOf(hash, file), ChunksOf(hash, base);
    forall i | 0 <= i < |client| - 1 ensures |Taken(chunks, client[i])| == |client[i].data| {
      BlockLength(hash, file, i);
      var k := LastWith(chunks, Key(client[i]));
      if k < |chunks| {
        BlockLength(hash, base, k);
      }
    }
  }

  lemma BlockLength(hash: Hash, data: Bytes, i: nat)
    requires i < BlockCount(data) && (i + 1 < BlockCount(data) || |data| % BLOCK == 0)
    ensures i < |ChunksOf(hash, data)| && |ChunksOf(hash, data)[i].data| == BLOCK
  {
    hide Checksum;
  }

  /** `build_plan_with_data` and `apply_plan`, one after the other. */
  method SyncFile(hash: Hash, file: Bytes, base: Bytes) returns (out: Result<Bytes>)
    ensures out.Ok?
    ensures var client, chunks := ChunksOf(hash, file), ChunksOf(hash, base);
            && (TakenRight(chunks, client) ==> out == Ok(file))
            && (FullBlocksTaken(chunks, client) ==> (out == Ok(file) <==> TakenRight(chunks, client)))
  {
    hide ChunksOf, Plan, Expanded, TakenRight, FullBlocksTaken;
    var client := Chunks(hash, file);
    var plan := BuildPlan(hash, client, base);
    out := ApplyPlan(base, plan);
    RebuildsExactly(hash, file, base);
  }

  /** Blocks that do not collide are never taken wrongly. */
  lemma NoCollisionTakesRight(base: seq<Chunk>, client: seq<Chunk>)
    requires forall i, j :: 0 <= i < |client| && 0 <= j < |base| && Key(client[i]) == Key(base[j]) ==> client[i].data == base[j].data
    ensures TakenRight(base, client)
  {
  }

  /** Files of one block: rebuilt if and only if the server's file does not collide. */
  lemma OneBlockExactly(hash: Hash, file: Bytes, base: Bytes)
    requires 0 < |file| <= BLOCK && 0 < |base| <= BLOCK
    ensures Expanded(base, Plan(ChunksOf(hash, base), ChunksOf(hash, file))) == Ok(file)
            <==> (Checksum(file) == Checksum(base) && hash(file) == hash(base) ==> file == base)
  {
    RebuildsExactly(hash, file, base);
    FullBlocksAreTaken(hash, file, base);
    SmallFile(hash, file);
    SmallFile(hash, base);
    hide Checksum, ChunksOf, Expanded, Plan, FullBlocksTaken;
    OnlyChunk(ChunkOf(hash, 0, base), ChunkOf(hash, 0, file));
  }

  lemma OnlyChunk(b: Chunk, c: Chunk)
    ensures TakenRight([b], [c]) <==> (Key(c) == Key(b) ==> c.data == b.data)
  {
    var k := LastWith([b], Key(c));
    assert Key([b][0]) == Key(b);
    assert Taken([b], [c][0]) == if Key(c) == Key(b) then b.data else c.data;
  }

  // ---------------------------------------------------------------- inputs that fail

  /** The checksum of "abcd". */
  lemma ChecksumOfAbcd()
    ensures Checksum([97, 98, 99, 100]) == 0x03d4018a
  {
    var w: Bytes := [97, 98, 99, 100];
    assert w[1..] == [98, 99, 100];
    ThreeSums(98, 99, 100);
    assert Sum(w) == 394 && Weighted(w) == 980;
  }

  /** Two files that only the hash can tell apart. */
  lemma ChecksumsCollide()
    ensures Checksum([1, 0, 1]) == Checksum([0, 2, 0])
  {
    ThreeSums(1, 0, 1);
    ThreeSums(0, 2, 0);
  }

  lemma SmallFile(hash: Hash, data: Bytes)
    requires 0 < |data| <= BLOCK
    ensures ChunksOf(hash, data) == [ChunkOf(hash, 0, data)]
  {
    hide Checksum;
    assert BlockCount(data) == 1 && BlockAt(data, 0) == data;
  }

  lemma ThreeSums(a: Byte, b: Byte, c: Byte)
    ensures Sum([a, b, c]) == a as nat + b as nat + c as nat
    ensures Weighted([a, b, c]) == 3 * a as nat + 2 * b as nat + c as nat
  {
    assert [a, b, c][1..] == [b, c] && [b, c][1..] == [c] && [c][1..] == [];
    OneByte(c);
    assert Sum([b, c]) == b as nat + c as nat && Weighted([b, c]) == 2 * b as nat + c as nat;
  }

  /** With a hash that does not tell these two files apart, the server keeps its own. */
  lemma CollisionKeepsTheBase(hash: Hash)
    requires hash([1, 0, 1]) == hash([0, 2, 0])
    ensures Expanded([0, 2, 0], Plan(ChunksOf(hash, [0, 2, 0]), ChunksOf(hash, [1, 0, 1]))) != Ok([1, 0, 1])
  {
    ChecksumsCollide();
    hide Checksum, ChunksOf, Expanded, Plan;
    var file: Bytes, base: Bytes := [1, 0, 1], [0, 2, 0];
    assert file[1] != base[1];
    OneBlockExactly(hash, file, base);
  }

  lemma TwoBlocks(hash: Hash, p: Bytes, q: Bytes)
    requires |p| == BLOCK && 0 < |q| <= BLOCK
    ensures ChunksOf(hash, p + q) == [ChunkOf(hash, 0, p), ChunkOf(hash, BLOCK, q)]
  {
    hide Checksum;
    var data := p + q;
    assert BlockCount(data) == 2;
    assert BlockAt(data, 0) == p && BlockAt(data, 1) == q;
  }

  function Nulls(n: nat): Bytes {
    seq(n, _ => 0)
  }

  lemma {:induction false} NullSums(n: nat)
    ensures Checksum(Nulls(n)) == 0 && Sum(Nulls(n)) == 0 && Weighted(Nulls(n)) == 0
  {
    if n > 0 {
      NullSums(n - 1);
      assert Nulls(n)[1..] == Nulls(n - 1);
    }
  }

  lemma LeadingNull(t: Bytes)
    ensures Checksum([0] + t) == Checksum(t)
  {
    assert ([0] + t)[1..] == t;
  }

  lemma TakenOfTwo(a: Chunk, b: Chunk, c: Chunk)
    ensures Taken([a, b], c) == if Key(c) == Key(b) then b.data else if Key(c) == Key(a) then a.data else c.data
  {
    assert Key([a, b][1]) == Key(b) && Key([a, b][0]) == Key(a);
  }

  lemma RebuiltOfTwo(base: seq<Chunk>, c: Chunk, d: Chunk)
    ensures Rebuilt(base, [c, d]) == Taken(base, c) + Taken(base, d)
  {
    hide Taken;
    assert [c, d][..1] == [c] && [c][..0] == [];
    assert Rebuilt(base, []) == [];
    assert Rebuilt(base, [c]) == [] + Taken(base, c) == Taken(base, c);
  }

  /** The side condition cannot be dropped: two wrong blocks, the first one the server's short
      last block, can add up to the right file. */
  lemma WrongBlocksCanAddUp(hash: Hash, t: Bytes)
    requires |t| == BLOCK - 1 && Checksum(t) != 0
    requires hash(Nulls(BLOCK)) == hash(Nulls(BLOCK - 1)) && hash([0] + t) == hash(t)
    ensures var file, base := Nulls(BLOCK) + t, ([0] + t) + Nulls(BLOCK - 1);
            && Expanded(base, Plan(ChunksOf(hash, base), ChunksOf(hash, file))) == Ok(file)
            && !TakenRight(ChunksOf(hash, base), ChunksOf(hash, file))
  {
    var short: Bytes, full: Bytes := Nulls(BLOCK - 1), [0] + t;
    TwoBlocks(hash, Nulls(BLOCK), t);
    TwoBlocks(hash, full, short);
    NullSums(BLOCK);
    NullSums(BLOCK - 1);
    LeadingNull(t);
    hide Checksum, ChunksOf, Sum, Weighted;
    var a, b := ChunkOf(hash, 0, full), ChunkOf(hash, BLOCK, short);
    var c, d := ChunkOf(hash, 0, Nulls(BLOCK)), ChunkOf(hash, BLOCK, t);
    TakenOfTwo(a, b, c);
    TakenOfTwo(a, b, d);
    hide Taken;
    assert Taken([a, b], c) == short && Taken([a, b], d) == full;
    RebuiltOfTwo([a, b], c, d);
    assert short + full == Nulls(BLOCK) + t;
    PlanExpands(hash, Nulls(BLOCK) + t, full + short, 2);
    assert [c, d][..2] == [c, d];
    assert |Taken([a, b], [c, d][0])| != |[c, d][0].data|;
  }
}
