/** Large files: packing a data map into chunks, level by level, and reading it back.

    Self-encryption and serialisation are a record of functions of which only the laws are known:
    decrypting undoes encrypting, and deserialising undoes serialising.  The network is a
    content-addressed store. */
module Files {
  import opened Common

  const CHUNKS_BATCH_MAX_SIZE: nat := 4
  const MIN_ENCRYPTABLE_BYTES: nat := 3072

  type Bytes = seq<nat>
  type Name = nat
  type Store = map<Name, Bytes>

  datatype ChunkInfo = ChunkInfo(index: nat, dst: Name)

  datatype DataMap = DataMap(infos: seq<ChunkInfo>, keys: Bytes)

  datatype EncryptedChunk = EncryptedChunk(index: nat, content: Bytes)

  /** Holds the data map of the source data, or of a chunk that held a too big data map. */
  datatype DataMapLevel = First(dataMap: DataMap) | Additional(dataMap: DataMap)

  datatype Error =
    | SelfEncryption
    | Serialisation
    | ChunkNotFound(name: Name)
    | NotEnoughChunksRetrieved(expected: nat, retrieved: nat)
    | EmptyFile

  datatype Codec = Codec(
    maxChunkSize: nat,
    name: Bytes -> Name,
    encrypt: Bytes -> Result<(DataMap, seq<EncryptedChunk>), ()>,
    decrypt: (DataMap, seq<EncryptedChunk>) -> Result<Bytes, ()>,
    packLevel: DataMapLevel -> Bytes,
    unpackLevel: Bytes -> Result<DataMapLevel, ()>,
    packChunk: Bytes -> Bytes,
    unpackChunk: Bytes -> Result<Bytes, ()>)

  /** The data map lists the encrypted chunks in order, by index and content name. */
  ghost predicate Lists(c: Codec, m: DataMap, chunks: seq<EncryptedChunk>) {
    |m.infos| == |chunks| &&
    forall i :: 0 <= i < |chunks| ==> m.infos[i] == ChunkInfo(chunks[i].index, c.name(chunks[i].content))
  }

  ghost predicate Lawful(c: Codec) {
    && (forall b :: c.encrypt(b).Ok? ==>
          && Lists(c, c.encrypt(b).value.0, c.encrypt(b).value.1)
          && c.decrypt(c.encrypt(b).value.0, c.encrypt(b).value.1) == Ok(b))
    && (forall l :: c.unpackLevel(c.packLevel(l)) == Ok(l))
    && (forall b :: c.unpackChunk(c.packChunk(b)) == Ok(b))
  }

  /** The packed data map of a too big chunk is shorter than that chunk. */
  ghost predicate Shrinks(c: Codec) {
    forall b :: |b| > c.maxChunkSize && c.encrypt(c.packChunk(b)).Ok? ==>
      |c.packLevel(Additional(c.encrypt(c.packChunk(b)).value.0))| < |b|
  }

  // ---------- Reading ----------

  /** The listed chunks that the store holds, in order. */
  function Fetched(store: Store, infos: seq<ChunkInfo>): (r: seq<EncryptedChunk>)
    ensures |r| <= |infos|
  {
    if infos == [] then []
    else Fetched(store, infos[..|infos| - 1]) + FetchedOne(store, infos[|infos| - 1])
  }

  lemma {:induction false} FetchedConcat(store: Store, a: seq<ChunkInfo>, b: seq<ChunkInfo>)
    ensures Fetched(store, a + b) == Fetched(store, a) + Fetched(store, b)
  {
    if b == [] {
      assert a + b == a;
    } else {
      var init, last := b[..|b| - 1], b[|b| - 1];
      FetchedConcat(store, a, init);
      assert (a + b)[..|a + b| - 1] == a + init && (a + b)[|a + b| - 1] == last;
      Associative(Fetched(store, a), Fetched(store, init), FetchedOne(store, last));
    }
  }

  function FetchedOne(store: Store, info: ChunkInfo): seq<EncryptedChunk> {
    if info.dst in store then [EncryptedChunk(info.index, store[info.dst])] else []
  }

  lemma {:induction false} FetchedBatch(store: Store, infos: seq<ChunkInfo>, i: nat, end: nat)
    requires i <= end <= |infos|
    ensures Fetched(store, infos[..end]) == Fetched(store, infos[..i]) + Fetched(store, infos[i..end])
  {
    FetchedConcat(store, infos[..i], infos[i..end]);
    assert infos[..i] + infos[i..end] == infos[..end];
  }

  ghost predicate AllHeld(store: Store, infos: seq<ChunkInfo>) {
    forall i :: 0 <= i < |infos| ==> infos[i].dst in store
  }

  /** As many chunks are fetched as are listed exactly when the store holds them all. */
  lemma {:induction false} FetchedAll(store: Store, infos: seq<ChunkInfo>)
    ensures |Fetched(store, infos)| == |infos| <==> AllHeld(store, infos)
    ensures AllHeld(store, infos) ==>
      forall i :: 0 <= i < |infos| ==> Fetched(store, infos)[i] == EncryptedChunk(infos[i].index, store[infos[i].dst])
  {
    if infos != [] {
      var init := infos[..|infos| - 1];
      FetchedAll(store, init);
    }
  }

  /** Fetches in batches and drops what cannot be fetched; succeeds exactly when nothing was dropped. */
  method TryGetChunks(store: Store, infos: seq<ChunkInfo>) returns (r: Result<seq<EncryptedChunk>, Error>)
    ensures var found := Fetched(store, infos);
      r == if |found| < |infos| then Err(NotEnoughChunksRetrieved(|infos|, |found|)) else Ok(found)
    ensures r.Ok? <==> AllHeld(store, infos)
  {
    var retrieved: seq<EncryptedChunk> := [];
    var i := 0;
    while i < |infos|
      invariant 0 <= i <= |infos| && retrieved == Fetched(store, infos[..i])
    {
      var end := if i + CHUNKS_BATCH_MAX_SIZE < |infos| then i + CHUNKS_BATCH_MAX_SIZE else |infos|;
      FetchedBatch(store, infos, i, end);
      retrieved := retrieved + Fetched(store, infos[i..end]);
      i := end;
    }
    assert infos[..i] == infos;
    FetchedAll(store, infos);
    if |infos| > |retrieved| {
      return Err(NotEnoughChunksRetrieved(|infos|, |retrieved|));
    }
    r := Ok(retrieved);
  }

  /** The chunks that a data map lists, all of them held. */
  ghost function Listed(store: Store, infos: seq<ChunkInfo>): seq<EncryptedChunk>
    requires AllHeld(store, infos)
  {
    seq(|infos|, i requires 0 <= i < |infos| => EncryptedChunk(infos[i].index, store[infos[i].dst]))
  }

  lemma FetchedListed(store: Store, infos: seq<ChunkInfo>)
    ensures AllHeld(store, infos) ==> Fetched(store, infos) == Listed(store, infos)
    ensures !AllHeld(store, infos) ==> |Fetched(store, infos)| < |infos|
  {
    FetchedAll(store, infos);
  }

  function ReadAll(c: Codec, store: Store, m: DataMap): Result<Bytes, Error> {
    var chunks := Fetched(store, m.infos);
    if |chunks| < |m.infos| then Err(NotEnoughChunksRetrieved(|m.infos|, |chunks|))
    else match c.decrypt(m, chunks)
      case Ok(b) => Ok(b)
      case Err(_) => Err(SelfEncryption)
  }

  /** Fetches the chunks of a data map and decrypts them. */
  method FetchAndDecrypt(c: Codec, store: Store, m: DataMap) returns (r: Result<Bytes, Error>)
    ensures r == ReadAll(c, store, m)
    ensures if AllHeld(store, m.infos) then r == match c.decrypt(m, Listed(store, m.infos))
        case Ok(b) => Ok(b)
        case Err(_) => Err(SelfEncryption)
      else r.Err? && r.error.NotEnoughChunksRetrieved? && r.error.expected == |m.infos| > r.error.retrieved
  {
    FetchedListed(store, m.infos);
    var chunks := TryGetChunks(store, m.infos);
    if chunks.Err? {
      return Err(chunks.error);
    }
    var bytes := c.decrypt(m, chunks.value);
    r := if bytes.Ok? then Ok(bytes.value) else Err(SelfEncryption);
  }

  /** Unpacks a chunk to the data map of the source data; None when that takes more than the given
      number of additional levels. */
  function Unpack(c: Codec, store: Store, content: Bytes, levels: nat): Option<Result<DataMap, Error>>
    decreases levels
  {
    match c.unpackLevel(content)
    case Err(_) => Some(Err(Serialisation))
    case Ok(First(m)) => Some(Ok(m))
    case Ok(Additional(m)) =>
      match ReadAll(c, store, m)
      case Err(e) => Some(Err(e))
      case Ok(b) =>
        match c.unpackChunk(b)
        case Err(_) => Some(Err(Serialisation))
        case Ok(content') => if levels == 0 then None else Unpack(c, store, content', levels - 1)
  }

  /** The levels below the chunk come to an end, so that the program's loop does. */
  ghost predicate Ends(c: Codec, store: Store, content: Bytes) {
    exists levels: nat :: Unpack(c, store, content, levels).Some?
  }

  /** What unpacking yields, however many levels it takes. */
  ghost function Unpacked(c: Codec, store: Store, content: Bytes): Result<DataMap, Error>
    requires Ends(c, store, content)
  {
    var levels: nat :| Unpack(c, store, content, levels).Some?;
    Unpack(c, store, content, levels).value
  }

  lemma {:induction false} MoreLevels(c: Codec, store: Store, content: Bytes, n: nat, m: nat)
    requires n <= m && Unpack(c, store, content, n).Some?
    ensures Unpack(c, store, content, m) == Unpack(c, store, content, n)
    decreases n
  {
    if n > 0 && c.unpackLevel(content).Ok? && c.unpackLevel(content).value.Additional? {
      var bytes := ReadAll(c, store, c.unpackLevel(content).value.dataMap);
      if bytes.Ok? && c.unpackChunk(bytes.value).Ok? {
        MoreLevels(c, store, c.unpackChunk(bytes.value).value, n - 1, m - 1);
      }
    }
  }

  /** The number of levels does not matter once it is enough. */
  lemma UnpackedIn(c: Codec, store: Store, content: Bytes, n: nat)
    requires Unpack(c, store, content, n).Some?
    ensures Ends(c, store, content) && Some(Unpacked(c, store, content)) == Unpack(c, store, content, n)
  {
    var k: nat :|
      Unpack(c, store, content, k).Some? && Unpack(c, store, content, k) == Some(Unpacked(c, store, content));
    MoreLevels(c, store, content, k, if k < n then n else k);
    MoreLevels(c, store, content, n, if k < n then n else k);
  }

  /** The loop of the program, which replaces the chunk until it holds the first level. */
  method UnpackChunk(c: Codec, store: Store, content: Bytes) returns (r: Result<DataMap, Error>)
    requires Ends(c, store, content)
    ensures r == Unpacked(c, store, content)
  {
    ghost var levels: nat :| Unpack(c, store, content, levels).Some?;
    UnpackedIn(c, store, content, levels);
    ghost var left := levels;
    var chunk := content;
    while true
      invariant Unpack(c, store, chunk, left) == Unpack(c, store, content, levels)
      decreases left
    {
      var level := c.unpackLevel(chunk);
      if level.Err? {
        return Err(Serialisation);
      }
      if level.value.First? {
        return Ok(level.value.dataMap);
      }
      var bytes := FetchAndDecrypt(c, store, level.value.dataMap);
      if bytes.Err? {
        return Err(bytes.error);
      }
      var next := c.unpackChunk(bytes.value);
      if next.Err? {
        return Err(Serialisation);
      }
      chunk, left := next.value, left - 1;
    }
  }

  /** What reading an address yields: a large file if its chunk unpacks, else the chunk itself. */
  ghost function Read(c: Codec, store: Store, address: Name): Result<Bytes, Error>
    requires address in store ==> Ends(c, store, store[address])
  {
    if address !in store then Err(ChunkNotFound(address))
    else match Unpacked(c, store, store[address])
      case Ok(m) => ReadAll(c, store, m)
      case Err(_) => Ok(store[address])
  }

  method ReadBytes(c: Codec, store: Store, address: Name) returns (r: Result<Bytes, Error>)
    requires address in store ==> Ends(c, store, store[address])
    ensures r == Read(c, store, address)
    ensures r == Err(ChunkNotFound(address)) <== address !in store
  {
    if address !in store {
      return Err(ChunkNotFound(address));
    }
    var dataMap := UnpackChunk(c, store, store[address]);
    if dataMap.Err? {
      return Ok(store[address]);
    }
    r := FetchAndDecrypt(c, store, dataMap.value);
  }

  // ---------- Packing ----------

  /** The store holds every listed content under its name. */
  ghost predicate HoldsAll(c: Codec, store: Store, contents: seq<Bytes>) {
    forall b :: b in contents ==> c.name(b) in store && store[c.name(b)] == b
  }

  function Contents(chunks: seq<EncryptedChunk>): seq<Bytes> {
    seq(|chunks|, i requires 0 <= i < |chunks| => chunks[i].content)
  }

  /** Decrypting what is fetched from a store that holds the chunks undoes the encryption. */
  lemma ReadAllUndoesEncrypt(c: Codec, store: Store, data: Bytes)
    requires Lawful(c) && c.encrypt(data).Ok? && HoldsAll(c, store, Contents(c.encrypt(data).value.1))
    ensures ReadAll(c, store, c.encrypt(data).value.0) == Ok(data)
  {
    var (m, chunks) := c.encrypt(data).value;
    assert Lists(c, m, chunks);
    forall i | 0 <= i < |chunks| ensures m.infos[i].dst in store && store[m.infos[i].dst] == chunks[i].content {
      assert Contents(chunks)[i] == chunks[i].content;
    }
    FetchedAll(store, m.infos);
    assert Fetched(store, m.infos) == chunks;
  }

  /** From any store that holds the contents, the chunk unpacks to the data map in that many levels. */
  ghost predicate UnpacksTo(c: Codec, content: Bytes, contents: seq<Bytes>, levels: nat, m: DataMap) {
    forall store :: HoldsAll(c, store, contents) ==> Unpack(c, store, content, levels) == Some(Ok(m))
  }

  lemma FirstLevelUnpacks(c: Codec, m: DataMap)
    requires Lawful(c)
    ensures UnpacksTo(c, c.packLevel(First(m)), [], 0, m)
  {
  }

  /** Encrypting a chunk and packing its data map adds one level. */
  lemma NextLevelUnpacks(c: Codec, content: Bytes, contents: seq<Bytes>, levels: nat, m: DataMap, contents': seq<Bytes>)
    requires Lawful(c) && UnpacksTo(c, content, contents, levels, m) && c.encrypt(c.packChunk(content)).Ok?
    requires contents' == Contents(c.encrypt(c.packChunk(content)).value.1) + contents
    ensures UnpacksTo(c, c.packLevel(Additional(c.encrypt(c.packChunk(content)).value.0)), contents', levels + 1, m)
  {
    var (next, chunks) := c.encrypt(c.packChunk(content)).value;
    var packed := c.packLevel(Additional(next));
    forall store | HoldsAll(c, store, contents') ensures Unpack(c, store, packed, levels + 1) == Some(Ok(m)) {
      assert HoldsAll(c, store, Contents(chunks)) && HoldsAll(c, store, contents);
      ReadAllUndoesEncrypt(c, store, c.packChunk(content));
      assert c.unpackLevel(packed) == Ok(Additional(next));
      assert c.unpackChunk(c.packChunk(content)) == Ok(content);
      assert Unpack(c, store, content, levels) == Some(Ok(m));
    }
  }

  lemma SameContents(c: Codec, content: Bytes, a: seq<Bytes>, b: seq<Bytes>, levels: nat, m: DataMap)
    requires UnpacksTo(c, content, a, levels, m) && forall x :: x in a ==> x in b
    ensures UnpacksTo(c, content, b, levels, m)
  {
  }

  /** What packing promises: the head is the name of the last chunk, which any store holding all the
      chunks unpacks to the data map, and the encrypted chunks come along. */
  ghost predicate Packed(c: Codec, m: DataMap, encrypted: seq<EncryptedChunk>, head: Name, all: seq<Bytes>, levels: nat)
  {
    && all != [] && head == c.name(all[|all| - 1]) && |all[|all| - 1]| <= c.maxChunkSize
    && Contents(encrypted) <= all
    && UnpacksTo(c, all[|all| - 1], all, levels, m)
  }

  /** The n-th chunk of the chain that starts with the given one, in which a too big chunk is followed by
      the packed data map of its encryption; None when the chain ends before. */
  ghost function Level(c: Codec, content: Bytes, n: nat): Option<Bytes> {
    if n == 0 then Some(content)
    else
      var before := Level(c, content, n - 1);
      if before.None? || |before.value| <= c.maxChunkSize || c.encrypt(c.packChunk(before.value)).Err? then None
      else Some(c.packLevel(Additional(c.encrypt(c.packChunk(before.value)).value.0)))
  }

  /** The chain breaks off at a too big chunk that cannot be encrypted. */
  ghost predicate BreaksOff(c: Codec, content: Bytes, n: nat) {
    var last := Level(c, content, n);
    last.Some? && |last.value| > c.maxChunkSize && c.encrypt(c.packChunk(last.value)).Err?
  }

  /** Every too big chunk of the chain can be encrypted; so whenever encryption never fails. */
  ghost predicate Packable(c: Codec, content: Bytes) {
    forall n: nat :: !BreaksOff(c, content, n)
  }

  /** The chunks in which a data map is kept: for each too big chunk of the chain what it is encrypted
      to, in reverse order, and then the one that is not too big.  None when an encryption fails. */
  ghost function LevelChunks(c: Codec, content: Bytes): Option<seq<Bytes>>
    requires Shrinks(c)
    decreases |content|
  {
    if |content| <= c.maxChunkSize then Some([content])
    else match c.encrypt(c.packChunk(content))
      case Err(_) => None
      case Ok((m, chunks)) =>
        match LevelChunks(c, c.packLevel(Additional(m)))
        case None => None
        case Some(rest) => Some(Reversed(Contents(chunks)) + rest)
  }

  lemma {:induction false} LevelNext(c: Codec, content: Bytes, n: nat)
    requires |content| > c.maxChunkSize && c.encrypt(c.packChunk(content)).Ok?
    ensures Level(c, content, n + 1) == Level(c, c.packLevel(Additional(c.encrypt(c.packChunk(content)).value.0)), n)
  {
    if n > 0 {
      LevelNext(c, content, n - 1);
    }
  }

  /** Packing a data map succeeds exactly when every too big chunk of its chain can be encrypted. */
  lemma {:induction false} LevelsExactly(c: Codec, content: Bytes)
    requires Shrinks(c)
    ensures LevelChunks(c, content).Some? <==> Packable(c, content)
    decreases |content|
  {
    if |content| <= c.maxChunkSize {
      forall n: nat ensures !BreaksOff(c, content, n) {
        ShortChain(c, content, n);
      }
    } else if c.encrypt(c.packChunk(content)).Err? {
      assert BreaksOff(c, content, 0);
    } else {
      var next := c.packLevel(Additional(c.encrypt(c.packChunk(content)).value.0));
      LevelsExactly(c, next);
      if n: nat :| BreaksOff(c, next, n) {
        LevelNext(c, content, n);
        assert BreaksOff(c, content, n + 1);
      }
      if n: nat :| BreaksOff(c, content, n) {
        assert n > 0;
        LevelNext(c, content, n - 1);
        assert BreaksOff(c, next, n - 1);
      }
    }
  }

  lemma {:induction false} ShortChain(c: Codec, content: Bytes, n: nat)
    requires |content| <= c.maxChunkSize
    ensures n > 0 ==> Level(c, content, n).None?
  {
    if n > 1 {
      ShortChain(c, content, n - 1);
    }
  }

  /** Packs the data map; while its chunk is too big it is encrypted in turn. */
  method Pack(c: Codec, m: DataMap, encrypted: seq<EncryptedChunk>)
    returns (r: Result<(Name, seq<Bytes>), Error>, ghost levels: nat)
    requires Lawful(c) && Shrinks(c)
    ensures r.Ok? ==> Packed(c, m, encrypted, r.value.0, r.value.1, levels)
    ensures match LevelChunks(c, c.packLevel(First(m)))
      case Some(extra) => r.Ok? && r.value.1 == Contents(encrypted) + extra
      case None => r == Err(SelfEncryption)
    ensures r.Ok? <==> Packable(c, c.packLevel(First(m)))
  {
    var first := c.packLevel(First(m));
    LevelsExactly(c, first);
    var packed;
    packed, levels := PackLevels(c, m);
    if packed.Err? {
      return Err(packed.error), levels;
    }
    var (chunks, content) := packed.value;
    ReversedMembers(chunks);
    var additional := Reversed(chunks) + [content];
    var all := Contents(encrypted) + additional;
    SameContents(c, content, chunks, all, levels, m);
    r := Ok((c.name(content), all));
  }

  /** The loop that goes on until the chunk is not too big. */
  method PackLevels(c: Codec, m: DataMap) returns (r: Result<(seq<Bytes>, Bytes), Error>, ghost levels: nat)
    requires Lawful(c) && Shrinks(c)
    ensures match r
      case Ok((chunks, content)) =>
        && |content| <= c.maxChunkSize && UnpacksTo(c, content, chunks, levels, m)
        && LevelChunks(c, c.packLevel(First(m))) == Some(Reversed(chunks) + [content])
      case Err(e) => e == SelfEncryption && LevelChunks(c, c.packLevel(First(m))) == None
  {
    var chunks: seq<Bytes> := [];
    var content := c.packLevel(First(m));
    ghost var first := content;
    levels := 0;
    FirstLevelUnpacks(c, m);
    assert SoFar(c, first, chunks, content) by {
      var all := LevelChunks(c, first);
      assert all.Some? ==> Reversed(chunks) + all.value == all.value;
    }
    while |content| > c.maxChunkSize
      invariant UnpacksTo(c, content, chunks, levels, m) && SoFar(c, first, chunks, content)
      decreases |content|
    {
      var next := c.encrypt(c.packChunk(content));
      if next.Err? {
        return Err(SelfEncryption), levels;
      }
      NextLevelUnpacks(c, content, chunks, levels, m, Contents(next.value.1) + chunks);
      SoFarStep(c, first, chunks, content, next.value.0, next.value.1);
      chunks := Contents(next.value.1) + chunks;
      content := c.packLevel(Additional(next.value.0));
      levels := levels + 1;
    }
    r := Ok((chunks, content));
  }

  /** In the middle of packing: what is still to come is the rest of the chunks. */
  ghost predicate SoFar(c: Codec, first: Bytes, chunks: seq<Bytes>, content: Bytes)
    requires Shrinks(c)
  {
    match LevelChunks(c, content)
    case None => LevelChunks(c, first) == None
    case Some(rest) => LevelChunks(c, first) == Some(Reversed(chunks) + rest)
  }

  lemma {:induction false} SoFarStep(c: Codec, first: Bytes, chunks: seq<Bytes>, content: Bytes, m: DataMap,
                                     next: seq<EncryptedChunk>)
    requires Shrinks(c) && SoFar(c, first, chunks, content) && |content| > c.maxChunkSize
    requires c.encrypt(c.packChunk(content)) == Ok((m, next))
    ensures SoFar(c, first, Contents(next) + chunks, c.packLevel(Additional(m)))
  {
    ReversedConcat(Contents(next), chunks);
    var rest := LevelChunks(c, c.packLevel(Additional(m)));
    if rest.Some? {
      Associative(Reversed(chunks), Reversed(Contents(next)), rest.value);
    }
  }

  // ---------- Round trip ----------

  /** Reading the address comes to an end and yields the data. */
  ghost predicate ReadsBack(c: Codec, store: Store, address: Name, data: Bytes) {
    address in store && Ends(c, store, store[address]) && Read(c, store, address) == Ok(data)
  }

  /** Chunks a file: a small one is its own chunk, a large one is encrypted and packed. */
  method ChunkBytes(c: Codec, data: Bytes) returns (r: Result<(Name, seq<Bytes>), Error>, ghost levels: nat)
    requires Lawful(c) && Shrinks(c)
    ensures |data| < MIN_ENCRYPTABLE_BYTES ==> r == if data == [] then Err(EmptyFile) else Ok((c.name(data), [data]))
    ensures |data| >= MIN_ENCRYPTABLE_BYTES && r.Ok? ==>
      forall store :: HoldsAll(c, store, r.value.1) ==> ReadsBack(c, store, r.value.0, data)
    ensures |data| >= MIN_ENCRYPTABLE_BYTES ==>
      (r.Ok? <==> c.encrypt(data).Ok? && Packable(c, c.packLevel(First(c.encrypt(data).value.0))))
    ensures |data| >= MIN_ENCRYPTABLE_BYTES && r.Err? ==> r.error == SelfEncryption
  {
    levels := 0;
    if |data| < MIN_ENCRYPTABLE_BYTES {
      if data == [] {
        return Err(EmptyFile), levels;
      }
      return Ok((c.name(data), [data])), levels;
    }
    var encrypted := c.encrypt(data);
    if encrypted.Err? {
      return Err(SelfEncryption), levels;
    }
    r, levels := Pack(c, encrypted.value.0, encrypted.value.1);
    if r.Ok? {
      forall store | HoldsAll(c, store, r.value.1) ensures ReadsBack(c, store, r.value.0, data) {
        LargeFileRoundTrip(c, data, r.value.0, r.value.1, levels, store);
      }
    }
  }

  /** A small file is read back exactly as it is from wherever its chunk is held, if it does not happen
      to decode as a packed data map. */
  lemma SmallFileRoundTrip(c: Codec, data: Bytes, store: Store)
    requires HoldsAll(c, store, [data]) && c.unpackLevel(data).Err?
    ensures ReadsBack(c, store, c.name(data), data)
  {
    assert data in [data];
    assert Unpack(c, store, data, 0) == Some(Err(Serialisation));
    UnpackedIn(c, store, data, 0);
  }

  /** Reading the head of a packed file from any store that holds all its chunks gives the original
      data, through any number of levels. */
  lemma LargeFileRoundTrip(c: Codec, data: Bytes, head: Name, all: seq<Bytes>, levels: nat, store: Store)
    requires Lawful(c) && c.encrypt(data).Ok?
    requires Packed(c, c.encrypt(data).value.0, c.encrypt(data).value.1, head, all, levels)
    requires HoldsAll(c, store, all)
    ensures ReadsBack(c, store, head, data)
  {
    var (m, chunks) := c.encrypt(data).value;
    var last := all[|all| - 1];
    assert last in all && store[head] == last;
    assert forall b :: b in Contents(chunks) ==> b in all;
    assert HoldsAll(c, store, Contents(chunks));
    ReadAllUndoesEncrypt(c, store, data);
    assert Unpack(c, store, last, levels) == Some(Ok(m));
    UnpackedIn(c, store, last, levels);
  }
}
