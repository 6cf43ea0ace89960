/** The file transfer engine: chunking, positional writes, and the integrity check. */
module FileTransfer {
  import opened Bytes
  import opened Wrappers
  import Sha256
  import Sha256Buffer

  datatype FileChunk = FileChunk(
    transferId: string,
    chunkIndex: u32,
    offset: nat,
    totalSize: nat,
    data: seq<byte>,
    sha256Hash: string,
    isLastChunk: bool)

  // ---------- chunks ----------

  function End(c: FileChunk): nat {
    c.offset + |c.data|
  }

  /** Where chunk `i` has to start: at the end of the one before. */
  function StartOf(chunks: seq<FileChunk>, i: nat): nat
    requires i <= |chunks|
  {
    if i == 0 then 0 else End(chunks[i - 1])
  }

  /** Chunk `i` starts where the one before ends, is not empty, and holds its stretch of the content. */
  predicate TileAt(chunks: seq<FileChunk>, content: seq<byte>, i: nat)
    requires i < |chunks|
  {
    && chunks[i].data != []
    && chunks[i].offset == StartOf(chunks, i)
    && End(chunks[i]) <= |content|
    && chunks[i].data == content[chunks[i].offset..End(chunks[i])]
  }

  /** The chunks lie end to end and hold the whole content. */
  ghost predicate Tiles(chunks: seq<FileChunk>, content: seq<byte>) {
    && (forall i: nat :: i < |chunks| ==> TileAt(chunks, content, i))
    && |content| == StartOf(chunks, |chunks|)
  }

  /** Everything else a prepared chunk records about itself. */
  predicate Labelled(chunks: seq<FileChunk>, content: seq<byte>, transferId: string, chunkSize: nat) {
    forall i :: 0 <= i < |chunks| ==>
      && chunks[i].transferId == transferId
      && chunks[i].chunkIndex == ToU32(i)
      && chunks[i].totalSize == |content|
      && chunks[i].sha256Hash == Sha256.HexDigest(chunks[i].data)
      && chunks[i].isLastChunk == (i == |chunks| - 1)
      && |chunks[i].data| <= chunkSize
      && (i < |chunks| - 1 ==> |chunks[i].data| == chunkSize)
  }

  lemma {:induction false} OffsetsIncrease(chunks: seq<FileChunk>, content: seq<byte>, i: nat, j: nat)
    requires Tiles(chunks, content) && i < j < |chunks|
    ensures End(chunks[i]) <= chunks[j].offset
    decreases j
  {
    assert TileAt(chunks, content, j);
    if i == j - 1 {
    } else {
      assert TileAt(chunks, content, j - 1);
      OffsetsIncrease(chunks, content, i, j - 1);
    }
  }

  // ---------- positional writes ----------

  /** Writing at an offset: bytes in between read as zero, bytes beyond stay. */
  function WriteAt(file: seq<byte>, offset: nat, data: seq<byte>): (r: seq<byte>)
    ensures |r| == if data == [] then |file| else if offset + |data| > |file| then offset + |data| else |file|
  {
    var length := if data == [] then |file| else if offset + |data| > |file| then offset + |data| else |file|;
    seq(length, k requires 0 <= k < length =>
      if offset <= k < offset + |data| then data[k - offset] else if k < |file| then file[k] else 0)
  }

  /** What one `writeChunkToFile` leaves at its path; None is a missing file. Offset 0 truncates
      or creates the file, any other offset needs one to exist. */
  function Written(file: Option<seq<byte>>, offset: nat, data: seq<byte>): Option<seq<byte>> {
    if offset == 0 then Some(data)
    else match file
      case None => None
      case Some(bytes) => Some(WriteAt(bytes, offset, data))
  }

  class FileStore {
    var files: map<string, seq<byte>>

    function Get(path: string): Option<seq<byte>>
      reads this
    {
      if path in files then Some(files[path]) else None
    }

    constructor (files: map<string, seq<byte>>)
      ensures this.files == files
    {
      this.files := files;
    }

    method PrepareFileChunks(transferId: string, path: string, chunkSize: nat) returns (chunks: seq<FileChunk>)
      requires chunkSize > 0 || path !in files || files[path] == []
      ensures path !in files ==> chunks == []
      ensures path in files ==>
                Tiles(chunks, files[path]) && Labelled(chunks, files[path], transferId, chunkSize)
      ensures forall i :: 0 <= i < |chunks| ==>
                && chunks[i].transferId == transferId && chunks[i].chunkIndex == i % TWO32
                && chunks[i].totalSize == |files[path]| && chunks[i].sha256Hash == Sha256.HexDigest(chunks[i].data)
                && (chunks[i].isLastChunk <==> i == |chunks| - 1)
    {
      hide Sha256.HexDigest, ToU32;
      chunks := [];
      if path !in files {
        return;
      }
      var content := files[path];
      var totalSize := |content|;
      var offset := 0;
      var chunkIndex := 0;
      while offset < totalSize
        invariant chunkIndex == |chunks|
        invariant offset == StartOf(chunks, |chunks|)
        invariant offset <= totalSize
        invariant Tiles(chunks, content[..offset])
        invariant forall i :: 0 <= i < |chunks| ==>
                    && chunks[i].transferId == transferId
                    && chunks[i].chunkIndex == ToU32(i)
                    && chunks[i].totalSize == totalSize
                    && chunks[i].sha256Hash == Sha256.HexDigest(chunks[i].data)
                    && chunks[i].isLastChunk == (End(chunks[i]) >= totalSize)
                    && |chunks[i].data| <= chunkSize
                    && (End(chunks[i]) < totalSize ==> |chunks[i].data| == chunkSize)
      {
        var currentChunkSize := if chunkSize < totalSize - offset then chunkSize else totalSize - offset;
        var data := content[offset..offset + currentChunkSize];
        var hash := Sha256Buffer.ComputeSha256(data);
        var chunk := FileChunk(transferId, ToU32(chunkIndex), offset, totalSize, data, hash,
                               offset + currentChunkSize >= totalSize);
        TilesExtend(chunks, content, offset, chunk);
        chunkIndex := chunkIndex + 1;
        offset := offset + currentChunkSize;
        chunks := chunks + [chunk];
      }
      assert content[..offset] == content;
      forall i | 0 <= i < |chunks| - 1
        ensures End(chunks[i]) < totalSize
      {
        OffsetsIncrease(chunks, content, i, i + 1);
        assert TileAt(chunks, content, i + 1);
      }
    }

    /** Opens (truncating for offset 0), seeks, writes; false when the file cannot be opened. */
    method WriteChunkToFile(path: string, offset: nat, data: seq<byte>) returns (ok: bool)
      modifies this
      ensures ok == (offset == 0 || path in old(files))
      ensures Get(path) == Written(old(Get(path)), offset, data)
      ensures forall p :: p != path ==> (p in files <==> p in old(files)) && (p in files ==> files[p] == old(files)[p])
    {
      if offset == 0 {
        files := files[path := []];
      } else if path !in files {
        return false;
      }
      files := files[path := WriteAt(files[path], offset, data)];
      assert offset == 0 ==> files[path] == data;
      return true;
    }

    /** The digest string of a file, empty for a missing one. */
    method CalculateFileSha256(path: string) returns (hash: string)
      ensures hash == if path in files then Sha256.HexDigest(files[path]) else ""
    {
      hide Sha256.HexDigest;
      if path !in files {
        return "";
      }
      hash := Sha256Buffer.ComputeSha256(files[path]);
    }

    method VerifyIntegrity(path: string, expectedSha256: string) returns (ok: bool)
      ensures ok == (expectedSha256 == if path in files then Sha256.HexDigest(files[path]) else "")
    {
      hide Sha256.HexDigest;
      var actualHash := CalculateFileSha256(path);
      return actualHash == expectedSha256;
    }

    /** A receiver's run: the chunks written in the given order, repeats and all, then verified. */
    method Receive(path: string, chunks: seq<FileChunk>, order: seq<nat>, expectedSha256: string) returns (ok: bool)
      requires Names(order, |chunks|)
      modifies this
      ensures Get(path) == Assemble(old(Get(path)), chunks, order)
      ensures ok == (expectedSha256 == if path in files then Sha256.HexDigest(files[path]) else "")
      ensures forall p :: p != path ==> (p in files <==> p in old(files)) && (p in files ==> files[p] == old(files)[p])
    {
      hide Sha256.HexDigest, Written;
      for n := 0 to |order|
        invariant Get(path) == Assemble(old(Get(path)), chunks, order[..n])
        invariant forall p :: p != path ==> (p in files <==> p in old(files)) && (p in files ==> files[p] == old(files)[p])
      {
        assert order[..n + 1][..n] == order[..n];
        var chunk := chunks[order[n]];
        var written := WriteChunkToFile(path, chunk.offset, chunk.data);
      }
      assert order[..|order|] == order;
      ok := VerifyIntegrity(path, expectedSha256);
    }
  }

  lemma TilesExtend(chunks: seq<FileChunk>, content: seq<byte>, offset: nat, chunk: FileChunk)
    requires offset <= |content| && Tiles(chunks, content[..offset])
    requires chunk.offset == offset && End(chunk) <= |content|
    requires chunk.data != [] && chunk.data == content[offset..End(chunk)]
    ensures Tiles(chunks + [chunk], content[..End(chunk)])
  {
    var all := chunks + [chunk];
    var part := content[..End(chunk)];
    forall i: nat | i < |all|
      ensures TileAt(all, part, i)
    {
      if i < |chunks| {
        assert TileAt(chunks, content[..offset], i);
        assert all[i] == chunks[i] && StartOf(all, i) == StartOf(chunks, i);
        assert part[all[i].offset..End(all[i])] == content[..offset][chunks[i].offset..End(chunks[i])];
      }
    }
  }

  // ---------- assembly in any order ----------

  /** Every entry of `order` is the number of one of `count` chunks. */
  predicate Names(order: seq<nat>, count: nat) {
    forall k :: 0 <= k < |order| ==> order[k] < count
  }

  /** The destination after writing the chunks `order` names, one after the other. */
  function Assemble(file: Option<seq<byte>>, chunks: seq<FileChunk>, order: seq<nat>): Option<seq<byte>>
    requires Names(order, |chunks|)
  {
    if order == [] then file
    else
      var n := |order| - 1;
      var chunk := chunks[order[n]];
      Written(Assemble(file, chunks, order[..n]), chunk.offset, chunk.data)
  }

  /** What the file held at its last truncation, or else at the beginning, and the chunks written since. */
  datatype Footing = Footing(base: seq<byte>, kept: set<nat>)

  /** Writing chunk 0 truncates; nothing else does. None while there is no file. */
  function Since(file: Option<seq<byte>>, order: seq<nat>): Option<Footing> {
    if order == [] then
      (match file case None => None case Some(bytes) => Some(Footing(bytes, {})))
    else
      var n := |order| - 1;
      if order[n] == 0 then Some(Footing([], {0}))
      else match Since(file, order[..n])
        case None => None
        case Some(f) => Some(f.(kept := f.kept + {order[n]}))
  }

  /** Chunk `i` holds position `k`. */
  predicate Holds(c: FileChunk, k: nat) {
    c.offset <= k < End(c)
  }

  ghost predicate Covered(chunks: seq<FileChunk>, kept: set<nat>, k: nat) {
    exists i :: i in kept && i < |chunks| && Holds(chunks[i], k)
  }

  /** The base and the kept chunks reach to `length` exactly. */
  ghost predicate EndsAt(base: seq<byte>, chunks: seq<FileChunk>, kept: set<nat>, length: nat) {
    && |base| <= length
    && (forall i :: i in kept ==> i < |chunks| && End(chunks[i]) <= length)
    && (|base| == length || exists i :: i in kept && i < |chunks| && End(chunks[i]) == length)
  }

  /** A base read past its end gives zeros. */
  function ByteAt(base: seq<byte>, k: nat): byte {
    if k < |base| then base[k] else 0
  }

  /** The file is the base with the kept chunks laid over it: it ends where the furthest of them ends,
      holds their bytes in place, and everywhere else the base's, or zeros past it. */
  ghost predicate BuiltFrom(file: seq<byte>, base: seq<byte>, chunks: seq<FileChunk>, content: seq<byte>, kept: set<nat>) {
    && EndsAt(base, chunks, kept, |file|)
    && forall k :: 0 <= k < |file| ==>
         if Covered(chunks, kept, k) then k < |content| && file[k] == content[k] else file[k] == ByteAt(base, k)
  }

  lemma CoveredExtends(chunks: seq<FileChunk>, kept: set<nat>, j: nat, k: nat)
    requires j < |chunks|
    ensures Covered(chunks, kept + {j}, k) <==> Covered(chunks, kept, k) || Holds(chunks[j], k)
  {
    if Covered(chunks, kept, k) {
      var i :| i in kept && i < |chunks| && Holds(chunks[i], k);
      assert i in kept + {j};
    }
    if Holds(chunks[j], k) {
      assert j in kept + {j};
    }
  }

  lemma EndsExtends(base: seq<byte>, chunks: seq<FileChunk>, kept: set<nat>, j: nat, length: nat)
    requires j < |chunks| && EndsAt(base, chunks, kept, length)
    ensures EndsAt(base, chunks, kept + {j}, if End(chunks[j]) > length then End(chunks[j]) else length)
  {
    if |base| != length {
      var i :| i in kept && i < |chunks| && End(chunks[i]) == length;
      assert i in kept + {j};
    }
    assert j in kept + {j};
  }

  lemma WriteExtends(file: seq<byte>, base: seq<byte>, chunks: seq<FileChunk>, content: seq<byte>, kept: set<nat>, j: nat)
    requires Tiles(chunks, content) && j < |chunks|
    requires BuiltFrom(file, base, chunks, content, kept)
    ensures BuiltFrom(WriteAt(file, chunks[j].offset, chunks[j].data), base, chunks, content, kept + {j})
  {
    var c := chunks[j];
    var after := WriteAt(file, c.offset, c.data);
    EndsExtends(base, chunks, kept, j, |file|);
    assert TileAt(chunks, content, j);
    assert c.data == content[c.offset..End(c)];
    hide Tiles;
    forall k | 0 <= k < |after|
      ensures if Covered(chunks, kept + {j}, k) then k < |content| && after[k] == content[k] else after[k] == ByteAt(base, k)
    {
      CoveredExtends(chunks, kept, j, k);
      if k >= |file| && !Holds(c, k) {
        NothingPast(base, chunks, kept, |file|, k);
      }
    }
  }

  lemma NothingPast(base: seq<byte>, chunks: seq<FileChunk>, kept: set<nat>, length: nat, k: nat)
    requires EndsAt(base, chunks, kept, length) && k >= length
    ensures !Covered(chunks, kept, k) && ByteAt(base, k) == 0
  {
  }

  lemma FirstChunkBuilds(chunks: seq<FileChunk>, content: seq<byte>)
    requires Tiles(chunks, content) && chunks != []
    ensures chunks[0].offset == 0
    ensures BuiltFrom(chunks[0].data, [], chunks, content, {0})
  {
    var c := chunks[0];
    assert TileAt(chunks, content, 0);
    assert 0 in {0} && End(chunks[0]) == |c.data|;
    forall k | 0 <= k < |c.data|
      ensures Covered(chunks, {0}, k)
    {
      assert 0 in {0} && Holds(chunks[0], k);
    }
  }

  lemma NothingWritten(file: seq<byte>, chunks: seq<FileChunk>, content: seq<byte>)
    ensures BuiltFrom(file, file, chunks, content, {})
  {
  }

  /** After any run there is a file exactly when there was one or chunk 0 was written, and it is then
      what it held at its last truncation with the chunks written since laid over it. */
  lemma {:induction false} AssembleBuilds(file: Option<seq<byte>>, chunks: seq<FileChunk>, content: seq<byte>, order: seq<nat>)
    requires Tiles(chunks, content)
    requires Names(order, |chunks|)
    ensures Assemble(file, chunks, order).Some? <==> Since(file, order).Some?
    ensures Since(file, order).Some? ==>
              var f := Since(file, order).value;
              BuiltFrom(Assemble(file, chunks, order).value, f.base, chunks, content, f.kept)
    decreases |order|
  {
    hide BuiltFrom, WriteAt, Tiles;
    if order == [] {
      if file.Some? {
        NothingWritten(file.value, chunks, content);
      }
    } else {
      var n := |order| - 1;
      assert order[n] < |chunks|;
      FirstChunkBuilds(chunks, content);
      if order[n] != 0 {
        AssembleBuilds(file, chunks, content, order[..n]);
        LaterOffsetPositive(chunks, content, order[n]);
        if Since(file, order[..n]).Some? {
          var f := Since(file, order[..n]).value;
          var before := Assemble(file, chunks, order[..n]).value;
          WriteExtends(before, f.base, chunks, content, f.kept, order[n]);
        }
      }
    }
  }

  lemma LaterOffsetPositive(chunks: seq<FileChunk>, content: seq<byte>, j: nat)
    requires Tiles(chunks, content) && 0 < j < |chunks|
    ensures chunks[j].offset > 0
  {
    assert TileAt(chunks, content, 0);
    OffsetsIncrease(chunks, content, 0, j);
  }

  /** The base already reads as the chunk's data at its place; the empty base reads as zeros. */
  predicate Already(base: seq<byte>, c: FileChunk) {
    forall p :: 0 <= p < |c.data| ==> c.data[p] == ByteAt(base, c.offset + p)
  }

  /** Some chunk holds each position of the content. */
  lemma {:induction false} Owner(chunks: seq<FileChunk>, content: seq<byte>, k: nat, n: nat) returns (i: nat)
    requires Tiles(chunks, content) && n < |chunks| && k < End(chunks[n])
    ensures i < |chunks| && Holds(chunks[i], k)
    decreases n
  {
    assert TileAt(chunks, content, n);
    if n == 0 || chunks[n].offset <= k {
      i := n;
    } else {
      i := Owner(chunks, content, k, n - 1);
    }
  }

  lemma TwoHolders(chunks: seq<FileChunk>, content: seq<byte>, i: nat, j: nat, k: nat)
    requires Tiles(chunks, content) && i < |chunks| && j < |chunks|
    requires Holds(chunks[i], k) && Holds(chunks[j], k)
    ensures i == j
  {
    if i < j { OffsetsIncrease(chunks, content, i, j); }
    if j < i { OffsetsIncrease(chunks, content, j, i); }
  }

  /** The exact condition, over every run. There has to be a file, to begin with or by writing chunk 0.
      What it held when last truncated must not be longer than the content; that or the last chunk,
      written since, must reach the content's end; and every chunk not written since must be there
      already, which after a truncation means that it is all zeros. */
  lemma AssemblesIff(file: Option<seq<byte>>, chunks: seq<FileChunk>, content: seq<byte>, order: seq<nat>)
    requires Tiles(chunks, content)
    requires Names(order, |chunks|)
    ensures Assemble(file, chunks, order) == Some(content) <==>
            match Since(file, order)
            case None => false
            case Some(f) =>
              && |f.base| <= |content|
              && (|f.base| == |content| || |chunks| - 1 in f.kept)
              && forall i :: 0 <= i < |chunks| && i !in f.kept ==> Already(f.base, chunks[i])
  {
    hide Assemble, Since, Already;
    AssembleBuilds(file, chunks, content, order);
    if Since(file, order).Some? {
      var f := Since(file, order).value;
      BuiltFromIff(Assemble(file, chunks, order).value, f.base, chunks, content, f.kept);
    }
  }

  /** Without chunk 0 everything is laid over the old file; with it, over nothing. */
  lemma {:induction false} SinceIs(file: Option<seq<byte>>, order: seq<nat>)
    ensures 0 !in order ==>
              Since(file, order) == if file.None? then None else Some(Footing(file.value, Elements(order)))
    ensures 0 in order ==> Since(file, order).Some? && Since(file, order).value.base == []
    decreases |order|
  {
    if order == [] {
      assert Elements(order) == {};
    } else {
      var n := |order| - 1;
      SinceIs(file, order[..n]);
      assert order == order[..n] + [order[n]];
      assert Elements(order) == Elements(order[..n]) + {order[n]};
    }
  }

  lemma BuiltFromIff(file: seq<byte>, base: seq<byte>, chunks: seq<FileChunk>, content: seq<byte>, kept: set<nat>)
    requires Tiles(chunks, content) && BuiltFrom(file, base, chunks, content, kept)
    ensures file == content <==>
            && |base| <= |content|
            && (|base| == |content| || |chunks| - 1 in kept)
            && forall i :: 0 <= i < |chunks| && i !in kept ==> Already(base, chunks[i])
  {
    hide Already;
    var last := |chunks| - 1;
    LastReached(base, chunks, content, kept, |file|);
    if |file| == |content| {
      forall i | 0 <= i < |chunks| && i !in kept
        ensures Already(base, chunks[i]) <==> forall k: nat :: Holds(chunks[i], k) && k < |content| ==> file[k] == content[k]
      {
        UnwrittenIff(file, base, chunks, content, kept, i);
      }
      if forall i :: 0 <= i < |chunks| && i !in kept ==> Already(base, chunks[i]) {
        forall k | 0 <= k < |content|
          ensures file[k] == content[k]
        {
          var i := Owner(chunks, content, k, last);
          if i in kept { assert Covered(chunks, kept, k); }
        }
      }
    }
  }

  lemma LastReached(base: seq<byte>, chunks: seq<FileChunk>, content: seq<byte>, kept: set<nat>, length: nat)
    requires Tiles(chunks, content) && EndsAt(base, chunks, kept, length)
    ensures length == |content| <==> |base| <= |content| && (|base| == |content| || |chunks| - 1 in kept)
  {
    var last := |chunks| - 1;
    if |base| != length {
      var i :| i in kept && i < |chunks| && End(chunks[i]) == length;
      assert TileAt(chunks, content, last);
      assert TileAt(chunks, content, i);
      if i < last { OffsetsIncrease(chunks, content, i, last); }
    }
  }

  /** A chunk not kept reads as the base does, so it agrees with the content exactly when the base has it. */
  lemma UnwrittenIff(file: seq<byte>, base: seq<byte>, chunks: seq<FileChunk>, content: seq<byte>, kept: set<nat>, i: nat)
    requires Tiles(chunks, content) && BuiltFrom(file, base, chunks, content, kept) && |file| == |content|
    requires i < |chunks| && i !in kept
    ensures Already(base, chunks[i]) <==> forall k: nat :: Holds(chunks[i], k) && k < |content| ==> file[k] == content[k]
  {
    hide EndsAt, ByteAt;
    var c := chunks[i];
    assert TileAt(chunks, content, i);
    hide Tiles;
    forall k: nat | Holds(c, k)
      ensures file[k] == ByteAt(base, k) && content[k] == c.data[k - c.offset]
    {
      if Covered(chunks, kept, k) {
        var j :| j in kept && j < |chunks| && Holds(chunks[j], k);
        TwoHolders(chunks, content, i, j, k);
      }
    }
    if forall k: nat :: Holds(c, k) && k < |content| ==> file[k] == content[k] {
      forall p | 0 <= p < |c.data|
        ensures c.data[p] == ByteAt(base, c.offset + p)
      {
        assert Holds(c, c.offset + p);
      }
    }
  }

  // ---------- the transfer a caller relies on ----------

  function Elements(order: seq<nat>): set<nat> {
    set i | i in order
  }

  lemma {:induction false} SinceZeroFirst(file: Option<seq<byte>>, order: seq<nat>)
    requires order != [] && order[0] == 0
    requires forall k :: 0 < k < |order| ==> order[k] != 0
    ensures Since(file, order) == Some(Footing([], Elements(order)))
    decreases |order|
  {
    var n := |order| - 1;
    if n > 0 {
      SinceZeroFirst(file, order[..n]);
      assert order == order[..n] + [order[n]];
      assert Elements(order) == Elements(order[..n]) + {order[n]};
    } else {
      assert order == [0];
      assert Elements(order) == {0};
    }
  }

  /** Any-order transfer: chunk 0 first and once, every other chunk at least once in any order, gives
      the source byte for byte whatever the destination held, and its digest verifies. */
  lemma AnyOrderTransfer(file: Option<seq<byte>>, chunks: seq<FileChunk>, content: seq<byte>, order: seq<nat>)
    requires Tiles(chunks, content) && chunks != []
    requires Names(order, |chunks|)
    requires order != [] && order[0] == 0
    requires forall k :: 0 < k < |order| ==> order[k] != 0
    requires forall i :: 0 <= i < |chunks| ==> i in order
    ensures Assemble(file, chunks, order) == Some(content)
  {
    hide Tiles, Assemble, Since;
    SinceZeroFirst(file, order);
    AssemblesIff(file, chunks, content, order);
  }

  /** From one end to the other: prepare the chunks of a file, write them elsewhere in such an order,
      and the copy is exact and verifies against the source's digest. */
  method Transfer(store: FileStore, source: string, dest: string, transferId: string, chunkSize: nat, order: seq<nat>)
    returns (ok: bool)
    requires source in store.files && store.files[source] != [] && source != dest && chunkSize > 0
    requires order != [] && order[0] == 0
    requires forall k :: 0 < k < |order| ==> order[k] != 0
    requires forall i: nat :: i in order <==> i * chunkSize < |store.files[source]|
    modifies store
    ensures dest in store.files && store.files[dest] == old(store.files[source])
    ensures source in store.files && store.files[source] == old(store.files[source])
    ensures ok
  {
    hide Sha256.HexDigest, Assemble;
    var content := store.files[source];
    var chunks := store.PrepareFileChunks(transferId, source, chunkSize);
    var expected := store.CalculateFileSha256(source);
    forall i: nat
      ensures i < |chunks| <==> i * chunkSize < |content|
    {
      ChunkCount(chunks, content, transferId, chunkSize, i);
    }
    forall k | 0 <= k < |order|
      ensures order[k] < |chunks|
    {
      assert order[k] in order;
    }
    AnyOrderTransfer(store.Get(dest), chunks, content, order);
    ok := store.Receive(dest, chunks, order, expected);
  }

  lemma {:induction false} OffsetIs(chunks: seq<FileChunk>, content: seq<byte>, transferId: string, chunkSize: nat, i: nat)
    requires Tiles(chunks, content) && Labelled(chunks, content, transferId, chunkSize) && i < |chunks|
    ensures chunks[i].offset == i * chunkSize
  {
    hide Sha256.HexDigest, ToU32;
    assert TileAt(chunks, content, i);
    if i == 0 {
    } else {
      OffsetIs(chunks, content, transferId, chunkSize, i - 1);
      assert i * chunkSize == (i - 1) * chunkSize + chunkSize;
    }
  }

  lemma ChunkCount(chunks: seq<FileChunk>, content: seq<byte>, transferId: string, chunkSize: nat, i: nat)
    requires Tiles(chunks, content) && Labelled(chunks, content, transferId, chunkSize) && chunks != []
    ensures i < |chunks| <==> i * chunkSize < |content|
  {
    hide Sha256.HexDigest, ToU32;
    var last := |chunks| - 1;
    assert TileAt(chunks, content, last);
    OffsetIs(chunks, content, transferId, chunkSize, last);
    if i < |chunks| {
      OffsetIs(chunks, content, transferId, chunkSize, i);
      assert TileAt(chunks, content, i);
    } else {
      assert |chunks[last].data| <= chunkSize;
      Beyond(last, i, chunkSize);
    }
  }

  lemma {:induction false} Beyond(a: nat, b: nat, c: nat)
    requires a < b
    ensures a * c + c <= b * c
  {
    OneMore(b - 1, c);
    if a == b - 1 {
    } else {
      Beyond(a, b - 1, c);
    }
  }

  lemma OneMore(n: nat, c: nat)
    ensures (n + 1) * c == n * c + c
  {
  }
}
