/** The chunked client-side file format: encryption, decryption, and what size the
    decryption must be told. WebCrypto is any cipher with the laws below. */
module FileFormat {
  import opened Prelude

  const MAGIC: Bytes := [0x53, 0x48, 0x43, 0x4B]
  const SALT_LENGTH: nat := 16
  const IV_LENGTH: nat := 12
  const TAG_LENGTH: nat := 16
  const CHUNK_SIZE: nat := 5 * 1024 * 1024
  const BASE_OVERHEAD: nat := 20
  const CHUNK_OVERHEAD: nat := 28

  /** Key derivation and AES-GCM. */
  datatype Cipher = Cipher(
    derive: (Bytes, Bytes) -> Bytes,
    encrypt: (Bytes, Bytes, Bytes) -> Bytes,
    decrypt: (Bytes, Bytes, Bytes) -> Option<Bytes>)
  {
    /** Decrypting undoes encrypting; a ciphertext is its plaintext and a tag long. */
    ghost predicate Sound() {
      && (forall key, iv, plain :: decrypt(key, iv, encrypt(key, iv, plain)) == Some(plain))
      && (forall key, iv, plain :: |encrypt(key, iv, plain)| == |plain| + TAG_LENGTH)
      && (forall key, iv, data :: decrypt(key, iv, data).Some? ==>
            |data| == |decrypt(key, iv, data).value| + TAG_LENGTH)
    }
  }

  datatype Result = Opened(plain: Bytes) | DecryptionError

  /** Math.ceil of a quotient. */
  function CeilDiv(a: int, b: nat): int
    requires b > 0
  {
    (a + b - 1) / b
  }

  /** slice(from, to) of a typed array, which clamps to its length. */
  function Slice(data: Bytes, from: nat, to: nat): Bytes
    requires from <= to
  {
    data[Min(from, |data|)..Min(to, |data|)]
  }

  function From(data: Bytes, start: nat): Bytes {
    data[Min(start, |data|)..]
  }

  lemma MulOrder(x: int, y: int, b: nat)
    requires x <= y
    ensures x * b <= y * b
  {
  }

  lemma CeilingBounds(a: int, b: nat, q: int)
    requires b > 0
    ensures q == CeilDiv(a, b) <==> (q - 1) * b < a <= q * b
  {
    var n := CeilDiv(a, b);
    var r := (a + b - 1) % b;
    assert a + b - 1 == n * b + r;
    assert (n - 1) * b == n * b - b;
    assert (q - 1) * b == q * b - b;
    if q < n {
      MulOrder(q, n - 1, b);
    } else if q > n {
      MulOrder(n, q - 1, b);
    }
  }

  // --- Encryption --------------------------------------------------------------

  function Header(index: nat, salt: Bytes): Bytes {
    if index == 0 then MAGIC + salt else []
  }

  /** Where chunk `index` starts. */
  function Offset(index: nat, chunkSize: nat): nat {
    index * chunkSize
  }

  lemma NextOffset(index: nat, chunkSize: nat)
    ensures Offset(0, chunkSize) == 0
    ensures Offset(index + 1, chunkSize) == Offset(index, chunkSize) + chunkSize
  {
  }

  /** What is uploaded as chunk `index`. */
  function ChunkAt(c: Cipher, file: Bytes, key: Bytes, salt: Bytes, ivs: seq<Bytes>, chunkSize: nat, index: nat): Bytes
    requires index < |ivs| && Offset(index, chunkSize) <= |file|
  {
    var start := Offset(index, chunkSize);
    Header(index, salt) + ivs[index]
    + c.encrypt(key, ivs[index], file[start..Min(start + chunkSize, |file|)])
  }

  method EncryptFileChunked(c: Cipher, file: Bytes, password: Bytes, salt: Bytes, ivs: seq<Bytes>, chunkSize: nat)
    returns (chunks: seq<Bytes>)
    requires chunkSize > 0 && |ivs| == CeilDiv(|file|, chunkSize)
    ensures |chunks| == CeilDiv(|file|, chunkSize)
    ensures forall i :: 0 <= i < |chunks| ==>
              Offset(i, chunkSize) < |file|
              && chunks[i] == ChunkAt(c, file, c.derive(password, salt), salt, ivs, chunkSize, i)
  {
    hide CeilDiv, Offset;
    var key := c.derive(password, salt);
    NextOffset(0, chunkSize);
    var totalChunks := CeilDiv(|file|, chunkSize);
    chunks := [];
    var start := 0;
    for i := 0 to totalChunks
      invariant |chunks| == i && start == Offset(i, chunkSize)
      invariant forall j :: 0 <= j < i ==>
                  Offset(j, chunkSize) < |file| && chunks[j] == ChunkAt(c, file, key, salt, ivs, chunkSize, j)
    {
      StartsInside(|file|, chunkSize, i);
      var end := Min(start + chunkSize, |file|);
      var plain := file[start..end];
      var chunk := ivs[i] + c.encrypt(key, ivs[i], plain);
      if i == 0 {
        chunk := MAGIC + salt + chunk;
        assert chunk == MAGIC + salt + ivs[i] + c.encrypt(key, ivs[i], plain);
      } else {
        assert chunk == [] + ivs[i] + c.encrypt(key, ivs[i], plain);
      }
      chunks := chunks + [chunk];
      NextOffset(i, chunkSize);
      start := start + chunkSize;
    }
  }

  lemma StartsInside(size: nat, chunkSize: nat, i: nat)
    requires chunkSize > 0 && i < CeilDiv(size, chunkSize)
    ensures Offset(i, chunkSize) < size
  {
    var n := CeilDiv(size, chunkSize);
    assert n * chunkSize <= size + chunkSize - 1;
    assert (i + 1) * chunkSize <= n * chunkSize;
  }

  /** The encrypted file after its header, chunk by chunk. */
  function Sealed(c: Cipher, key: Bytes, file: Bytes, ivs: seq<Bytes>): Bytes
    requires |ivs| == CeilDiv(|file|, CHUNK_SIZE)
    decreases |file|
  {
    if file == [] then []
    else
      var first := file[..Min(CHUNK_SIZE, |file|)];
      ivs[0] + c.encrypt(key, ivs[0], first) + Sealed(c, key, file[|first|..], ivs[1..])
  }

  /** The blob the server stores: every chunk, in index order. */
  ghost predicate IsEncryption(c: Cipher, blob: Bytes, file: Bytes, password: Bytes) {
    exists salt: Bytes, ivs: seq<Bytes>, chunks: seq<Bytes> ::
      IsEncryptionWith(c, blob, file, password, salt, ivs, chunks)
  }

  ghost predicate IsEncryptionWith(c: Cipher, blob: Bytes, file: Bytes, password: Bytes,
                                   salt: Bytes, ivs: seq<Bytes>, chunks: seq<Bytes>)
  {
    && |salt| == SALT_LENGTH && |ivs| == |chunks| == CeilDiv(|file|, CHUNK_SIZE)
    && (forall iv :: iv in ivs ==> |iv| == IV_LENGTH)
    && (forall i :: 0 <= i < |chunks| ==>
          Offset(i, CHUNK_SIZE) < |file|
          && chunks[i] == ChunkAt(c, file, c.derive(password, salt), salt, ivs, CHUNK_SIZE, i))
    && blob == Concat(chunks)
  }

  // --- Decryption ----------------------------------------------------------------

  /** The loop of decryptFileChunked over what is left of the data and the size. */
  function OpenChunks(c: Cipher, key: Bytes, data: Bytes, size: int): Option<Bytes>
    decreases if size > 0 then size else 0
  {
    if size <= 0 then Some([])
    else
      var plaintextSize := Min(CHUNK_SIZE, size);
      var encryptedSize := IV_LENGTH + plaintextSize + TAG_LENGTH;
      match c.decrypt(key, Slice(data, 0, IV_LENGTH), Slice(data, IV_LENGTH, encryptedSize))
      case None => None
      case Some(plain) =>
        match OpenChunks(c, key, From(data, encryptedSize), size - CHUNK_SIZE)
        case None => None
        case Some(rest) => Some(plain + rest)
  }

  /** Before chunks, a file was one salt, one iv and one ciphertext. */
  function OpenWhole(c: Cipher, data: Bytes, password: Bytes): Option<Bytes> {
    var key := c.derive(password, Slice(data, 0, SALT_LENGTH));
    c.decrypt(key, Slice(data, SALT_LENGTH, SALT_LENGTH + IV_LENGTH), From(data, SALT_LENGTH + IV_LENGTH))
  }

  function Decrypted(c: Cipher, data: Bytes, password: Bytes, originalFileSize: int): Result {
    var plain :=
      if MAGIC <= data
      then OpenChunks(c, c.derive(password, Slice(data, 4, BASE_OVERHEAD)), From(data, BASE_OVERHEAD), originalFileSize)
      else OpenWhole(c, data, password);
    if plain.Some? then Opened(plain.value) else DecryptionError
  }

  method DecryptFileChunked(c: Cipher, data: Bytes, password: Bytes, originalFileSize: int) returns (res: Result)
    ensures res == Decrypted(c, data, password, originalFileSize)
  {
    var hasMagic := |data| >= 4 && data[0] == MAGIC[0] && data[1] == MAGIC[1] && data[2] == MAGIC[2]
        && data[3] == MAGIC[3];
    assert hasMagic <==> MAGIC <= data;
    if !hasMagic {
      var whole := OpenWhole(c, data, password);
      return if whole.Some? then Opened(whole.value) else DecryptionError;
    }
    var key := c.derive(password, Slice(data, 4, 4 + SALT_LENGTH));
    var plain := DecryptChunks(c, key, data, originalFileSize);
    return if plain.Some? then Opened(plain.value) else DecryptionError;
  }

  /** Its loop over the chunks, after the magic and the salt. */
  method DecryptChunks(c: Cipher, key: Bytes, data: Bytes, originalFileSize: int) returns (plain: Option<Bytes>)
    ensures plain == OpenChunks(c, key, From(data, BASE_OVERHEAD), originalFileSize)
  {
    hide Slice, From, CeilDiv, OpenChunks;
    ghost var spec := OpenChunks(c, key, From(data, BASE_OVERHEAD), originalFileSize);
    var totalChunks := CeilDiv(originalFileSize, CHUNK_SIZE);
    var result: Bytes := [];
    var offset: nat := 4 + SALT_LENGTH;
    var i := 0;
    ghost var left := originalFileSize;
    assert spec.Some? ==> result + spec.value == spec.value;
    while i < totalChunks
      invariant 0 <= i && (i <= totalChunks || i == 0) && left == originalFileSize - i * CHUNK_SIZE
      invariant var rest := OpenChunks(c, key, From(data, offset), left);
                spec == if rest.Some? then Some(result + rest.value) else None
    {
      ChunksLeft(originalFileSize, i);
      var plaintextSize := Min(CHUNK_SIZE, originalFileSize - i * CHUNK_SIZE);
      var encryptedChunkSize := IV_LENGTH + plaintextSize + 16;
      var iv := Slice(data, offset, offset + IV_LENGTH);
      var ciphertext := Slice(data, offset + IV_LENGTH, offset + encryptedChunkSize);
      SliceFrom(data, offset, IV_LENGTH, encryptedChunkSize);
      OpenStep(c, key, From(data, offset), left);
      var decrypted := c.decrypt(key, iv, ciphertext);
      if decrypted.None? {
        return None;
      }
      left := left - CHUNK_SIZE;
      ghost var rest := OpenChunks(c, key, From(data, offset + encryptedChunkSize), left);
      assert rest.Some? ==> result + (decrypted.value + rest.value) == (result + decrypted.value) + rest.value;
      result := result + decrypted.value;
      offset := offset + encryptedChunkSize;
      i := i + 1;
    }
    ChunksLeft(originalFileSize, i);
    OpenStep(c, key, From(data, offset), left);
    assert result + [] == result;
    return Some(result);
  }

  lemma ChunksLeft(size: int, i: nat)
    ensures i < CeilDiv(size, CHUNK_SIZE) <==> size - i * CHUNK_SIZE > 0
  {
    CeilingBounds(size, CHUNK_SIZE, CeilDiv(size, CHUNK_SIZE));
    hide CeilDiv;
  }

  lemma OpenStep(c: Cipher, key: Bytes, data: Bytes, size: int)
    ensures size <= 0 ==> OpenChunks(c, key, data, size) == Some([])
    ensures size > 0 ==>
              var sealed := IV_LENGTH + Min(CHUNK_SIZE, size) + TAG_LENGTH;
              var plain := c.decrypt(key, Slice(data, 0, IV_LENGTH), Slice(data, IV_LENGTH, sealed));
              var rest := OpenChunks(c, key, From(data, sealed), size - CHUNK_SIZE);
              OpenChunks(c, key, data, size)
              == if plain.None? || rest.None? then None else Some(plain.value + rest.value)
  {
  }

  lemma SliceFrom(data: Bytes, offset: nat, a: nat, b: nat)
    requires a <= b
    ensures Slice(From(data, offset), 0, a) == Slice(data, offset, offset + a)
    ensures Slice(From(data, offset), a, b) == Slice(data, offset + a, offset + b)
    ensures From(From(data, offset), b) == From(data, offset + b)
  {
    var at, rest := Min(offset, |data|), From(data, offset);
    var from, to := Min(a, |rest|), Min(b, |rest|);
    PartOfRest(data, at, 0, from);
    PartOfRest(data, at, from, to);
    PartOfRest(data, at, to, |rest|);
    assert at + from == Min(offset + a, |data|) && at + to == Min(offset + b, |data|);
  }

  lemma PartOfRest(data: Bytes, at: nat, from: nat, to: nat)
    requires at <= |data| && from <= to <= |data| - at
    ensures data[at..][from..to] == data[at + from..at + to]
  {
  }

  function ComputeOriginalFileSize(encryptedLength: int): int {
    var numChunks := CeilDiv(encryptedLength - BASE_OVERHEAD, CHUNK_SIZE + CHUNK_OVERHEAD);
    encryptedLength - BASE_OVERHEAD - numChunks * CHUNK_OVERHEAD
  }

  lemma Ceiling(a: int)
    ensures CeilDiv(a - CHUNK_SIZE, CHUNK_SIZE) == CeilDiv(a, CHUNK_SIZE) - 1
    ensures CeilDiv(a, CHUNK_SIZE) <= 0 <==> a <= 0
    ensures CeilDiv(a, CHUNK_SIZE) == 1 <==> 0 < a <= CHUNK_SIZE
    ensures CeilDiv(0, CHUNK_SIZE) == 0
  {
    hide CeilDiv;
    var q := CeilDiv(a, CHUNK_SIZE);
    CeilingBounds(a, CHUNK_SIZE, q);
    CeilingBounds(a - CHUNK_SIZE, CHUNK_SIZE, q - 1);
    CeilingBounds(0, CHUNK_SIZE, 0);
    assert (q - 1) * CHUNK_SIZE < a <= q * CHUNK_SIZE;
  }

  // --- What decrypts ---------------------------------------------------------------

  lemma {:induction false} SealedLength(c: Cipher, key: Bytes, file: Bytes, ivs: seq<Bytes>)
    requires c.Sound() && |ivs| == CeilDiv(|file|, CHUNK_SIZE) && forall iv :: iv in ivs ==> |iv| == IV_LENGTH
    ensures |Sealed(c, key, file, ivs)| == |file| + CHUNK_OVERHEAD * CeilDiv(|file|, CHUNK_SIZE)
    decreases |file|
  {
    if file != [] {
      var first := file[..Min(CHUNK_SIZE, |file|)];
      SealedLength(c, key, file[|first|..], ivs[1..]);
    }
  }

  function First(file: Bytes): Bytes {
    file[..Min(CHUNK_SIZE, |file|)]
  }

  /** When the first slice is not cut short, it is the first sealed chunk. */
  lemma FirstSlice(c: Cipher, key: Bytes, file: Bytes, ivs: seq<Bytes>, size: int)
    requires c.Sound() && |ivs| == CeilDiv(|file|, CHUNK_SIZE) && forall iv :: iv in ivs ==> |iv| == IV_LENGTH
    requires file != [] && size >= |First(file)|
    ensures
      var data := Sealed(c, key, file, ivs);
      var n := IV_LENGTH + Min(CHUNK_SIZE, size) + TAG_LENGTH;
      && Slice(data, 0, IV_LENGTH) == ivs[0]
      && Slice(data, IV_LENGTH, n) == c.encrypt(key, ivs[0], First(file))
      && From(data, n) == Sealed(c, key, file[|First(file)|..], ivs[1..])
  {
    hide CeilDiv;
    Ceiling(|file|);
    var data := Sealed(c, key, file, ivs);
    var enc, rest := c.encrypt(key, ivs[0], First(file)), Sealed(c, key, file[|First(file)|..], ivs[1..]);
    assert data == ivs[0] + enc + rest;
    if |file| < CHUNK_SIZE {
      assert rest == [];
    }
  }

  /** The size that opens a sealed file, exactly: at least the real one, with as
      many chunks. A size too small loses bytes, one too large reads past the end. */
  lemma {:induction false} OpensExactly(c: Cipher, key: Bytes, file: Bytes, ivs: seq<Bytes>, size: int)
    requires c.Sound() && |ivs| == CeilDiv(|file|, CHUNK_SIZE) && forall iv :: iv in ivs ==> |iv| == IV_LENGTH
    ensures OpenChunks(c, key, Sealed(c, key, file, ivs), size) == Some(file) <==>
              if file == [] then size <= 0
              else size >= |file| && CeilDiv(size, CHUNK_SIZE) == CeilDiv(|file|, CHUNK_SIZE)
    ensures size > 0 && CeilDiv(size, CHUNK_SIZE) > CeilDiv(|file|, CHUNK_SIZE) ==>
              OpenChunks(c, key, Sealed(c, key, file, ivs), size) == None
    decreases |file|
  {
    hide Sealed, Slice, From, CeilDiv;
    Ceiling(|file|);
    Ceiling(size);
    if file == [] {
      EmptyOpens(c, key, size);
    } else if size > 0 {
      var first := First(file);
      if size < |first| {
        CutFirst(c, key, file, ivs, size);
      } else {
        var tail := file[|first|..];
        FirstSlice(c, key, file, ivs, size);
        OpensExactly(c, key, tail, ivs[1..], size - CHUNK_SIZE);
        var rest := OpenChunks(c, key, Sealed(c, key, tail, ivs[1..]), size - CHUNK_SIZE);
        assert file == first + tail;
        assert rest.Some? && first + rest.value == file ==> rest.value == (first + rest.value)[|first|..] == tail;
      }
    }
  }

  /** The bytes of the whole chunks among the first n. */
  function WholeChunks(n: nat): (bytes: nat)
    ensures bytes <= n
  {
    n / CHUNK_SIZE * CHUNK_SIZE
  }

  /** The file cut at n bytes, of which only whole chunks have to be right. */
  ghost predicate IsCut(plain: Bytes, file: Bytes, n: nat)
    requires n <= |file|
  {
    |plain| == n && plain[..WholeChunks(n)] == file[..WholeChunks(n)]
  }

  lemma NothingCut(file: Bytes)
    ensures WholeChunks(0) == 0 && IsCut([], file, 0)
  {
  }

  lemma CutLater(file: Bytes, rest: Bytes, n: nat)
    requires CHUNK_SIZE <= n <= |file|
    ensures IsCut(rest, file[CHUNK_SIZE..], n - CHUNK_SIZE) ==> IsCut(file[..CHUNK_SIZE] + rest, file, n)
    ensures WholeChunks(n) == n <==> WholeChunks(n - CHUNK_SIZE) == n - CHUNK_SIZE
  {
    var w := WholeChunks(n - CHUNK_SIZE);
    assert WholeChunks(n) == CHUNK_SIZE + w;
    assert file[..CHUNK_SIZE + w] == file[..CHUNK_SIZE] + file[CHUNK_SIZE..][..w];
    if |rest| == n - CHUNK_SIZE {
      assert (file[..CHUNK_SIZE] + rest)[..CHUNK_SIZE + w] == file[..CHUNK_SIZE] + rest[..w];
    }
  }

  lemma {:induction false} OpensShort(c: Cipher, key: Bytes, file: Bytes, ivs: seq<Bytes>, size: int)
    requires c.Sound() && |ivs| == CeilDiv(|file|, CHUNK_SIZE) && forall iv :: iv in ivs ==> |iv| == IV_LENGTH
    requires size < |file|
    ensures
      var n, plain := Max(size, 0), OpenChunks(c, key, Sealed(c, key, file, ivs), size);
      && (plain.Some? ==> IsCut(plain.value, file, n))
      && (WholeChunks(n) == n ==> plain == Some(file[..n]))
    decreases |file|
  {
    hide Sealed, Slice, From, CeilDiv, IsCut, WholeChunks;
    Ceiling(|file|);
    if size <= 0 {
      NothingCut(file);
    } else if size < |First(file)| {
      CutFirst(c, key, file, ivs, size);
    } else {
      var tail := file[CHUNK_SIZE..];
      FirstSlice(c, key, file, ivs, size);
      OpensShort(c, key, tail, ivs[1..], size - CHUNK_SIZE);
      var data := Sealed(c, key, file, ivs);
      OpenStep(c, key, data, size);
      hide OpenChunks;
      var rest := OpenChunks(c, key, Sealed(c, key, tail, ivs[1..]), size - CHUNK_SIZE);
      CutLater(file, if rest.Some? then rest.value else [], size);
      assert file[..CHUNK_SIZE] + tail[..size - CHUNK_SIZE] == file[..size];
    }
  }

  lemma CutFirst(c: Cipher, key: Bytes, file: Bytes, ivs: seq<Bytes>, size: int)
    requires c.Sound() && |ivs| == CeilDiv(|file|, CHUNK_SIZE) && forall iv :: iv in ivs ==> |iv| == IV_LENGTH
    requires 0 < size < |First(file)|
    ensures WholeChunks(size) != size
    ensures
      var plain := OpenChunks(c, key, Sealed(c, key, file, ivs), size);
      plain.Some? ==> IsCut(plain.value, file, size)
  {
    hide CeilDiv;
    Ceiling(|file|);
    var data := Sealed(c, key, file, ivs);
    assert data == ivs[0] + c.encrypt(key, ivs[0], First(file)) + Sealed(c, key, file[|First(file)|..], ivs[1..]);
    assert |Slice(data, IV_LENGTH, IV_LENGTH + size + TAG_LENGTH)| == size + TAG_LENGTH;
    OpenStep(c, key, data, size);
    hide OpenChunks, Sealed, IsCut, WholeChunks, Slice;
    var plain := OpenChunks(c, key, data, size);
    OpenStep(c, key, From(data, IV_LENGTH + size + TAG_LENGTH), size - CHUNK_SIZE);
    PartChunk(if plain.Some? then plain.value else [], file, size);
  }

  lemma PartChunk(plain: Bytes, file: Bytes, n: nat)
    requires 0 < n < CHUNK_SIZE && n <= |file|
    ensures WholeChunks(n) != n
    ensures |plain| == n ==> IsCut(plain, file, n)
  {
    assert WholeChunks(n) == 0;
  }

  lemma EmptyOpens(c: Cipher, key: Bytes, size: int)
    requires c.Sound()
    ensures Sealed(c, key, [], []) == []
    ensures OpenChunks(c, key, [], size) == Some([]) <==> size <= 0
    ensures size > 0 ==> OpenChunks(c, key, [], size) == None
  {
  }

  // --- The stored blob -----------------------------------------------------------

  lemma Remaining(size: nat, k: nat)
    requires k <= CeilDiv(size, CHUNK_SIZE)
    ensures CeilDiv(size - Min(k * CHUNK_SIZE, size), CHUNK_SIZE) == CeilDiv(size, CHUNK_SIZE) - k
    ensures k < CeilDiv(size, CHUNK_SIZE) ==> k * CHUNK_SIZE < size
  {
  }

  /** What the chunks from k on seal. */
  function Rest(c: Cipher, key: Bytes, file: Bytes, ivs: seq<Bytes>, k: nat): Bytes
    requires |ivs| == CeilDiv(|file|, CHUNK_SIZE) && k <= |ivs|
  {
    Remaining(|file|, k);
    Sealed(c, key, file[Min(k * CHUNK_SIZE, |file|)..], ivs[k..])
  }

  lemma ChunkStep(c: Cipher, file: Bytes, key: Bytes, salt: Bytes, ivs: seq<Bytes>, j: nat)
    requires |ivs| == CeilDiv(|file|, CHUNK_SIZE) && j < |ivs|
    ensures Offset(j, CHUNK_SIZE) < |file|
    ensures ChunkAt(c, file, key, salt, ivs, CHUNK_SIZE, j) + Rest(c, key, file, ivs, j + 1)
            == Header(j, salt) + Rest(c, key, file, ivs, j)
  {
    hide CeilDiv, Sealed;
    Remaining(|file|, j);
    Remaining(|file|, j + 1);
    var from := file[j * CHUNK_SIZE..];
    var enc := c.encrypt(key, ivs[j], First(from));
    SealedStep(c, key, from, ivs[j..]);
    assert First(from) == file[j * CHUNK_SIZE..Min(j * CHUNK_SIZE + CHUNK_SIZE, |file|)];
    assert from[|First(from)|..] == file[Min((j + 1) * CHUNK_SIZE, |file|)..];
    assert ivs[j..][1..] == ivs[j + 1..];
  }

  /** Joining the uploaded chunks gives the header and the sealed file. */
  lemma {:induction false} JoinedChunks(c: Cipher, file: Bytes, key: Bytes, salt: Bytes, ivs: seq<Bytes>,
                                        chunks: seq<Bytes>, k: nat)
    requires |ivs| == |chunks| == CeilDiv(|file|, CHUNK_SIZE) && 0 < k <= |chunks|
    requires forall i :: 0 <= i < |chunks| ==>
               Offset(i, CHUNK_SIZE) < |file| && chunks[i] == ChunkAt(c, file, key, salt, ivs, CHUNK_SIZE, i)
    ensures Concat(chunks[..k]) + Rest(c, key, file, ivs, k) == MAGIC + salt + Rest(c, key, file, ivs, 0)
  {
    hide Rest, ChunkAt, CeilDiv;
    ConcatTake(chunks, k - 1);
    ChunkStep(c, file, key, salt, ivs, k - 1);
    if k == 1 {
      assert chunks[..0] == [];
      assert [] + chunks[0] == chunks[0];
    } else {
      JoinedChunks(c, file, key, salt, ivs, chunks, k - 1);
      assert [] + Rest(c, key, file, ivs, k - 1) == Rest(c, key, file, ivs, k - 1);
      assert Concat(chunks[..k - 1]) + chunks[k - 1] + Rest(c, key, file, ivs, k)
             == Concat(chunks[..k - 1]) + (chunks[k - 1] + Rest(c, key, file, ivs, k));
    }
  }

  lemma SealedStep(c: Cipher, key: Bytes, file: Bytes, ivs: seq<Bytes>)
    requires |ivs| == CeilDiv(|file|, CHUNK_SIZE) && file != []
    ensures |ivs| > 0 && CeilDiv(|file[|First(file)|..]|, CHUNK_SIZE) == |ivs| - 1
    ensures Sealed(c, key, file, ivs)
            == ivs[0] + c.encrypt(key, ivs[0], First(file)) + Sealed(c, key, file[|First(file)|..], ivs[1..])
  {
  }

  lemma RestEnds(c: Cipher, key: Bytes, file: Bytes, ivs: seq<Bytes>)
    requires |ivs| == CeilDiv(|file|, CHUNK_SIZE)
    ensures Rest(c, key, file, ivs, 0) == Sealed(c, key, file, ivs)
    ensures Rest(c, key, file, ivs, |ivs|) == []
  {
    hide Sealed, CeilDiv;
    Remaining(|file|, |ivs|);
    Ceiling(|file| - Min(|ivs| * CHUNK_SIZE, |file|));
    assert file[0..] == file && ivs[0..] == ivs && ivs[|ivs|..] == [];
    assert file[Min(|ivs| * CHUNK_SIZE, |file|)..] == [];
    SealedNothing(c, key);
  }

  lemma BlobLayout(c: Cipher, blob: Bytes, file: Bytes, password: Bytes, salt: Bytes, ivs: seq<Bytes>,
                   chunks: seq<Bytes>)
    requires file != [] && IsEncryptionWith(c, blob, file, password, salt, ivs, chunks)
    ensures blob == MAGIC + salt + Sealed(c, c.derive(password, salt), file, ivs)
  {
    hide Sealed, Rest, CeilDiv, ChunkAt, Concat;
    Ceiling(|file|);
    var key, n := c.derive(password, salt), |chunks|;
    JoinedChunks(c, file, key, salt, ivs, chunks, n);
    RestEnds(c, key, file, ivs);
    assert chunks[..n] == chunks;
    assert blob + [] == blob;
  }

  lemma SealedNothing(c: Cipher, key: Bytes)
    ensures Sealed(c, key, [], []) == []
  {
  }

  lemma NothingStored(c: Cipher, blob: Bytes, password: Bytes, size: int)
    requires c.Sound() && IsEncryption(c, blob, [], password)
    ensures blob == [] && Decrypted(c, blob, password, size) == DecryptionError
  {
    var salt, ivs, chunks :| IsEncryptionWith(c, blob, [], password, salt, ivs, chunks);
    Ceiling(0);
  }

  /** decryptFileChunked returns the file exactly for the sizes it can be told, and fails
      for every size with more chunks; the blob of an empty file never opens. */
  lemma DecryptsExactly(c: Cipher, blob: Bytes, file: Bytes, password: Bytes, size: int)
    requires c.Sound() && IsEncryption(c, blob, file, password)
    ensures Decrypted(c, blob, password, size) == Opened(file) <==>
              file != [] && size >= |file| && CeilDiv(size, CHUNK_SIZE) == CeilDiv(|file|, CHUNK_SIZE)
    ensures file == [] || CeilDiv(size, CHUNK_SIZE) > CeilDiv(|file|, CHUNK_SIZE) ==>
              Decrypted(c, blob, password, size) == DecryptionError
  {
    hide Sealed, OpenChunks, OpenWhole, CeilDiv;
    if file == [] {
      NothingStored(c, blob, password, size);
      return;
    }
    var salt, ivs, chunks :| IsEncryptionWith(c, blob, file, password, salt, ivs, chunks);
    BlobLayout(c, blob, file, password, salt, ivs, chunks);
    var key := c.derive(password, salt);
    assert MAGIC <= blob;
    assert Slice(blob, 4, BASE_OVERHEAD) == salt;
    assert From(blob, BASE_OVERHEAD) == Sealed(c, key, file, ivs);
    OpensExactly(c, key, file, ivs, size);
    Ceiling(size);
    Ceiling(|file|);
  }

  /** A size that is too small: what opens is cut to that many bytes, and only its whole
      chunks are sure to be the file's. A whole number of chunks, or none, always opens,
      without an error, to the file's beginning. */
  lemma TruncatesSilently(c: Cipher, blob: Bytes, file: Bytes, password: Bytes, size: int)
    requires c.Sound() && IsEncryption(c, blob, file, password) && size < |file|
    ensures
      var n, result := Max(size, 0), Decrypted(c, blob, password, size);
      && (result.Opened? ==> IsCut(result.plain, file, n))
      && (file != [] && WholeChunks(n) == n ==> result == Opened(file[..n]))
  {
    hide Sealed, OpenChunks, OpenWhole, CeilDiv, IsCut;
    if file == [] {
      NothingStored(c, blob, password, size);
      return;
    }
    var salt, ivs, chunks :| IsEncryptionWith(c, blob, file, password, salt, ivs, chunks);
    BlobLayout(c, blob, file, password, salt, ivs, chunks);
    var key := c.derive(password, salt);
    assert MAGIC <= blob;
    assert Slice(blob, 4, BASE_OVERHEAD) == salt;
    assert From(blob, BASE_OVERHEAD) == Sealed(c, key, file, ivs);
    OpensShort(c, key, file, ivs, size);
  }

  /** The size recovered from the ciphertext length alone is exact. */
  lemma SizeFromLength(c: Cipher, blob: Bytes, file: Bytes, password: Bytes)
    requires c.Sound() && file != [] && IsEncryption(c, blob, file, password)
    ensures ComputeOriginalFileSize(|blob|) == |file|
    ensures |blob| == |file| + BASE_OVERHEAD + CHUNK_OVERHEAD * CeilDiv(|file|, CHUNK_SIZE)
  {
    var salt, ivs, chunks :| IsEncryptionWith(c, blob, file, password, salt, ivs, chunks);
    BlobLayout(c, blob, file, password, salt, ivs, chunks);
    SealedLength(c, c.derive(password, salt), file, ivs);
    SizeArithmetic(|file|);
  }

  lemma SizeArithmetic(size: nat)
    requires size > 0
    ensures ComputeOriginalFileSize(size + BASE_OVERHEAD + CHUNK_OVERHEAD * CeilDiv(size, CHUNK_SIZE)) == size
  {
    hide CeilDiv;
    var n := CeilDiv(size, CHUNK_SIZE);
    CeilingBounds(size, CHUNK_SIZE, n);
    CeilingBounds(size + CHUNK_OVERHEAD * n, CHUNK_SIZE + CHUNK_OVERHEAD, n);
  }

  /** A file from before chunks, one salt, one iv and one ciphertext, opens whatever size is
      told, unless its salt happens to begin like the header of the chunked format. */
  lemma OldFormatOpens(c: Cipher, file: Bytes, password: Bytes, salt: Bytes, iv: Bytes, size: int)
    requires c.Sound() && |salt| == 16 && |iv| == 12
    ensures
      var data := salt + iv + c.encrypt(c.derive(password, salt), iv, file);
      salt[..4] != [0x53, 0x48, 0x43, 0x4B] ==> Decrypted(c, data, password, size) == Opened(file)
  {
    var sealed := c.encrypt(c.derive(password, salt), iv, file);
    var data := salt + iv + sealed;
    assert data[..4] == salt[..4] && (MAGIC <= data <==> data[..4] == MAGIC);
    assert Slice(data, 0, SALT_LENGTH) == salt;
    assert Slice(data, SALT_LENGTH, SALT_LENGTH + IV_LENGTH) == iv;
    assert From(data, SALT_LENGTH + IV_LENGTH) == sealed;
  }

  /** decryptBlob: a transfer, whose size is recovered from the blob, always opens. */
  lemma RoundTrip(c: Cipher, blob: Bytes, file: Bytes, password: Bytes)
    requires c.Sound() && file != [] && IsEncryption(c, blob, file, password)
    ensures Decrypted(c, blob, password, ComputeOriginalFileSize(|blob|)) == Opened(file)
  {
    hide IsEncryption, Decrypted;
    SizeFromLength(c, blob, file, password);
    DecryptsExactly(c, blob, file, password, ComputeOriginalFileSize(|blob|));
  }

  /** The link page passes the size of the encrypted blob instead. That opens the
      file exactly when the overhead still fits into the last chunk, and else fails. */
  lemma LinkDownloadOpens(c: Cipher, blob: Bytes, file: Bytes, password: Bytes)
    requires c.Sound() && file != [] && IsEncryption(c, blob, file, password)
    ensures
      var n := CeilDiv(|file|, CHUNK_SIZE);
      Decrypted(c, blob, password, |blob|)
      == if BASE_OVERHEAD + CHUNK_OVERHEAD * n <= n * CHUNK_SIZE - |file| then Opened(file) else DecryptionError
  {
    hide IsEncryption, Decrypted, CeilDiv;
    var n := CeilDiv(|file|, CHUNK_SIZE);
    SizeFromLength(c, blob, file, password);
    DecryptsExactly(c, blob, file, password, |blob|);
    CeilingBounds(|file|, CHUNK_SIZE, n);
    CeilingBounds(|blob|, CHUNK_SIZE, n);
    var m := CeilDiv(|blob|, CHUNK_SIZE);
    CeilingBounds(|blob|, CHUNK_SIZE, m);
    if m < n { MulOrder(m, n - 1, CHUNK_SIZE); }
  }

  /** So a file of exactly one chunk, 5 MiB, cannot be opened from its link. */
  lemma FullChunkLinkFails(c: Cipher, blob: Bytes, file: Bytes, password: Bytes)
    requires c.Sound() && IsEncryption(c, blob, file, password) && |file| == CHUNK_SIZE
    ensures Decrypted(c, blob, password, |blob|) == DecryptionError
  {
    hide IsEncryption, Decrypted;
    LinkDownloadOpens(c, blob, file, password);
  }

  // --- There is something to encrypt with --------------------------------------------

  function Zeros(n: nat): (zeros: Bytes)
    ensures |zeros| == n
  {
    seq(n, i => 0)
  }

  lemma SoundCipherExists()
    ensures exists c: Cipher :: c.Sound()
  {
    var c := Cipher(
      (password, salt) => salt,
      (key, iv, plain) => plain + Zeros(TAG_LENGTH),
      (key: Bytes, iv: Bytes, data: Bytes) =>
        if |data| >= TAG_LENGTH then Some(data[..|data| - TAG_LENGTH]) else None);
    assert forall key, iv, plain: Bytes :: c.decrypt(key, iv, c.encrypt(key, iv, plain)) == Some(plain) by {
      assert forall plain: Bytes :: (plain + Zeros(TAG_LENGTH))[..|plain|] == plain;
    }
    assert c.Sound();
  }

  /** The chunks encryptFileChunked makes of a file. */
  function ChunksOf(c: Cipher, file: Bytes, password: Bytes, salt: Bytes, ivs: seq<Bytes>): seq<Bytes>
    requires |ivs| == CeilDiv(|file|, CHUNK_SIZE)
  {
    seq(|ivs|, i requires 0 <= i < |ivs| =>
      StartsInside(|file|, CHUNK_SIZE, i);
      ChunkAt(c, file, c.derive(password, salt), salt, ivs, CHUNK_SIZE, i))
  }

  /** Every file has an encryption, and the upload stores one. */
  lemma EncryptionExists(c: Cipher, file: Bytes, password: Bytes, salt: Bytes, ivs: seq<Bytes>)
    requires |salt| == SALT_LENGTH && |ivs| == CeilDiv(|file|, CHUNK_SIZE)
    requires forall iv :: iv in ivs ==> |iv| == IV_LENGTH
    ensures IsEncryption(c, Concat(ChunksOf(c, file, password, salt, ivs)), file, password)
  {
    var chunks := ChunksOf(c, file, password, salt, ivs);
    forall i | 0 <= i < |chunks|
      ensures Offset(i, CHUNK_SIZE) < |file|
    {
      StartsInside(|file|, CHUNK_SIZE, i);
    }
    hide CeilDiv, ChunkAt, Offset, Concat;
    assert IsEncryptionWith(c, Concat(chunks), file, password, salt, ivs, chunks);
  }

  /** A link that fails exists: some cipher, password, and file of one full chunk, whose
      stored blob the link page refuses to open. */
  lemma FailingLinkExists()
    ensures exists c: Cipher, blob: Bytes, file: Bytes, password: Bytes ::
              && c.Sound() && IsEncryption(c, blob, file, password) && |file| == CHUNK_SIZE
              && Decrypted(c, blob, password, |blob|) == DecryptionError
  {
    SoundCipherExists();
    var c: Cipher :| c.Sound();
    var file := Zeros(CHUNK_SIZE);
    Ceiling(CHUNK_SIZE);
    hide CeilDiv, Decrypted, IsEncryption;
    EncryptionExists(c, file, [], Zeros(SALT_LENGTH), [Zeros(IV_LENGTH)]);
    FullChunkLinkFails(c, Concat(ChunksOf(c, file, [], Zeros(SALT_LENGTH), [Zeros(IV_LENGTH)])), file, []);
  }

  method StoredBlob(c: Cipher, file: Bytes, password: Bytes, salt: Bytes, ivs: seq<Bytes>) returns (blob: Bytes)
    requires |salt| == SALT_LENGTH && |ivs| == CeilDiv(|file|, CHUNK_SIZE)
    requires forall iv :: iv in ivs ==> |iv| == IV_LENGTH
    ensures IsEncryption(c, blob, file, password)
  {
    var chunks := EncryptFileChunked(c, file, password, salt, ivs, CHUNK_SIZE);
    blob := Concat(chunks);
    assert IsEncryptionWith(c, blob, file, password, salt, ivs, chunks);
  }
}
