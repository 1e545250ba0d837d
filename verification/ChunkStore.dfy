/** Chunked upload over the map of stored artifacts: which key a checksum names, what a
    sequence of uploads leaves, and what assembly finds there. SHA-1 is a parameter. */
module ChunkStore {
  import opened Prelude
  import opened Text
  import opened Identifiers
  import opened ArtifactKeys
  import opened Identities

  const CHUNK_BLOB_BYTES: nat := 32 * 1024 * 1024
  const SHA1_HEX_LENGTH := 40
  const CHUNK_PREFIX := "chunk-"

  datatype UploadError =
    | ChecksumInvalid
    | ChecksumMismatch
    | InvalidGzipChunk
    | ChunkTooLarge
    | ChunkNotFound
    | BadKey(error: KeyError)
    | BadField(field: FieldError)
    | BadDebugFile
    | UploadIo

  // The organization and project an authenticated token belongs to.
  datatype Access = Access(organizationId: string, projectId: string)

  predicate ValidAccess(access: Access) {
    IsHex(access.organizationId, 32) && IsHex(access.projectId, 32)
  }

  // hex.DecodeString takes digits of either case.
  predicate DecodesAsHex(value: string) {
    forall i :: 0 <= i < |value| ==> IsHexDigitAnyCase(value[i])
  }

  predicate Checksum(value: string) {
    |value| == SHA1_HEX_LENGTH && DecodesAsHex(value)
  }

  function RequireSha1Checksum(input: string): (r: Result<(), UploadError>) {
    var value := TrimSpace(input);
    if ByteLen(value) != SHA1_HEX_LENGTH then Err(ChecksumInvalid)
    else if !DecodesAsHex(value) then Err(ChecksumInvalid)
    else Ok(())
  }

  function VerifySha1Checksum(sha1: Bytes -> string, body: Bytes, expected: string): Result<(), UploadError> {
    if sha1(body) != TrimSpace(expected) then Err(ChecksumMismatch) else Ok(())
  }

  ghost predicate IsSha1(sha1: Bytes -> string) {
    forall body :: IsHex(sha1(body), SHA1_HEX_LENGTH)
  }

  function ArtifactChunkKey(access: Access, checksum: string): Result<ArtifactKey, UploadError> {
    if RequireSha1Checksum(checksum).Err? then Err(ChecksumInvalid)
    else
      var name := NewArtifactName(CHUNK_PREFIX + checksum);
      if name.Err? then Err(BadKey(name.error))
      else
        var key := NewArtifactKey(access.organizationId, access.projectId, KIND_UPLOAD_CHUNK, name.value);
        if key.Err? then Err(BadKey(key.error)) else Ok(key.value)
  }

  function ChunkKey(access: Access, checksum: string): ArtifactKey {
    ArtifactKey(access.organizationId, access.projectId, KIND_UPLOAD_CHUNK, CHUNK_PREFIX + checksum)
  }

  // ---- which key a checksum names ----

  lemma RequireSha1ChecksumAccepts(input: string)
    ensures RequireSha1Checksum(input).Ok? <==> Checksum(TrimSpace(input))
  {
    var value := TrimSpace(input);
    if DecodesAsHex(value) { ByteLenAscii(value); }
  }

  lemma ChunkNameIsValid(checksum: string)
    requires Checksum(checksum)
    ensures Trimmed(checksum) && ValidName(CHUNK_PREFIX + checksum)
  {
    var name := CHUNK_PREFIX + checksum;
    assert IsHexDigitAnyCase(checksum[0]) && IsHexDigitAnyCase(checksum[39]);
    assert name[0] == 'c' && name[|name| - 1] == checksum[39];
    ChunkNameCharacters(checksum);
    ByteLenAscii(name);
  }

  lemma ChunkNameCharacters(checksum: string)
    requires Checksum(checksum)
    ensures forall i :: 0 <= i < 46 ==>
              var c := (CHUNK_PREFIX + checksum)[i]; c < '\U{0080}' && !IsControl(c) && c != '/' && c != '\\'
  {
  }

  lemma {:induction false} TrimRightAfter(a: string, b: string)
    requires a != "" && !IsSpace(a[|a| - 1])
    ensures TrimRight(a + b) == a + TrimRight(b)
  {
    if b == "" {
      assert a + b == a;
    } else if IsSpace(b[|b| - 1]) {
      assert (a + b)[..|a + b| - 1] == a + b[..|b| - 1];
      TrimRightAfter(a, b[..|b| - 1]);
    }
  }

  lemma ChunkNameTrims(checksum: string)
    ensures TrimSpace(CHUNK_PREFIX + checksum) == CHUNK_PREFIX + TrimRight(checksum)
  {
    var name := CHUNK_PREFIX + checksum;
    assert name[0] == 'c';
    assert TrimLeft(name) == name;
    TrimRightAfter(CHUNK_PREFIX, checksum);
  }

  /** The key of a chunk, field by field: the organization and the project of the access, the chunk
      kind, and the checksum without trailing blanks after its prefix. */
  lemma ChunkKeyFields(access: Access, checksum: string)
    ensures
      ArtifactChunkKey(access, checksum).Ok? ==>
        && var key := ArtifactChunkKey(access, checksum).value;
           key.organizationId == access.organizationId && key.projectId == access.projectId
           && key.kind == "upload_chunk" && key.name == "chunk-" + TrimRight(checksum)
    ensures
      var key := ChunkKey(access, checksum);
      key.organizationId == access.organizationId && key.projectId == access.projectId
      && key.kind == "upload_chunk" && key.name == "chunk-" + checksum
  {
    NewArtifactNameAccepts(CHUNK_PREFIX + checksum);
    ChunkNameTrims(checksum);
  }

  lemma PlainChecksumKey(access: Access, checksum: string)
    requires ValidAccess(access) && Checksum(checksum)
    ensures ArtifactChunkKey(access, checksum) == Ok(ChunkKey(access, checksum))
    ensures ValidKey(ChunkKey(access, checksum))
  {
    ChunkNameIsValid(checksum);
    RequireSha1ChecksumAccepts(checksum);
    NewArtifactNameAccepts(CHUNK_PREFIX + checksum);
  }

  /** Uploads trim the checksum before they name the chunk and assembly does not, so a
      checksum finds the chunk uploaded under it exactly when it has no leading blank. */
  lemma ChecksumFindsItsUpload(access: Access, checksum: string)
    requires ValidAccess(access) && RequireSha1Checksum(checksum).Ok?
    ensures ArtifactChunkKey(access, TrimSpace(checksum)) == Ok(ChunkKey(access, TrimSpace(checksum)))
    ensures ArtifactChunkKey(access, checksum) == ArtifactChunkKey(access, TrimSpace(checksum))
        <==> !IsSpace(checksum[0])
  {
    var trimmed := TrimSpace(checksum);
    RequireSha1ChecksumAccepts(checksum);
    PlainChecksumKey(access, trimmed);
    ChunkNameTrims(checksum);
    NewArtifactNameAccepts(CHUNK_PREFIX + checksum);
    ChunkNameIsValid(trimmed);
    assert checksum != "";
    if IsSpace(checksum[0]) {
      assert trimmed[0] != checksum[0];
      TrimRightKeepsBlankStart(checksum);
      assert (CHUNK_PREFIX + TrimRight(checksum))[6] == checksum[0];
      assert (CHUNK_PREFIX + trimmed)[6] == trimmed[0];
    } else {
      assert TrimLeft(checksum) == checksum;
    }
  }

  lemma {:induction false} TrimRightKeepsBlankStart(s: string)
    requires TrimSpace(s) != ""
    ensures TrimRight(s) != "" && TrimRight(s)[0] == s[0]
  {
    var left := TrimLeft(s);
    assert left != "";
    TrimLeftIsSuffix(s);
    assert s[|s| - |left|] == left[0];
    TrimRightStopsAt(s, |s| - |left|);
  }

  lemma {:induction false} TrimRightStopsAt(s: string, k: nat)
    requires k < |s| && !IsSpace(s[k])
    ensures |TrimRight(s)| > k
  {
    if IsSpace(s[|s| - 1]) { TrimRightStopsAt(s[..|s| - 1], k); }
  }

  // ---- what uploads leave ----

  // One upload request: the multipart file name, the decompressed payload (None when the gzip
  // header is bad), and how the vault answers its Put and, for an oversized chunk, its Delete.
  datatype Upload = Upload(fileName: string, payload: Option<Bytes>, putOk: bool, deleteOk: bool)

  type Store = map<ArtifactKey, Bytes>

  // What a request does to the chunk its checksum names.
  datatype Effect = Ignored | Wrote(checksum: string, bytes: Bytes) | Dropped(checksum: string)

  predicate Written(u: Upload) {
    RequireSha1Checksum(TrimSpace(u.fileName)).Ok? && u.payload.Some? && u.putOk
  }

  function EffectOf(u: Upload): Effect {
    if !Written(u) then Ignored
    else if |u.payload.value| > CHUNK_BLOB_BYTES && u.deleteOk then Dropped(TrimSpace(u.fileName))
    else Wrote(TrimSpace(u.fileName), Take(u.payload.value, CHUNK_BLOB_BYTES + 1))
  }

  function Effects(uploads: seq<Upload>): (es: seq<Effect>)
    ensures |es| == |uploads|
    ensures forall i :: 0 <= i < |uploads| ==> es[i] == EffectOf(uploads[i])
  {
    seq(|uploads|, i requires 0 <= i < |uploads| => EffectOf(uploads[i]))
  }

  function AfterEffect(store: Store, access: Access, e: Effect): Store {
    match e
    case Ignored => store
    case Wrote(checksum, bytes) => store[ChunkKey(access, checksum) := bytes]
    case Dropped(checksum) => store - {ChunkKey(access, checksum)}
  }

  function AfterEffects(store: Store, access: Access, es: seq<Effect>): Store {
    if es == [] then store
    else AfterEffect(AfterEffects(store, access, es[..|es| - 1]), access, es[|es| - 1])
  }

  // Read off the requests: what the last effective one for this checksum leaves, or what was
  // there before them.
  function Surviving(before: Option<Bytes>, es: seq<Effect>, checksum: string): Option<Bytes> {
    if es == [] then before
    else
      match es[|es| - 1]
      case Wrote(c, bytes) => if c == checksum then Some(bytes) else Surviving(before, es[..|es| - 1], checksum)
      case Dropped(c) => if c == checksum then None else Surviving(before, es[..|es| - 1], checksum)
      case Ignored => Surviving(before, es[..|es| - 1], checksum)
  }

  function Lookup(store: Store, key: ArtifactKey): Option<Bytes> {
    if key in store then Some(store[key]) else None
  }

  /** The last upload decides, a failed one does not count, an oversized one removes the
      chunk that was there, and chunks of other checksums are never touched. */
  lemma {:induction false} LastUploadDecides(access: Access, store: Store, es: seq<Effect>, checksum: string)
    ensures Lookup(AfterEffects(store, access, es), ChunkKey(access, checksum))
         == Surviving(Lookup(store, ChunkKey(access, checksum)), es, checksum)
  {
    if es != [] {
      LastUploadDecides(access, store, es[..|es| - 1], checksum);
      if !es[|es| - 1].Ignored? { ChunkKeyInjective(access, es[|es| - 1].checksum, checksum); }
    }
  }

  lemma ChunkKeyInjective(access: Access, a: string, b: string)
    ensures ChunkKey(access, a) == ChunkKey(access, b) <==> a == b
  {
    assert (CHUNK_PREFIX + a)[6..] == a && (CHUNK_PREFIX + b)[6..] == b;
  }

  // A key that no chunk of this access has.
  predicate OutOfReach(access: Access, key: ArtifactKey) {
    key.organizationId != access.organizationId || key.projectId != access.projectId || key.kind != "upload_chunk"
  }

  /** Uploads under one access touch nothing of any other organization or project and no artifact
      of another kind. */
  lemma {:induction false} OtherKeysAreUntouched(access: Access, store: Store, es: seq<Effect>, key: ArtifactKey)
    requires OutOfReach(access, key)
    ensures Lookup(AfterEffects(store, access, es), key) == Lookup(store, key)
  {
    if es != [] {
      OtherKeysAreUntouched(access, store, es[..|es| - 1], key);
      if !es[|es| - 1].Ignored? { ChunkKeyFields(access, es[|es| - 1].checksum); }
    }
  }

  predicate Oversized(u: Upload) {
    Written(u) && |u.payload.value| > CHUNK_BLOB_BYTES
  }

  // A request the handler answers with an error.
  predicate Refused(u: Upload) {
    !Written(u) || Oversized(u)
  }

  function KeyOfUpload(access: Access, u: Upload): ArtifactKey {
    ChunkKey(access, TrimSpace(u.fileName))
  }

  // A refused request is without effect on this store.
  predicate Harmless(store: Store, access: Access, u: Upload) {
    var key := KeyOfUpload(access, u);
    if !Written(u) then true
    else if u.deleteOk then key !in store
    else Lookup(store, key) == Some(Take(u.payload.value, CHUNK_BLOB_BYTES + 1))
  }

  /** A refused upload leaves the store as it was exactly when it never reached the vault, or was
      oversized and undone where nothing had been, or was not undone and found its own bytes. */
  lemma RefusedUploadIsHarmlessExactly(store: Store, access: Access, u: Upload)
    requires Refused(u)
    ensures AfterEffect(store, access, EffectOf(u)) == store <==> Harmless(store, access, u)
  {
    var key, after := KeyOfUpload(access, u), AfterEffect(store, access, EffectOf(u));
    if Oversized(u) && !u.deleteOk { assert key in after; }
    if Oversized(u) && u.deleteOk { assert key !in after; }
  }

  /** An oversized upload costs whatever chunk its name had, when its delete works, and otherwise
      replaces it by one that counts as present and cannot be read; no other chunk is touched. */
  lemma OversizedUploadLosesChunk(store: Store, access: Access, u: Upload)
    requires Oversized(u)
    ensures
      var key, after := KeyOfUpload(access, u), AfterEffect(store, access, EffectOf(u));
      && after - {key} == store - {key}
      && (key in after <==> !u.deleteOk)
      && (key in after ==> |after[key]| == 33554433)
  {
    var key := KeyOfUpload(access, u);
    DropUpdated(store, key, Take(u.payload.value, CHUNK_BLOB_BYTES + 1));
  }

  lemma DropUpdated(store: Store, key: ArtifactKey, bytes: Bytes)
    ensures store[key := bytes] - {key} == store - {key}
  {
  }

  // ---- assembly ----

  type KeyResult = Result<ArtifactKey, UploadError>

  function KeyResults(access: Access, chunks: seq<string>): (keys: seq<KeyResult>)
    ensures |keys| == |chunks|
  {
    seq(|chunks|, i requires 0 <= i < |chunks| => ArtifactChunkKey(access, chunks[i]))
  }

  predicate AllOk(keys: seq<KeyResult>) {
    forall i :: 0 <= i < |keys| ==> keys[i].Ok?
  }

  function Values(keys: seq<KeyResult>): (values: seq<ArtifactKey>)
    requires AllOk(keys)
    ensures |values| == |keys|
    ensures forall i :: 0 <= i < |keys| ==> values[i] == keys[i].value
  {
    seq(|keys|, i requires 0 <= i < |keys| => keys[i].value)
  }

  predicate UsableChecksums(access: Access, chunks: seq<string>) {
    AllOk(KeyResults(access, chunks))
  }

  function ChunkKeys(access: Access, chunks: seq<string>): (keys: seq<ArtifactKey>)
    requires UsableChecksums(access, chunks)
    ensures |keys| == |chunks|
  {
    Values(KeyResults(access, chunks))
  }

  // The checksums of the request whose chunk is absent, in order and with repeats.
  function Missing(store: Store, keys: seq<ArtifactKey>, chunks: seq<string>): seq<string>
    requires |keys| == |chunks|
  {
    if chunks == [] then []
    else
      var n := |chunks| - 1;
      var before := Missing(store, keys[..n], chunks[..n]);
      if keys[n] in store then before else before + [chunks[n]]
  }

  predicate AllReadable(store: Store, keys: seq<ArtifactKey>) {
    forall i :: 0 <= i < |keys| ==> keys[i] in store && |store[keys[i]]| <= CHUNK_BLOB_BYTES
  }

  function Assembled(store: Store, keys: seq<ArtifactKey>): Bytes
    requires AllReadable(store, keys)
  {
    if keys == [] then []
    else Assembled(store, keys[..|keys| - 1]) + store[keys[|keys| - 1]]
  }

  function Flatten(pieces: seq<Bytes>): Bytes {
    if pieces == [] then [] else Flatten(pieces[..|pieces| - 1]) + pieces[|pieces| - 1]
  }

  predicate NamesChunk(e: Effect, checksum: string) {
    !e.Ignored? && e.checksum == checksum
  }

  // The last effective request for this checksum wrote these bytes.
  predicate LastWrote(es: seq<Effect>, checksum: string, bytes: Bytes) {
    exists j :: 0 <= j < |es| && es[j] == Wrote(checksum, bytes)
                && forall l :: j < l < |es| ==> !NamesChunk(es[l], checksum)
  }

  // Each piece is no larger than a chunk and was the last thing uploaded under its digest.
  ghost predicate UploadedPieces(sha1: Bytes -> string, pieces: seq<Bytes>, es: seq<Effect>) {
    forall i :: 0 <= i < |pieces| ==> |pieces[i]| <= CHUNK_BLOB_BYTES && LastWrote(es, sha1(pieces[i]), pieces[i])
  }

  predicate WrittenAs(u: Upload, checksum: string) {
    Written(u) && TrimSpace(u.fileName) == checksum
  }

  // A request that the vault took carried this body under this checksum, and none did after it.
  predicate LastRequested(uploads: seq<Upload>, checksum: string, body: Bytes) {
    exists j :: 0 <= j < |uploads| && WrittenAs(uploads[j], checksum) && uploads[j].payload == Some(body)
                && forall l :: j < l < |uploads| ==> !WrittenAs(uploads[l], checksum)
  }

  /** In terms of requests: what the last written request for a digest carried is what counts. */
  lemma RequestsUploadPieces(sha1: Bytes -> string, pieces: seq<Bytes>, uploads: seq<Upload>)
    requires forall i :: 0 <= i < |pieces| ==> |pieces[i]| <= CHUNK_BLOB_BYTES
    requires forall i :: 0 <= i < |pieces| ==> LastRequested(uploads, sha1(pieces[i]), pieces[i])
    ensures UploadedPieces(sha1, pieces, Effects(uploads))
  {
    var es := Effects(uploads);
    forall i | 0 <= i < |pieces|
      ensures LastWrote(es, sha1(pieces[i]), pieces[i])
    {
      var name := sha1(pieces[i]);
      var j :| 0 <= j < |uploads| && WrittenAs(uploads[j], name) && uploads[j].payload == Some(pieces[i])
               && forall l :: j < l < |uploads| ==> !WrittenAs(uploads[l], name);
      assert es[j] == Wrote(name, pieces[i]);
      forall l | j < l < |es|
        ensures !NamesChunk(es[l], name)
      {
        assert !WrittenAs(uploads[l], name);
      }
    }
  }

  predicate Requested(uploads: seq<Upload>, checksum: string) {
    exists j :: 0 <= j < |uploads| && WrittenAs(uploads[j], checksum)
  }

  /** Honest requests qualify in any order and with any repeats: each piece was written under its
      digest, and nothing else ever was. */
  lemma HonestRequests(sha1: Bytes -> string, pieces: seq<Bytes>, uploads: seq<Upload>)
    requires forall i :: 0 <= i < |pieces| ==> |pieces[i]| <= CHUNK_BLOB_BYTES && Requested(uploads, sha1(pieces[i]))
    requires forall i, j :: 0 <= i < |pieces| && 0 <= j < |uploads| && WrittenAs(uploads[j], sha1(pieces[i]))
               ==> uploads[j].payload == Some(pieces[i])
    ensures UploadedPieces(sha1, pieces, Effects(uploads))
  {
    forall i | 0 <= i < |pieces|
      ensures LastRequested(uploads, sha1(pieces[i]), pieces[i])
    {
      assert Requested(uploads, sha1(pieces[i]));
      var j: nat :| j < |uploads| && WrittenAs(uploads[j], sha1(pieces[i]));
      var last := LastOfRequests(uploads, sha1(pieces[i]), j);
    }
    RequestsUploadPieces(sha1, pieces, uploads);
  }

  lemma LastOfRequests(uploads: seq<Upload>, checksum: string, j: nat) returns (last: nat)
    requires j < |uploads| && WrittenAs(uploads[j], checksum)
    ensures last < |uploads| && WrittenAs(uploads[last], checksum)
    ensures forall l :: last < l < |uploads| ==> !WrittenAs(uploads[l], checksum)
  {
    last := |uploads| - 1;
    while !WrittenAs(uploads[last], checksum)
      invariant j <= last < |uploads|
      invariant forall l :: last < l < |uploads| ==> !WrittenAs(uploads[l], checksum)
      decreases last
    {
      last := last - 1;
    }
  }

  lemma {:induction false} LastWrittenSurvives(before: Option<Bytes>, es: seq<Effect>, checksum: string, piece: Bytes)
    requires LastWrote(es, checksum, piece)
    ensures Surviving(before, es, checksum) == Some(piece)
  {
    var j :| 0 <= j < |es| && es[j] == Wrote(checksum, piece)
             && forall l :: j < l < |es| ==> !NamesChunk(es[l], checksum);
    var front := es[..|es| - 1];
    if j < |es| - 1 {
      assert front[j] == es[j];
      assert forall l :: j < l < |front| ==> front[l] == es[l];
      LastWrittenSurvives(before, front, checksum, piece);
    }
  }

  function Names(sha1: Bytes -> string, pieces: seq<Bytes>): (names: seq<string>)
    ensures |names| == |pieces|
    ensures forall i :: 0 <= i < |pieces| ==> names[i] == sha1(pieces[i])
  {
    seq(|pieces|, i requires 0 <= i < |pieces| => sha1(pieces[i]))
  }

  lemma DigestIsChecksum(text: string)
    requires IsHex(text, SHA1_HEX_LENGTH)
    ensures Checksum(text)
  {
  }

  lemma {:induction false} PiecesAreFound(store: Store, keys: seq<ArtifactKey>, chunks: seq<string>, pieces: seq<Bytes>)
    requires |keys| == |chunks| == |pieces|
    requires forall i :: 0 <= i < |pieces| ==> |pieces[i]| <= CHUNK_BLOB_BYTES
    requires forall i :: 0 <= i < |keys| ==> Lookup(store, keys[i]) == Some(pieces[i])
    ensures Missing(store, keys, chunks) == []
    ensures AllReadable(store, keys) && Assembled(store, keys) == Flatten(pieces)
  {
    if chunks != [] {
      var n := |chunks| - 1;
      PiecesAreFound(store, keys[..n], chunks[..n], pieces[..n]);
      assert Lookup(store, keys[n]) == Some(pieces[n]);
    }
  }

  /** The chunk round trip. Whatever the vault held before, whatever the order of the uploads and
      however often pieces are repeated, with failed requests and uploads of other chunks in
      between: if each piece was the last thing written under its digest, assembly misses nothing
      and reads back the file. Two different pieces with one digest could not both be last. */
  lemma ChunkRoundTrip(sha1: Bytes -> string, access: Access, store: Store, pieces: seq<Bytes>, es: seq<Effect>)
    requires IsSha1(sha1) && ValidAccess(access) && UploadedPieces(sha1, pieces, es)
    ensures UsableChecksums(access, Names(sha1, pieces))
    ensures
      var after, chunks := AfterEffects(store, access, es), Names(sha1, pieces);
      && Missing(after, ChunkKeys(access, chunks), chunks) == []
      && AllReadable(after, ChunkKeys(access, chunks))
      && Assembled(after, ChunkKeys(access, chunks)) == Flatten(pieces)
  {
    var chunks, after := Names(sha1, pieces), AfterEffects(store, access, es);
    forall i | 0 <= i < |chunks|
      ensures KeyResults(access, chunks)[i] == Ok(ChunkKey(access, chunks[i]))
      ensures Lookup(after, ChunkKey(access, chunks[i])) == Some(pieces[i])
    {
      DigestIsChecksum(chunks[i]);
      PlainChecksumKey(access, chunks[i]);
      LastWrittenSurvives(Lookup(store, ChunkKey(access, chunks[i])), es, chunks[i], pieces[i]);
      LastUploadDecides(access, store, es, chunks[i]);
    }
    PiecesAreFound(after, ChunkKeys(access, chunks), chunks, pieces);
  }

  // ---- what is missing, and what cannot be read ----

  // Assembly looks for a usable checksum under its text without trailing blanks.
  lemma UsableChecksumKey(access: Access, checksum: string)
    requires ArtifactChunkKey(access, checksum).Ok?
    ensures ArtifactChunkKey(access, checksum).value == ChunkKey(access, TrimRight(checksum))
  {
    NewArtifactNameAccepts(CHUNK_PREFIX + checksum);
    ChunkNameTrims(checksum);
  }

  /** What assembly reports missing is exactly what neither the uploads nor the vault before them
      left under the name it looks for. */
  lemma MissingAreUnuploaded(access: Access, store: Store, es: seq<Effect>, chunks: seq<string>)
    requires UsableChecksums(access, chunks)
    ensures forall c :: c in Missing(AfterEffects(store, access, es), ChunkKeys(access, chunks), chunks)
              <==> c in chunks && Surviving(Lookup(store, ChunkKey(access, TrimRight(c))), es, TrimRight(c)) == None
  {
    var after, keys := AfterEffects(store, access, es), ChunkKeys(access, chunks);
    forall i | 0 <= i < |chunks|
      ensures keys[i] == ChunkKey(access, TrimRight(chunks[i]))
    {
      assert KeyResults(access, chunks)[i].Ok?;
      UsableChecksumKey(access, chunks[i]);
    }
    MissingAreAbsent(after, access, keys, chunks);
    forall c
      ensures c in Missing(after, keys, chunks)
              <==> c in chunks && Surviving(Lookup(store, ChunkKey(access, TrimRight(c))), es, TrimRight(c)) == None
    {
      LastUploadDecides(access, store, es, TrimRight(c));
    }
  }

  lemma {:induction false} MissingAreAbsent(store: Store, access: Access, keys: seq<ArtifactKey>, chunks: seq<string>)
    requires |keys| == |chunks|
    requires forall i :: 0 <= i < |chunks| ==> keys[i] == ChunkKey(access, TrimRight(chunks[i]))
    ensures forall c :: c in Missing(store, keys, chunks) <==> c in chunks && ChunkKey(access, TrimRight(c)) !in store
  {
    if chunks != [] {
      var n := |chunks| - 1;
      MissingAreAbsent(store, access, keys[..n], chunks[..n]);
      assert chunks == chunks[..n] + [chunks[n]];
    }
  }

  lemma {:induction false} NothingMissingMeansStored(store: Store, keys: seq<ArtifactKey>, chunks: seq<string>)
    requires |keys| == |chunks|
    ensures Missing(store, keys, chunks) == [] <==> forall i :: 0 <= i < |keys| ==> keys[i] in store
  {
    if chunks != [] {
      var n := |chunks| - 1;
      NothingMissingMeansStored(store, keys[..n], chunks[..n]);
      assert forall i :: 0 <= i < n ==> keys[..n][i] == keys[i];
    }
  }

  /** When nothing is missing, assembly can read its chunks exactly when none of them is what an
      oversized upload left behind. */
  lemma PresentIsReadableExactly(store: Store, keys: seq<ArtifactKey>, chunks: seq<string>)
    requires |keys| == |chunks| && Missing(store, keys, chunks) == []
    ensures AllReadable(store, keys)
        <==> forall i :: 0 <= i < |keys| && keys[i] in store ==> |store[keys[i]]| <= CHUNK_BLOB_BYTES
  {
    NothingMissingMeansStored(store, keys, chunks);
  }

  lemma {:induction false} SameLookupsSameChunks(a: Store, b: Store, keys: seq<ArtifactKey>, chunks: seq<string>)
    requires |keys| == |chunks| && forall i :: 0 <= i < |keys| ==> Lookup(a, keys[i]) == Lookup(b, keys[i])
    ensures Missing(a, keys, chunks) == Missing(b, keys, chunks)
    ensures AllReadable(a, keys) <==> AllReadable(b, keys)
    ensures AllReadable(a, keys) ==> Assembled(a, keys) == Assembled(b, keys)
  {
    assert forall i :: 0 <= i < |keys| ==> Lookup(a, keys[i]) == Lookup(b, keys[i]);
    if keys != [] {
      var n := |keys| - 1;
      SameLookupsSameChunks(a, b, keys[..n], chunks[..n]);
    }
  }

  /** What one access uploads is invisible to any other: the same chunks are missing, readable and
      assembled there as before. */
  lemma AccessesAreSeparate(mine: Access, other: Access, store: Store, es: seq<Effect>, chunks: seq<string>)
    requires mine != other && UsableChecksums(other, chunks)
    ensures
      var keys, after := ChunkKeys(other, chunks), AfterEffects(store, mine, es);
      && Missing(after, keys, chunks) == Missing(store, keys, chunks)
      && (AllReadable(after, keys) <==> AllReadable(store, keys))
      && (AllReadable(store, keys) ==> Assembled(after, keys) == Assembled(store, keys))
  {
    var keys, after := ChunkKeys(other, chunks), AfterEffects(store, mine, es);
    forall i | 0 <= i < |keys|
      ensures Lookup(after, keys[i]) == Lookup(store, keys[i])
    {
      assert KeyResults(other, chunks)[i].Ok?;
      ChunkKeyFields(other, chunks[i]);
      OtherKeysAreUntouched(mine, store, es, keys[i]);
    }
    SameLookupsSameChunks(after, store, keys, chunks);
  }

  // ---- checksums that nothing hashes to ----

  ghost predicate Matchable(checksum: string) {
    exists sha1: Bytes -> string, body: Bytes :: IsSha1(sha1) && VerifySha1Checksum(sha1, body, checksum).Ok?
  }

  /** An accepted checksum can be met by some body under some digest exactly when it has no
      upper-case digit: the check of its form admits either case, the comparison does not. */
  lemma MatchableExactly(checksum: string)
    requires RequireSha1Checksum(checksum).Ok?
    ensures Matchable(checksum) <==> ToLower(TrimSpace(checksum)) == TrimSpace(checksum)
  {
    var text := TrimSpace(checksum);
    RequireSha1ChecksumAccepts(checksum);
    if ToLower(text) == text {
      assert forall i :: 0 <= i < |text| ==> IsHexDigitAnyCase(text[i]) && LowerChar(text[i]) == text[i];
      var sha1: Bytes -> string := body => text;
      assert IsSha1(sha1);
      assert VerifySha1Checksum(sha1, [], checksum).Ok?;
    }
    if Matchable(checksum) {
      var sha1: Bytes -> string, body: Bytes :| IsSha1(sha1) && VerifySha1Checksum(sha1, body, checksum).Ok?;
      assert IsHex(sha1(body), SHA1_HEX_LENGTH);
      HexHasNoDash(text, SHA1_HEX_LENGTH);
    }
  }
}
