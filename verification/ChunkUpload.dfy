/** The chunk handlers over a vault: storing one chunk, reporting missing ones, reading them
    back, and assembling a debug file from them. */
module ChunkUpload {
  import opened Prelude
  import opened Text
  import opened ArtifactKeys
  import opened Paths
  import opened FileTree
  import opened VaultPaths
  import opened VaultContents
  import opened ArtifactVault
  import opened Identities
  import opened ChunkStore

  // One multipart file: its name, its gzip payload, and the faults met on the way.
  datatype ChunkRequest = ChunkRequest(
    fileName: string, openFails: bool, payload: Option<Bytes>, os: PutFaults, deleteFails: bool)

  datatype AssembleState = NotFound(missing: seq<string>) | Created

  // What the debug file store is called with.
  datatype Handed = Handed(organizationId: string, projectId: string, identity: Identity, body: Bytes)

  datatype DebugFileRequest = DebugFileRequest(name: string, debugId: string, chunks: seq<string>)

  lemma TrimmedChecksumKey(access: Access, fileName: string)
    requires ValidAccess(access) && RequireSha1Checksum(TrimSpace(fileName)).Ok?
    ensures ArtifactChunkKey(access, TrimSpace(fileName)) == Ok(ChunkKey(access, TrimSpace(fileName)))
    ensures ValidKey(ChunkKey(access, TrimSpace(fileName)))
  {
    var checksum := TrimSpace(fileName);
    RequireSha1ChecksumAccepts(checksum);
    PlainChecksumKey(access, checksum);
  }

  ghost predicate PutSucceeds(root: Path, t: Tree, key: ArtifactKey, os: PutFaults) {
    ValidKey(key) && Undisturbed(root, t, key, os)
  }

  // The request as the map sees it: what it carries, and whether the vault takes it.
  ghost function UploadSeen(root: Path, t: Tree, access: Access, request: ChunkRequest): Upload {
    Upload(request.fileName, if request.openFails then None else request.payload,
           PutSucceeds(root, t, ChunkKey(access, TrimSpace(request.fileName)), request.os), !request.deleteFails)
  }

  lemma EffectOfRefused(u: Upload)
    requires RequireSha1Checksum(TrimSpace(u.fileName)).Err? || u.payload.None?
    ensures EffectOf(u) == Ignored && !Written(u)
  {
  }

  lemma EffectOfAccepted(store: Store, access: Access, u: Upload)
    requires RequireSha1Checksum(TrimSpace(u.fileName)).Ok? && u.payload.Some?
    ensures Written(u) == u.putOk
    ensures AfterEffect(store, access, EffectOf(u)) ==
            var key := ChunkKey(access, TrimSpace(u.fileName));
            if !u.putOk then store
            else if |u.payload.value| > CHUNK_BLOB_BYTES && u.deleteOk then store - {key}
            else store[key := Take(u.payload.value, CHUNK_BLOB_BYTES + 1)]
  {
  }

  lemma OneEffectStaysInReach(store: Store, access: Access, e: Effect)
    ensures forall key :: OutOfReach(access, key) ==> Lookup(AfterEffect(store, access, e), key) == Lookup(store, key)
  {
    assert [e][..0] == [];
    forall key | OutOfReach(access, key)
      ensures Lookup(AfterEffect(store, access, e), key) == Lookup(store, key)
    {
      OtherKeysAreUntouched(access, store, [e], key);
    }
  }

  /** One request acts on the vault as its effect acts on the map, it succeeds exactly when it
      stored the whole payload, and its refusal is without effect exactly when it is harmless. */
  method StoreArtifactChunk(vault: Vault, access: Access, request: ChunkRequest) returns (r: Result<(), UploadError>)
    requires vault.Valid() && ValidAccess(access)
    modifies vault`tree
    ensures vault.Valid()
    ensures
      var u := UploadSeen(Resolve(vault.root), old(vault.tree), access, request);
      && vault.Stored() == AfterEffect(old(vault.Stored()), access, EffectOf(u))
      && (r.Ok? <==> Written(u) && !Oversized(u))
      && (r == Err(ChunkTooLarge) <==> Oversized(u))
      && (r.Err? ==> (vault.Stored() == old(vault.Stored()) <==> Harmless(old(vault.Stored()), access, u)))
    ensures forall key :: OutOfReach(access, key) ==> Lookup(vault.Stored(), key) == Lookup(old(vault.Stored()), key)
  {
    ghost var u := UploadSeen(Resolve(vault.root), vault.tree, access, request);
    ghost var before := vault.Stored();
    if Refused(u) { RefusedUploadIsHarmlessExactly(before, access, u); }
    OneEffectStaysInReach(before, access, EffectOf(u));
    var checksum := TrimSpace(request.fileName);
    var checked := RequireSha1Checksum(checksum);
    if checked.Err? || request.openFails || request.payload.None? {
      EffectOfRefused(u);
      return Err(if checked.Err? then ChecksumInvalid else if request.openFails then UploadIo else InvalidGzipChunk);
    }
    TrimmedChecksumKey(access, request.fileName);
    EffectOfAccepted(before, access, u);
    var key := ArtifactChunkKey(access, checksum).value;
    r := WriteChunk(vault, key, request.payload.value, request.os, request.deleteFails);
  }

  // The Put of one chunk, undone as far as a Delete can undo it when the chunk is too large.
  method WriteChunk(vault: Vault, key: ArtifactKey, payload: Bytes, os: PutFaults, deleteFails: bool)
    returns (r: Result<(), UploadError>)
    requires vault.Valid() && ValidKey(key)
    modifies vault`tree
    ensures vault.Valid()
    ensures vault.Stored() ==
            if !PutSucceeds(Resolve(vault.root), old(vault.tree), key, os) then old(vault.Stored())
            else if |payload| > CHUNK_BLOB_BYTES && !deleteFails then old(vault.Stored()) - {key}
            else old(vault.Stored())[key := Take(payload, CHUNK_BLOB_BYTES + 1)]
    ensures r.Ok? <==> PutSucceeds(Resolve(vault.root), old(vault.tree), key, os) && |payload| <= CHUNK_BLOB_BYTES
    ensures r == Err(ChunkTooLarge) <==>
            PutSucceeds(Resolve(vault.root), old(vault.tree), key, os) && |payload| > CHUNK_BLOB_BYTES
    ensures r.Err? ==> r.error == ChunkTooLarge || r.error == UploadIo
  {
    var limited := Take(payload, CHUNK_BLOB_BYTES + 1);
    ghost var before := vault.Stored();
    var put := vault.PutArtifact(key, Some(limited), os);
    if put.Err? { return Err(UploadIo); }
    if put.value.size > CHUNK_BLOB_BYTES {
      var deleted := vault.DeleteArtifact(key, false, deleteFails);
      DropUpdated(before, key, limited);
      return Err(ChunkTooLarge);
    }
    return Ok(());
  }

  /** Reports exactly the absent chunks of the request, in its order. */
  method MissingArtifactChunks(vault: Vault, access: Access, chunks: seq<string>, openFails: set<nat>)
    returns (r: Result<seq<string>, UploadError>)
    requires vault.Valid() && ValidAccess(access)
    ensures r.Ok? ==> UsableChecksums(access, chunks)
                      && r.value == Missing(vault.Stored(), ChunkKeys(access, chunks), chunks)
    ensures UsableChecksums(access, chunks) && openFails == {} ==> r.Ok?
  {
    KeyResultsAreValid(access, chunks);
    r := MissingAmong(vault, KeyResults(access, chunks), chunks, openFails);
  }

  // The loop, over the keys the checksums name.
  method MissingAmong(vault: Vault, keys: seq<KeyResult>, chunks: seq<string>, openFails: set<nat>)
    returns (r: Result<seq<string>, UploadError>)
    requires vault.Valid() && |keys| == |chunks|
    requires forall i :: 0 <= i < |keys| && keys[i].Ok? ==> ValidKey(keys[i].value)
    ensures r.Ok? ==> AllOk(keys) && r.value == Missing(vault.Stored(), Values(keys), chunks)
    ensures AllOk(keys) && openFails == {} ==> r.Ok?
  {
    var missing: seq<string> := [];
    for i := 0 to |chunks|
      invariant AllOk(keys[..i])
      invariant missing == Missing(vault.Stored(), Values(keys[..i]), chunks[..i])
    {
      if keys[i].Err? { return Err(keys[i].error); }
      MissingStep(vault.Stored(), keys, chunks, i);
      var found := FindChunk(vault, keys[i].value, i in openFails);
      if found.Err? { return Err(UploadIo); }
      if !found.value { missing := missing + [chunks[i]]; }
    }
    assert keys[..|keys|] == keys && chunks[..|chunks|] == chunks;
    return Ok(missing);
  }

  method FindChunk(vault: Vault, key: ArtifactKey, openFails: bool) returns (r: Result<bool, UploadError>)
    requires vault.Valid() && ValidKey(key)
    ensures r.Ok? ==> r.value == (key in vault.Stored())
    ensures !openFails ==> r.Ok?
  {
    var got := vault.GetArtifact(key, false, openFails);
    if got.Ok? { return Ok(true); }
    if got.error != ArtifactNotFound { return Err(UploadIo); }
    return Ok(false);
  }

  lemma MissingStep(store: Store, keys: seq<KeyResult>, chunks: seq<string>, i: nat)
    requires |keys| == |chunks| && i < |keys| && AllOk(keys[..i]) && keys[i].Ok?
    ensures AllOk(keys[..i + 1])
    ensures Missing(store, Values(keys[..i + 1]), chunks[..i + 1])
         == Missing(store, Values(keys[..i]), chunks[..i])
            + (if keys[i].value in store then [] else [chunks[i]])
  {
    assert Values(keys[..i + 1])[..i] == Values(keys[..i]) && chunks[..i + 1][..i] == chunks[..i];
  }

  lemma KeyResultsAreValid(access: Access, chunks: seq<string>)
    requires ValidAccess(access)
    ensures forall i :: 0 <= i < |chunks| && KeyResults(access, chunks)[i].Ok?
              ==> ValidKey(KeyResults(access, chunks)[i].value)
  {
  }

  method ReadSingleArtifactChunk(vault: Vault, key: KeyResult, openFails: bool) returns (r: Result<Bytes, UploadError>)
    requires vault.Valid() && (key.Ok? ==> ValidKey(key.value))
    ensures r.Ok? <==> key.Ok? && !openFails && key.value in vault.Stored()
                       && |vault.Stored()[key.value]| <= CHUNK_BLOB_BYTES
    ensures r.Ok? ==> r.value == vault.Stored()[key.value]
  {
    if key.Err? { return Err(key.error); }
    var got := vault.GetArtifact(key.value, false, openFails);
    if got.Err? { return Err(if got.error == ArtifactNotFound then ChunkNotFound else UploadIo); }
    var body := Take(got.value, CHUNK_BLOB_BYTES + 1);
    if |body| > CHUNK_BLOB_BYTES { return Err(ChunkTooLarge); }
    return Ok(body);
  }

  /** The buffer ends up holding the stored chunks, whole and in request order. */
  method ReadArtifactChunks(vault: Vault, access: Access, chunks: seq<string>, openFails: set<nat>)
    returns (r: Result<Bytes, UploadError>)
    requires vault.Valid() && ValidAccess(access)
    ensures r.Ok? ==> UsableChecksums(access, chunks)
                      && AllReadable(vault.Stored(), ChunkKeys(access, chunks))
                      && r.value == Assembled(vault.Stored(), ChunkKeys(access, chunks))
    ensures (UsableChecksums(access, chunks) && AllReadable(vault.Stored(), ChunkKeys(access, chunks))
             && openFails == {}) ==> r.Ok?
  {
    KeyResultsAreValid(access, chunks);
    r := ReadAmong(vault, KeyResults(access, chunks), openFails);
  }

  method ReadAmong(vault: Vault, keys: seq<KeyResult>, openFails: set<nat>) returns (r: Result<Bytes, UploadError>)
    requires vault.Valid()
    requires forall i :: 0 <= i < |keys| && keys[i].Ok? ==> ValidKey(keys[i].value)
    ensures r.Ok? ==> AllOk(keys) && AllReadable(vault.Stored(), Values(keys))
                      && r.value == Assembled(vault.Stored(), Values(keys))
    ensures (AllOk(keys) && AllReadable(vault.Stored(), Values(keys)) && openFails == {}) ==> r.Ok?
  {
    var assembled: Bytes := [];
    for i := 0 to |keys|
      invariant AllOk(keys[..i]) && AllReadable(vault.Stored(), Values(keys[..i]))
      invariant assembled == Assembled(vault.Stored(), Values(keys[..i]))
    {
      var chunk := ReadSingleArtifactChunk(vault, keys[i], i in openFails);
      if chunk.Err? {
        assert AllOk(keys) ==> Values(keys)[i] == keys[i].value;
        return Err(chunk.error);
      }
      AssembledStep(vault.Stored(), keys, i);
      assembled := assembled + chunk.value;
    }
    assert keys[..|keys|] == keys;
    return Ok(assembled);
  }

  lemma AssembledStep(store: Store, keys: seq<KeyResult>, i: nat)
    requires i < |keys| && AllOk(keys[..i]) && keys[i].Ok? && AllReadable(store, Values(keys[..i]))
    requires keys[i].value in store && |store[keys[i].value]| <= CHUNK_BLOB_BYTES
    ensures AllOk(keys[..i + 1]) && AllReadable(store, Values(keys[..i + 1]))
    ensures Assembled(store, Values(keys[..i + 1])) == Assembled(store, Values(keys[..i])) + store[keys[i].value]
  {
    var now, before := Values(keys[..i + 1]), Values(keys[..i]);
    assert now[..i] == before && now[i] == keys[i].value;
    forall j | 0 <= j < |now|
      ensures now[j] in store && |store[now[j]]| <= CHUNK_BLOB_BYTES
    {
      assert j < i ==> now[j] == before[j];
    }
  }

  // The checks assembly makes once it has the bytes; sniff stands for debugFileKindFromBytes.
  function DebugFileIdentity(request: DebugFileRequest, body: Bytes, sniff: Bytes -> Option<string>):
    Result<Identity, UploadError>
  {
    var debugId := NewDebugIdentifier(request.debugId);
    if debugId.Err? then Err(BadField(debugId.error))
    else
      var kind := sniff(body);
      if kind.None? then Err(BadDebugFile)
      else
        var fileName := NewFileName(request.name);
        if fileName.Err? then Err(BadField(fileName.error))
        else Ok(DebugFile(debugId.value, kind.value, fileName.value))
  }

  /** The identity assembly builds is a debug file's: the given identifier in lower case and without
      dashes, the kind its bytes show, and the given name trimmed. */
  lemma DebugFileIdentityFields(request: DebugFileRequest, body: Bytes, sniff: Bytes -> Option<string>)
    ensures DebugFileIdentity(request, body, sniff).Ok? <==>
            NewDebugIdentifier(request.debugId).Ok? && sniff(body).Some? && NewFileName(request.name).Ok?
    ensures DebugFileIdentity(request, body, sniff).Ok? ==>
              && var id := DebugFileIdentity(request, body, sniff).value;
                 id.DebugFile? && Some(id.kind) == sniff(body) && id.fileName == TrimSpace(request.name)
                 && id.debugId == ToLower(Without('-', TrimSpace(request.debugId)))
  {
  }

  /** assembleDebugFile, the debug file store being a step that takes an identity and a body:
      nothing reaches it but the chunks joined in order, and only if they hash to the checksum. */
  method AssembleDebugFile(vault: Vault, access: Access, checksum: string, request: DebugFileRequest,
                           sha1: Bytes -> string, sniff: Bytes -> Option<string>,
                           missFaults: set<nat>, readFaults: set<nat>, storeFails: bool)
    returns (r: Result<AssembleState, UploadError>, handed: Option<Handed>)
    requires vault.Valid() && ValidAccess(access)
    ensures handed.Some? ==>
              && handed.value.organizationId == access.organizationId && handed.value.projectId == access.projectId
              && UsableChecksums(access, request.chunks)
              && AllReadable(vault.Stored(), ChunkKeys(access, request.chunks))
              && handed.value.body == Assembled(vault.Stored(), ChunkKeys(access, request.chunks))
              && sha1(handed.value.body) == TrimSpace(checksum)
              && DebugFileIdentity(request, handed.value.body, sniff) == Ok(handed.value.identity)
    ensures r == Ok(Created) <==> handed.Some? && !storeFails
    ensures r.Ok? && r.value.NotFound? ==>
              && UsableChecksums(access, request.chunks)
              && r.value.missing == Missing(vault.Stored(), ChunkKeys(access, request.chunks), request.chunks) != []
    ensures RequireSha1Checksum(checksum).Ok? && UsableChecksums(access, request.chunks)
            && missFaults == {} && readFaults == {}
            && Missing(vault.Stored(), ChunkKeys(access, request.chunks), request.chunks) == []
            && AllReadable(vault.Stored(), ChunkKeys(access, request.chunks))
            && sha1(Assembled(vault.Stored(), ChunkKeys(access, request.chunks))) == TrimSpace(checksum)
            && DebugFileIdentity(request, Assembled(vault.Stored(), ChunkKeys(access, request.chunks)), sniff).Ok?
        ==> handed.Some?
  {
    handed := None;
    if RequireSha1Checksum(checksum).Err? { return Err(ChecksumInvalid), handed; }
    var missing := MissingArtifactChunks(vault, access, request.chunks, missFaults);
    if missing.Err? { return Err(missing.error), handed; }
    if missing.value != [] { return Ok(NotFound(missing.value)), handed; }
    var body := ReadArtifactChunks(vault, access, request.chunks, readFaults);
    if body.Err? { return Err(body.error), handed; }
    var verified := VerifySha1Checksum(sha1, body.value, checksum);
    if verified.Err? { return Err(verified.error), handed; }
    var identity := DebugFileIdentity(request, body.value, sniff);
    if identity.Err? { return Err(identity.error), handed; }
    handed := Some(Handed(access.organizationId, access.projectId, identity.value, body.value));
    if storeFails { return Err(UploadIo), handed; }
    return Ok(Created), handed;
  }

  /** End to end: whatever the vault held before, once each piece is the last thing uploaded under
      its digest the store receives the very file. */
  lemma AssemblyHandsOverTheFile(sha1: Bytes -> string, sniff: Bytes -> Option<string>, access: Access,
                                 before: Store, pieces: seq<Bytes>, es: seq<Effect>, request: DebugFileRequest)
    requires IsSha1(sha1) && ValidAccess(access) && UploadedPieces(sha1, pieces, es)
    requires request.chunks == Names(sha1, pieces)
    requires DebugFileIdentity(request, Flatten(pieces), sniff).Ok?
    ensures
      var store, checksum := AfterEffects(before, access, es), sha1(Flatten(pieces));
      && RequireSha1Checksum(checksum).Ok? && UsableChecksums(access, request.chunks)
      && Missing(store, ChunkKeys(access, request.chunks), request.chunks) == []
      && AllReadable(store, ChunkKeys(access, request.chunks))
      && Assembled(store, ChunkKeys(access, request.chunks)) == Flatten(pieces)
      && VerifySha1Checksum(sha1, Flatten(pieces), checksum).Ok?
  {
    ChunkRoundTrip(sha1, access, before, pieces, es);
    var checksum := sha1(Flatten(pieces));
    DigestIsChecksum(checksum);
    ChunkNameIsValid(checksum);
    RequireSha1ChecksumAccepts(checksum);
  }
}
