/**
 What a repository stores (crates/fileferry-core/src/lib.rs, the manifest,
 index and marker types, and the object encryption helpers).

 Cryptography is symbolic.  A sealed object records the subkey, kind and name
 it was sealed for and its nonce; it opens only for the same subkey, kind and
 name, and two seals with different nonces are different bytes.  Keyed
 content ids are functions of the repository; theorems that need it assume
 that they do not collide.
 */
module Repository {
  import opened Common

  type Data = seq<bv8>

  /** A path component, as `Path::components` yields it. */
  datatype Component = Normal(name: string) | CurDir | ParentDir | RootDir | Prefix(name: string)

  type RelPath = seq<Component>

  datatype Kind = RegularFile | Directory | Symlink | Other

  /** A whole number of seconds since the epoch, and nanoseconds after it. */
  datatype Timestamp = Timestamp(seconds: int, nanoseconds: nat)

  datatype MetadataValue<T> = Captured(value: T) | Unsupported | Denied(reason: string)

  type ModTime = MetadataValue<Timestamp>

  datatype Metadata = Metadata(
    kind: Kind, size: Option<nat>, symlinkTarget: MetadataValue<string>, modified: ModTime)

  datatype Key =
    | ChunkKey(id: Id) | IndexKey(id: Id) | ManifestKey(id: Id)
    | CommitKey(id: Id) | ForgetKey(id: Id) | OtherKey(name: string)

  datatype ChunkRef = ChunkRef(chunkId: Id, objectKey: Key, offset: nat, length: nat)

  datatype Entry = Entry(path: RelPath, metadata: Metadata, chunks: seq<ChunkRef>)

  datatype IndexEntry = IndexEntry(
    chunkId: Id, objectKey: Key, plaintextLength: nat, compressedLength: nat, storedLength: nat)

  datatype ChunkIndex = ChunkIndex(indexId: Id, chunks: seq<IndexEntry>)

  datatype Body = Body(createdAt: nat, tags: seq<string>, entries: seq<Entry>, indexIds: seq<Id>)

  datatype Manifest = Manifest(snapshotId: Id, body: Body)

  datatype Commit = Commit(schemaVersion: nat, snapshotId: Id, manifestObject: Key)

  datatype ForgetMarker = ForgetMarker(
    schemaVersion: nat, snapshotId: Id, manifestObject: Key, commitObject: Key, forgottenAt: nat)

  datatype Purpose = ChunkData | IndexData | SnapshotMetadata

  datatype Subkey = Subkey(masterKey: nat, purpose: Purpose, repositoryId: string)

  /** The plaintext of a sealed object; compression round trips. */
  datatype Payload = ChunkPayload(data: Data) | IndexPayload(index: ChunkIndex) | ManifestPayload(manifest: Manifest)

  datatype Object =
    | Sealed(subkey: Subkey, kind: Purpose, name: Key, nonce: nat, payload: Payload)
    | CommitDoc(commit: Commit)
    | ForgetDoc(marker: ForgetMarker)
    | Opaque(bytes: nat)

  type Store = map<Key, Object>

  /** The opened repository: its secret, its id, its keyed content ids, and how long an object is when stored. */
  datatype Repo = Repo(
    masterKey: nat, repositoryId: string,
    chunkId: Data -> Id, indexId: seq<IndexEntry> -> Id, snapshotId: Body -> Id, size: Object -> nat)

  ghost predicate CollisionFree(r: Repo) {
    && (forall a, b :: r.chunkId(a) == r.chunkId(b) ==> a == b)
    && (forall a, b :: r.indexId(a) == r.indexId(b) ==> a == b)
    && (forall a, b :: r.snapshotId(a) == r.snapshotId(b) ==> a == b)
  }

  function Seal(r: Repo, purpose: Purpose, key: Key, nonce: nat, payload: Payload): Object {
    Sealed(Subkey(r.masterKey, purpose, r.repositoryId), purpose, key, nonce, payload)
  }

  datatype Error =
    | StorageNotFound(key: Key)
    | ReferencedObjectMissing(key: Key)
    | CheckMissingObject(key: Key)
    | ObjectDecode(key: Key)
    | ObjectAuthentication(key: Key)
    | MetadataDecode(key: Key)
    | MetadataIdentityMismatch(key: Key)
    | InvalidSnapshotManifest(key: Key)
    | CommitDecode(key: Key)
    | InvalidCommitMarker(key: Key)
    | ForgetMarkerDecode(key: Key)
    | InvalidForgetMarker(key: Key)
    | ForgetNoSnapshotsMatched
    | MissingChunkIndexEntry(chunkId: Id)
    | ChunkIndexMismatch(chunkId: Id)
    | Decompression(chunkId: Id)
    | InvalidChunkLength(chunkId: Id)
    | ChunkIdentityMismatch(chunkId: Id)
    | InvalidRestoreRequest
    | SnapshotPathNotFound(path: RelPath)

  /** `decrypt_repository_object` */
  function Open(r: Repo, purpose: Purpose, key: Key, o: Object): Result<Payload, Error> {
    if !o.Sealed? then Err(ObjectDecode(key))
    else if o.subkey == Subkey(r.masterKey, purpose, r.repositoryId) && o.kind == purpose && o.name == key
    then Ok(o.payload)
    else Err(ObjectAuthentication(key))
  }

  lemma SealedOpensOnlyAsItself(r: Repo, purpose: Purpose, key: Key, o: Object)
    ensures Open(r, purpose, key, o).Ok?
            <==> exists nonce, payload :: o == Seal(r, purpose, key, nonce, payload)
  {
    if Open(r, purpose, key, o).Ok? {
      assert o == Seal(r, purpose, key, o.nonce, o.payload);
    }
  }

  // ---------- Listing ----------

  predicate StrictlyIncreasing(s: seq<nat>) {
    forall i, j :: 0 <= i < j < |s| ==> s[i] < s[j]
  }

  ghost predicate IsLeast(s: set<nat>, least: nat) {
    least in s && forall x :: x in s ==> least <= x
  }

  lemma {:induction false} HasLeast(s: set<nat>)
    requires s != {}
    ensures exists least :: IsLeast(s, least)
    decreases |s|
  {
    var some :| some in s;
    var others := s - {some};
    assert forall x :: x in s ==> x == some || x in others;
    if others == {} {
      assert IsLeast(s, some);
    } else {
      HasLeast(others);
      var rest :| IsLeast(others, rest);
      assert IsLeast(s, if rest < some then rest else some);
    }
  }

  function Least(s: set<nat>): (least: nat)
    requires s != {}
    ensures IsLeast(s, least)
  {
    HasLeast(s);
    assert exists least :: IsLeast(s, least);
    var least :| least in s && forall x :: x in s ==> least <= x;
    least
  }

  /** The elements in increasing order, as a sorted listing or a BTreeMap yields them. */
  function SortedIds(s: set<nat>): (r: seq<nat>)
    ensures StrictlyIncreasing(r)
    ensures forall x :: x in r <==> x in s
    ensures |r| == |s|
    decreases |s|
  {
    if s == {} then [] else
      var least := Least(s);
      var rest := SortedIds(s - {least});
      assert forall i :: 0 <= i < |rest| ==> rest[i] in rest;
      [least] + rest
  }

  function CommittedIds(store: Store): set<Id> {
    set k | k in store && k.CommitKey? :: k.id
  }

  function ForgottenIds(store: Store): set<Id> {
    set k | k in store && k.ForgetKey? :: k.id
  }
}
