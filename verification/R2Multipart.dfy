/** Multipart uploads of an R2 bucket: what is stored for them, and how creating, filling,
    completing and aborting them goes together with plain puts and deletes. */
module R2Multipart {
  import opened Common
  import opened Text
  import opened R2Ranges

  // Ids made for uploads have the letters, digits, '-' and '_' of base64url. Resuming takes any
  // text for an id.
  type UploadId = u: string | ':' !in u

  // An upload as it was made.
  datatype Upload = Upload(key: string, id: UploadId)

  // An object, the marker of an upload, or one part of an upload.
  datatype StorageKey =
    | Object(key: string)
    | Index(upload: Upload)
    | PartKey(upload: Upload, number: nat)

  datatype Multipart = Multipart(id: string, parts: seq<Part>)
  datatype UploadState = Pending | Aborted | Completed

  datatype Entry =
    | ObjectEntry(value: Bytes, multipart: Option<Multipart>)
    | IndexEntry(state: UploadState)
    | PartEntry(content: Bytes, etag: nat)

  type Store = m: map<StorageKey, Entry> |
    forall k | k in m :: (k.Object? <==> m[k].ObjectEntry?) && (k.Index? <==> m[k].IndexEntry?) && (k.PartKey? <==> m[k].PartEntry?)

  datatype Uploaded = Uploaded(number: int, etag: nat)

  datatype Reply =
    | Done
    | Created(id: UploadId)
    | CompletedWith(size: nat)
    | InvalidKey
    | InvalidPartNumber
    | NoSuchUpload
    | InternalError
    | PartNotFound
    | PartTooSmall
    | SizesDiffer

  datatype Operation =
    | Put(key: string, value: Bytes)
    | Delete(keys: seq<string>)
    | Create(key: string, newId: UploadId)
    | UploadPart(key: string, id: string, number: int, content: Bytes, etag: nat)
    | Abort(key: string, id: string)
    | Complete(key: string, id: string, parts: seq<Uploaded>)

  // `made` are the ids given out so far.
  datatype State = State(store: Store, made: set<UploadId>)

  const EMPTY := State(map[], {})

  // --- Names -------------------------------------------------------------------------------------

  const INTERNAL_PREFIX := "__MINIFLARE_INTERNAL__"
  const MAX_KEY_SIZE := 1024

  predicate StartsWith(s: string, prefix: string) {
    prefix <= s
  }

  // The length of a text in UTF-8.
  function ByteLength(s: string): nat {
    if s == "" then 0
    else
      var c := s[0] as int;
      (if c < 0x80 then 1 else if c < 0x800 then 2 else if c < 0x1_0000 then 3 else 4) + ByteLength(s[1..])
  }

  // A key of exactly the largest size is good for uploads but not for puts and deletes.
  predicate ValidKey(key: string) {
    ByteLength(key) < MAX_KEY_SIZE && !StartsWith(key, INTERNAL_PREFIX)
  }

  predicate ValidMultipartKey(key: string) {
    ByteLength(key) <= MAX_KEY_SIZE && !StartsWith(key, INTERNAL_PREFIX)
  }

  predicate ValidPartNumber(n: int) {
    1 <= n <= 10_000
  }

  // The place of the first colon, or the length if there is none.
  function Colon(id: string): (n: nat)
    ensures n <= |id| && ':' !in id[..n] && (n < |id| ==> id[n] == ':')
  {
    if id == "" || id[0] == ':' then 0 else 1 + Colon(id[1..])
  }

  // The upload that is meant by a key and any text for an id: names in the storage cannot tell
  // a colon in the id from the one that ends it.
  function UploadOf(key: string, id: string): Upload {
    var n := Colon(id);
    if n == |id| then Upload(key, id) else Upload(id[n + 1..] + (":" + key), id[..n])
  }

  // --- Parts -------------------------------------------------------------------------------------

  predicate IsPartOf(k: StorageKey, u: Upload) {
    k.PartKey? && k.upload == u
  }

  function DeleteParts(store: Store, u: Upload, keep: set<nat>): Store {
    map k | k in store && !(IsPartOf(k, u) && k.number !in keep) :: store[k]
  }

  // The upload an object is made of, if it is.
  function MultipartAt(store: Store, key: string): Option<Multipart> {
    if Object(key) in store then store[Object(key)].multipart else None
  }

  function DeletePartsOf(store: Store, key: string, multipart: Option<Multipart>): Store {
    if multipart.Some? then DeleteParts(store, UploadOf(key, multipart.value.id), {}) else store
  }

  // --- Plain operations ----------------------------------------------------------------------------

  function DoPut(s: State, key: string, value: Bytes): (State, Reply) {
    if !ValidKey(key) then (s, InvalidKey)
    else
      var stored := s.store[Object(key) := ObjectEntry(value, None)];
      (s.(store := DeletePartsOf(stored, key, MultipartAt(s.store, key))), Done)
  }

  // Which uploads the keys point to is looked up before anything is deleted.
  function DeleteEach(before: Store, store: Store, keys: seq<string>): Store {
    if keys == [] then store
    else DeletePartsOf(DeleteEach(before, store, keys[..|keys| - 1]), keys[|keys| - 1], MultipartAt(before, keys[|keys| - 1]))
  }

  function Left(store: Store, keys: seq<string>): Store {
    map k | k in store && !(k.Object? && k.key in keys) :: store[k]
  }

  function DoDelete(s: State, keys: seq<string>): (State, Reply) {
    if exists i :: 0 <= i < |keys| && !ValidKey(keys[i]) then (s, InvalidKey)
    else
      (s.(store := DeleteEach(s.store, Left(s.store, keys), keys)), Done)
  }

  // --- Uploads -----------------------------------------------------------------------------------

  function UploadStateOf(store: Store, u: Upload): Option<UploadState> {
    if Index(u) in store then Some(store[Index(u)].state) else None
  }

  function DoCreate(s: State, key: string, id: UploadId): (State, Reply) {
    if !ValidMultipartKey(key) then (s, InvalidKey)
    else (State(s.store[Index(Upload(key, id)) := IndexEntry(Pending)], s.made + {id}), Created(id))
  }

  function DoUploadPart(s: State, key: string, id: string, number: int, content: Bytes, etag: nat): (State, Reply) {
    var u := UploadOf(key, id);
    if !ValidPartNumber(number) then (s, InvalidPartNumber)
    else if !ValidMultipartKey(key) then (s, InvalidKey)
    else if UploadStateOf(s.store, u) != Some(Pending) then (s, NoSuchUpload)
    else (s.(store := s.store[PartKey(u, number) := PartEntry(content, etag)]), Done)
  }

  function AbortedStore(store: Store, u: Upload): Store {
    DeleteParts(store, u, {})[Index(u) := IndexEntry(Aborted)]
  }

  function DoAbort(s: State, key: string, id: string): (State, Reply) {
    var u := UploadOf(key, id);
    if !ValidMultipartKey(key) then (s, InvalidKey)
    else match UploadStateOf(s.store, u)
      case None => (s, InternalError)
      case Some(Pending) => (s.(store := AbortedStore(s.store, u)), Done)
      case Some(_) => (s, Done)
  }

  predicate Unique(parts: seq<Uploaded>) {
    forall i, j | 0 <= i < j < |parts| :: parts[i].number != parts[j].number
  }

  predicate Found(store: Store, u: Upload, part: Uploaded) {
    part.number >= 0 && PartKey(u, part.number) in store && store[PartKey(u, part.number)].etag == part.etag
  }

  predicate AllFound(store: Store, u: Upload, parts: seq<Uploaded>) {
    forall i | 0 <= i < |parts| :: Found(store, u, parts[i])
  }

  // The parts named, with the sizes they have in the store.
  function Measured(store: Store, u: Upload, parts: seq<Uploaded>): seq<Part>
    requires AllFound(store, u, parts)
  {
    seq(|parts|, i requires 0 <= i < |parts| => Part(parts[i].number, |store[PartKey(u, parts[i].number)].content|))
  }

  function Insert(part: Part, sorted: seq<Part>): seq<Part> {
    if sorted == [] || part.partNumber < sorted[0].partNumber then [part] + sorted
    else [sorted[0]] + Insert(part, sorted[1..])
  }

  function SortParts(parts: seq<Part>): seq<Part> {
    if parts == [] then [] else Insert(parts[|parts| - 1], SortParts(parts[..|parts| - 1]))
  }

  predicate AllButLastAtLeast(parts: seq<Part>, size: nat) {
    forall i | 0 <= i < |parts| - 1 :: parts[i].size >= size
  }

  // The error that completing these parts of a pending upload meets first, if any.
  function CompletionError(store: Store, u: Upload, parts: seq<Uploaded>, minSize: nat): Option<Reply> {
    if !Unique(parts) then Some(InternalError)
    else if !AllFound(store, u, parts) then Some(PartNotFound)
    else
      var measured := Measured(store, u, parts);
      if !AllButLastAtLeast(measured, minSize) then Some(PartTooSmall)
      else if !(AllButLastAtLeast(SortParts(measured), minSize) && SizesFit(SortParts(measured))) then Some(SizesDiffer)
      else None
  }

  function Numbers(parts: seq<Part>): set<nat> {
    set i | 0 <= i < |parts| :: parts[i].partNumber
  }

  function DoComplete(s: State, key: string, id: string, parts: seq<Uploaded>, minSize: nat): (State, Reply) {
    var u := UploadOf(key, id);
    var error := CompletionError(s.store, u, parts, minSize);
    if exists i :: 0 <= i < |parts| && !ValidPartNumber(parts[i].number) then (s, InvalidPartNumber)
    else if !ValidMultipartKey(key) then (s, InvalidKey)
    else if UploadStateOf(s.store, u) == Some(Completed) then (s, NoSuchUpload)
    else if UploadStateOf(s.store, u) != Some(Pending) then (s, InternalError)
    else if error.Some? then (s, error.value)
    else Finished(s, key, id, SortParts(Measured(s.store, u, parts)))
  }

  function Pointed(store: Store, key: string, id: string, parts: seq<Part>): Store {
    store[Object(key) := ObjectEntry([], Some(Multipart(id, parts)))][Index(UploadOf(key, id)) := IndexEntry(Completed)]
  }

  // Point the key given to the parts, then remove parts not used and those of the object
  // replaced.
  function Finished(s: State, key: string, id: string, parts: seq<Part>): (State, Reply) {
    var used := DeleteParts(Pointed(s.store, key, id, parts), UploadOf(key, id), Numbers(parts));
    (s.(store := DeletePartsOf(used, key, MultipartAt(s.store, key))), CompletedWith(TotalSize(parts)))
  }

  // --- Runs --------------------------------------------------------------------------------------

  // Only ids not made before are given to new uploads.
  predicate Enabled(s: State, op: Operation) {
    op.Create? ==> op.newId !in s.made
  }

  function Do(s: State, op: Operation, minSize: nat): (State, Reply) {
    match op
    case Put(key, value) => DoPut(s, key, value)
    case Delete(keys) => DoDelete(s, keys)
    case Create(key, id) => DoCreate(s, key, id)
    case UploadPart(key, id, number, content, etag) => DoUploadPart(s, key, id, number, content, etag)
    case Abort(key, id) => DoAbort(s, key, id)
    case Complete(key, id, parts) => DoComplete(s, key, id, parts, minSize)
  }

  ghost predicate IsRun(s: State, ops: seq<Operation>, minSize: nat)
    decreases |ops|
  {
    ops == [] || (Enabled(s, ops[0]) && IsRun(Do(s, ops[0], minSize).0, ops[1..], minSize))
  }

  ghost function After(s: State, ops: seq<Operation>, minSize: nat): State
    requires IsRun(s, ops, minSize)
    decreases |ops|
  {
    if ops == [] then s else After(Do(s, ops[0], minSize).0, ops[1..], minSize)
  }

  // --- The invariant -----------------------------------------------------------------------------

  // Markers are of uploads made, each for one key, and parts belong to uploads.
  ghost predicate UploadsKnown(s: State) {
    && (forall k | k in s.store && k.Index? :: k.upload.id in s.made)
    && (forall k | k in s.store && k.PartKey? :: Index(k.upload) in s.store)
    && (forall k, k' | k in s.store && k' in s.store && k.Index? && k'.Index? && k.upload.id == k'.upload.id :: k == k')
  }

  // The parts an object points to are there, with the sizes it says.
  ghost predicate PartsThere(store: Store, key: string, m: Multipart) {
    && UploadStateOf(store, UploadOf(key, m.id)) == Some(Completed)
    && SizesFit(m.parts)
    && PartsStored(store, UploadOf(key, m.id), m.parts)
  }

  ghost predicate PartsStored(store: Store, u: Upload, parts: seq<Part>) {
    forall i | 0 <= i < |parts| ::
      var k := PartKey(u, parts[i].partNumber); k in store && |store[k].content| == parts[i].size
  }

  ghost predicate ObjectsWhole(store: Store) {
    forall key | Object(key) in store && store[Object(key)].multipart.Some? :: PartsThere(store, key, store[Object(key)].multipart.value)
  }

  // Whether the object at this key is made of the parts of this upload.
  predicate PointsTo(store: Store, key: string, u: Upload) {
    MultipartAt(store, key).Some? && UploadOf(key, MultipartAt(store, key).value.id) == u
  }

  // No two objects are made of the parts of one upload.
  ghost predicate PointersApart(store: Store) {
    forall key, key', u | PointsTo(store, key, u) && PointsTo(store, key', u) :: key == key'
  }

  predicate UsedBy(store: Store, key: string, k: StorageKey)
    requires k.PartKey?
  {
    PointsTo(store, key, k.upload) && k.number in Numbers(MultipartAt(store, key).value.parts)
  }

  // A part stays only as long as its upload is pending or an object uses it.
  ghost predicate PartNeeded(store: Store, k: StorageKey)
    requires k.PartKey?
  {
    UploadStateOf(store, k.upload) == Some(Pending) || exists key :: UsedBy(store, key, k)
  }

  ghost predicate NothingLeftOver(store: Store) {
    forall k | k in store && k.PartKey? :: PartNeeded(store, k)
  }

  ghost predicate KeysApart(store: Store) {
    forall k | k in store && k.Object? :: !StartsWith(k.key, INTERNAL_PREFIX)
  }

  ghost predicate Inv(s: State) {
    && UploadsKnown(s) && ObjectsWhole(s.store) && PointersApart(s.store)
    && NothingLeftOver(s.store) && KeysApart(s.store)
  }

  // --- Every operation keeps it --------------------------------------------------------------------

  // What one store holds of an upload that has been completed, the other holds too.
  ghost predicate HoldsAlike(a: Store, b: Store, u: Upload) {
    && (UploadStateOf(a, u) == Some(Completed) ==> UploadStateOf(b, u) == Some(Completed))
    && forall n: nat :: PartKey(u, n) in a ==> PartKey(u, n) in b && b[PartKey(u, n)] == a[PartKey(u, n)]
  }

  lemma StillThere(a: Store, b: Store, key: string, m: Multipart)
    requires PartsThere(a, key, m) && HoldsAlike(a, b, UploadOf(key, m.id))
    ensures PartsThere(b, key, m)
  {
  }

  // An object left as it is, and all that is stored of its upload with it.
  ghost predicate ObjectStays(a: Store, b: Store, key: string) {
    MultipartAt(b, key).Some? ==>
      MultipartAt(b, key) == MultipartAt(a, key) && HoldsAlike(a, b, UploadOf(key, MultipartAt(b, key).value.id))
  }

  // Objects that stay, with what is stored of their uploads, stay whole.
  lemma StayWhole(a: Store, b: Store)
    requires ObjectsWhole(a) && PointersApart(a)
    requires forall key :: ObjectStays(a, b, key)
    ensures ObjectsWhole(b) && PointersApart(b)
  {
    forall key | Object(key) in b && b[Object(key)].multipart.Some? ensures PartsThere(b, key, b[Object(key)].multipart.value) {
      assert ObjectStays(a, b, key);
      StillThere(a, b, key, b[Object(key)].multipart.value);
    }
    forall key, key', u | PointsTo(b, key, u) && PointsTo(b, key', u) ensures key == key' {
      assert ObjectStays(a, b, key) && ObjectStays(a, b, key');
      assert PointsTo(a, key, u) && PointsTo(a, key', u);
    }
  }

  // A part that stays is still needed if its upload, and the object that uses it, are as they were.
  lemma StayNeeded(a: Store, b: Store, k: StorageKey)
    requires k.PartKey? && PartNeeded(a, k)
    requires UploadStateOf(a, k.upload) == Some(Pending) ==> UploadStateOf(b, k.upload) == Some(Pending)
    requires forall key | UsedBy(a, key, k) :: MultipartAt(b, key) == MultipartAt(a, key)
    ensures PartNeeded(b, k)
  {
    if key :| UsedBy(a, key, k) {
      assert UsedBy(b, key, k);
    }
  }

  // An upload that is pending has no object yet.
  lemma PendingUnused(store: Store, u: Upload, key: string)
    requires ObjectsWhole(store) && UploadStateOf(store, u) == Some(Pending)
    ensures !PointsTo(store, key, u)
  {
  }

  lemma PutOk(s: State, key: string, value: Bytes)
    requires Inv(s)
    ensures Inv(DoPut(s, key, value).0)
  {
    if ValidKey(key) {
      ReplacedOk(s, key, ObjectEntry(value, None));
    }
  }

  // A new object in place of another, whose parts are removed.
  function Replaced(s: State, key: string, object': Entry): State
    requires object'.ObjectEntry?
  {
    s.(store := DeletePartsOf(s.store[Object(key) := object'], key, MultipartAt(s.store, key)))
  }

  lemma ReplacedOk(s: State, key: string, object': Entry)
    requires Inv(s) && !StartsWith(key, INTERNAL_PREFIX) && object'.ObjectEntry? && object'.multipart.None?
    ensures Inv(Replaced(s, key, object'))
  {
    var a, b := s.store, Replaced(s, key, object').store;
    ReplacedWhole(s, key, object');
    forall k | k in b && k.PartKey? ensures PartNeeded(b, k) {
      assert k in a && PartNeeded(a, k);
      StayNeeded(a, b, k);
    }
  }

  lemma ReplacedWhole(s: State, key: string, object': Entry)
    requires ObjectsWhole(s.store) && PointersApart(s.store) && object'.ObjectEntry? && object'.multipart.None?
    ensures ObjectsWhole(Replaced(s, key, object').store) && PointersApart(Replaced(s, key, object').store)
  {
    var a, b := s.store, Replaced(s, key, object').store;
    forall other ensures ObjectStays(a, b, other) {
      if MultipartAt(b, other).Some? {
        assert other != key;
        assert PointsTo(a, other, UploadOf(other, MultipartAt(a, other).value.id));
        assert MultipartAt(a, key).Some? ==> PointsTo(a, key, UploadOf(key, MultipartAt(a, key).value.id));
      }
    }
    StayWhole(a, b);
  }

  lemma CreateOk(s: State, key: string, id: UploadId)
    requires Inv(s) && id !in s.made
    ensures Inv(DoCreate(s, key, id).0)
  {
    if ValidMultipartKey(key) {
      var a, b := s.store, DoCreate(s, key, id).0.store;
      assert Index(Upload(key, id)) !in a;
      forall other ensures ObjectStays(a, b, other) {
      }
      StayWhole(a, b);
      forall k | k in b && k.PartKey? ensures PartNeeded(b, k) {
        StayNeeded(a, b, k);
      }
    }
  }

  lemma UploadPartOk(s: State, key: string, id: string, number: int, content: Bytes, etag: nat)
    requires Inv(s)
    ensures Inv(DoUploadPart(s, key, id, number, content, etag).0)
  {
    if DoUploadPart(s, key, id, number, content, etag).1.Done? {
      UploadedOk(s, PartKey(UploadOf(key, id), number), content, etag);
    }
  }

  lemma UploadedOk(s: State, part: StorageKey, content: Bytes, etag: nat)
    requires Inv(s) && part.PartKey? && UploadStateOf(s.store, part.upload) == Some(Pending)
    ensures Inv(s.(store := s.store[part := PartEntry(content, etag)]))
  {
    var a, b := s.store, s.store[part := PartEntry(content, etag)];
    forall other ensures ObjectStays(a, b, other) {
      PendingUnused(a, part.upload, other);
    }
    StayWhole(a, b);
    forall k | k in b && k.PartKey? ensures PartNeeded(b, k) {
      if k != part {
        StayNeeded(a, b, k);
      }
    }
  }

  lemma AbortOk(s: State, key: string, id: string)
    requires Inv(s)
    ensures Inv(DoAbort(s, key, id).0)
  {
    if ValidMultipartKey(key) && UploadStateOf(s.store, UploadOf(key, id)) == Some(Pending) {
      AbortedOk(s, UploadOf(key, id));
    }
  }

  lemma AbortedOk(s: State, u: Upload)
    requires Inv(s) && UploadStateOf(s.store, u) == Some(Pending)
    ensures Inv(s.(store := AbortedStore(s.store, u)))
  {
    var a, b := s.store, AbortedStore(s.store, u);
    forall other ensures ObjectStays(a, b, other) {
      PendingUnused(a, u, other);
    }
    StayWhole(a, b);
    forall k | k in b && k.PartKey? ensures PartNeeded(b, k) {
      assert k in a && PartNeeded(a, k);
      StayNeeded(a, b, k);
    }
  }

  predicate PointedFrom(store: Store, keys: seq<string>, u: Upload) {
    exists i :: 0 <= i < |keys| && PointsTo(store, keys[i], u)
  }

  lemma {:induction false} DeleteEachExact(before: Store, store: Store, keys: seq<string>, k: StorageKey)
    ensures k in DeleteEach(before, store, keys) <==> k in store && !(k.PartKey? && PointedFrom(before, keys, k.upload))
    ensures k in DeleteEach(before, store, keys) ==> DeleteEach(before, store, keys)[k] == store[k]
    decreases |keys|
  {
    if keys != [] {
      var shorter, last := keys[..|keys| - 1], keys[|keys| - 1];
      DeleteEachExact(before, store, shorter, k);
      if k.PartKey? {
        PointedFromOne(before, keys, k.upload);
      }
    }
  }

  lemma PointedFromOne(store: Store, keys: seq<string>, u: Upload)
    requires keys != []
    ensures PointedFrom(store, keys, u) <==> PointedFrom(store, keys[..|keys| - 1], u) || PointsTo(store, keys[|keys| - 1], u)
  {
    var shorter := keys[..|keys| - 1];
    if i :| 0 <= i < |shorter| && PointsTo(store, shorter[i], u) {
      assert PointsTo(store, keys[i], u);
    }
  }

  lemma DeletedOk(s: State, keys: seq<string>)
    requires Inv(s)
    ensures Inv(s.(store := DeleteEach(s.store, Left(s.store, keys), keys)))
  {
    var a, b := s.store, DeleteEach(s.store, Left(s.store, keys), keys);
    forall k ensures k in b <==> k in Left(a, keys) && !(k.PartKey? && PointedFrom(a, keys, k.upload))
             ensures k in b ==> b[k] == a[k]
    {
      DeleteEachExact(a, Left(a, keys), keys, k);
    }
    DeletedStore(s, b, keys);
  }

  lemma DeletedStore(s: State, b: Store, keys: seq<string>)
    requires Inv(s)
    requires forall k :: k in b <==> k in Left(s.store, keys) && !(k.PartKey? && PointedFrom(s.store, keys, k.upload))
    requires forall k | k in b :: b[k] == s.store[k]
    ensures Inv(s.(store := b))
  {
    var a := s.store;
    forall other ensures ObjectStays(a, b, other) {
      if MultipartAt(b, other).Some? {
        assert Object(other) in b;
        assert PointsTo(a, other, UploadOf(other, MultipartAt(a, other).value.id));
      }
    }
    StayWhole(a, b);
    forall k | k in b && k.PartKey? ensures PartNeeded(b, k) {
      assert k in a && PartNeeded(a, k);
      forall key | UsedBy(a, key, k) ensures MultipartAt(b, key) == MultipartAt(a, key) {
        assert Object(key) in b <==> key !in keys;
      }
      StayNeeded(a, b, k);
    }
  }

  // --- Completing ----------------------------------------------------------------------------------

  // Parts in the order of their numbers, each once.
  predicate Ascending(parts: seq<Part>) {
    forall i, j | 0 <= i < j < |parts| :: parts[i].partNumber < parts[j].partNumber
  }

  predicate NumbersUnique(parts: seq<Part>) {
    forall i, j | 0 <= i < j < |parts| :: parts[i].partNumber != parts[j].partNumber
  }

  lemma {:induction false} InsertKeeps(part: Part, sorted: seq<Part>)
    ensures multiset(Insert(part, sorted)) == multiset(sorted) + multiset{part}
    decreases |sorted|
  {
    if !(sorted == [] || part.partNumber < sorted[0].partNumber) {
      InsertKeeps(part, sorted[1..]);
      assert sorted == [sorted[0]] + sorted[1..];
    }
  }

  lemma {:induction false} InsertOrders(part: Part, sorted: seq<Part>)
    requires Ascending(sorted) && (forall i | 0 <= i < |sorted| :: sorted[i].partNumber != part.partNumber)
    ensures Ascending(Insert(part, sorted))
    decreases |sorted|
  {
    if !(sorted == [] || part.partNumber < sorted[0].partNumber) {
      var r := Insert(part, sorted[1..]);
      InsertOrders(part, sorted[1..]);
      InsertKeeps(part, sorted[1..]);
      forall j | 0 <= j < |r| ensures sorted[0].partNumber < r[j].partNumber {
        assert r[j] in multiset(sorted[1..]) + multiset{part};
        assert r[j] == part || r[j] in sorted[1..];
      }
    }
  }

  // Sorting orders the parts and keeps every one of them.
  lemma {:induction false} SortPartsExact(parts: seq<Part>)
    requires NumbersUnique(parts)
    ensures Ascending(SortParts(parts)) && multiset(SortParts(parts)) == multiset(parts)
    decreases |parts|
  {
    if parts != [] {
      var shorter := parts[..|parts| - 1];
      SortPartsExact(shorter);
      forall i | 0 <= i < |SortParts(shorter)| ensures SortParts(shorter)[i].partNumber != parts[|parts| - 1].partNumber {
        assert SortParts(shorter)[i] in multiset(shorter);
      }
      InsertKeeps(parts[|parts| - 1], SortParts(shorter));
      InsertOrders(parts[|parts| - 1], SortParts(shorter));
      assert parts == shorter + [parts[|parts| - 1]];
    }
  }

  // What has been checked once there is no error.
  lemma NoCompletionError(store: Store, u: Upload, parts: seq<Uploaded>, minSize: nat)
    requires CompletionError(store, u, parts, minSize) == None
    ensures AllFound(store, u, parts)
    ensures var sorted := SortParts(Measured(store, u, parts));
            && PartsStored(store, u, sorted) && SizesFit(sorted) && Ascending(sorted)
            && multiset(sorted) == multiset(Measured(store, u, parts))
  {
    var measured := Measured(store, u, parts);
    var sorted := SortParts(measured);
    SortPartsExact(measured);
    forall i | 0 <= i < |sorted|
      ensures var k := PartKey(u, sorted[i].partNumber); k in store && |store[k].content| == sorted[i].size
    {
      assert sorted[i] in multiset(measured);
    }
  }

  // How completing an upload changes the store, key by key.
  ghost predicate Finishes(a: Store, b: Store, key: string, id: string, parts: seq<Part>) {
    && Object(key) in b && b[Object(key)] == ObjectEntry([], Some(Multipart(id, parts)))
    && UploadStateOf(b, UploadOf(key, id)) == Some(Completed)
    && forall k | k != Object(key) && k != Index(UploadOf(key, id)) ::
         && (k in b <==> k in a && !Redundant(a, k, key, UploadOf(key, id), parts))
         && (k in b ==> b[k] == a[k])
  }

  // Parts of this upload not used, and all parts of the one the object was made of before.
  ghost predicate Redundant(a: Store, k: StorageKey, key: string, u: Upload, parts: seq<Part>) {
    k.PartKey? && if k.upload == u then k.number !in Numbers(parts) else PointsTo(a, key, k.upload)
  }

  lemma FinishedExact(s: State, key: string, id: string, parts: seq<Part>)
    requires ObjectsWhole(s.store) && UploadStateOf(s.store, UploadOf(key, id)) == Some(Pending)
    ensures Finishes(s.store, Finished(s, key, id, parts).0.store, key, id, parts)
  {
    PendingUnused(s.store, UploadOf(key, id), key);
  }

  lemma FinishedWhole(a: Store, b: Store, key: string, id: string, parts: seq<Part>)
    requires ObjectsWhole(a) && PointersApart(a) && UploadStateOf(a, UploadOf(key, id)) == Some(Pending)
    requires Finishes(a, b, key, id, parts) && PartsStored(a, UploadOf(key, id), parts) && SizesFit(parts)
    ensures ObjectsWhole(b)
  {
    var u := UploadOf(key, id);
    forall other | Object(other) in b && b[Object(other)].multipart.Some?
      ensures PartsThere(b, other, b[Object(other)].multipart.value)
    {
      if other == key {
        forall i | 0 <= i < |parts| ensures PartKey(u, parts[i].partNumber) in b {
          assert parts[i].partNumber in Numbers(parts);
        }
      } else {
        OthersHeld(a, b, key, id, parts, other);
        StillThere(a, b, other, a[Object(other)].multipart.value);
      }
    }
  }

  // The objects at other keys keep all parts.
  lemma OthersHeld(a: Store, b: Store, key: string, id: string, parts: seq<Part>, other: string)
    requires ObjectsWhole(a) && PointersApart(a) && UploadStateOf(a, UploadOf(key, id)) == Some(Pending)
    requires Finishes(a, b, key, id, parts) && other != key && MultipartAt(b, other).Some?
    ensures MultipartAt(b, other) == MultipartAt(a, other)
    ensures HoldsAlike(a, b, UploadOf(other, MultipartAt(b, other).value.id))
  {
    var v := UploadOf(other, MultipartAt(a, other).value.id);
    PendingUnused(a, UploadOf(key, id), other);
    assert PointsTo(a, other, v);
    assert !PointsTo(a, key, v);
  }

  lemma FinishedApart(a: Store, b: Store, key: string, id: string, parts: seq<Part>)
    requires ObjectsWhole(a) && PointersApart(a) && UploadStateOf(a, UploadOf(key, id)) == Some(Pending)
    requires Finishes(a, b, key, id, parts)
    ensures PointersApart(b)
  {
    forall one, two, u | PointsTo(b, one, u) && PointsTo(b, two, u) ensures one == two {
      PendingUnused(a, UploadOf(key, id), one);
      PendingUnused(a, UploadOf(key, id), two);
      assert one != key ==> PointsTo(a, one, u);
      assert two != key ==> PointsTo(a, two, u);
    }
  }

  lemma FinishedNeeded(a: Store, b: Store, key: string, id: string, parts: seq<Part>)
    requires ObjectsWhole(a) && UploadStateOf(a, UploadOf(key, id)) == Some(Pending)
    requires NothingLeftOver(a) && Finishes(a, b, key, id, parts)
    ensures NothingLeftOver(b)
  {
    forall k | k in b && k.PartKey? ensures PartNeeded(b, k) {
      assert PartNeeded(a, k) && !Redundant(a, k, key, UploadOf(key, id), parts);
      if k.upload == UploadOf(key, id) {
        assert UsedBy(b, key, k);
      } else {
        StayNeeded(a, b, k);
      }
    }
  }

  lemma FinishedOk(s: State, key: string, id: string, parts: seq<Part>)
    requires Inv(s) && !StartsWith(key, INTERNAL_PREFIX) && UploadStateOf(s.store, UploadOf(key, id)) == Some(Pending)
    requires PartsStored(s.store, UploadOf(key, id), parts) && SizesFit(parts)
    ensures Inv(Finished(s, key, id, parts).0)
  {
    var a, b := s.store, Finished(s, key, id, parts).0.store;
    FinishedExact(s, key, id, parts);
    FinishedWhole(a, b, key, id, parts);
    FinishedApart(a, b, key, id, parts);
    FinishedNeeded(a, b, key, id, parts);
    FinishedKnown(s, b, key, id, parts);
  }

  lemma FinishedKnown(s: State, b: Store, key: string, id: string, parts: seq<Part>)
    requires UploadsKnown(s) && KeysApart(s.store) && Finishes(s.store, b, key, id, parts)
    requires !StartsWith(key, INTERNAL_PREFIX) && Index(UploadOf(key, id)) in s.store
    ensures UploadsKnown(s.(store := b)) && KeysApart(b)
  {
  }

  // A completion that succeeds.
  lemma CompletedIs(s: State, key: string, id: string, parts: seq<Uploaded>, minSize: nat)
    requires DoComplete(s, key, id, parts, minSize).1.CompletedWith?
    ensures !StartsWith(key, INTERNAL_PREFIX) && UploadStateOf(s.store, UploadOf(key, id)) == Some(Pending)
    ensures AllFound(s.store, UploadOf(key, id), parts)
    ensures var sorted := SortParts(Measured(s.store, UploadOf(key, id), parts));
            && DoComplete(s, key, id, parts, minSize) == Finished(s, key, id, sorted)
            && PartsStored(s.store, UploadOf(key, id), sorted) && SizesFit(sorted)
  {
    assert CompletionError(s.store, UploadOf(key, id), parts, minSize) == None;
    NoCompletionError(s.store, UploadOf(key, id), parts, minSize);
  }

  lemma CompleteOk(s: State, key: string, id: string, parts: seq<Uploaded>, minSize: nat)
    requires Inv(s)
    ensures Inv(DoComplete(s, key, id, parts, minSize).0)
  {
    if DoComplete(s, key, id, parts, minSize).1.CompletedWith? {
      CompletedIs(s, key, id, parts, minSize);
      FinishedOk(s, key, id, SortParts(Measured(s.store, UploadOf(key, id), parts)));
    } else {
      assert DoComplete(s, key, id, parts, minSize).0 == s;
    }
  }

  lemma StepInv(s: State, op: Operation, minSize: nat)
    requires Inv(s) && Enabled(s, op)
    ensures Inv(Do(s, op, minSize).0)
  {
    match op
    case Put(key, value) => PutOk(s, key, value);
    case Delete(keys) =>
      if DoDelete(s, keys).1.Done? {
        DeletedOk(s, keys);
      }
    case Create(key, id) => CreateOk(s, key, id);
    case UploadPart(key, id, number, content, etag) => UploadPartOk(s, key, id, number, content, etag);
    case Abort(key, id) => AbortOk(s, key, id);
    case Complete(key, id, parts) => CompleteOk(s, key, id, parts, minSize);
  }

  lemma {:induction false} RunInv(s: State, ops: seq<Operation>, minSize: nat)
    requires Inv(s) && IsRun(s, ops, minSize)
    ensures Inv(After(s, ops, minSize))
    decreases |ops|
  {
    if ops != [] {
      StepInv(s, ops[0], minSize);
      RunInv(Do(s, ops[0], minSize).0, ops[1..], minSize);
    }
  }

  // --- What readers see ----------------------------------------------------------------------------

  // The contents of the parts of an upload, by number.
  function PartsOf(store: Store, u: Upload): Stored {
    map n | n in (set k | k in store && IsPartOf(k, u) :: k.number) :: store[PartKey(u, n)].content
  }

  lemma PartsStoredHeld(store: Store, u: Upload, parts: seq<Part>)
    requires PartsStored(store, u, parts)
    ensures Holds(PartsOf(store, u), parts)
  {
    forall i | 0 <= i < |parts| ensures parts[i].partNumber in PartsOf(store, u) {
      assert IsPartOf(PartKey(u, parts[i].partNumber), u);
    }
  }

  // The value of an object: its own, or its parts one after the other.
  ghost function Get(store: Store, key: string): Option<Bytes>
    requires ObjectsWhole(store)
  {
    if Object(key) !in store then None
    else
      match store[Object(key)].multipart
      case None => Some(store[Object(key)].value)
      case Some(m) =>
        var u := UploadOf(key, m.id);
        PartsStoredHeld(store, u, m.parts);
        Some(Value(PartsOf(store, u), m.parts))
  }

  lemma {:induction false} SameValue(a: Stored, b: Stored, parts: seq<Part>)
    requires Holds(a, parts) && Holds(b, parts)
    requires forall i | 0 <= i < |parts| :: a[parts[i].partNumber] == b[parts[i].partNumber]
    ensures Value(a, parts) == Value(b, parts)
    decreases |parts|
  {
    if parts != [] {
      SameValue(a, b, parts[..|parts| - 1]);
    }
  }

  // An object keeps its value as long as nothing is done to the parts it points to.
  lemma GetKept(a: Store, b: Store, key: string)
    requires ObjectsWhole(a) && ObjectsWhole(b)
    requires Object(key) in a <==> Object(key) in b
    requires Object(key) in a ==> b[Object(key)] == a[Object(key)]
    requires ObjectStays(a, b, key)
    ensures Get(b, key) == Get(a, key)
  {
    if MultipartAt(b, key).Some? {
      var m := MultipartAt(b, key).value;
      var u := UploadOf(key, m.id);
      PartsStoredHeld(a, u, m.parts);
      PartsStoredHeld(b, u, m.parts);
      SameValue(PartsOf(a, u), PartsOf(b, u), m.parts);
    }
  }

  // What an operation makes of the value at a key, given its reply.
  ghost function GetAfter(s: State, op: Operation, reply: Reply, key: string): Option<Bytes>
    requires Inv(s)
  {
    if op.Put? && reply.Done? && op.key == key then Some(op.value)
    else if op.Delete? && reply.Done? && key in op.keys then None
    else if op.Complete? && reply.CompletedWith? && op.key == key && AllFound(s.store, UploadOf(key, op.id), op.parts) then
      Joined(s.store, UploadOf(key, op.id), SortParts(Measured(s.store, UploadOf(key, op.id), op.parts)))
    else Get(s.store, key)
  }

  ghost function Joined(store: Store, u: Upload, parts: seq<Part>): Option<Bytes> {
    if Holds(PartsOf(store, u), parts) then Some(Value(PartsOf(store, u), parts)) else None
  }

  // A put is read back, a delete leaves nothing, and completing an upload makes the value of
  // the parts named, in the order of their numbers. No operation changes the value at any
  // other key, and an operation that is refused changes nothing.
  lemma ReadersSee(s: State, op: Operation, minSize: nat, key: string)
    requires Inv(s) && Enabled(s, op)
    ensures Inv(Do(s, op, minSize).0)
    ensures Get(Do(s, op, minSize).0.store, key) == GetAfter(s, op, Do(s, op, minSize).1, key)
    ensures var (r, reply) := Do(s, op, minSize);
            !(reply.Done? || reply.Created? || reply.CompletedWith?) ==> r == s
  {
    StepInv(s, op, minSize);
    ValueSeen(s, op, minSize, key);
  }

  lemma ValueSeen(s: State, op: Operation, minSize: nat, key: string)
    requires Inv(s) && Enabled(s, op) && Inv(Do(s, op, minSize).0)
    ensures Get(Do(s, op, minSize).0.store, key) == GetAfter(s, op, Do(s, op, minSize).1, key)
  {
    match op
    case Put(k, value) => PutSeen(s, k, value, key);
    case Delete(keys) => DeleteSeen(s, keys, key);
    case Create(k, id) => GetKept(s.store, Do(s, op, minSize).0.store, key);
    case UploadPart(k, id, number, content, etag) => UploadPartSeen(s, k, id, number, content, etag, key);
    case Abort(k, id) => AbortSeen(s, k, id, key);
    case Complete(k, id, parts) => CompleteSeen(s, k, id, parts, minSize, key);
  }

  lemma PutSeen(s: State, k: string, value: Bytes, key: string)
    requires Inv(s) && Inv(DoPut(s, k, value).0)
    ensures Get(DoPut(s, k, value).0.store, key) == if key == k && ValidKey(k) then Some(value) else Get(s.store, key)
  {
    var a, b := s.store, DoPut(s, k, value).0.store;
    if ValidKey(k) && key != k {
      if MultipartAt(a, key).Some? {
        var u := UploadOf(key, MultipartAt(a, key).value.id);
        assert PointsTo(a, key, u) && !PointsTo(a, k, u);
      }
      GetKept(a, b, key);
    }
  }

  lemma DeleteSeen(s: State, keys: seq<string>, key: string)
    requires Inv(s) && Inv(DoDelete(s, keys).0)
    ensures Get(DoDelete(s, keys).0.store, key) == if DoDelete(s, keys).1.Done? && key in keys then None else Get(s.store, key)
  {
    if DoDelete(s, keys).1.Done? {
      var a, b := s.store, DoDelete(s, keys).0.store;
      forall k ensures k in b <==> k in Left(a, keys) && !(k.PartKey? && PointedFrom(a, keys, k.upload))
               ensures k in b ==> b[k] == a[k]
      {
        DeleteEachExact(a, Left(a, keys), keys, k);
      }
      if key !in keys {
        UndeletedSeen(a, b, keys, key);
      }
    }
  }

  lemma UndeletedSeen(a: Store, b: Store, keys: seq<string>, key: string)
    requires ObjectsWhole(a) && ObjectsWhole(b) && PointersApart(a) && key !in keys
    requires forall k :: k in b <==> k in Left(a, keys) && !(k.PartKey? && PointedFrom(a, keys, k.upload))
    requires forall k | k in b :: b[k] == a[k]
    ensures Get(b, key) == Get(a, key)
  {
    if MultipartAt(b, key).Some? {
      assert PointsTo(a, key, UploadOf(key, MultipartAt(a, key).value.id));
    }
    GetKept(a, b, key);
  }

  lemma UploadPartSeen(s: State, k: string, id: string, number: int, content: Bytes, etag: nat, key: string)
    requires Inv(s) && Inv(DoUploadPart(s, k, id, number, content, etag).0)
    ensures Get(DoUploadPart(s, k, id, number, content, etag).0.store, key) == Get(s.store, key)
  {
    if UploadStateOf(s.store, UploadOf(k, id)) == Some(Pending) {
      PendingUnused(s.store, UploadOf(k, id), key);
    }
    GetKept(s.store, DoUploadPart(s, k, id, number, content, etag).0.store, key);
  }

  lemma AbortSeen(s: State, k: string, id: string, key: string)
    requires Inv(s) && Inv(DoAbort(s, k, id).0)
    ensures Get(DoAbort(s, k, id).0.store, key) == Get(s.store, key)
  {
    if ValidMultipartKey(k) && UploadStateOf(s.store, UploadOf(k, id)) == Some(Pending) {
      PendingUnused(s.store, UploadOf(k, id), key);
      GetKept(s.store, AbortedStore(s.store, UploadOf(k, id)), key);
    }
  }

  lemma CompleteSeen(s: State, k: string, id: string, parts: seq<Uploaded>, minSize: nat, key: string)
    requires Inv(s) && Inv(DoComplete(s, k, id, parts, minSize).0)
    ensures Get(DoComplete(s, k, id, parts, minSize).0.store, key)
         == GetAfter(s, Complete(k, id, parts), DoComplete(s, k, id, parts, minSize).1, key)
  {
    if DoComplete(s, k, id, parts, minSize).1.CompletedWith? {
      CompletedIs(s, k, id, parts, minSize);
      FinishedSeen(s, k, id, SortParts(Measured(s.store, UploadOf(k, id), parts)), key);
    } else {
      assert DoComplete(s, k, id, parts, minSize).0 == s;
    }
  }

  lemma FinishedSeen(s: State, k: string, id: string, parts: seq<Part>, key: string)
    requires Inv(s) && UploadStateOf(s.store, UploadOf(k, id)) == Some(Pending) && PartsStored(s.store, UploadOf(k, id), parts)
    requires ObjectsWhole(Finished(s, k, id, parts).0.store)
    ensures Get(Finished(s, k, id, parts).0.store, key)
         == if key == k then Joined(s.store, UploadOf(k, id), parts) else Get(s.store, key)
  {
    var a, b, u := s.store, Finished(s, k, id, parts).0.store, UploadOf(k, id);
    FinishedExact(s, k, id, parts);
    if key == k {
      PartsStoredHeld(a, u, parts);
      PartsStoredHeld(b, u, parts);
      SameValue(PartsOf(a, u), PartsOf(b, u), parts);
    } else {
      if MultipartAt(b, key).Some? {
        OthersHeld(a, b, k, id, parts, key);
      }
      GetKept(a, b, key);
    }
  }

  // --- What every run keeps --------------------------------------------------------------------------

  // The parts an object points to are all there, no two objects share an upload, and no part
  // stays that is not needed.
  lemma StorageInvariant(ops: seq<Operation>, minSize: nat)
    requires IsRun(EMPTY, ops, minSize)
    ensures var store := After(EMPTY, ops, minSize).store;
            ObjectsWhole(store) && PointersApart(store) && NothingLeftOver(store)
  {
    RunInv(EMPTY, ops, minSize);
  }

  predicate Final(state: Option<UploadState>) {
    state == Some(Aborted) || state == Some(Completed)
  }

  // An upload once completed or aborted stays so for ever.
  lemma {:induction false} FinalStays(s: State, ops: seq<Operation>, minSize: nat, u: Upload)
    requires Inv(s) && IsRun(s, ops, minSize) && Final(UploadStateOf(s.store, u))
    ensures UploadStateOf(After(s, ops, minSize).store, u) == UploadStateOf(s.store, u)
    decreases |ops|
  {
    if ops != [] {
      FinalKept(s, ops[0], minSize, u);
      StepInv(s, ops[0], minSize);
      FinalStays(Do(s, ops[0], minSize).0, ops[1..], minSize, u);
    }
  }

  lemma FinalKept(s: State, op: Operation, minSize: nat, u: Upload)
    requires Inv(s) && Enabled(s, op) && Final(UploadStateOf(s.store, u))
    ensures UploadStateOf(Do(s, op, minSize).0.store, u) == UploadStateOf(s.store, u)
  {
    match op
    case Put(k, value) => PutKeepsMarkers(s, k, value, u);
    case Delete(keys) => DeleteEachExact(s.store, Left(s.store, keys), keys, Index(u));
    case Create(k, i) => assert i != u.id;
    case UploadPart(k, i, number, content, etag) =>
    case Abort(k, i) =>
    case Complete(k, i, parts) => CompleteKeepsFinal(s, k, i, parts, minSize, u);
  }

  lemma PutKeepsMarkers(s: State, k: string, value: Bytes, u: Upload)
    ensures UploadStateOf(DoPut(s, k, value).0.store, u) == UploadStateOf(s.store, u)
  {
  }

  lemma CompleteKeepsFinal(s: State, k: string, i: string, parts: seq<Uploaded>, minSize: nat, u: Upload)
    requires ObjectsWhole(s.store) && Final(UploadStateOf(s.store, u))
    ensures UploadStateOf(DoComplete(s, k, i, parts, minSize).0.store, u) == UploadStateOf(s.store, u)
  {
    if DoComplete(s, k, i, parts, minSize).1.CompletedWith? {
      CompletedIs(s, k, i, parts, minSize);
      FinishedExact(s, k, i, SortParts(Measured(s.store, UploadOf(k, i), parts)));
    }
  }

  // Nothing can be done with a completed or aborted upload any more.
  lemma FinalRefuses(s: State, op: Operation, minSize: nat)
    requires op.UploadPart? || op.Abort? || op.Complete?
    requires Final(UploadStateOf(s.store, UploadOf(op.key, op.id)))
    ensures Do(s, op, minSize).0 == s && !Do(s, op, minSize).1.CompletedWith?
    ensures op.UploadPart? ==> !Do(s, op, minSize).1.Done?
  {
  }

  // --- Uploads resumed with a colon in the id ----------------------------------------------------

  // The key an upload was made for is the key given on resuming exactly if the id has no colon.
  lemma UploadOfExact(key: string, id: string)
    ensures UploadOf(key, id).key == key <==> ':' !in id
    ensures ':' !in id ==> UploadOf(key, id) == Upload(key, id)
  {
    if ':' in id {
      assert |UploadOf(key, id).key| > |key|;
    }
  }

  // Every part belongs to a pending upload or to the object at its own upload's key.
  ghost predicate OwnKeysOnly(store: Store) {
    forall k | k in store && k.PartKey? :: UploadStateOf(store, k.upload) == Some(Pending) || UsedBy(store, k.upload.key, k)
  }

  // In every run parts belong to the object at the key of their upload if and only if no object
  // was completed from parts under an id with a colon: such an object has the parts of an
  // upload that was made for another key.
  lemma OwnKeysExact(ops: seq<Operation>, minSize: nat)
    requires IsRun(EMPTY, ops, minSize)
    ensures var store := After(EMPTY, ops, minSize).store;
            OwnKeysOnly(store) <==>
            forall key | MultipartAt(store, key).Some? && MultipartAt(store, key).value.parts != [] :: ':' !in MultipartAt(store, key).value.id
  {
    RunInv(EMPTY, ops, minSize);
    var s := After(EMPTY, ops, minSize);
    if OwnKeysOnly(s.store) {
      forall key | MultipartAt(s.store, key).Some? && MultipartAt(s.store, key).value.parts != []
        ensures ':' !in MultipartAt(s.store, key).value.id
      {
        OwnKey(s.store, key);
      }
    } else {
      var k :| k in s.store && k.PartKey? && !(UploadStateOf(s.store, k.upload) == Some(Pending) || UsedBy(s.store, k.upload.key, k));
      var key :| UsedBy(s.store, key, k);
      UploadOfExact(key, MultipartAt(s.store, key).value.id);
    }
  }

  ghost predicate PlainReferences(store: Store) {
    forall key | MultipartAt(store, key).Some? :: ':' !in MultipartAt(store, key).value.id
  }

  // Every operation of the run that completed an upload was given an id without a colon.
  ghost predicate CompletesPlain(s: State, ops: seq<Operation>, minSize: nat)
    requires IsRun(s, ops, minSize)
    decreases |ops|
  {
    ops == [] ||
    ((ops[0].Complete? && Do(s, ops[0], minSize).1.CompletedWith? ==> ':' !in ops[0].id)
     && CompletesPlain(Do(s, ops[0], minSize).0, ops[1..], minSize))
  }

  // So parts stay with the keys they were uploaded for if no upload is completed under an id
  // with a colon.
  lemma PlainIdsOwnKeys(ops: seq<Operation>, minSize: nat)
    requires IsRun(EMPTY, ops, minSize) && CompletesPlain(EMPTY, ops, minSize)
    ensures OwnKeysOnly(After(EMPTY, ops, minSize).store)
  {
    RunPlain(EMPTY, ops, minSize);
    OwnKeysExact(ops, minSize);
  }

  lemma {:induction false} RunPlain(s: State, ops: seq<Operation>, minSize: nat)
    requires Inv(s) && IsRun(s, ops, minSize) && CompletesPlain(s, ops, minSize) && PlainReferences(s.store)
    ensures PlainReferences(After(s, ops, minSize).store)
    decreases |ops|
  {
    if ops != [] {
      StepInv(s, ops[0], minSize);
      StepPlain(s, ops[0], minSize);
      RunPlain(Do(s, ops[0], minSize).0, ops[1..], minSize);
    }
  }

  // A store whose objects refer to no upload that the other's do not refer to.
  lemma StayPlain(a: Store, b: Store)
    requires PlainReferences(a)
    requires forall key | MultipartAt(b, key).Some? :: MultipartAt(b, key) == MultipartAt(a, key)
    ensures PlainReferences(b)
  {
  }

  lemma StepPlain(s: State, op: Operation, minSize: nat)
    requires Inv(s) && Enabled(s, op) && PlainReferences(s.store)
    requires op.Complete? && Do(s, op, minSize).1.CompletedWith? ==> ':' !in op.id
    ensures PlainReferences(Do(s, op, minSize).0.store)
  {
    match op
    case Put(key, value) => StayPlain(s.store, DoPut(s, key, value).0.store);
    case Delete(keys) => DeletePlain(s, keys);
    case Create(key, id) => StayPlain(s.store, DoCreate(s, key, id).0.store);
    case UploadPart(key, id, number, content, etag) => StayPlain(s.store, DoUploadPart(s, key, id, number, content, etag).0.store);
    case Abort(key, id) => StayPlain(s.store, DoAbort(s, key, id).0.store);
    case Complete(key, id, parts) => CompletePlain(s, key, id, parts, minSize);
  }

  lemma DeletePlain(s: State, keys: seq<string>)
    requires PlainReferences(s.store)
    ensures PlainReferences(DoDelete(s, keys).0.store)
  {
    var r := DoDelete(s, keys).0.store;
    forall k | MultipartAt(r, k).Some? ensures MultipartAt(r, k) == MultipartAt(s.store, k) {
      DeleteEachExact(s.store, Left(s.store, keys), keys, Object(k));
    }
    StayPlain(s.store, r);
  }

  lemma CompletePlain(s: State, key: string, id: string, parts: seq<Uploaded>, minSize: nat)
    requires Inv(s) && PlainReferences(s.store)
    requires DoComplete(s, key, id, parts, minSize).1.CompletedWith? ==> ':' !in id
    ensures PlainReferences(DoComplete(s, key, id, parts, minSize).0.store)
  {
    if DoComplete(s, key, id, parts, minSize).1.CompletedWith? {
      CompletedIs(s, key, id, parts, minSize);
      FinishedPlain(s, key, id, SortParts(Measured(s.store, UploadOf(key, id), parts)));
    } else {
      assert DoComplete(s, key, id, parts, minSize).0 == s;
    }
  }

  lemma FinishedPlain(s: State, key: string, id: string, parts: seq<Part>)
    requires ObjectsWhole(s.store) && UploadStateOf(s.store, UploadOf(key, id)) == Some(Pending)
    requires PlainReferences(s.store) && ':' !in id
    ensures PlainReferences(Finished(s, key, id, parts).0.store)
  {
    var r := Finished(s, key, id, parts).0.store;
    FinishedExact(s, key, id, parts);
    forall k ensures k != key && MultipartAt(r, k).Some? ==> MultipartAt(r, k) == MultipartAt(s.store, k) {
    }
  }

  lemma OwnKey(store: Store, key: string)
    requires ObjectsWhole(store) && PointersApart(store) && OwnKeysOnly(store)
    requires MultipartAt(store, key).Some? && MultipartAt(store, key).value.parts != []
    ensures ':' !in MultipartAt(store, key).value.id
  {
    var m := MultipartAt(store, key).value;
    var u := UploadOf(key, m.id);
    assert PartsThere(store, key, m);
    assert PartKey(u, m.parts[0].partNumber) in store;
    assert PointsTo(store, key, u) && PointsTo(store, u.key, u);
    UploadOfExact(key, m.id);
  }

  // An id with a colon completes the upload meant by it at the key given on resuming, and
  // leaves the key the upload was made for as it was.
  lemma CompletedElsewhere(s: State, key: string, id: string, parts: seq<Uploaded>, minSize: nat)
    requires Inv(s) && ':' in id && DoComplete(s, key, id, parts, minSize).1.CompletedWith?
    ensures AllFound(s.store, UploadOf(key, id), parts)
    ensures FinishedAt(s, DoComplete(s, key, id, parts, minSize).0, key, UploadOf(key, id),
                       SortParts(Measured(s.store, UploadOf(key, id), parts)))
  {
    CompletedIs(s, key, id, parts, minSize);
    FinishedElsewhere(s, key, id, SortParts(Measured(s.store, UploadOf(key, id), parts)));
  }

  ghost predicate FinishedAt(s: State, r: State, key: string, u: Upload, parts: seq<Part>)
    requires Inv(s)
  {
    && Inv(r) && UploadStateOf(r.store, u) == Some(Completed)
    && u.key != key && Get(r.store, u.key) == Get(s.store, u.key)
    && Get(r.store, key).Some? && Get(r.store, key) == Joined(s.store, u, parts)
  }

  lemma FinishedElsewhere(s: State, key: string, id: string, parts: seq<Part>)
    requires Inv(s) && !StartsWith(key, INTERNAL_PREFIX) && ':' in id && UploadStateOf(s.store, UploadOf(key, id)) == Some(Pending)
    requires PartsStored(s.store, UploadOf(key, id), parts) && SizesFit(parts)
    ensures FinishedAt(s, Finished(s, key, id, parts).0, key, UploadOf(key, id), parts)
  {
    var u := UploadOf(key, id);
    UploadOfExact(key, id);
    FinishedOk(s, key, id, parts);
    FinishedSeen(s, key, id, parts, key);
    FinishedSeen(s, key, id, parts, u.key);
    PartsStoredHeld(s.store, u, parts);
    FinishedExact(s, key, id, parts);
  }

  lemma {:induction false} ColonAfter(u: string, x: string)
    requires ':' !in u
    ensures Colon(u + (":" + x)) == |u|
  {
    if u != "" {
      ColonAfter(u[1..], x);
      assert (u + (":" + x))[1..] == u[1..] + (":" + x);
    }
  }

  // An id with a colon means the upload that has what stands behind its first colon in its key.
  lemma UploadOfColon(key: string, u: UploadId, x: string)
    ensures UploadOf(key, u + (":" + x)) == Upload(x + (":" + key), u)
  {
    ColonAfter(u, x);
    var id := u + (":" + x);
    assert id[..|u|] == u && id[|u| + 1..] == x;
  }

  lemma OnePart(store: Store, u: Upload, content: Bytes, etag: nat, minSize: nat)
    requires PartKey(u, 1) in store && store[PartKey(u, 1)] == PartEntry(content, etag)
    ensures CompletionError(store, u, [Uploaded(1, etag)], minSize) == None
    ensures AllFound(store, u, [Uploaded(1, etag)])
    ensures SortParts(Measured(store, u, [Uploaded(1, etag)])) == [Part(1, |content|)]
  {
    var measured := Measured(store, u, [Uploaded(1, etag)]);
    assert measured == [Part(1, |content|)] && measured[..0] == [];
    assert SortParts(measured) == Insert(measured[0], SortParts(measured[..0]));
  }

  lemma RunOfThree(s: State, a: Operation, b: Operation, c: Operation, minSize: nat)
    requires Enabled(s, a)
    requires Enabled(Do(s, a, minSize).0, b)
    requires Enabled(Do(Do(s, a, minSize).0, b, minSize).0, c)
    ensures IsRun(s, [a, b, c], minSize)
    ensures After(s, [a, b, c], minSize) == Do(Do(Do(s, a, minSize).0, b, minSize).0, c, minSize).0
  {
    var one := Do(s, a, minSize).0;
    var two := Do(one, b, minSize).0;
    assert [c][1..] == [] && [b, c][1..] == [c] && [a, b, c][1..] == [b, c];
    assert IsRun(two, [c], minSize) && After(two, [c], minSize) == Do(two, c, minSize).0;
    assert IsRun(one, [b, c], minSize) && After(one, [b, c], minSize) == After(two, [c], minSize);
  }

  // An upload made for "x:key", filled, and completed as "key" under its id, a colon and "x":
  // its part ends up in the object of a key it was not uploaded for.
  lemma PartElsewhere(key: string, x: string, u: UploadId, content: Bytes, etag: nat, minSize: nat)
    requires ValidMultipartKey(key) && ValidMultipartKey(x + (":" + key))
    ensures var made := x + (":" + key);
            var ops := [Create(made, u), UploadPart(made, u, 1, content, etag), Complete(key, u + (":" + x), [Uploaded(1, etag)])];
            IsRun(EMPTY, ops, minSize) && !OwnKeysOnly(After(EMPTY, ops, minSize).store)
  {
    var made, resumed := x + (":" + key), u + (":" + x);
    UploadOfColon(key, u, x);
    UploadOfExact(made, u);
    var filled := DoUploadPart(DoCreate(EMPTY, made, u).0, made, u, 1, content, etag).0;
    RunOfThree(EMPTY, Create(made, u), UploadPart(made, u, 1, content, etag), Complete(key, resumed, [Uploaded(1, etag)]), minSize);
    Completes(filled, key, resumed, content, etag, minSize);
  }

  lemma Completes(s: State, key: string, id: string, content: Bytes, etag: nat, minSize: nat)
    requires ValidMultipartKey(key) && ':' in id && (forall k: string :: Object(k) !in s.store)
    requires UploadStateOf(s.store, UploadOf(key, id)) == Some(Pending)
    requires PartKey(UploadOf(key, id), 1) in s.store && s.store[PartKey(UploadOf(key, id), 1)] == PartEntry(content, etag)
    ensures !OwnKeysOnly(DoComplete(s, key, id, [Uploaded(1, etag)], minSize).0.store)
  {
    var u := UploadOf(key, id);
    OnePart(s.store, u, content, etag, minSize);
    var store := Finished(s, key, id, [Part(1, |content|)]).0.store;
    assert DoComplete(s, key, id, [Uploaded(1, etag)], minSize).0.store == store;
    PartKept(s, key, id, 1, |content|);
    UploadOfExact(key, id);
    assert !UsedBy(store, u.key, PartKey(u, 1));
  }

  lemma PartKept(s: State, key: string, id: string, number: nat, size: nat)
    requires PartKey(UploadOf(key, id), number) in s.store && Object(key) !in s.store
    ensures var r := Finished(s, key, id, [Part(number, size)]).0.store;
            PartKey(UploadOf(key, id), number) in r && UploadStateOf(r, UploadOf(key, id)) == Some(Completed)
  {
    assert [Part(number, size)][0].partNumber in Numbers([Part(number, size)]);
  }

  // The range of the object is delivered in full from parts that are stored, each stretch
  // read just as it is given.
  ghost predicate DeliveredInFull(store: Store, key: string, r: Range)
    requires ObjectsWhole(store) && MultipartAt(store, key).Some?
    requires Acceptable(r, TotalSize(MultipartAt(store, key).value.parts))
  {
    var m := MultipartAt(store, key).value;
    var stored := PartsOf(store, UploadOf(key, m.id));
    && Holds(stored, m.parts) && Get(store, key) == Some(Value(stored, m.parts))
    && DeliversExactly(stored, m.parts, Parse(r, TotalSize(m.parts)))
  }

  // So is any range of an object completed from parts that is accepted.
  lemma RangesReadable(ops: seq<Operation>, minSize: nat, key: string, r: Range)
    requires IsRun(EMPTY, ops, minSize) && MultipartAt(After(EMPTY, ops, minSize).store, key).Some?
    requires Acceptable(r, TotalSize(MultipartAt(After(EMPTY, ops, minSize).store, key).value.parts))
    ensures ObjectsWhole(After(EMPTY, ops, minSize).store)
    ensures DeliveredInFull(After(EMPTY, ops, minSize).store, key, r)
  {
    RunInv(EMPTY, ops, minSize);
    RangeReadable(After(EMPTY, ops, minSize).store, key, r);
  }

  lemma RangeReadable(store: Store, key: string, r: Range)
    requires ObjectsWhole(store) && MultipartAt(store, key).Some?
    requires Acceptable(r, TotalSize(MultipartAt(store, key).value.parts))
    ensures DeliveredInFull(store, key, r)
  {
    var m := MultipartAt(store, key).value;
    assert PartsThere(store, key, m);
    PartsStoredHeld(store, UploadOf(key, m.id), m.parts);
    RangeReadExact(PartsOf(store, UploadOf(key, m.id)), m.parts, r);
  }
}
