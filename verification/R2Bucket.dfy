/** The bucket as the object that carries the operations out, with the checks and loops in the
    order they are made. */
module R2Bucket {
  import opened Common
  import opened Text
  import opened R2Ranges
  import opened R2Multipart
  import opened R2Keys

  class R2Bucket {
    const minMultipartUploadSize: nat
    var entries: Store
    ghost var made: set<UploadId>

    ghost function Now(): State
      reads this
    {
      State(entries, made)
    }

    constructor (minMultipartUploadSize: nat)
      ensures Now() == EMPTY && this.minMultipartUploadSize == minMultipartUploadSize
    {
      this.minMultipartUploadSize := minMultipartUploadSize;
      entries, made := map[], {};
    }

    // Lists the names under the prefix of the upload's parts and deletes those of parts not
    // excluded.
    method DeleteMultipartParts(key: string, id: string, excluded: set<string>, ghost keep: set<nat>)
      requires UploadsKnown(Now()) && KeysApart(entries) && Index(UploadOf(key, id)) in entries
      requires forall n: nat :: NameOf(key, id, Some(n)) in excluded <==> n in keep
      modifies this`entries
      ensures entries == DeleteParts(old(entries), UploadOf(key, id), keep)
    {
      var partKeys: set<StorageKey> := {};
      var rest := entries.Keys;
      while rest != {}
        modifies {}
        invariant rest <= entries.Keys
        invariant forall k | k in entries :: k in partKeys <==> k !in rest && IsPartOf(k, UploadOf(key, id)) && k.number !in keep
        decreases |rest|
      {
        var k :| k in rest;
        var listed := IsListed(k, key, id, excluded, keep);
        if listed {
          partKeys := partKeys + {k};
        }
        rest := rest - {k};
      }
      DeleteMany(partKeys);
    }

    method DeleteMany(keys: set<StorageKey>)
      modifies this`entries
      ensures entries == map k | k in old(entries) && k !in keys :: old(entries)[k]
    {
      entries := map k | k in entries && k !in keys :: entries[k];
    }

    // Whether a name is found by prefix, and is neither the marker's nor excluded.
    method IsListed(k: StorageKey, key: string, id: string, excluded: set<string>, ghost keep: set<nat>) returns (listed: bool)
      requires UploadsKnown(Now()) && KeysApart(entries) && Index(UploadOf(key, id)) in entries && k in entries
      requires forall n: nat :: NameOf(key, id, Some(n)) in excluded <==> n in keep
      ensures listed <==> IsPartOf(k, UploadOf(key, id)) && k.number !in keep
    {
      ListingExact(Now(), key, id, k);
      if k.PartKey? {
        NameExact(key, id, Some(k.number), key, id, Some(k.number));
      }
      listed := StartsWith(BuildKey(k), PartPrefix(key, id)) && BuildKey(k) != NameOf(key, id, None) && BuildKey(k) !in excluded;
    }

    method Put(key: string, value: Bytes) returns (reply: Reply)
      requires Inv(Now())
      modifies this`entries
      ensures (Now(), reply) == DoPut(old(Now()), key, value) && Inv(Now())
    {
      PutSound(Now(), key, value);
      if !ValidKey(key) {
        return InvalidKey;
      }
      var existing := MultipartAt(entries, key);
      entries := entries[Object(key) := ObjectEntry(value, None)];
      if existing.Some? {
        DeleteMultipartParts(key, existing.value.id, {}, {});
      }
      reply := Done;
    }

    method Delete(keys: seq<string>) returns (reply: Reply)
      requires Inv(Now())
      modifies this`entries
      ensures (Now(), reply) == DoDelete(old(Now()), keys) && Inv(Now())
    {
      ghost var s := Now();
      for i := 0 to |keys|
        invariant Now() == s && forall j | 0 <= j < i :: ValidKey(keys[j])
      {
        if !ValidKey(keys[i]) {
          return InvalidKey;
        }
      }
      DeletedOk(s, keys);
      var before := entries;
      entries := map k | k in entries && !(k.Object? && k.key in keys) :: entries[k];
      DeletePointed(s, before, keys);
      reply := Done;
    }

    // Removes the parts of the uploads that the keys pointed to.
    method DeletePointed(ghost s: State, before: Store, keys: seq<string>)
      requires Inv(s) && before == s.store && Now() == s.(store := Left(before, keys))
      modifies this`entries
      ensures entries == DeleteEach(before, Left(before, keys), keys)
    {
      for i := 0 to |keys|
        invariant entries == DeleteEach(before, Left(before, keys), keys[..i])
      {
        assert keys[..i + 1][..i] == keys[..i];
        var existing := MultipartAt(before, keys[i]);
        if existing.Some? {
          MarkersStay(s, keys, i);
          DeleteMultipartParts(keys[i], existing.value.id, {}, {});
        }
      }
      assert keys[..|keys|] == keys;
    }

    method Create(key: string, id: UploadId) returns (reply: Reply)
      requires Inv(Now()) && id !in made
      modifies this
      ensures (Now(), reply) == DoCreate(old(Now()), key, id) && Inv(Now())
    {
      CreateOk(Now(), key, id);
      if !ValidMultipartKey(key) {
        return InvalidKey;
      }
      entries := entries[Index(Upload(key, id)) := IndexEntry(Pending)];
      made := made + {id};
      reply := Created(id);
    }

    method UploadPart(key: string, id: string, number: int, content: Bytes, etag: nat) returns (reply: Reply)
      requires Inv(Now())
      modifies this`entries
      ensures (Now(), reply) == DoUploadPart(old(Now()), key, id, number, content, etag) && Inv(Now())
    {
      UploadPartOk(Now(), key, id, number, content, etag);
      if !ValidPartNumber(number) {
        return InvalidPartNumber;
      }
      if !ValidMultipartKey(key) {
        return InvalidKey;
      }
      if UploadStateOf(entries, UploadOf(key, id)) != Some(Pending) {
        return NoSuchUpload;
      }
      entries := entries[PartKey(UploadOf(key, id), number) := PartEntry(content, etag)];
      reply := Done;
    }

    method Abort(key: string, id: string) returns (reply: Reply)
      requires Inv(Now())
      modifies this`entries
      ensures (Now(), reply) == DoAbort(old(Now()), key, id) && Inv(Now())
    {
      AbortOk(Now(), key, id);
      if !ValidMultipartKey(key) {
        return InvalidKey;
      }
      var state := UploadStateOf(entries, UploadOf(key, id));
      if state.None? {
        return InternalError;
      }
      if state != Some(Pending) {
        return Done;
      }
      DeleteMultipartParts(key, id, {}, {});
      entries := entries[Index(UploadOf(key, id)) := IndexEntry(Aborted)];
      reply := Done;
    }

    method Complete(key: string, id: string, parts: seq<Uploaded>) returns (reply: Reply)
      requires Inv(Now())
      modifies this`entries
      ensures (Now(), reply) == DoComplete(old(Now()), key, id, parts, minMultipartUploadSize) && Inv(Now())
    {
      CompleteOk(Now(), key, id, parts, minMultipartUploadSize);
      var valid := NumbersValid(parts);
      if !valid {
        return InvalidPartNumber;
      }
      if !ValidMultipartKey(key) {
        return InvalidKey;
      }
      var state := UploadStateOf(entries, UploadOf(key, id));
      if state != Some(Pending) {
        return if state == Some(Completed) then NoSuchUpload else InternalError;
      }
      var error, sorted := CheckParts(key, id, parts);
      if error.Some? {
        return error.value;
      }
      NoCompletionError(entries, UploadOf(key, id), parts, minMultipartUploadSize);
      Finish(key, id, sorted);
      reply := CompletedWith(TotalSize(sorted));
    }

    // Every check that needs the upload to exist, and the parts in the order of their numbers.
    method CheckParts(key: string, id: string, parts: seq<Uploaded>) returns (error: Option<Reply>, sorted: seq<Part>)
      ensures error == CompletionError(entries, UploadOf(key, id), parts, minMultipartUploadSize)
      ensures error.None? ==> AllFound(entries, UploadOf(key, id), parts) && sorted == SortParts(Measured(entries, UploadOf(key, id), parts))
    {
      sorted := [];
      var unique := NumbersDistinct(parts);
      if !unique {
        return Some(InternalError), [];
      }
      var measured: seq<Part> := [];
      for i := 0 to |parts|
        invariant AllFound(entries, UploadOf(key, id), parts[..i]) && measured == Measured(entries, UploadOf(key, id), parts[..i])
      {
        if !Found(entries, UploadOf(key, id), parts[i]) {
          assert !AllFound(entries, UploadOf(key, id), parts);
          return Some(PartNotFound), [];
        }
        measured := measured + [Part(parts[i].number, |entries[PartKey(UploadOf(key, id), parts[i].number)].content|)];
      }
      assert parts[..|parts|] == parts;
      var large := LargeEnough(measured);
      if !large {
        return Some(PartTooSmall), [];
      }
      sorted := SortParts(measured);
      var fit := SizesChecked(sorted);
      error := if fit then None else Some(SizesDiffer);
    }

    method LargeEnough(parts: seq<Part>) returns (ok: bool)
      ensures ok <==> AllButLastAtLeast(parts, minMultipartUploadSize)
    {
      for i := 0 to |parts| - (if |parts| > 0 then 1 else 0)
        invariant forall j | 0 <= j < i :: parts[j].size >= minMultipartUploadSize
      {
        if parts[i].size < minMultipartUploadSize {
          return false;
        }
      }
      ok := true;
    }

    method SizesChecked(parts: seq<Part>) returns (ok: bool)
      ensures ok <==> AllButLastAtLeast(parts, minMultipartUploadSize) && SizesFit(parts)
    {
      var partSize: Option<nat> := None;
      for i := 0 to |parts| - (if |parts| > 0 then 1 else 0)
        invariant if i == 0 then partSize.None? else partSize == Some(parts[0].size)
        invariant forall j | 0 <= j < i :: parts[j].size >= minMultipartUploadSize && parts[j].size == parts[0].size
      {
        if partSize.None? {
          partSize := Some(parts[i].size);
        }
        if parts[i].size < minMultipartUploadSize || parts[i].size != partSize.value {
          return false;
        }
      }
      ok := !(partSize.Some? && parts[|parts| - 1].size > partSize.value);
    }

    // Point the key to the parts, then clean up.
    method Finish(key: string, id: string, parts: seq<Part>)
      requires Inv(Now()) && !StartsWith(key, INTERNAL_PREFIX) && UploadStateOf(entries, UploadOf(key, id)) == Some(Pending)
      modifies this`entries
      ensures Now() == Finished(old(Now()), key, id, parts).0
    {
      var existing := MultipartAt(entries, key);
      PointedKnown(Now(), key, id, parts);
      entries := entries[Object(key) := ObjectEntry([], Some(Multipart(id, parts)))][Index(UploadOf(key, id)) := IndexEntry(Completed)];
      var used := UsedNames(key, id, parts);
      DeleteMultipartParts(key, id, used, Numbers(parts));
      if existing.Some? {
        DeleteMultipartParts(key, existing.value.id, {}, {});
      }
    }
  }

  method NumbersValid(parts: seq<Uploaded>) returns (valid: bool)
    ensures valid <==> forall i | 0 <= i < |parts| :: ValidPartNumber(parts[i].number)
  {
    for i := 0 to |parts|
      invariant forall j | 0 <= j < i :: ValidPartNumber(parts[j].number)
    {
      if !ValidPartNumber(parts[i].number) {
        return false;
      }
    }
    valid := true;
  }

  method NumbersDistinct(parts: seq<Uploaded>) returns (unique: bool)
    ensures unique <==> Unique(parts)
  {
    var partNumberSet: set<int> := {};
    for i := 0 to |parts|
      invariant partNumberSet == set j | 0 <= j < i :: parts[j].number
      invariant Unique(parts[..i])
    {
      if parts[i].number in partNumberSet {
        return false;
      }
      partNumberSet := partNumberSet + {parts[i].number};
    }
    assert parts[..|parts|] == parts;
    unique := true;
  }

  method UsedNames(key: string, id: string, parts: seq<Part>) returns (names: set<string>)
    ensures forall n: nat :: NameOf(key, id, Some(n)) in names <==> n in Numbers(parts)
  {
    names := {};
    for i := 0 to |parts|
      invariant forall n: nat :: NameOf(key, id, Some(n)) in names <==> n in Numbers(parts[..i])
    {
      OneMoreName(key, id, names, Numbers(parts[..i]), parts[i].partNumber);
      assert Numbers(parts[..i + 1]) == Numbers(parts[..i]) + {parts[i].partNumber};
      names := names + {NameOf(key, id, Some(parts[i].partNumber))};
    }
    assert parts[..|parts|] == parts;
  }

  lemma OneMoreName(key: string, id: string, names: set<string>, numbers: set<nat>, m: nat)
    requires forall n: nat :: NameOf(key, id, Some(n)) in names <==> n in numbers
    ensures forall n: nat :: NameOf(key, id, Some(n)) in names + {NameOf(key, id, Some(m))} <==> n in numbers + {m}
  {
    forall n: nat ensures NameOf(key, id, Some(n)) in names + {NameOf(key, id, Some(m))} <==> n in numbers + {m} {
      SamePart(key, id, n, m);
    }
  }

  lemma SamePart(key: string, id: string, m: nat, n: nat)
    ensures NameOf(key, id, Some(m)) == NameOf(key, id, Some(n)) <==> m == n
  {
    NameExact(key, id, Some(m), key, id, Some(n));
  }

  // Replacing an object leaves the markers of uploads alone.
  lemma StillKnown(s: State, key: string, object': Entry)
    requires Inv(s) && !StartsWith(key, INTERNAL_PREFIX) && object'.ObjectEntry?
    ensures var r := s.(store := s.store[Object(key) := object']); UploadsKnown(r) && KeysApart(r.store)
    ensures MultipartAt(s.store, key).Some? ==> Index(UploadOf(key, MultipartAt(s.store, key).value.id)) in s.store
  {
  }

  lemma PutSound(s: State, key: string, value: Bytes)
    requires Inv(s)
    ensures Inv(DoPut(s, key, value).0)
    ensures ValidKey(key) ==>
      && UploadsKnown(s.(store := s.store[Object(key) := ObjectEntry(value, None)]))
      && KeysApart(s.store[Object(key) := ObjectEntry(value, None)])
      && (MultipartAt(s.store, key).Some? ==>
            Index(UploadOf(key, MultipartAt(s.store, key).value.id)) in s.store[Object(key) := ObjectEntry(value, None)])
  {
    PutOk(s, key, value);
    if ValidKey(key) {
      StillKnown(s, key, ObjectEntry(value, None));
    }
  }

  // So does pointing a key to the parts of an upload, and removing parts of it.
  lemma PointedKnown(s: State, key: string, id: string, parts: seq<Part>)
    requires Inv(s) && !StartsWith(key, INTERNAL_PREFIX) && UploadStateOf(s.store, UploadOf(key, id)) == Some(Pending)
    ensures var pointed := Pointed(s.store, key, id, parts);
            UploadsKnown(s.(store := pointed)) && KeysApart(pointed) && Index(UploadOf(key, id)) in pointed
    ensures var used := DeleteParts(Pointed(s.store, key, id, parts), UploadOf(key, id), Numbers(parts));
            && UploadsKnown(s.(store := used)) && KeysApart(used)
            && (MultipartAt(s.store, key).Some? ==> Index(UploadOf(key, MultipartAt(s.store, key).value.id)) in used)
  {
    assert MultipartAt(s.store, key).Some? ==> PartsThere(s.store, key, MultipartAt(s.store, key).value);
  }

  // So does deleting objects and parts.
  lemma MarkersStay(s: State, keys: seq<string>, i: nat)
    requires Inv(s) && i < |keys| && MultipartAt(s.store, keys[i]).Some?
    ensures var r := s.(store := DeleteEach(s.store, Left(s.store, keys), keys[..i]));
            UploadsKnown(r) && KeysApart(r.store) && Index(UploadOf(keys[i], MultipartAt(s.store, keys[i]).value.id)) in r.store
  {
    var b := DeleteEach(s.store, Left(s.store, keys), keys[..i]);
    forall k ensures k in b ==> k in s.store && b[k] == s.store[k]
             ensures k.Index? && k in s.store ==> k in b
    {
      DeleteEachExact(s.store, Left(s.store, keys), keys[..i], k);
    }
    assert PartsThere(s.store, keys[i], MultipartAt(s.store, keys[i]).value);
  }
}
