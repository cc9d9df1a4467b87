/** What each operation on an upload does, entry by entry, and that the value read after a
    completion is made of the contents that were uploaded. */
module MultipartMeaning {
  import opened Common
  import opened Text
  import opened R2Ranges
  import opened R2Multipart

  // All entries but those at these names are as they were.
  ghost predicate SameBut(a: Store, b: Store, changed: set<StorageKey>) {
    forall k | k !in changed :: (k in b <==> k in a) && (k in a ==> b[k] == a[k])
  }

  predicate GoodKey(key: string) {
    ByteLength(key) < 1025 && !StartsWith(key, INTERNAL_PREFIX)
  }

  predicate StateIs(store: Store, u: Upload, state: UploadState) {
    Index(u) in store && store[Index(u)] == IndexEntry(state)
  }

  predicate GoodPlainKey(key: string) {
    ByteLength(key) < 1024 && !StartsWith(key, INTERNAL_PREFIX)
  }

  // A put is taken exactly if its key is good. Then the value given is stored at the key, the
  // parts of an object replaced are gone, and nothing else changes.
  lemma PutExact(s: State, key: string, value: Bytes)
    ensures var (r, reply) := DoPut(s, key, value);
            && (reply.Done? <==> GoodPlainKey(key)) && (!reply.Done? ==> r == s && reply == InvalidKey)
            && (reply.Done? ==>
                  && Object(key) in r.store && r.store[Object(key)] == ObjectEntry(value, None) && r.made == s.made
                  && (forall k: StorageKey | k.PartKey? :: k in r.store <==> k in s.store && !PointsTo(s.store, key, k.upload))
                  && (forall k: StorageKey | !k.PartKey? && k != Object(key) :: k in r.store <==> k in s.store)
                  && (forall k: StorageKey | k in r.store && k != Object(key) :: r.store[k] == s.store[k]))
  {
  }

  // What goes when these keys are deleted: the objects and the parts of those made of parts.
  predicate GoesWith(store: Store, keys: seq<string>, k: StorageKey) {
    match k
    case Object(key) => key in keys
    case Index(u) => false
    case PartKey(u, n) => exists i :: 0 <= i < |keys| && PointsTo(store, keys[i], u)
  }

  ghost predicate DeletedTo(a: Store, b: Store, keys: seq<string>) {
    && (forall k: StorageKey :: k in b <==> k in a && !GoesWith(a, keys, k))
    && (forall k: StorageKey :: k in b ==> b[k] == a[k])
  }

  // A delete is taken exactly if all its keys are good. Then just that is gone.
  lemma DeleteExact(s: State, keys: seq<string>)
    ensures var (r, reply) := DoDelete(s, keys);
            && (reply.Done? <==> forall i | 0 <= i < |keys| :: GoodPlainKey(keys[i]))
            && (!reply.Done? ==> r == s && reply == InvalidKey)
            && (reply.Done? ==> DeletedTo(s.store, r.store, keys) && r.made == s.made)
  {
    if DoDelete(s, keys).1.Done? {
      forall k: StorageKey
        ensures k in DoDelete(s, keys).0.store <==> k in s.store && !GoesWith(s.store, keys, k)
        ensures k in DoDelete(s, keys).0.store ==> DoDelete(s, keys).0.store[k] == s.store[k]
      {
        DeleteEachExact(s.store, Left(s.store, keys), keys, k);
      }
    }
    if !DoDelete(s, keys).1.Done? {
      var i :| 0 <= i < |keys| && !ValidKey(keys[i]);
      assert !GoodPlainKey(keys[i]);
    }
  }

  // Creating an upload leaves a pending marker for it and changes nothing else.
  lemma CreateExact(s: State, key: string, id: UploadId)
    ensures var (r, reply) := DoCreate(s, key, id);
            if GoodKey(key) then
              && reply == Created(id) && StateIs(r.store, Upload(key, id), Pending)
              && SameBut(s.store, r.store, {Index(Upload(key, id))}) && forall i :: i in r.made <==> i in s.made || i == id
            else reply == InvalidKey && r == s
  {
  }

  // A part is taken exactly if its number is good, the key is, and the upload is pending. Then
  // the content and the etag given are stored for this part of the upload, and nothing else
  // changes.
  lemma UploadPartExact(s: State, key: string, id: string, number: int, content: Bytes, etag: nat)
    ensures var (r, reply) := DoUploadPart(s, key, id, number, content, etag);
            && (reply.Done? <==> 0 < number < 10_001 && GoodKey(key) && StateIs(s.store, UploadOf(key, id), Pending))
            && (!reply.Done? ==> r == s)
            && (reply.InvalidPartNumber? <==> number < 1 || number > 10_000)
            && (reply.NoSuchUpload? <==> 0 < number < 10_001 && GoodKey(key) && !StateIs(s.store, UploadOf(key, id), Pending))
            && (reply.Done? ==>
                  && PartKey(UploadOf(key, id), number) in r.store
                  && r.store[PartKey(UploadOf(key, id), number)] == PartEntry(content, etag)
                  && SameBut(s.store, r.store, {PartKey(UploadOf(key, id), number)}) && r.made == s.made)
  {
  }

  // Aborting a pending upload removes its parts, leaves the marker as aborted, and changes
  // nothing else; aborting one that is over changes nothing and one there never was is an error.
  lemma AbortExact(s: State, key: string, id: string)
    ensures var (r, reply) := DoAbort(s, key, id);
            var u := UploadOf(key, id);
            && (reply.Done? <==> GoodKey(key) && Index(u) in s.store)
            && (!StateIs(s.store, u, Pending) || !reply.Done? ==> r == s)
            && (reply.Done? && StateIs(s.store, u, Pending) ==>
                  && StateIs(r.store, u, Aborted) && (forall n: nat :: PartKey(u, n) !in r.store) && r.made == s.made
                  && forall k | k != Index(u) && !(k.PartKey? && k.upload == u) :: (k in r.store <==> k in s.store) && (k in s.store ==> r.store[k] == s.store[k]))
  {
  }

  // --- When a completion succeeds ------------------------------------------------------------------

  // A part named that is there under this etag, and its size.
  predicate Named(store: Store, u: Upload, part: Uploaded, size: nat) {
    && part.number >= 0 && PartKey(u, part.number) in store
    && store[PartKey(u, part.number)].etag == part.etag && |store[PartKey(u, part.number)].content| == size
  }

  ghost predicate Highest(parts: seq<Uploaded>, i: nat)
    requires i < |parts|
  {
    forall j | 0 <= j < |parts| :: parts[j].number <= parts[i].number
  }

  // The conditions under which these parts, of these sizes, complete the upload: no number
  // twice, all there, all but the last given large enough, all but the one with the highest
  // number large enough and of one size, and that one no larger.
  ghost predicate Completes(store: Store, u: Upload, parts: seq<Uploaded>, sizes: seq<nat>, minSize: nat) {
    && |sizes| == |parts|
    && (forall i, j | 0 <= i < j < |parts| :: parts[i].number != parts[j].number)
    && (forall i | 0 <= i < |parts| :: Named(store, u, parts[i], sizes[i]))
    && (forall i | 0 <= i < |parts| - 1 :: sizes[i] >= minSize)
    && (forall i | 0 <= i < |parts| && !Highest(parts, i) :: sizes[i] >= minSize)
    && (forall i, j | 0 <= i < |parts| && 0 <= j < |parts| && !Highest(parts, i) && !Highest(parts, j) :: sizes[i] == sizes[j])
    && (forall i, j | 0 <= i < |parts| && 0 <= j < |parts| && Highest(parts, i) && !Highest(parts, j) :: sizes[i] <= sizes[j])
  }

  lemma InSorted(parts: seq<Part>, sorted: seq<Part>, i: nat) returns (k: nat)
    requires multiset(sorted) == multiset(parts) && i < |parts|
    ensures k < |sorted| && sorted[k] == parts[i]
  {
    assert parts[i] in multiset(sorted);
    k :| 0 <= k < |sorted| && sorted[k] == parts[i];
  }

  // In sorted parts only the last has the highest number.
  lemma LastIsHighest(parts: seq<Part>, sorted: seq<Part>, i: nat, k: nat)
    requires multiset(sorted) == multiset(parts) && Ascending(sorted)
    requires i < |parts| && k < |sorted| && sorted[k] == parts[i]
    ensures (forall j | 0 <= j < |parts| :: parts[j].partNumber <= parts[i].partNumber) <==> k == |sorted| - 1
  {
    if k == |sorted| - 1 {
      forall j | 0 <= j < |parts| ensures parts[j].partNumber <= parts[i].partNumber {
        var l := InSorted(parts, sorted, j);
        assert l < k ==> sorted[l].partNumber < sorted[k].partNumber;
      }
    } else {
      var last := |sorted| - 1;
      assert sorted[last] in multiset(parts);
      var j :| 0 <= j < |parts| && parts[j] == sorted[last];
      assert sorted[k].partNumber < sorted[last].partNumber;
    }
  }

  // What sorted sizes must be, said of the parts as they were given.
  ghost predicate HighestPart(parts: seq<Part>, p: Part) {
    forall q | q in parts :: q.partNumber <= p.partNumber
  }

  ghost predicate SizesGood(parts: seq<Part>, minSize: nat) {
    && (forall p | p in parts && !HighestPart(parts, p) :: p.size >= minSize)
    && (forall p, q | p in parts && q in parts && !HighestPart(parts, p) && !HighestPart(parts, q) :: p.size == q.size)
    && (forall p, q | p in parts && q in parts && HighestPart(parts, p) && !HighestPart(parts, q) :: p.size <= q.size)
  }

  lemma SortedPlace(parts: seq<Part>, sorted: seq<Part>, p: Part) returns (k: nat)
    requires multiset(sorted) == multiset(parts) && Ascending(sorted) && p in parts
    ensures k < |sorted| && sorted[k] == p && (HighestPart(parts, p) <==> k == |sorted| - 1)
  {
    var i :| 0 <= i < |parts| && parts[i] == p;
    k := InSorted(parts, sorted, i);
    LastIsHighest(parts, sorted, i, k);
    if HighestPart(parts, p) {
      assert forall j | 0 <= j < |parts| :: parts[j] in parts;
    }
  }

  lemma SortedSizes(parts: seq<Part>, sorted: seq<Part>, minSize: nat)
    requires multiset(sorted) == multiset(parts) && Ascending(sorted)
    ensures AllButLastAtLeast(sorted, minSize) && SizesFit(sorted) <==> SizesGood(parts, minSize)
  {
    forall k | 0 <= k < |sorted| ensures sorted[k] in parts && (HighestPart(parts, sorted[k]) <==> k == |sorted| - 1) {
      assert sorted[k] in multiset(parts);
      var l := SortedPlace(parts, sorted, sorted[k]);
      OnePlace(sorted, k, l);
    }
    if AllButLastAtLeast(sorted, minSize) && SizesFit(sorted) {
      SizesUnsorted(parts, sorted, minSize);
    }
  }

  lemma SizesUnsorted(parts: seq<Part>, sorted: seq<Part>, minSize: nat)
    requires multiset(sorted) == multiset(parts) && Ascending(sorted)
    requires AllButLastAtLeast(sorted, minSize) && SizesFit(sorted)
    ensures SizesGood(parts, minSize)
  {
    forall p | p in parts && !HighestPart(parts, p) ensures p.size >= minSize && p.size == sorted[0].size {
      var k := SortedPlace(parts, sorted, p);
      assert k > 0 ==> sorted[0].size == sorted[k].size;
    }
    forall p | p in parts && HighestPart(parts, p) ensures p == sorted[|sorted| - 1] {
      var k := SortedPlace(parts, sorted, p);
    }
    forall p | p in parts && !HighestPart(parts, p) ensures |sorted| > 1 {
      var k := SortedPlace(parts, sorted, p);
    }
  }

  lemma OnePlace(sorted: seq<Part>, k: nat, l: nat)
    requires Ascending(sorted) && k < |sorted| && l < |sorted| && sorted[k] == sorted[l]
    ensures k == l
  {
  }

  // The sizes that the parts named have.
  function SizesOf(parts: seq<Part>): seq<nat> {
    seq(|parts|, i requires 0 <= i < |parts| => parts[i].size)
  }

  lemma MeasuredSizes(store: Store, u: Upload, parts: seq<Uploaded>, sizes: seq<nat>)
    ensures |sizes| == |parts| && (forall i | 0 <= i < |parts| :: Named(store, u, parts[i], sizes[i]))
       <==> AllFound(store, u, parts) && sizes == SizesOf(Measured(store, u, parts))
  {
    if AllFound(store, u, parts) {
      forall i | 0 <= i < |parts| ensures Named(store, u, parts[i], Measured(store, u, parts)[i].size) {
        assert Found(store, u, parts[i]);
      }
    }
  }

  lemma SameHighest(parts: seq<Uploaded>, measured: seq<Part>, i: nat)
    requires |measured| == |parts| && (forall j | 0 <= j < |parts| :: measured[j].partNumber == parts[j].number) && i < |parts|
    ensures Highest(parts, i) <==> HighestPart(measured, measured[i])
  {
    if HighestPart(measured, measured[i]) {
      forall j | 0 <= j < |parts| ensures parts[j].number <= parts[i].number {
        assert measured[j] in measured;
      }
    }
  }

  ghost predicate GivenSizesGood(parts: seq<Uploaded>, sizes: seq<nat>, minSize: nat)
    requires |sizes| == |parts|
  {
    && (forall i | 0 <= i < |parts| && !Highest(parts, i) :: sizes[i] >= minSize)
    && (forall i, j | 0 <= i < |parts| && 0 <= j < |parts| && !Highest(parts, i) && !Highest(parts, j) :: sizes[i] == sizes[j])
    && (forall i, j | 0 <= i < |parts| && 0 <= j < |parts| && Highest(parts, i) && !Highest(parts, j) :: sizes[i] <= sizes[j])
  }

  lemma SameSizesGood(parts: seq<Uploaded>, measured: seq<Part>, minSize: nat)
    requires |measured| == |parts| && forall j | 0 <= j < |parts| :: measured[j].partNumber == parts[j].number
    ensures SizesGood(measured, minSize) <==> GivenSizesGood(parts, SizesOf(measured), minSize)
  {
    forall i | 0 <= i < |parts| ensures measured[i] in measured && (Highest(parts, i) <==> HighestPart(measured, measured[i])) {
      SameHighest(parts, measured, i);
    }
    if GivenSizesGood(parts, SizesOf(measured), minSize) {
      ManyGood(parts, measured, minSize);
    }
  }

  lemma ManyGood(parts: seq<Uploaded>, measured: seq<Part>, minSize: nat)
    requires |measured| == |parts| && GivenSizesGood(parts, SizesOf(measured), minSize)
    requires forall i | 0 <= i < |parts| :: Highest(parts, i) <==> HighestPart(measured, measured[i])
    ensures SizesGood(measured, minSize)
  {
    forall p | p in measured ensures exists i :: 0 <= i < |parts| && measured[i] == p {
    }
  }

  // No error is met exactly under these conditions.
  lemma CompletionExact(store: Store, u: Upload, parts: seq<Uploaded>, minSize: nat)
    ensures CompletionError(store, u, parts, minSize) == None <==> exists sizes :: Completes(store, u, parts, sizes, minSize)
  {
    if AllFound(store, u, parts) && Unique(parts) {
      var measured := Measured(store, u, parts);
      MeasuredSizes(store, u, parts, SizesOf(measured));
      MeasuredUnique(parts, measured);
      SortPartsExact(measured);
      SortedSizes(measured, SortParts(measured), minSize);
      SameSizesGood(parts, measured, minSize);
      MeasuredCompletes(store, u, parts, minSize);
    } else {
      forall sizes ensures !Completes(store, u, parts, sizes, minSize) {
        MeasuredSizes(store, u, parts, sizes);
      }
    }
  }

  lemma MeasuredUnique(parts: seq<Uploaded>, measured: seq<Part>)
    requires |measured| == |parts| && (forall j | 0 <= j < |parts| :: measured[j].partNumber == parts[j].number) && Unique(parts)
    ensures NumbersUnique(measured)
  {
  }

  lemma MeasuredCompletes(store: Store, u: Upload, parts: seq<Uploaded>, minSize: nat)
    requires AllFound(store, u, parts) && Unique(parts)
    ensures var measured := Measured(store, u, parts);
            (exists sizes :: Completes(store, u, parts, sizes, minSize))
            <==> AllButLastAtLeast(measured, minSize) && GivenSizesGood(parts, SizesOf(measured), minSize)
  {
    var sizes := SizesOf(Measured(store, u, parts));
    MeasuredSizes(store, u, parts, sizes);
    if other :| Completes(store, u, parts, other, minSize) {
      MeasuredSizes(store, u, parts, other);
      assert other == sizes;
      forall i | 0 <= i < |parts| - 1 ensures Measured(store, u, parts)[i].size >= minSize {
        assert sizes[i] >= minSize;
      }
    }
    if AllButLastAtLeast(Measured(store, u, parts), minSize) && GivenSizesGood(parts, sizes, minSize) {
      assert Completes(store, u, parts, sizes, minSize);
    }
  }

  // A completion succeeds exactly if the part numbers are good, the key is, the upload is
  // pending and its parts complete it.
  lemma CompleteSucceeds(s: State, key: string, id: string, parts: seq<Uploaded>, minSize: nat)
    ensures DoComplete(s, key, id, parts, minSize).1.CompletedWith? <==>
              && (forall i | 0 <= i < |parts| :: 0 < parts[i].number < 10_001)
              && GoodKey(key) && StateIs(s.store, UploadOf(key, id), Pending)
              && exists sizes :: Completes(s.store, UploadOf(key, id), parts, sizes, minSize)
  {
    CompletionExact(s.store, UploadOf(key, id), parts, minSize);
    NotCompletedWith(s.store, UploadOf(key, id), parts, minSize);
  }

  lemma NotCompletedWith(store: Store, u: Upload, parts: seq<Uploaded>, minSize: nat)
    ensures var error := CompletionError(store, u, parts, minSize); error.Some? ==> !error.value.CompletedWith?
  {
  }

  function NumbersGiven(parts: seq<Uploaded>): set<int> {
    set i | 0 <= i < |parts| :: parts[i].number
  }

  // These are the parts named, in ascending order of their numbers.
  ghost predicate InNumberOrder(parts: seq<Uploaded>, ordered: seq<Part>) {
    && |ordered| == |parts| && Numbers(ordered) == NumbersGiven(parts)
    && forall i, j | 0 <= i < j < |ordered| :: ordered[i].partNumber < ordered[j].partNumber
  }

  lemma SortedNumbers(parts: seq<Uploaded>, measured: seq<Part>, sorted: seq<Part>)
    requires |measured| == |parts| && forall j | 0 <= j < |parts| :: measured[j].partNumber == parts[j].number
    requires multiset(sorted) == multiset(measured) && Ascending(sorted)
    ensures InNumberOrder(parts, sorted)
  {
    assert |sorted| == |multiset(sorted)| && |measured| == |multiset(measured)|;
    forall n | n in NumbersGiven(parts) ensures n in Numbers(sorted) {
      var i :| 0 <= i < |parts| && parts[i].number == n;
      var k := InSorted(measured, sorted, i);
    }
    forall n | n in Numbers(sorted) ensures n in NumbersGiven(parts) {
      var k :| 0 <= k < |sorted| && sorted[k].partNumber == n;
      var i := InSorted(sorted, measured, k);
    }
  }

  // The parts that a completion sorts.
  lemma SortedGiven(s: State, key: string, id: string, parts: seq<Uploaded>, minSize: nat) returns (sorted: seq<Part>)
    requires ObjectsWhole(s.store) && DoComplete(s, key, id, parts, minSize).1.CompletedWith?
    ensures InNumberOrder(parts, sorted) && PartsStored(s.store, UploadOf(key, id), sorted)
    ensures UploadStateOf(s.store, UploadOf(key, id)) == Some(Pending)
    ensures DoComplete(s, key, id, parts, minSize) == Finished(s, key, id, sorted)
    ensures Finishes(s.store, DoComplete(s, key, id, parts, minSize).0.store, key, id, sorted)
  {
    var u := UploadOf(key, id);
    CompletedIs(s, key, id, parts, minSize);
    assert CompletionError(s.store, u, parts, minSize) == None;
    NoCompletionError(s.store, u, parts, minSize);
    sorted := SortParts(Measured(s.store, u, parts));
    FinishedExact(s, key, id, sorted);
    SortedNumbers(parts, Measured(s.store, u, parts), sorted);
  }

  // After a completion of this upload, given these parts, at this key: the key refers to the
  // upload by the id given, with the parts in the order of their numbers; the upload is over;
  // the parts named stay as they were and other parts of it are gone; so are the parts of the
  // object replaced; and all else is as it was.
  ghost predicate CompletedTo(a: Store, b: Store, key: string, id: string, parts: seq<Uploaded>) {
    var u := UploadOf(key, id);
    && MultipartAt(b, key).Some? && MultipartAt(b, key).value.id == id
    && InNumberOrder(parts, MultipartAt(b, key).value.parts)
    && StateIs(b, u, Completed)
    && (forall n: nat :: PartKey(u, n) in b <==> PartKey(u, n) in a && n in NumbersGiven(parts))
    && (forall k: StorageKey | k.PartKey? && k.upload != u :: k in b <==> k in a && !PointsTo(a, key, k.upload))
    && (forall k: StorageKey | !k.PartKey? && k != Object(key) && k != Index(u) :: k in b <==> k in a)
    && (forall k | k in b && k != Object(key) && k != Index(u) :: b[k] == a[k])
  }

  lemma CompletedExact(s: State, key: string, id: string, parts: seq<Uploaded>, minSize: nat)
    requires Inv(s) && DoComplete(s, key, id, parts, minSize).1.CompletedWith?
    ensures CompletedTo(s.store, DoComplete(s, key, id, parts, minSize).0.store, key, id, parts)
    ensures DoComplete(s, key, id, parts, minSize).0.made == s.made
  {
    var sorted := SortedGiven(s, key, id, parts, minSize);
    PendingUnused(s.store, UploadOf(key, id), key);
    FinishesTo(s.store, DoComplete(s, key, id, parts, minSize).0.store, key, id, parts, sorted);
  }

  lemma FinishesTo(a: Store, b: Store, key: string, id: string, parts: seq<Uploaded>, sorted: seq<Part>)
    requires Finishes(a, b, key, id, sorted) && InNumberOrder(parts, sorted) && !PointsTo(a, key, UploadOf(key, id))
    ensures CompletedTo(a, b, key, id, parts)
  {
  }

  // --- The contents uploaded ---------------------------------------------------------------------

  // Whether this operation put content in the part of this number.
  predicate Uploads(s: State, op: Operation, minSize: nat, u: Upload, n: nat) {
    op.UploadPart? && UploadOf(op.key, op.id) == u && op.number == n && Do(s, op, minSize).1.Done?
  }

  // The content that the last uploadPart of a run that was taken gave to this part.
  ghost function LastUploaded(s: State, ops: seq<Operation>, minSize: nat, u: Upload, n: nat, so: Option<Bytes>): Option<Bytes>
    requires IsRun(s, ops, minSize)
    decreases |ops|
  {
    if ops == [] then so
    else
      var taken := if Uploads(s, ops[0], minSize, u, n) then Some(ops[0].content) else so;
      LastUploaded(Do(s, ops[0], minSize).0, ops[1..], minSize, u, n, taken)
  }

  // A part that is stored has the content it was given last.
  ghost predicate HasUploaded(s: State, u: Upload, n: nat, content: Option<Bytes>) {
    PartKey(u, n) in s.store ==> content == Some(s.store[PartKey(u, n)].content)
  }

  lemma StepUploaded(s: State, op: Operation, minSize: nat, u: Upload, n: nat, content: Option<Bytes>)
    requires Inv(s) && Enabled(s, op) && HasUploaded(s, u, n, content)
    ensures HasUploaded(Do(s, op, minSize).0, u, n, if Uploads(s, op, minSize, u, n) then Some(op.content) else content)
  {
    match op
    case Put(key, value) =>
    case Delete(keys) => DeleteEachExact(s.store, Left(s.store, keys), keys, PartKey(u, n));
    case Create(key, id) =>
    case UploadPart(key, id, number, given, etag) => UploadPartExact(s, key, id, number, given, etag);
    case Abort(key, id) =>
    case Complete(key, id, parts) => CompleteUploaded(s, key, id, parts, minSize, u, n, content);
  }

  lemma CompleteUploaded(s: State, key: string, id: string, parts: seq<Uploaded>, minSize: nat, u: Upload, n: nat, content: Option<Bytes>)
    requires Inv(s) && HasUploaded(s, u, n, content)
    ensures HasUploaded(DoComplete(s, key, id, parts, minSize).0, u, n, content)
  {
    if DoComplete(s, key, id, parts, minSize).1.CompletedWith? {
      CompletedIs(s, key, id, parts, minSize);
      FinishedExact(s, key, id, SortParts(Measured(s.store, UploadOf(key, id), parts)));
    } else {
      assert DoComplete(s, key, id, parts, minSize).0 == s;
    }
  }

  lemma {:induction false} RunUploaded(s: State, ops: seq<Operation>, minSize: nat, u: Upload, n: nat, content: Option<Bytes>)
    requires Inv(s) && IsRun(s, ops, minSize) && HasUploaded(s, u, n, content)
    ensures HasUploaded(After(s, ops, minSize), u, n, LastUploaded(s, ops, minSize, u, n, content))
    decreases |ops|
  {
    if ops != [] {
      StepInv(s, ops[0], minSize);
      StepUploaded(s, ops[0], minSize, u, n, content);
      RunUploaded(Do(s, ops[0], minSize).0, ops[1..], minSize, u, n,
                  if Uploads(s, ops[0], minSize, u, n) then Some(ops[0].content) else content);
    }
  }

  // Texts one after the other.
  function Concat(contents: seq<Bytes>): Bytes {
    if contents == [] then [] else contents[0] + Concat(contents[1..])
  }

  lemma {:induction false} ConcatLast(contents: seq<Bytes>, last: Bytes)
    ensures Concat(contents + [last]) == Concat(contents) + last
  {
    if contents == [] {
      assert [] + [last] == [last];
    } else {
      ConcatLast(contents[1..], last);
      assert (contents + [last])[1..] == contents[1..] + [last];
    }
  }

  lemma {:induction false} ValueConcat(stored: Stored, parts: seq<Part>, contents: seq<Bytes>)
    requires Holds(stored, parts) && |contents| == |parts|
    requires forall i | 0 <= i < |parts| :: contents[i] == stored[parts[i].partNumber]
    ensures Value(stored, parts) == Concat(contents)
    decreases |parts|
  {
    if parts != [] {
      var n := |parts| - 1;
      ValueConcat(stored, parts[..n], contents[..n]);
      ConcatLast(contents[..n], contents[n]);
      assert contents == contents[..n] + [contents[n]];
    }
  }

  // These are the contents last uploaded for the parts of the object.
  ghost predicate Uploadeds(ops: seq<Operation>, minSize: nat, u: Upload, parts: seq<Part>, contents: seq<Bytes>)
    requires IsRun(EMPTY, ops, minSize)
  {
    && |contents| == |parts|
    && forall i | 0 <= i < |parts| :: LastUploaded(EMPTY, ops, minSize, u, parts[i].partNumber, None) == Some(contents[i])
  }

  lemma UploadedsStored(ops: seq<Operation>, minSize: nat, u: Upload, parts: seq<Part>) returns (contents: seq<Bytes>)
    requires IsRun(EMPTY, ops, minSize) && PartsStored(After(EMPTY, ops, minSize).store, u, parts)
    ensures Uploadeds(ops, minSize, u, parts, contents)
    ensures Joined(After(EMPTY, ops, minSize).store, u, parts) == Some(Concat(contents))
  {
    var store := After(EMPTY, ops, minSize).store;
    contents := seq(|parts|, i requires 0 <= i < |parts| => store[PartKey(u, parts[i].partNumber)].content);
    PartsStoredHeld(store, u, parts);
    ValueConcat(PartsOf(store, u), parts, contents);
    forall i | 0 <= i < |parts| ensures LastUploaded(EMPTY, ops, minSize, u, parts[i].partNumber, None) == Some(contents[i]) {
      RunUploaded(EMPTY, ops, minSize, u, parts[i].partNumber, None);
    }
  }

  // In every run the value of an object completed from parts is the contents that were last
  // uploaded for them, one after the other.
  lemma ValueUploaded(ops: seq<Operation>, minSize: nat, key: string)
    requires IsRun(EMPTY, ops, minSize) && MultipartAt(After(EMPTY, ops, minSize).store, key).Some?
    ensures ObjectsWhole(After(EMPTY, ops, minSize).store)
    ensures var store := After(EMPTY, ops, minSize).store;
            var m := MultipartAt(store, key).value;
            exists contents :: Uploadeds(ops, minSize, UploadOf(key, m.id), m.parts, contents) && Get(store, key) == Some(Concat(contents))
  {
    RunInv(EMPTY, ops, minSize);
    var store := After(EMPTY, ops, minSize).store;
    var m := MultipartAt(store, key).value;
    assert PartsThere(store, key, m);
    PartsStoredHeld(store, UploadOf(key, m.id), m.parts);
    var contents := UploadedsStored(ops, minSize, UploadOf(key, m.id), m.parts);
  }

  // So a completion makes the contents last uploaded for the parts named, in the order of their
  // numbers.
  lemma CompletionReads(ops: seq<Operation>, minSize: nat, key: string, id: string, parts: seq<Uploaded>)
    requires IsRun(EMPTY, ops, minSize) && DoComplete(After(EMPTY, ops, minSize), key, id, parts, minSize).1.CompletedWith?
    ensures Inv(DoComplete(After(EMPTY, ops, minSize), key, id, parts, minSize).0)
    ensures exists ordered, contents ::
              && InNumberOrder(parts, ordered) && Uploadeds(ops, minSize, UploadOf(key, id), ordered, contents)
              && DoComplete(After(EMPTY, ops, minSize), key, id, parts, minSize).1 == CompletedWith(|Concat(contents)|)
              && Get(DoComplete(After(EMPTY, ops, minSize), key, id, parts, minSize).0.store, key) == Some(Concat(contents))
  {
    RunInv(EMPTY, ops, minSize);
    var s := After(EMPTY, ops, minSize);
    CompleteOk(s, key, id, parts, minSize);
    var ordered := SortedGiven(s, key, id, parts, minSize);
    FinishedSeen(s, key, id, ordered, key);
    var contents := UploadedsStored(ops, minSize, UploadOf(key, id), ordered);
  }
}
