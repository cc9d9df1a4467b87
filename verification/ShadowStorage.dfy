/** The backing store, the shadow laid over it, and a transaction's shadow laid over that. */
module ShadowStorage {
  import opened Common
  import opened Overlay
  import opened Serial
  import opened Order
  import opened Listing
  import opened LimitedListing

  // A plain in-memory store with the batch operations every storage has.
  class Backing {
    var entries: Store

    constructor (entries: Store)
      ensures this.entries == entries
    {
      this.entries := entries;
    }

    method Has(key: Key) returns (found: bool)
      ensures found <==> key in entries
    {
      found := key in entries;
    }

    method Delete(key: Key) returns (deleted: bool)
      modifies this
      ensures entries == old(entries) - {key} && (deleted <==> key in old(entries))
    {
      deleted := key in entries;
      entries := entries - {key};
    }

    method HasMany(keys: seq<Key>) returns (count: nat)
      ensures count == CountFound(LookupAll(entries, keys))
    {
      count := 0;
      for i := 0 to |keys|
        invariant count == CountFound(LookupAll(entries, keys[..i]))
      {
        LookupAppend(entries, keys, i);
        var found := Has(keys[i]);
        if found {
          count := count + 1;
        }
      }
      assert keys[..|keys|] == keys;
    }

    method GetMany(keys: seq<Key>) returns (values: seq<Option<Value>>)
      ensures values == LookupAll(entries, keys)
    {
      values := [];
      for i := 0 to |keys|
        invariant values == LookupAll(entries, keys[..i])
      {
        LookupAppend(entries, keys, i);
        values := values + [Lookup(entries, keys[i])];
      }
      assert keys[..|keys|] == keys;
    }

    method PutMany(data: seq<(Key, Value)>)
      modifies this
      ensures entries == old(entries) + ToMap(data)
    {
      for i := 0 to |data|
        invariant entries == old(entries) + ToMap(data[..i])
      {
        assert data[..i + 1][..i] == data[..i];
        entries := entries[data[i].0 := data[i].1];
      }
      assert data[..|data|] == data;
    }

    // Deletes one key after the other; a key given twice is only there to delete once.
    method DeleteMany(keys: seq<Key>) returns (count: nat)
      modifies this
      ensures entries == old(entries) - ToSet(keys) && count == Present(old(entries), ToSet(keys))
    {
      count := 0;
      assert Found(entries, ToSet([])) == {};
      for i := 0 to |keys|
        invariant entries == old(entries) - ToSet(keys[..i])
        invariant count == Present(old(entries), ToSet(keys[..i]))
      {
        DeletedOneMore(old(entries), keys, i);
        var deleted := Delete(keys[i]);
        if deleted {
          count := count + 1;
        }
      }
      assert keys[..|keys|] == keys;
    }

    method List(o: ListOptions) returns (names: seq<Name>)
      requires IsPlain(o)
      ensures names == FirstMatching(o, entries.Keys)
    {
      var keys := KeysOf(entries);
      names := ListStore(o, keys);
    }
  }

  // All keys of a map, in some order.
  method KeysOf<V>(m: map<Key, V>) returns (keys: seq<Key>)
    ensures Distinct(keys) && Names(keys) == m.Keys
  {
    keys := [];
    var rest := m.Keys;
    while rest != {}
      invariant Distinct(keys) && Names(keys) !! rest && Names(keys) + rest == m.Keys
      decreases |rest|
    {
      var k :| k in rest;
      assert k !in Names(keys);
      NamesAppend(keys, k);
      assert forall n :: n in keys ==> n in Names(keys);
      keys, rest := keys + [k], rest - {k};
    }
  }

  // The entries a list of pairs makes; a later pair for a key replaces an earlier one.
  function ToMap(data: seq<(Key, Value)>): Store {
    if data == [] then map[] else ToMap(data[..|data| - 1])[data[|data| - 1].0 := data[|data| - 1].1]
  }

  lemma LookupAppend(m: Store, keys: seq<Key>, i: nat)
    requires i < |keys|
    ensures LookupAll(m, keys[..i + 1]) == LookupAll(m, keys[..i]) + [Lookup(m, keys[i])]
    ensures CountFound(LookupAll(m, keys[..i + 1])) == CountFound(LookupAll(m, keys[..i])) + if keys[i] in m then 1 else 0
  {
    var longer, shorter := LookupAll(m, keys[..i + 1]), LookupAll(m, keys[..i]);
    assert longer[..|longer| - 1] == shorter;
  }

  lemma DeletedOneMore(m: Store, keys: seq<Key>, i: nat)
    requires i < |keys|
    ensures ToSet(keys[..i + 1]) == ToSet(keys[..i]) + {keys[i]}
    ensures Present(m, ToSet(keys[..i + 1])) == Present(m, ToSet(keys[..i])) + if keys[i] in m - ToSet(keys[..i]) then 1 else 0
  {
    var before, after := Found(m, ToSet(keys[..i])), Found(m, ToSet(keys[..i + 1]));
    assert keys[..i + 1] == keys[..i] + [keys[i]];
    if keys[i] in m - ToSet(keys[..i]) {
      assert after == before + {keys[i]};
    } else {
      assert after == before;
    }
  }

  // Copies of puts and deletes over an inner storage, which is the backing store or, for a
  // transaction, the shadow `under` this one. Only a transaction's shadow records reads.
  class ShadowStorage {
    const backing: Backing
    const under: ShadowStorage?
    const recordReads: bool
    var readSet: set<Key>
    var copies: Copies

    ghost predicate Wired()
      decreases under != null
    {
      under != null ==> under.under == null && under.backing == backing && !under.recordReads
    }

    ghost function Below(): set<object> {
      {backing} + if under == null then {} else {under}
    }

    // What the inner storage shows.
    ghost function InnerView(): Store
      reads Below()
    {
      if under == null then backing.entries else View(under.copies, backing.entries)
    }

    ghost function Shown(): Store
      reads this, Below()
    {
      View(copies, InnerView())
    }

    constructor OverBacking(backing: Backing)
      ensures Wired() && this.backing == backing && under == null && !recordReads && copies == map[] && readSet == {}
    {
      this.backing, under, recordReads := backing, null, false;
      copies, readSet := map[], {};
    }

    constructor OverShadow(inner: ShadowStorage)
      requires inner.Wired() && inner.under == null && !inner.recordReads
      ensures Wired() && this.backing == inner.backing && under == inner && recordReads && copies == map[] && readSet == {}
    {
      this.backing, under, recordReads := inner.backing, inner, true;
      copies, readSet := map[], {};
    }

    ghost function ReadsAfter(keys: set<Key>): set<Key>
      reads this
    {
      if recordReads then readSet + keys else readSet
    }

    method RecordReads(keys: set<Key>)
      modifies if recordReads then {this} else {}
      ensures copies == old(copies) && readSet == old(ReadsAfter(keys))
    {
      if recordReads {
        readSet := readSet + keys;
      }
    }

    method HasMany(keys: seq<Key>) returns (count: nat)
      requires Wired()
      modifies if recordReads then {this} else {}
      ensures copies == old(copies) && readSet == old(ReadsAfter(ToSet(keys)))
      ensures count == CountFound(LookupAll(old(Shown()), keys))
      decreases under != null, 1
    {
      RecordReads(ToSet(keys));
      if copies == map[] {
        ViewEmpty(InnerView());
        count := InnerHasMany(keys);
        return;
      }
      var known, innerHasKeys := CountInCopies(keys);
      var innerCount := InnerHasMany(innerHasKeys);
      count := known + innerCount;
    }

    // Counts the keys that copies show, and returns those without a copy.
    method CountInCopies(keys: seq<Key>) returns (count: nat, innerKeys: seq<Key>)
      requires Wired()
      ensures count + CountFound(LookupAll(InnerView(), innerKeys)) == CountFound(LookupAll(Shown(), keys))
    {
      count, innerKeys := 0, [];
      for i := 0 to |keys|
        invariant count + CountFound(LookupAll(InnerView(), innerKeys)) == CountFound(LookupAll(Shown(), keys[..i]))
      {
        LookupAppend(Shown(), keys, i);
        if keys[i] in copies {
          // A deleted key has a copy without a value and is not counted.
          if copies[keys[i]].Some? {
            count := count + 1;
          }
        } else {
          AppendLookup(InnerView(), innerKeys, keys[i]);
          innerKeys := innerKeys + [keys[i]];
          assert Lookup(Shown(), keys[i]) == Lookup(InnerView(), keys[i]);
        }
      }
      assert keys[..|keys|] == keys;
    }

    method InnerHasMany(keys: seq<Key>) returns (count: nat)
      requires Wired()
      ensures count == CountFound(LookupAll(InnerView(), keys))
      decreases under != null, 0
    {
      if under == null {
        count := backing.HasMany(keys);
      } else {
        count := under.HasMany(keys);
      }
    }

    // The values of keys without a copy are fetched in one batch and put in their places.
    method GetMany(keys: seq<Key>) returns (result: seq<Option<Value>>)
      requires Wired()
      modifies if recordReads then {this} else {}
      ensures copies == old(copies) && readSet == old(ReadsAfter(ToSet(keys)))
      ensures result == LookupAll(old(Shown()), keys)
      decreases under != null, 1
    {
      RecordReads(ToSet(keys));
      if copies == map[] {
        ViewEmpty(InnerView());
        result := InnerGetMany(keys);
        return;
      }
      var values := new Option<Value>[|keys|](_ => None);
      var innerGetKeys, innerGetIndices := FillFromCopies(keys, values);
      FillFromInner(keys, innerGetKeys, innerGetIndices, values);
      result := values[..];
      forall j | 0 <= j < |keys| ensures result[j] == Lookup(Shown(), keys[j]) {
        assert keys[j] !in copies <==> j in innerGetIndices;
      }
    }

    // Fetches the other values and puts each in its place.
    method FillFromInner(keys: seq<Key>, innerKeys: seq<Key>, indices: seq<nat>, values: array<Option<Value>>)
      requires Wired() && values.Length == |keys| && |innerKeys| == |indices|
      requires forall j | 0 <= j < |indices| :: indices[j] < |keys| && innerKeys[j] == keys[indices[j]]
      modifies values
      ensures forall j | 0 <= j < |keys| && j !in indices :: values[j] == old(values[j])
      ensures forall j | j in indices && 0 <= j < |keys| :: values[j] == Lookup(InnerView(), keys[j])
      decreases under != null, 0, 1
    {
      if innerKeys == [] {
        return;
      }
      var innerGetResult := InnerGetMany(innerKeys);
      for i := 0 to |innerKeys|
        modifies values
        invariant forall j | 0 <= j < |keys| && j !in indices :: values[j] == old(values[j])
        invariant forall j | 0 <= j < i :: values[indices[j]] == Lookup(InnerView(), keys[indices[j]])
      {
        assert indices[i] in indices;
        values[indices[i]] := innerGetResult[i];
      }
    }

    // Fills in the values that copies give, and returns the keys and places of the others.
    method FillFromCopies(keys: seq<Key>, values: array<Option<Value>>) returns (innerKeys: seq<Key>, indices: seq<nat>)
      requires values.Length == |keys|
      modifies values
      ensures |innerKeys| == |indices|
      ensures forall j | 0 <= j < |indices| :: indices[j] < |keys| && innerKeys[j] == keys[indices[j]]
      ensures forall j | j in indices :: j < |keys| && keys[j] !in copies
      ensures forall j | 0 <= j < |keys| :: if keys[j] in copies then values[j] == copies[keys[j]] else j in indices
    {
      innerKeys, indices := [], [];
      for i := 0 to |keys|
        invariant |innerKeys| == |indices|
        invariant forall j | 0 <= j < |indices| :: indices[j] < i && innerKeys[j] == keys[indices[j]]
        invariant forall j | j in indices :: j < i && keys[j] !in copies
        invariant forall j | 0 <= j < i :: if keys[j] in copies then values[j] == copies[keys[j]] else j in indices
      {
        if keys[i] in copies {
          values[i] := copies[keys[i]];
        } else {
          innerKeys, indices := innerKeys + [keys[i]], indices + [i];
        }
      }
    }

    method InnerGetMany(keys: seq<Key>) returns (values: seq<Option<Value>>)
      requires Wired()
      ensures values == LookupAll(InnerView(), keys)
      decreases under != null, 0, 0
    {
      if under == null {
        values := backing.GetMany(keys);
      } else {
        values := under.GetMany(keys);
      }
    }

    method Put(key: Key, value: Value)
      modifies this`copies
      ensures copies == old(copies)[key := Some(value)]
    {
      copies := copies[key := Some(value)];
    }

    method DeleteMany(keys: seq<Key>) returns (deleted: nat)
      requires Wired()
      modifies this
      ensures copies == old(copies) + Deletes(ToSet(keys)) && readSet == old(ReadsAfter(ToSet(keys)))
      ensures deleted == CountFound(LookupAll(old(Shown()), keys))
    {
      deleted := HasMany(keys);
      ghost var before := copies;
      for i := 0 to |keys|
        invariant copies == before + Deletes(ToSet(keys[..i]))
        invariant readSet == old(ReadsAfter(ToSet(keys)))
      {
        DeletesOneMore(before, keys, i);
        copies := copies[keys[i] := None];
      }
      assert keys[..|keys|] == keys;
    }

    // The listing of what this storage shows: names from below, less those deleted here and
    // with those added here, put in order and cut to the limit again.
    method List(o: ListOptions) returns (names: seq<Name>)
      requires Wired() && IsPlain(o)
      modifies if recordReads then {this} else {}
      ensures names == FirstMatching(o, old(Shown()).Keys)
      ensures copies == old(copies) && readSet == old(ReadsAfter(Names(names)))
      decreases under != null, 1
    {
      if copies == map[] {
        ViewEmpty(InnerView());
        names := InnerList(o);
      } else {
        names := ListMerged(o);
      }
      RecordReads(Names(names));
    }

    method ListMerged(o: ListOptions) returns (names: seq<Name>)
      requires Wired() && IsPlain(o)
      ensures names == FirstMatching(o, Shown().Keys)
      decreases under != null, 0, 1
    {
      var copyKeys := KeysOf(copies);
      var matching := Filter(o, copyKeys);
      var deletedMatchingCopies := CountDeleted(matching);
      var limit := if o.limit.Some? then Some(o.limit.value + deletedMatchingCopies) else None;
      var fetched := InnerList(o.(limit := limit));
      var merged := Merge(fetched, matching);
      MergedIsShown(o, matching, fetched, merged);
      names := Limited(o.limit, Sort(merged, o.reverse));
    }

    ghost function AddedOf(matching: seq<Name>): set<Name>
      reads this
    {
      set n | n in matching && n in copies && copies[n].Some?
    }

    ghost function GoneOf(matching: seq<Name>): set<Name>
      reads this
    {
      set n | n in matching && n in copies && copies[n].None?
    }

    // Each inner name not deleted here, then each added name not among them.
    method Merge(fetched: seq<Name>, matching: seq<Name>) returns (merged: seq<Name>)
      requires Distinct(fetched) && Distinct(matching) && Names(matching) <= copies.Keys
      ensures Distinct(merged) && Names(merged) == (Names(fetched) - GoneOf(matching)) + AddedOf(matching)
    {
      merged := [];
      for i := 0 to |fetched|
        invariant Distinct(merged) && Names(merged) == Names(fetched[..i]) - GoneOf(matching)
      {
        assert fetched[..i + 1] == fetched[..i] + [fetched[i]];
        NamesAppend(fetched[..i], fetched[i]);
        assert fetched[i] !in Names(fetched[..i]);
        if !(fetched[i] in matching && copies[fetched[i]].None?) {
          merged := AppendNew(merged, fetched[i]);
        }
      }
      assert fetched[..|fetched|] == fetched;
      for i := 0 to |matching|
        invariant Distinct(merged)
        invariant Names(merged) == (Names(fetched) - GoneOf(matching)) + AddedOf(matching[..i])
      {
        assert matching[..i + 1] == matching[..i] + [matching[i]];
        if copies[matching[i]].Some? && matching[i] !in fetched {
          assert matching[i] !in matching[..i];
          merged := AppendNew(merged, matching[i]);
        }
      }
      assert matching[..|matching|] == matching;
    }

    method CountDeleted(matching: seq<Name>) returns (count: nat)
      requires Distinct(matching) && Names(matching) <= copies.Keys
      ensures count == |GoneOf(matching)|
    {
      count := 0;
      assert GoneOf([]) == {};
      for i := 0 to |matching|
        invariant count == |GoneOf(matching[..i])|
      {
        assert matching[..i + 1] == matching[..i] + [matching[i]];
        assert matching[i] in Names(matching);
        if copies[matching[i]].None? {
          assert GoneOf(matching[..i + 1]) == GoneOf(matching[..i]) + {matching[i]};
          assert matching[i] !in matching[..i];
          count := count + 1;
        } else {
          assert GoneOf(matching[..i + 1]) == GoneOf(matching[..i]);
        }
      }
      assert matching[..|matching|] == matching;
    }

    method InnerList(o: ListOptions) returns (names: seq<Name>)
      requires Wired() && IsPlain(o)
      ensures names == FirstMatching(o, InnerView().Keys) && Distinct(names)
      decreases under != null, 0, 0
    {
      if under == null {
        names := backing.List(o);
      } else {
        names := under.List(o);
      }
      LimitedDistinct(o.limit, InOrder(Matching(o, InnerView().Keys), o.reverse), o.reverse);
    }

    lemma MergedIsShown(o: ListOptions, matching: seq<Name>, fetched: seq<Name>, merged: seq<Name>)
      requires Names(matching) == Matching(o, copies.Keys)
      requires var limit := if o.limit.Some? then Some(o.limit.value + |GoneOf(matching)|) else None;
               fetched == FirstMatching(o.(limit := limit), InnerView().Keys)
      requires Distinct(merged) && Names(merged) == (Names(fetched) - GoneOf(matching)) + AddedOf(matching)
      ensures Limited(o.limit, Sort(merged, o.reverse)) == FirstMatching(o, Shown().Keys)
    {
      ShownMatching(o, matching);
      assert AddedOf(matching) !! GoneOf(matching);
      MergeIsListing(o, InnerView().Keys, Shown().Keys, AddedOf(matching), GoneOf(matching), fetched, merged);
    }

    lemma ShownMatching(o: ListOptions, matching: seq<Name>)
      requires Names(matching) == Matching(o, copies.Keys)
      ensures Matching(o, Shown().Keys) == (Matching(o, InnerView().Keys) - GoneOf(matching)) + AddedOf(matching)
    {
      forall n ensures n in matching <==> n in copies && FilterMatch(o, n) {
        assert n in matching <==> n in Names(matching);
      }
    }
  }

  method AppendNew(names: seq<Name>, n: Name) returns (longer: seq<Name>)
    requires Distinct(names) && n !in Names(names)
    ensures Distinct(longer) && longer == names + [n] && Names(longer) == Names(names) + {n}
  {
    NamesAppend(names, n);
    assert forall m :: m in names ==> m in Names(names);
    longer := names + [n];
  }

  lemma DeletesOneMore(copies: Copies, keys: seq<Key>, i: nat)
    requires i < |keys|
    ensures (copies + Deletes(ToSet(keys[..i])))[keys[i] := None] == copies + Deletes(ToSet(keys[..i + 1]))
  {
    assert keys[..i + 1] == keys[..i] + [keys[i]];
    assert ToSet(keys[..i + 1]) == ToSet(keys[..i]) + {keys[i]};
  }

  lemma LimitedDistinct(limit: Option<nat>, names: seq<Name>, reverse: bool)
    requires Sorted(names, reverse)
    ensures Distinct(Limited(limit, names))
  {
    SortedDistinct(names, reverse);
  }

  // The listing of an overlay from a listing of what is below it.
  lemma MergeIsListing(o: ListOptions, inner: set<Name>, shown: set<Name>, added: set<Name>, gone: set<Name>,
                       fetched: seq<Name>, merged: seq<Name>)
    requires Matching(o, shown) == (Matching(o, inner) - gone) + added && added !! gone
    requires fetched == FirstMatching(o.(limit := if o.limit.Some? then Some(o.limit.value + |gone|) else None), inner)
    requires Distinct(merged) && Names(merged) == (Names(fetched) - gone) + added
    ensures Limited(o.limit, Sort(merged, o.reverse)) == FirstMatching(o, shown)
  {
    var limit := if o.limit.Some? then Some(o.limit.value + |gone|) else None;
    var below := Matching(o, inner);
    assert Matching(o.(limit := limit), inner) == below;
    SortSorts(merged, o.reverse);
    SortedUnique(Sort(merged, o.reverse), InOrder(Names(merged), o.reverse), o.reverse);
    MergedFirsts(o, below, added, gone, Names(merged));
  }

  lemma MergedFirsts(o: ListOptions, below: set<Name>, added: set<Name>, gone: set<Name>, merged: set<Name>)
    requires added !! gone
    requires var limit := if o.limit.Some? then Some(o.limit.value + |gone|) else None;
             merged == (Names(Limited(limit, InOrder(below, o.reverse))) - gone) + added
    ensures Limited(o.limit, InOrder(merged, o.reverse)) == Limited(o.limit, InOrder((below - gone) + added, o.reverse))
  {
    if o.limit.Some? {
      var n := o.limit.value;
      assert o.limit == Some(n) && merged == (Names(Limited(Some(n + |gone|), InOrder(below, o.reverse))) - gone) + added;
      OverFetch(below, added, gone, n, o.reverse);
    } else {
      assert merged == (below - gone) + added;
    }
  }
}
