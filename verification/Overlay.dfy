/** A map of shadow copies laid over an inner key-value store. A copy of `None`
    records a deletion, `Some(v)` a put; a key without a copy shows the inner value. */
module Overlay {
  import opened Common

  type Key = Bytes
  type Value = Bytes
  type Store = map<Key, Value>
  type Copies = map<Key, Option<Value>>

  function Lookup(m: Store, k: Key): Option<Value> {
    if k in m then Some(m[k]) else None
  }

  function View(copies: Copies, inner: Store): (v: Store)
    ensures forall k :: Lookup(v, k) == if k in copies then copies[k] else Lookup(inner, k)
  {
    map k | k in inner.Keys + copies.Keys && (k in copies ==> copies[k].Some?) ::
      if k in copies then copies[k].value else inner[k]
  }

  // The copies that a put, or a delete, of these keys writes.
  function Puts(entries: Store): Copies {
    map k | k in entries :: Some(entries[k])
  }

  function Deletes(keys: set<Key>): Copies {
    map k | k in keys :: None
  }

  function ToSet(keys: seq<Key>): set<Key> {
    set k | k in keys
  }

  function Found(m: Store, keys: set<Key>): set<Key> {
    set k | k in keys && k in m
  }

  // How many of these keys the store holds.
  function Present(m: Store, keys: set<Key>): nat {
    |Found(m, keys)|
  }

  lemma SameStore(a: Store, b: Store)
    requires forall k :: Lookup(a, k) == Lookup(b, k)
    ensures a == b
  {
    forall k ensures k in a <==> k in b {
      assert Lookup(a, k) == Lookup(b, k);
    }
    forall k | k in a ensures a[k] == b[k] {
      assert Lookup(a, k) == Lookup(b, k);
    }
  }

  // Two layers of copies act like their merge.
  lemma ViewMerge(older: Copies, newer: Copies, inner: Store)
    ensures View(older + newer, inner) == View(newer, View(older, inner))
  {
    SameStore(View(older + newer, inner), View(newer, View(older, inner)));
  }

  lemma ViewEmpty(inner: Store)
    ensures View(map[], inner) == inner
  {
    SameStore(View(map[], inner), inner);
  }

  lemma ViewPuts(entries: Store, m: Store)
    ensures View(Puts(entries), m) == m + entries
  {
    SameStore(View(Puts(entries), m), m + entries);
  }

  lemma ViewAfterPut(copies: Copies, entries: Store, inner: Store)
    ensures View(copies + Puts(entries), inner) == View(copies, inner) + entries
  {
    ViewMerge(copies, Puts(entries), inner);
    ViewPuts(entries, View(copies, inner));
  }

  lemma ViewAfterDelete(copies: Copies, keys: set<Key>, inner: Store)
    ensures View(copies + Deletes(keys), inner) == View(copies, inner) - keys
  {
    ViewMerge(copies, Deletes(keys), inner);
    ViewDeletes(keys, View(copies, inner));
  }

  lemma ViewDeletes(keys: set<Key>, m: Store)
    ensures View(Deletes(keys), m) == m - keys
  {
    SameStore(View(Deletes(keys), m), m - keys);
  }
}
