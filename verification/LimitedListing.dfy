/** Listings without delimiter: the first names in order, and how fetching a few more than
    wanted from below makes up for names deleted above. */
module LimitedListing {
  import opened Common
  import opened Order
  import opened Listing

  function Limited(limit: Option<nat>, names: seq<Name>): seq<Name> {
    if limit.Some? && limit.value < |names| then names[..limit.value] else names
  }

  ghost function Matching(o: ListOptions, keys: set<Name>): set<Name> {
    set n | n in keys && FilterMatch(o, n)
  }

  // The listing of a store: its first `limit` matching names in order.
  ghost function FirstMatching(o: ListOptions, keys: set<Name>): seq<Name> {
    Limited(o.limit, InOrder(Matching(o, keys), o.reverse))
  }

  // Listings that a Durable Object makes: no cursor, no delimiter, and a limit that is positive.
  predicate IsPlain(o: ListOptions) {
    o.cursor == [] && o.delimiter.None? && o.limit != Some(0)
  }

  // What is left of a limit.
  function Left(limit: Option<nat>, count: nat): Option<nat>
    requires limit.Some? ==> count <= limit.value
  {
    if limit.Some? then Some(limit.value - count) else None
  }

  lemma {:induction false} PlainPage(o: ListOptions, names: seq<Name>, i: nat, count: nat)
    requires IsPlain(o) && i <= |names| && !LimitReached(o.limit, count)
    ensures Singles(Page(o, names, i, count).0) == Limited(Left(o.limit, count), names[i..])
    decreases |names| - i
  {
    if i < |names| {
      SinglesUnfold(o, names, i, count);
      LimitedUnfolds(Left(o.limit, count), names, i);
      if !LimitReached(o.limit, count + 1) {
        PlainPage(o, names, i + 1, count + 1);
      }
    }
  }

  lemma SinglesUnfold(o: ListOptions, names: seq<Name>, i: nat, count: nat)
    requires IsPlain(o) && i < |names|
    ensures Singles(Page(o, names, i, count).0)
         == [names[i]] + if LimitReached(o.limit, count + 1) then [] else Singles(Page(o, names, i + 1, count + 1).0)
  {
    var rest := if LimitReached(o.limit, count + 1) then [] else Page(o, names, i + 1, count + 1).0;
    assert GroupOf(o, names[i]) == Single(names[i]);
    assert Page(o, names, i, count).0 == [Single(names[i])] + rest;
    SinglesHead(Single(names[i]), rest);
  }

  lemma LimitedUnfolds(limit: Option<nat>, names: seq<Name>, i: nat)
    requires limit != Some(0) && i < |names|
    ensures Limited(limit, names[i..]) == [names[i]] + if limit == Some(1) then [] else Limited(Left(limit, 1), names[i + 1..])
  {
    assert names[i..] == [names[i]] + names[i + 1..];
  }

  // A backing store lists by filtering its keys and paginating them.
  method ListStore(o: ListOptions, keys: seq<Name>) returns (names: seq<Name>)
    requires Distinct(keys) && IsPlain(o)
    ensures names == FirstMatching(o, Names(keys))
  {
    var matching := Filter(o, keys);
    var prefixes, cursor;
    names, prefixes, cursor := ListPaginate(o, matching);
    SortSorts(matching, o.reverse);
    SortedUnique(Sort(matching, o.reverse), InOrder(Matching(o, Names(keys)), o.reverse), o.reverse);
    PlainPage(o, Sort(matching, o.reverse), 0, 0);
    assert Sort(matching, o.reverse)[0..] == Sort(matching, o.reverse);
  }

  method Filter(o: ListOptions, keys: seq<Name>) returns (matching: seq<Name>)
    requires Distinct(keys)
    ensures Distinct(matching) && Names(matching) == Matching(o, Names(keys))
  {
    matching := [];
    for i := 0 to |keys|
      invariant Distinct(matching) && Names(matching) == Matching(o, Names(keys[..i]))
    {
      assert keys[..i + 1] == keys[..i] + [keys[i]];
      NamesAppend(keys[..i], keys[i]);
      if FilterMatch(o, keys[i]) {
        assert keys[i] !in Names(keys[..i]);
        assert forall n :: n in matching ==> n in Names(matching);
        NamesAppend(matching, keys[i]);
        matching := matching + [keys[i]];
      }
    }
    assert keys[..|keys|] == keys;
  }

  lemma NamesAppend(names: seq<Name>, n: Name)
    ensures Names(names + [n]) == Names(names) + {n}
  {
  }

  // What options ask of a name: to begin with the prefix, not to begin with the one excluded,
  // and to lie from the start on and before the end.
  predicate Passes(o: ListOptions, n: Name) {
    && (o.prefix.Some? ==> StartsWith(n, o.prefix.value))
    && (o.excludePrefix.Some? ==> !StartsWith(n, o.excludePrefix.value))
    && (o.start.Some? ==> n == o.start.value || Less(o.start.value, n))
    && (o.end.Some? ==> Less(n, o.end.value))
  }

  predicate Follows(a: Name, b: Name, reverse: bool) {
    if reverse then Less(b, a) else Less(a, b)
  }

  // These names are the first there are of a set, in order, no more than the limit.
  ghost predicate AreFirst(r: seq<Name>, all: set<Name>, limit: Option<nat>, reverse: bool) {
    && (forall i, j | 0 <= i < j < |r| :: Follows(r[i], r[j], reverse))
    && (forall n | n in r :: n in all)
    && (forall n, m | n in all && n !in r && m in r :: Follows(m, n, reverse))
    && (limit.Some? ==> |r| <= limit.value)
    && (limit.None? || |r| < limit.value ==> forall n | n in all :: n in r)
  }

  lemma LimitedFirst(all: set<Name>, limit: Option<nat>, reverse: bool)
    ensures AreFirst(Limited(limit, InOrder(all, reverse)), all, limit, reverse)
  {
    var s := InOrder(all, reverse);
    var r := Limited(limit, s);
    assert r == s[..|r|];
    forall n | n in all ensures n in s {
      assert n in Names(s);
    }
    forall n | n in r ensures n in all {
      assert n in Names(s);
    }
    forall i, j | 0 <= i < j < |r| ensures Follows(r[i], r[j], reverse) {
      assert Before(s[i], s[j], reverse);
    }
    forall n, m | n in all && n !in r && m in r ensures Follows(m, n, reverse) {
      PrefixComesFirst(s, |r|, reverse, m, n);
    }
  }

  // A store lists the first of the keys that pass, up to the limit.
  lemma FirstMatchingExact(o: ListOptions, keys: set<Name>)
    ensures AreFirst(FirstMatching(o, keys), (set n | n in keys && Passes(o, n)), o.limit, o.reverse)
  {
    assert Matching(o, keys) == set n | n in keys && Passes(o, n) by {
      forall n ensures FilterMatch(o, n) <==> Passes(o, n) {
        FilterMeans(o, n);
      }
    }
    LimitedFirst(Matching(o, keys), o.limit, o.reverse);
  }

  lemma FilterMeans(o: ListOptions, n: Name)
    ensures FilterMatch(o, n) <==> Passes(o, n)
  {
    if o.start.Some? {
      Total(n, o.start.value);
      Asymmetric(n, o.start.value);
      Irreflexive(n);
    }
  }

  // --- When the first names of a subset are those of the whole -----------------------------------

  lemma {:induction false} NamesSize(names: seq<Name>)
    ensures |Names(names)| <= |names| && (Distinct(names) ==> |Names(names)| == |names|)
  {
    if names != [] {
      var rest := names[..|names| - 1];
      NamesSize(rest);
      assert names == rest + [names[|names| - 1]];
      assert Names(names) == Names(rest) + {names[|names| - 1]};
    }
  }

  lemma SubsetSize(a: set<Name>, b: set<Name>)
    requires a <= b
    ensures |a| <= |b|
  {
    assert b == a + (b - a);
  }

  ghost function Earlier(keys: set<Name>, n: Name, reverse: bool): set<Name> {
    set k | k in keys && Before(k, n, reverse)
  }

  // Names missing from the subset all have at least `limit` of its names before them.
  ghost predicate MissingAreLate(subset: set<Name>, all: set<Name>, limit: nat, reverse: bool) {
    forall n | n in all - subset :: |Earlier(subset, n, reverse)| >= limit
  }

  lemma FirstsNotMissing(subset: set<Name>, all: set<Name>, limit: nat, reverse: bool, i: nat)
    requires subset <= all && MissingAreLate(subset, all, limit, reverse) && i < limit && i < |InOrder(all, reverse)|
    ensures InOrder(all, reverse)[i] in subset
  {
    var s := InOrder(all, reverse);
    EarlierInPrefix(subset, s, i, reverse);
    NamesSize(s[..i]);
    SubsetSize(Earlier(subset, s[i], reverse), Names(s[..i]));
    assert s[i] in Names(s);
  }

  lemma EarlierInPrefix(subset: set<Name>, s: seq<Name>, i: nat, reverse: bool)
    requires Sorted(s, reverse) && subset <= Names(s) && i < |s|
    ensures Earlier(subset, s[i], reverse) <= Names(s[..i])
  {
    forall n | n in Earlier(subset, s[i], reverse) ensures n in Names(s[..i]) {
      var j :| 0 <= j < |s| && s[j] == n;
      Asymmetric(s[i], s[j]);
      Asymmetric(s[j], s[i]);
      InSequence(s, i, j, reverse);
      assert s[..i][j] == n;
    }
  }

  lemma InSequence(s: seq<Name>, i: nat, j: nat, reverse: bool)
    requires Sorted(s, reverse) && i < |s| && j < |s|
    ensures i < j ==> Before(s[i], s[j], reverse)
  {
  }

  lemma InPrefix(s: seq<Name>, cut: nat, k: nat)
    requires cut <= |s| && k < |s|
    ensures k < cut ==> s[k] in Names(s[..cut])
  {
    if k < cut {
      assert s[..cut][k] == s[k];
    }
  }

  // A prefix of a sorted sequence comes before all its other members.
  lemma PrefixComesFirst(s: seq<Name>, cut: nat, reverse: bool, a: Name, b: Name)
    requires Sorted(s, reverse) && cut <= |s| && a in Names(s[..cut]) && b in Names(s) - Names(s[..cut])
    ensures Before(a, b, reverse)
  {
    var i :| 0 <= i < cut && s[..cut][i] == a;
    var k :| 0 <= k < |s| && s[k] == b;
    InPrefix(s, cut, k);
  }

  lemma PrefixThenRest(s: seq<Name>, cut: nat, subset: set<Name>, reverse: bool)
    requires Sorted(s, reverse) && cut <= |s| && Names(s[..cut]) <= subset <= Names(s)
    ensures InOrder(subset, reverse) == s[..cut] + InOrder(subset - Names(s[..cut]), reverse)
  {
    var top, rest := s[..cut], InOrder(subset - Names(s[..cut]), reverse);
    forall i, j | 0 <= i < |top| && 0 <= j < |rest| ensures Before(top[i], rest[j], reverse) {
      assert top[i] in Names(top) && rest[j] in Names(rest);
      PrefixComesFirst(s, cut, reverse, top[i], rest[j]);
    }
    assert Names(top + rest) == Names(top) + Names(rest);
    SortedUnique(top + rest, InOrder(subset, reverse), reverse);
  }

  lemma FirstsAgree(subset: set<Name>, all: set<Name>, limit: nat, reverse: bool)
    requires subset <= all && MissingAreLate(subset, all, limit, reverse)
    ensures Limited(Some(limit), InOrder(subset, reverse)) == Limited(Some(limit), InOrder(all, reverse))
  {
    var s := InOrder(all, reverse);
    var cut := if limit < |s| then limit else |s|;
    forall n | n in Names(s[..cut]) ensures n in subset {
      var i :| 0 <= i < cut && s[..cut][i] == n;
      FirstsNotMissing(subset, all, limit, reverse, i);
    }
    PrefixThenRest(s, cut, subset, reverse);
    if limit < |s| {
      assert InOrder(subset, reverse)[..limit] == s[..limit];
    } else {
      assert s[..cut] == s;
    }
  }

  // Fetching as many more as are deleted above leaves enough: the fetched names, less the
  // deleted and with the added ones, have the same first `limit` as the whole overlay.
  lemma OverFetch(inner: set<Name>, added: set<Name>, gone: set<Name>, limit: nat, reverse: bool)
    requires added !! gone
    ensures var fetched := Names(Limited(Some(limit + |gone|), InOrder(inner, reverse)));
            Limited(Some(limit), InOrder((fetched - gone) + added, reverse))
            == Limited(Some(limit), InOrder((inner - gone) + added, reverse))
  {
    var s := InOrder(inner, reverse);
    var fetched := Names(Limited(Some(limit + |gone|), s));
    var subset, all := (fetched - gone) + added, (inner - gone) + added;
    forall n | n in all - subset ensures |Earlier(subset, n, reverse)| >= limit {
      assert n in Names(s);
      var k :| 0 <= k < |s| && s[k] == n;
      var f := Limited(Some(limit + |gone|), s);
      InPrefix(s, |f|, k);
      assert f == s[..|f|] && |f| == limit + |gone|;
      forall m | m in fetched - gone ensures m in Earlier(subset, n, reverse) {
        var j :| 0 <= j < |f| && f[j] == m;
        assert Before(s[j], s[k], reverse);
      }
      SortedDistinct(s, reverse);
      NamesSize(f);
      SubsetSize(fetched - gone, Earlier(subset, n, reverse));
      FewerByAtMost(fetched, gone);
    }
    assert fetched <= inner by {
      forall n | n in fetched ensures n in Names(s) {
      }
    }
    FirstsAgree(subset, all, limit, reverse);
  }

  lemma FewerByAtMost(a: set<Name>, b: set<Name>)
    ensures |a - b| >= |a| - |b|
  {
    SubsetSize(a, (a - b) + b);
  }
}
