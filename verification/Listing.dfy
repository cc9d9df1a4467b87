/** Filtering, grouping by delimiter and paginating a listing. */
module Listing {
  import opened Common
  import opened Order

  // A delimiter that is given is not empty: R2Bucket.list drops an empty one before listing.
  // An empty cursor means the start; any other is the encoding of a name, and stands for it.
  datatype ListOptions = ListOptions(
    prefix: Option<Name>,
    excludePrefix: Option<Name>,
    start: Option<Name>,
    end: Option<Name>,
    reverse: bool,
    cursor: Name,
    limit: Option<nat>,
    delimiter: Option<Name>)

  predicate FilterMatch(o: ListOptions, name: Name) {
    !(|| (o.prefix.Some? && !StartsWith(name, o.prefix.value))
      || (o.excludePrefix.Some? && StartsWith(name, o.excludePrefix.value))
      || (o.start.Some? && Less(name, o.start.value))
      || (o.end.Some? && !Less(name, o.end.value)))
  }

  // --- Groups --------------------------------------------------------------------------------

  // A name is listed as itself or under its delimited prefix.
  datatype Group = Single(name: Name) | Delimited(prefix: Name)

  // The first place where d occurs in s.
  function Find(s: Name, d: Name): (r: Option<nat>)
    ensures r.Some? ==> r.value <= |s|
  {
    if StartsWith(s, d) then Some(0)
    else if s == [] then None
    else match Find(s[1..], d) case None => None case Some(n) => Some(n + 1)
  }

  function PrefixOf(o: ListOptions): Name {
    if o.prefix.Some? then o.prefix.value else []
  }

  function GroupOf(o: ListOptions, name: Name): Group {
    if o.delimiter.None? || !StartsWith(name, PrefixOf(o)) then Single(name)
    else
      var objectKey := name[|PrefixOf(o)|..];
      match Find(objectKey, o.delimiter.value)
      case None => Single(name)
      case Some(n) => Delimited(PrefixOf(o) + objectKey[..n] + o.delimiter.value)
  }

  predicate OccursAt(s: Name, d: Name, j: nat) {
    j + |d| <= |s| && s[j..j + |d|] == d
  }

  ghost predicate FirstAt(s: Name, d: Name, n: nat) {
    OccursAt(s, d, n) && forall j | 0 <= j < n :: !OccursAt(s, d, j)
  }

  lemma OccursShift(s: Name, d: Name, j: nat)
    requires s != []
    ensures OccursAt(s, d, j + 1) <==> OccursAt(s[1..], d, j)
  {
    assert j + 1 + |d| <= |s| ==> s[j + 1..j + 1 + |d|] == s[1..][j..j + |d|];
  }

  lemma FirstShift(s: Name, d: Name, n: nat)
    requires s != [] && !OccursAt(s, d, 0)
    ensures FirstAt(s, d, n + 1) <==> FirstAt(s[1..], d, n)
  {
    forall j: nat ensures OccursAt(s, d, j + 1) <==> OccursAt(s[1..], d, j) {
      OccursShift(s, d, j);
    }
    if FirstAt(s[1..], d, n) {
      forall j | 0 <= j < n + 1 ensures !OccursAt(s, d, j) {
        assert j > 0 ==> !OccursAt(s[1..], d, j - 1);
      }
    }
  }

  lemma {:induction false} FindMeans(s: Name, d: Name, n: nat)
    ensures Find(s, d) == Some(n) <==> FirstAt(s, d, n)
  {
    assert StartsWith(s, d) <==> OccursAt(s, d, 0);
    if !StartsWith(s, d) && s != [] && n != 0 {
      FindMeans(s[1..], d, n - 1);
      FirstShift(s, d, n - 1);
    }
  }

  lemma OccursSame(s: Name, t: Name, d: Name, j: nat, m: nat)
    requires j + |d| <= m <= |s| && m <= |t| && s[..m] == t[..m]
    ensures OccursAt(s, d, j) <==> OccursAt(t, d, j)
  {
    assert s[j..j + |d|] == s[..m][j..j + |d|];
    assert t[j..j + |d|] == t[..m][j..j + |d|];
  }

  // The first occurrence is decided by the text up to its end.
  lemma SameFirst(s: Name, t: Name, d: Name, n: nat, m: nat)
    requires Find(s, d) == Some(n) && m == n + |d| <= |s| && m <= |t| && s[..m] == t[..m]
    ensures Find(t, d) == Some(n)
  {
    FindMeans(s, d, n);
    FindMeans(t, d, n);
    OccursSame(s, t, d, n, m);
    forall j | 0 <= j < n ensures !OccursAt(t, d, j) {
      OccursSame(s, t, d, j, m);
    }
  }

  lemma DelimitedShape(o: ListOptions, name: Name, p: Name)
    requires GroupOf(o, name) == Delimited(p)
    ensures StartsWith(name, p) && |PrefixOf(o)| <= |p| && StartsWith(p, PrefixOf(o))
  {
    var prefix, s, d := PrefixOf(o), name[|PrefixOf(o)|..], o.delimiter.value;
    UpToDelimiter(prefix, s, d, Find(s, d).value);
    assert name == prefix + s;
  }

  lemma UpToDelimiter(prefix: Name, s: Name, d: Name, n: nat)
    requires Find(s, d) == Some(n)
    ensures n <= |s| && StartsWith(prefix + s, prefix + s[..n] + d) && StartsWith(prefix + s[..n] + d, prefix)
  {
    FindMeans(s, d, n);
    assert s[..n] + d == s[..n + |d|];
    assert prefix + s[..n] + d == prefix + s[..n + |d|];
    assert (prefix + s)[..|prefix| + n + |d|] == prefix + s[..n + |d|];
  }

  // Starting with a delimited prefix is the same as having it as first-delimiter prefix.
  lemma DelimitedIsPrefix(o: ListOptions, name: Name, other: Name, p: Name)
    requires GroupOf(o, name) == Delimited(p)
    ensures StartsWith(other, p) <==> GroupOf(o, other) == Delimited(p)
  {
    DelimitedShape(o, name, p);
    if GroupOf(o, other) == Delimited(p) {
      DelimitedShape(o, other, p);
    }
    if StartsWith(other, p) {
      var prefix, s, d := PrefixOf(o), name[|PrefixOf(o)|..], o.delimiter.value;
      var n := Find(s, d).value;
      var t := other[|prefix|..];
      assert other[..|prefix|] == p[..|prefix|] && name[..|prefix|] == p[..|prefix|];
      assert s[..n + |d|] == p[|prefix|..] && t[..n + |d|] == p[|prefix|..];
      SameFirst(s, t, d, n, n + |d|);
      assert s[..n] == s[..n + |d|][..n] && t[..n] == t[..n + |d|][..n];
    }
  }

  // --- What grouping means -----------------------------------------------------------------------

  // The delimited prefix of a name: what it begins with up to and with the first delimiter
  // behind the prefix asked for.
  ghost predicate IsUnder(o: ListOptions, name: Name, p: Name) {
    exists base: Name, n: nat :: UnderAt(o, name, base, n) && p == base + name[|base|..][..n] + o.delimiter.value
  }

  // The delimiter first occurs n places behind the prefix.
  ghost predicate UnderAt(o: ListOptions, name: Name, base: Name, n: nat) {
    && (if o.prefix.Some? then base == o.prefix.value else base == [])
    && |base| <= |name| && name[..|base|] == base
    && o.delimiter.Some? && FirstAt(name[|base|..], o.delimiter.value, n)
  }

  lemma UnderAtMeans(o: ListOptions, name: Name, base: Name, n: nat)
    ensures UnderAt(o, name, base, n) <==>
            base == PrefixOf(o) && o.delimiter.Some? && StartsWith(name, base) && Find(name[|base|..], o.delimiter.value) == Some(n)
  {
    if o.delimiter.Some? && StartsWith(name, base) {
      FindMeans(name[|base|..], o.delimiter.value, n);
    }
  }

  ghost predicate IsPlainName(o: ListOptions, name: Name) {
    forall base: Name, n: nat :: !UnderAt(o, name, base, n)
  }

  lemma GroupMeans(o: ListOptions, name: Name, p: Name)
    ensures GroupOf(o, name) == Delimited(p) <==> IsUnder(o, name, p)
    ensures GroupOf(o, name) == Single(name) <==> IsPlainName(o, name)
    ensures GroupOf(o, name).Single? ==> GroupOf(o, name) == Single(name)
  {
    var base := PrefixOf(o);
    forall b: Name, n: nat
      ensures UnderAt(o, name, b, n) <==>
              b == base && o.delimiter.Some? && StartsWith(name, b) && Find(name[|b|..], o.delimiter.value) == Some(n)
    {
      UnderAtMeans(o, name, b, n);
    }
    if o.delimiter.Some? && StartsWith(name, base) && Find(name[|base|..], o.delimiter.value).Some? {
      assert UnderAt(o, name, base, Find(name[|base|..], o.delimiter.value).value);
    }
  }

  // --- Pages of a sorted listing ---------------------------------------------------------------

  function SkipPrefix(names: seq<Name>, i: nat, prefix: Name): (j: nat)
    requires i <= |names|
    ensures i <= j <= |names|
    ensures forall k | i <= k < j :: StartsWith(names[k], prefix)
    ensures j < |names| ==> !StartsWith(names[j], prefix)
    decreases |names| - i
  {
    if i < |names| && StartsWith(names[i], prefix) then SkipPrefix(names, i + 1, prefix) else i
  }

  // The place after the group that the i-th name belongs to.
  function NextGroup(o: ListOptions, names: seq<Name>, i: nat): (j: nat)
    requires i < |names|
    ensures i < j <= |names|
  {
    match GroupOf(o, names[i])
    case Single(_) => i + 1
    case Delimited(p) => DelimitedShape(o, names[i], p); SkipPrefix(names, i + 1, p)
  }

  predicate LimitReached(limit: Option<nat>, count: nat) {
    limit.Some? && count >= limit.value
  }

  // The groups from the i-th name on, `count` having been listed before, and the place the
  // page ends.
  function Page(o: ListOptions, names: seq<Name>, i: nat, count: nat): (r: (seq<Group>, nat))
    requires i <= |names|
    ensures i <= r.1 <= |names| && (i < |names| ==> i < r.1)
    decreases |names| - i
  {
    if i == |names| then ([], i)
    else
      var g, next := GroupOf(o, names[i]), NextGroup(o, names, i);
      if LimitReached(o.limit, count + 1) then ([g], next)
      else
        var rest := Page(o, names, next, count + 1);
        ([g] + rest.0, rest.1)
  }

  // No group has names on both sides of i, looking back as far as `from`.
  ghost predicate Boundary(o: ListOptions, names: seq<Name>, from: nat, i: nat) {
    forall a, b | from <= a < i <= b < |names| :: GroupOf(o, names[a]) != GroupOf(o, names[b])
  }

  // In a sorted listing the names of a group are contiguous, in either direction, so the
  // skipping loop passes over exactly one group.
  lemma GroupContiguous(o: ListOptions, names: seq<Name>, i: nat, k: nat)
    requires Sorted(names, o.reverse) && i < k < |names|
    ensures k < NextGroup(o, names, i) <==> GroupOf(o, names[k]) == GroupOf(o, names[i])
  {
    var next := NextGroup(o, names, i);
    SortedDistinct(names, o.reverse);
    match GroupOf(o, names[i])
    case Single(_) =>
      if GroupOf(o, names[k]).Single? {
        assert names[i] != names[k];
      }
    case Delimited(p) =>
      DelimitedIsPrefix(o, names[i], names[k], p);
      DelimitedShape(o, names[i], p);
      if next < k && StartsWith(names[k], p) {
        assert Before(names[i], names[next], o.reverse) && Before(names[next], names[k], o.reverse);
        Between(names[i], names[next], names[k], p);
      }
  }

  lemma NextBoundary(o: ListOptions, names: seq<Name>, from: nat, i: nat)
    requires Sorted(names, o.reverse) && from <= i < |names| && Boundary(o, names, from, i)
    ensures Boundary(o, names, from, NextGroup(o, names, i))
  {
    var next := NextGroup(o, names, i);
    forall a, b | from <= a < next <= b < |names| ensures GroupOf(o, names[a]) != GroupOf(o, names[b]) {
      GroupContiguous(o, names, i, b);
      if i < a {
        GroupContiguous(o, names, i, a);
      }
    }
  }

  function Singles(groups: seq<Group>): seq<Name> {
    if groups == [] then []
    else Singles(groups[..|groups| - 1]) + match groups[|groups| - 1] case Single(n) => [n] case Delimited(_) => []
  }

  function Prefixes(groups: seq<Group>): seq<Name> {
    if groups == [] then []
    else Prefixes(groups[..|groups| - 1]) + match groups[|groups| - 1] case Single(_) => [] case Delimited(p) => [p]
  }

  lemma {:induction false} PrefixesMember(groups: seq<Group>, p: Name)
    ensures p in Prefixes(groups) <==> Delimited(p) in groups
    ensures |Singles(groups)| + |Prefixes(groups)| == |groups|
  {
    if groups != [] {
      PrefixesMember(groups[..|groups| - 1], p);
      assert groups == groups[..|groups| - 1] + [groups[|groups| - 1]];
    }
  }

  function IndexOf(names: seq<Name>, n: Name): (i: nat)
    ensures i <= |names| && (i < |names| <==> n in names) && (i < |names| ==> names[i] == n)
  {
    if names == [] || names[0] == n then 0 else 1 + IndexOf(names[1..], n)
  }

  // Where a listing with this cursor starts: after the name it stands for, or nowhere.
  function StartIndex(names: seq<Name>, cursor: Name): (i: nat)
    ensures i <= |names|
  {
    if cursor == [] then 0
    else if cursor in names then IndexOf(names, cursor) + 1
    else |names|
  }

  // The cursor of a page that ends at this place.
  function CursorAt(names: seq<Name>, end: nat): Name
    requires end <= |names|
  {
    if 0 < end < |names| then names[end - 1] else []
  }

  // Moves past all keys with this delimited prefix, to the first without.
  method MovePast(names: seq<Name>, from: nat, prefix: Name) returns (i: nat)
    requires from < |names| && StartsWith(names[from], prefix)
    ensures i == SkipPrefix(names, from + 1, prefix)
  {
    i := from;
    while i < |names|
      invariant from <= i <= |names|
      invariant forall k | from <= k < i :: StartsWith(names[k], prefix)
    {
      if !StartsWith(names[i], prefix) {
        break;
      }
      i := i + 1;
    }
    SkipIs(names, from + 1, i, prefix);
  }

  // What the loop has listed after it has moved from `from` to i.
  ghost predicate Listed(o: ListOptions, names: seq<Name>, from: nat, i: nat, done: seq<Group>) {
    && from <= i <= |names|
    && Boundary(o, names, from, i)
    && (forall g | g in done :: exists a :: from <= a < i && GroupOf(o, names[a]) == g)
    && Page(o, names, from, 0) == (done + Page(o, names, i, |done|).0, Page(o, names, i, |done|).1)
  }

  lemma NewGroup(o: ListOptions, names: seq<Name>, from: nat, i: nat, done: seq<Group>)
    requires Listed(o, names, from, i, done) && i < |names|
    ensures var g := GroupOf(o, names[i]);
            g !in done && (g.Delimited? ==> StartsWith(names[i], g.prefix) && g.prefix !in Prefixes(done))
  {
    var g := GroupOf(o, names[i]);
    if g.Delimited? {
      DelimitedShape(o, names[i], g.prefix);
      PrefixesMember(done, g.prefix);
    }
  }

  lemma Appended(done: seq<Group>, g: Group)
    ensures Singles(done + [g]) == Singles(done) + (if g.Single? then [g.name] else [])
    ensures Prefixes(done + [g]) == Prefixes(done) + (if g.Single? then [] else [g.prefix])
    ensures |Singles(done + [g])| + |Prefixes(done + [g])| == |done| + 1
  {
    PrefixesMember(done + [g], []);
    assert (done + [g])[..|done|] == done;
  }

  lemma PageNext(o: ListOptions, names: seq<Name>, from: nat, i: nat, done: seq<Group>)
    requires Listed(o, names, from, i, done) && i < |names|
    ensures var g, next := GroupOf(o, names[i]), NextGroup(o, names, i);
            Page(o, names, from, 0) ==
              if LimitReached(o.limit, |done| + 1) then (done + [g], next)
              else (done + [g] + Page(o, names, next, |done| + 1).0, Page(o, names, next, |done| + 1).1)
  {
    var g, next := GroupOf(o, names[i]), NextGroup(o, names, i);
    var rest := Page(o, names, next, |done| + 1).0;
    assert done + ([g] + rest) == done + [g] + rest;
  }

  lemma ListedNext(o: ListOptions, names: seq<Name>, from: nat, i: nat, done: seq<Group>)
    requires Sorted(names, o.reverse) && Listed(o, names, from, i, done) && i < |names|
    requires !LimitReached(o.limit, |done| + 1)
    ensures Listed(o, names, from, NextGroup(o, names, i), done + [GroupOf(o, names[i])])
  {
    var g, next := GroupOf(o, names[i]), NextGroup(o, names, i);
    NextBoundary(o, names, from, i);
    PageNext(o, names, from, i, done);
    forall h | h in done + [g] ensures exists a :: from <= a < next && GroupOf(o, names[a]) == h {
      if h in done {
        var a :| from <= a < i && GroupOf(o, names[a]) == h;
      }
    }
  }

  // The delimiter and limit stage: lists groups from `startIndex`, stopping at the limit.
  method ListGroups(o: ListOptions, sorted: seq<Name>, startIndex: nat)
    returns (resKeys: seq<Name>, delimitedPrefixes: seq<Name>, endIndex: nat)
    requires Sorted(sorted, o.reverse) && startIndex < |sorted|
    ensures var page := Page(o, sorted, startIndex, 0);
            resKeys == Singles(page.0) && delimitedPrefixes == Prefixes(page.0) && endIndex + 1 == page.1
  {
    endIndex := startIndex;
    resKeys, delimitedPrefixes := [], [];
    ghost var done: seq<Group> := [];
    var i := startIndex;
    assert [] + Page(o, sorted, startIndex, 0).0 == Page(o, sorted, startIndex, 0).0;
    while i < |sorted|
      invariant Listed(o, sorted, startIndex, i, done)
      invariant resKeys == Singles(done) && delimitedPrefixes == Prefixes(done)
      invariant endIndex == if i == startIndex then i else i - 1
      decreases |sorted| - i
    {
      var g := GroupOf(o, sorted[i]);
      NewGroup(o, sorted, startIndex, i, done);
      Appended(done, g);
      if LimitReached(o.limit, |done| + 1) {
        PageNext(o, sorted, startIndex, i, done);
      } else {
        ListedNext(o, sorted, startIndex, i, done);
      }
      var next := i + 1;
      if g.Delimited? {
        if g.prefix !in delimitedPrefixes {
          delimitedPrefixes := delimitedPrefixes + [g.prefix];
        }
        next := MovePast(sorted, i, g.prefix);
      } else {
        resKeys := resKeys + [sorted[i]];
      }
      assert next == NextGroup(o, sorted, i);
      i, endIndex, done := next, next - 1, done + [g];
      if LimitReached(o.limit, |resKeys| + |delimitedPrefixes|) {
        return;
      }
    }
    assert done + [] == done;
  }

  // A cursor that is not among the names starts past their end.
  method FindStart(sorted: seq<Name>, cursor: Name) returns (startIndex: nat)
    ensures StartIndex(sorted, cursor) == if startIndex < |sorted| then startIndex else |sorted|
  {
    startIndex := 0;
    if cursor != [] {
      startIndex := if cursor in sorted then IndexOf(sorted, cursor) else |sorted|;
      startIndex := startIndex + 1;
    }
  }

  // The cursor stage, for names already sorted.
  method PaginateSorted(o: ListOptions, sorted: seq<Name>) returns (resKeys: seq<Name>, delimitedPrefixes: seq<Name>, nextCursor: Name)
    requires Sorted(sorted, o.reverse)
    ensures var page := Page(o, sorted, StartIndex(sorted, o.cursor), 0);
            resKeys == Singles(page.0) && delimitedPrefixes == Prefixes(page.0) && nextCursor == CursorAt(sorted, page.1)
  {
    var startIndex := FindStart(sorted, o.cursor);
    var endIndex := startIndex;
    resKeys, delimitedPrefixes := [], [];
    if startIndex < |sorted| {
      resKeys, delimitedPrefixes, endIndex := ListGroups(o, sorted, startIndex);
    }
    nextCursor := if endIndex < |sorted| - 1 then sorted[endIndex] else [];
  }

  method ListPaginate(o: ListOptions, keys: seq<Name>) returns (resKeys: seq<Name>, delimitedPrefixes: seq<Name>, nextCursor: Name)
    requires Distinct(keys) && o.delimiter != Some([])
    ensures var sorted := Sort(keys, o.reverse);
            var page := Page(o, sorted, StartIndex(sorted, o.cursor), 0);
            resKeys == Singles(page.0) && delimitedPrefixes == Prefixes(page.0) && nextCursor == CursorAt(sorted, page.1)
    ensures forall n | n in resKeys :: n in keys && IsPlainName(o, n)
    ensures forall p | p in delimitedPrefixes :: exists n :: n in keys && IsUnder(o, n, p)
    ensures |resKeys| + |delimitedPrefixes| <= |keys| && (o.limit.Some? ==> |resKeys| + |delimitedPrefixes| <= AtLeastOne(o.limit.value))
    ensures forall i, j | 0 <= i < j < |resKeys| :: if o.reverse then Less(resKeys[j], resKeys[i]) else Less(resKeys[i], resKeys[j])
    ensures nextCursor == [] || nextCursor in keys
    ensures nextCursor != [] ==> o.limit.Some? && |resKeys| + |delimitedPrefixes| == AtLeastOne(o.limit.value)
  {
    SortSorts(keys, o.reverse);
    resKeys, delimitedPrefixes, nextCursor := PaginateSorted(o, Sort(keys, o.reverse));
    PageMeans(o, Sort(keys, o.reverse), StartIndex(Sort(keys, o.reverse), o.cursor), keys);
    PageOrdered(o, Sort(keys, o.reverse), StartIndex(Sort(keys, o.reverse), o.cursor), 0);
    forall i, j | 0 <= i < j < |resKeys| ensures Before(resKeys[i], resKeys[j], o.reverse) {
    }
  }

  lemma {:induction false} SinglesHead(g: Group, groups: seq<Group>)
    ensures Singles([g] + groups) == (if g.Single? then [g.name] else []) + Singles(groups)
  {
    var all := [g] + groups;
    if groups == [] {
      assert all[..0] == [];
    } else {
      SinglesHead(g, groups[..|groups| - 1]);
      assert all[..|all| - 1] == [g] + groups[..|groups| - 1];
    }
  }

  lemma {:induction false} PageOrdered(o: ListOptions, names: seq<Name>, i: nat, count: nat)
    requires Sorted(names, o.reverse) && i <= |names|
    ensures Sorted(Singles(Page(o, names, i, count).0), o.reverse)
    decreases |names| - i
  {
    if i < |names| {
      var g, next := GroupOf(o, names[i]), NextGroup(o, names, i);
      var rest := if LimitReached(o.limit, count + 1) then [] else Page(o, names, next, count + 1).0;
      assert Page(o, names, i, count).0 == [g] + rest;
      SinglesHead(g, rest);
      if !LimitReached(o.limit, count + 1) {
        PageOrdered(o, names, next, count + 1);
        forall n | n in Singles(rest) ensures Before(names[i], n, o.reverse) {
          SinglesMember(rest, n);
          PageMembers(o, names, next, count + 1, Single(n));
          var k :| next <= k < |names| && GroupOf(o, names[k]) == Single(n);
          GroupMeans(o, names[k], []);
        }
        GroupMeans(o, names[i], []);
      }
    }
  }

  function AtLeastOne(limit: nat): nat {
    if limit == 0 then 1 else limit
  }

  lemma {:induction false} PageSize(o: ListOptions, names: seq<Name>, i: nat, count: nat)
    requires i <= |names| && !LimitReached(o.limit, count)
    ensures |Page(o, names, i, count).0| <= Page(o, names, i, count).1 - i
    ensures o.limit.Some? ==> |Page(o, names, i, count).0| <= o.limit.value - count
    ensures Page(o, names, i, count).1 < |names| ==> o.limit.Some? && |Page(o, names, i, count).0| == o.limit.value - count
    decreases |names| - i
  {
    if i < |names| && !LimitReached(o.limit, count + 1) {
      PageSize(o, names, NextGroup(o, names, i), count + 1);
    }
  }

  lemma {:induction false} PageMembers(o: ListOptions, names: seq<Name>, i: nat, count: nat, g: Group)
    requires i <= |names| && g in Page(o, names, i, count).0
    ensures exists k :: i <= k < |names| && GroupOf(o, names[k]) == g
    decreases |names| - i
  {
    if i < |names| && g != GroupOf(o, names[i]) {
      PageMembers(o, names, NextGroup(o, names, i), count + 1, g);
      var k :| NextGroup(o, names, i) <= k < |names| && GroupOf(o, names[k]) == g;
    }
  }

  lemma {:induction false} SinglesMember(groups: seq<Group>, n: Name)
    ensures n in Singles(groups) <==> Single(n) in groups
  {
    if groups != [] {
      SinglesMember(groups[..|groups| - 1], n);
      assert groups == groups[..|groups| - 1] + [groups[|groups| - 1]];
    }
  }

  lemma PageSizes(o: ListOptions, names: seq<Name>, i: nat)
    requires i <= |names|
    ensures |Page(o, names, i, 0).0| <= |names| - i && (o.limit.Some? ==> |Page(o, names, i, 0).0| <= AtLeastOne(o.limit.value))
    ensures Page(o, names, i, 0).1 < |names| ==> o.limit.Some? && |Page(o, names, i, 0).0| == AtLeastOne(o.limit.value)
  {
    if LimitReached(o.limit, 0) {
      assert |Page(o, names, i, 0).0| <= 1;
    } else {
      PageSize(o, names, i, 0);
    }
  }

  // The keys listed are those not under a delimited prefix, and the prefixes are of keys.
  lemma PageMeans(o: ListOptions, names: seq<Name>, i: nat, keys: seq<Name>)
    requires i <= |names| && Names(names) == Names(keys) && |names| == |keys|
    ensures var page := Page(o, names, i, 0);
            && (forall n | n in Singles(page.0) :: n in keys && IsPlainName(o, n))
            && (forall p | p in Prefixes(page.0) :: exists n :: n in keys && IsUnder(o, n, p))
            && |Singles(page.0)| + |Prefixes(page.0)| <= |keys|
            && (o.limit.Some? ==> |Singles(page.0)| + |Prefixes(page.0)| <= AtLeastOne(o.limit.value))
            && (CursorAt(names, page.1) == [] || CursorAt(names, page.1) in keys)
            && (CursorAt(names, page.1) != [] ==> o.limit.Some? && |Singles(page.0)| + |Prefixes(page.0)| == AtLeastOne(o.limit.value))
  {
    var page := Page(o, names, i, 0);
    forall n | n in Singles(page.0) ensures n in keys && IsPlainName(o, n) {
      SinglesMember(page.0, n);
      PageMembers(o, names, i, 0, Single(n));
      var k :| i <= k < |names| && GroupOf(o, names[k]) == Single(n);
      GroupMeans(o, names[k], []);
      SameMembers(names, keys, k);
    }
    forall p | p in Prefixes(page.0) ensures exists n :: n in keys && IsUnder(o, n, p) {
      PrefixesMember(page.0, p);
      PageMembers(o, names, i, 0, Delimited(p));
      var k :| i <= k < |names| && GroupOf(o, names[k]) == Delimited(p);
      GroupMeans(o, names[k], p);
      SameMembers(names, keys, k);
    }
    PageSizes(o, names, i);
    PrefixesMember(page.0, []);
    if 0 < page.1 < |names| {
      SameMembers(names, keys, page.1 - 1);
    }
  }

  lemma SameMembers(names: seq<Name>, keys: seq<Name>, k: nat)
    requires Names(names) == Names(keys) && k < |names|
    ensures names[k] in keys
  {
    assert names[k] in Names(names);
  }

  lemma {:induction false} SkipIs(names: seq<Name>, i: nat, j: nat, prefix: Name)
    requires i <= j <= |names| && (forall k | i <= k < j :: StartsWith(names[k], prefix))
    requires j < |names| ==> !StartsWith(names[j], prefix)
    ensures SkipPrefix(names, i, prefix) == j
    decreases j - i
  {
    if i < j {
      SkipIs(names, i + 1, j, prefix);
    }
  }

  // --- Whole runs, following cursors until there is none --------------------------------------------

  function AllGroups(o: ListOptions, names: seq<Name>, i: nat): seq<Group>
    requires i <= |names|
    decreases |names| - i
  {
    if i == |names| then [] else [GroupOf(o, names[i])] + AllGroups(o, names, NextGroup(o, names, i))
  }

  // Without limits a listing gives every group once, and no others.
  lemma {:induction false} AllGroupsExact(o: ListOptions, names: seq<Name>, i: nat)
    requires Sorted(names, o.reverse) && i <= |names|
    ensures forall a, b | 0 <= a < b < |AllGroups(o, names, i)| :: AllGroups(o, names, i)[a] != AllGroups(o, names, i)[b]
    ensures forall g :: g in AllGroups(o, names, i) <==> exists k :: i <= k < |names| && GroupOf(o, names[k]) == g
    decreases |names| - i
  {
    if i < |names| {
      var next := NextGroup(o, names, i);
      var rest := AllGroups(o, names, next);
      AllGroupsExact(o, names, next);
      forall k | i < k < |names| ensures k < next <==> GroupOf(o, names[k]) == GroupOf(o, names[i]) {
        GroupContiguous(o, names, i, k);
      }
      forall g ensures g in AllGroups(o, names, i) <==> exists k :: i <= k < |names| && GroupOf(o, names[k]) == g {
        if g in rest {
          var k :| next <= k < |names| && GroupOf(o, names[k]) == g;
        }
        if k :| i <= k < |names| && GroupOf(o, names[k]) == g {
          assert k >= next ==> g in rest;
          assert i < k < next ==> g == GroupOf(o, names[i]);
        }
      }
      forall b | 0 <= b < |rest| ensures rest[b] != GroupOf(o, names[i]) {
        assert rest[b] in rest;
        var k :| next <= k < |names| && GroupOf(o, names[k]) == rest[b];
      }
    }
  }

  // A page is the part of the whole listing up to where it ends.
  lemma {:induction false} PageIsPart(o: ListOptions, names: seq<Name>, i: nat, count: nat)
    requires i <= |names|
    ensures AllGroups(o, names, i) == Page(o, names, i, count).0 + AllGroups(o, names, Page(o, names, i, count).1)
    decreases |names| - i
  {
    if i < |names| && !LimitReached(o.limit, count + 1) {
      var next := NextGroup(o, names, i);
      PageIsPart(o, names, next, count + 1);
      var rest := Page(o, names, next, count + 1);
      assert [GroupOf(o, names[i])] + (rest.0 + AllGroups(o, names, rest.1)) == ([GroupOf(o, names[i])] + rest.0) + AllGroups(o, names, rest.1);
    }
  }

  lemma {:induction false} SameGroups(o: ListOptions, limit: Option<nat>, names: seq<Name>, i: nat)
    requires i <= |names|
    ensures AllGroups(o.(limit := limit), names, i) == AllGroups(o, names, i)
    decreases |names| - i
  {
    if i < |names| {
      assert GroupOf(o.(limit := limit), names[i]) == GroupOf(o, names[i]);
      SameGroups(o, limit, names, NextGroup(o, names, i));
    }
  }

  lemma DistinctIndex(names: seq<Name>, i: nat, j: nat)
    requires Distinct(names) && i < |names| && j < |names| && names[i] == names[j]
    ensures i == j
  {
  }

  lemma CursorResumes(o: ListOptions, names: seq<Name>, end: nat)
    requires Sorted(names, o.reverse) && 0 < end <= |names| && names[end - 1] != []
    ensures StartIndex(names, names[end - 1]) == end
  {
    SortedDistinct(names, o.reverse);
    var i := IndexOf(names, names[end - 1]);
    assert names[end - 1] in names;
    DistinctIndex(names, i, end - 1);
  }

  // Everything listed from `start` on when each page's cursor is followed; the limit may
  // change from page to page.
  ghost function Run(o: ListOptions, names: seq<Name>, start: nat, limits: nat -> nat, turn: nat): seq<Group>
    requires Sorted(names, o.reverse) && start <= |names|
    decreases |names| - start
  {
    var page := Page(o.(limit := Some(limits(turn))), names, start, 0);
    var cursor := CursorAt(names, page.1);
    if cursor == [] then page.0
    else
      CursorResumes(o, names, page.1);
      page.0 + Run(o, names, StartIndex(names, cursor), limits, turn + 1)
  }

  // The empty name can only come first, or last if reversed.
  lemma EmptyNameAtEnd(names: seq<Name>, reverse: bool, k: nat)
    requires Sorted(names, reverse) && k + 1 < |names| && names[k] == []
    ensures k == 0 && !reverse
  {
    assert Before(names[k], names[k + 1], reverse);
    assert 0 < k ==> Before(names[0], names[k], reverse);
  }

  lemma PageThenRest(o: ListOptions, limit: nat, names: seq<Name>, start: nat)
    requires start <= |names|
    ensures var page := Page(o.(limit := Some(limit)), names, start, 0);
            AllGroups(o, names, start) == page.0 + AllGroups(o, names, page.1)
  {
    PageIsPart(o.(limit := Some(limit)), names, start, 0);
    SameGroups(o, Some(limit), names, start);
    SameGroups(o, Some(limit), names, Page(o.(limit := Some(limit)), names, start, 0).1);
  }

  lemma {:induction false} RunFromExact(o: ListOptions, names: seq<Name>, start: nat, limits: nat -> nat, turn: nat)
    requires Sorted(names, o.reverse) && start <= |names| && forall k | start <= k && k + 1 < |names| :: names[k] != []
    ensures Run(o, names, start, limits, turn) == AllGroups(o, names, start)
    decreases |names| - start
  {
    var page := Page(o.(limit := Some(limits(turn))), names, start, 0);
    PageThenRest(o, limits(turn), names, start);
    RunUnfolds(o, names, start, limits, turn);
    if 0 < page.1 < |names| {
      RunFromExact(o, names, page.1, limits, turn + 1);
    } else {
      assert AllGroups(o, names, page.1) == [] && page.0 + [] == page.0;
    }
  }

  // A run is its first page and the run from where that page ends, if its cursor tells.
  lemma RunUnfolds(o: ListOptions, names: seq<Name>, start: nat, limits: nat -> nat, turn: nat)
    requires Sorted(names, o.reverse) && start <= |names|
    ensures var page := Page(o.(limit := Some(limits(turn))), names, start, 0);
            Run(o, names, start, limits, turn)
            == page.0 + if 0 < page.1 < |names| && names[page.1 - 1] != [] then Run(o, names, page.1, limits, turn + 1) else []
  {
    var page := Page(o.(limit := Some(limits(turn))), names, start, 0);
    assert page.0 + [] == page.0;
    if 0 < page.1 < |names| && names[page.1 - 1] != [] {
      CursorResumes(o, names, page.1);
    }
  }

  // A whole run lists every group, whatever the limits, unless its first page ends at the
  // empty name with more to come: that page's cursor is empty, and the run stops early.
  lemma RunComplete(o: ListOptions, names: seq<Name>, limits: nat -> nat)
    requires Sorted(names, o.reverse) && o.delimiter != Some([])
    ensures Run(o, names, 0, limits, 0) == AllGroups(o, names, 0)
       <==> !(|names| > 1 && names[0] == [] && limits(0) <= 1)
  {
    forall k | 0 < k && k + 1 < |names| ensures names[k] != [] {
      if names[k] == [] {
        EmptyNameAtEnd(names, o.reverse, k);
      }
    }
    if |names| > 1 && names[0] == [] {
      FirstPageFromEmpty(o, names, limits);
    } else {
      RunFromExact(o, names, 0, limits, 0);
    }
  }

  lemma FirstPageFromEmpty(o: ListOptions, names: seq<Name>, limits: nat -> nat)
    requires Sorted(names, o.reverse) && o.delimiter != Some([]) && |names| > 1 && names[0] == []
    requires forall k | 0 < k && k + 1 < |names| :: names[k] != []
    ensures Run(o, names, 0, limits, 0) == AllGroups(o, names, 0) <==> limits(0) > 1
  {
    var first := o.(limit := Some(limits(0)));
    var page := Page(first, names, 0, 0);
    assert GroupOf(o, names[0]) == Single([]) && NextGroup(o, names, 0) == 1;
    assert AllGroups(o, names, 0) == [Single([])] + AllGroups(o, names, 1);
    assert |AllGroups(o, names, 1)| > 0;
    if limits(0) <= 1 {
      assert page == ([Single([])], 1);
    } else {
      assert page.1 == Page(first, names, 1, 1).1 > 1;
      PageIsPart(first, names, 0, 0);
      SameGroups(o, Some(limits(0)), names, 0);
      SameGroups(o, Some(limits(0)), names, page.1);
      if page.1 < |names| {
        CursorResumes(o, names, page.1);
        RunFromExact(o, names, page.1, limits, 1);
      }
    }
  }

  // So when no name is empty, following cursors returns every key exactly once: as itself,
  // or under exactly one delimited prefix, which is not repeated.
  lemma RunPartitions(o: ListOptions, keys: seq<Name>, limits: nat -> nat)
    requires Distinct(keys) && [] !in keys && o.delimiter != Some([])
    ensures Sorted(Sort(keys, o.reverse), o.reverse)
    ensures var run := Run(o, Sort(keys, o.reverse), 0, limits, 0);
            && (forall a, b | 0 <= a < b < |run| :: run[a] != run[b])
            && (forall n | n in keys :: GroupOf(o, n) in run)
            && (forall g | g in run :: exists n :: n in keys && GroupOf(o, n) == g)
  {
    SortSorts(keys, o.reverse);
    var names := Sort(keys, o.reverse);
    assert [] !in Names(names);
    RunFromExact(o, names, 0, limits, 0);
    AllGroupsExact(o, names, 0);
    GroupsOfKeys(o, keys, names);
  }

  // Over a whole run each key is listed once: as itself if no delimiter occurs behind the
  // prefix, and else under its one delimited prefix and not as itself.
  lemma RunListsEach(o: ListOptions, keys: seq<Name>, limits: nat -> nat, n: Name)
    requires Distinct(keys) && [] !in keys && o.delimiter != Some([]) && n in keys
    ensures Sorted(Sort(keys, o.reverse), o.reverse)
    ensures var run := Run(o, Sort(keys, o.reverse), 0, limits, 0);
            && (Single(n) in run <==> IsPlainName(o, n))
            && (forall p | IsUnder(o, n, p) :: Delimited(p) in run)
            && (IsPlainName(o, n) || exists p :: IsUnder(o, n, p) && forall q | IsUnder(o, n, q) :: q == p)
  {
    RunPartitions(o, keys, limits);
    var run := Run(o, Sort(keys, o.reverse), 0, limits, 0);
    GroupMeans(o, n, []);
    forall p ensures GroupOf(o, n) == Delimited(p) <==> IsUnder(o, n, p) {
      GroupMeans(o, n, p);
    }
    if Single(n) in run {
      var m :| m in keys && GroupOf(o, m) == Single(n);
      GroupMeans(o, m, []);
    }
    if !IsPlainName(o, n) {
      assert IsUnder(o, n, GroupOf(o, n).prefix);
    }
  }

  // A cursor that stands for no key ends the listing.
  lemma UnknownCursor(names: seq<Name>, cursor: Name)
    requires cursor != [] && cursor !in names
    ensures StartIndex(names, cursor) == |names|
  {
  }

  lemma GroupsOfKeys(o: ListOptions, keys: seq<Name>, names: seq<Name>)
    requires Names(names) == Names(keys)
    requires forall k | 0 <= k < |names| :: GroupOf(o, names[k]) in AllGroups(o, names, 0)
    requires forall g | g in AllGroups(o, names, 0) :: exists k :: 0 <= k < |names| && GroupOf(o, names[k]) == g
    ensures forall n | n in keys :: GroupOf(o, n) in AllGroups(o, names, 0)
    ensures forall g | g in AllGroups(o, names, 0) :: exists n :: n in keys && GroupOf(o, n) == g
  {
    forall n | n in keys ensures GroupOf(o, n) in AllGroups(o, names, 0) {
      assert n in Names(keys);
      var k :| 0 <= k < |names| && names[k] == n;
    }
    forall g | g in AllGroups(o, names, 0) ensures exists n :: n in keys && GroupOf(o, n) == g {
      var k :| 0 <= k < |names| && GroupOf(o, names[k]) == g;
      assert names[k] in Names(names);
      assert names[k] in keys;
    }
  }

  // The run of two keys, one of them empty, with a limit of one never reaches the second.
  lemma EmptyNameStopsRun(o: ListOptions)
    requires o == ListOptions(None, None, None, None, false, [], None, None)
    ensures Sorted([[], [97]], false) && Run(o, [[], [97]], 0, turn => 1, 0) == [Single([])]
  {
    assert Page(o.(limit := Some(1)), [[], [97]], 0, 0) == ([Single([])], 1);
  }
}
