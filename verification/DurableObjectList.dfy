/** The `list` that a Durable Object offers: the alarm kept among its keys is hidden, and an
    exclusive `startAfter` is made from the storage's inclusive `start`. */
module DurableObjectList {
  import opened Common
  import opened Order
  import opened Listing
  import opened LimitedListing

  // "__MINIFLARE_ALARMS__"
  const ALARM_KEY: Name :=
    [95, 95, 77, 73, 78, 73, 70, 76, 65, 82, 69, 95, 65, 76, 65, 82, 77, 83, 95, 95]

  datatype Options = Options(
    start: Option<Name>,
    startAfter: Option<Name>,
    end: Option<Name>,
    prefix: Option<Name>,
    reverse: bool,
    limit: Option<int>)

  datatype Result = Listed(names: seq<Name>) | LimitNotPositive | StartAndStartAfter

  predicate Accepted(o: Options) {
    (o.limit.Some? ==> o.limit.value > 0) && (o.start.None? || o.startAfter.None?)
  }

  function LimitOf(o: Options): Option<nat>
    requires Accepted(o)
  {
    if o.limit.Some? then Some(o.limit.value) else None
  }

  // The options passed on: one more for the alarm, one more for startAfter itself.
  function Passed(o: Options): ListOptions
    requires Accepted(o)
  {
    var padding := if o.startAfter.Some? then 2 else 1;
    ListOptions(o.prefix, None, if o.startAfter.Some? then o.startAfter else o.start, o.end, o.reverse, [],
                if o.limit.Some? then Some(o.limit.value + padding) else None, None)
  }

  function Without(names: seq<Name>, n: Name): seq<Name> {
    if names == [] then []
    else (if names[0] == n then [] else [names[0]]) + Without(names[1..], n)
  }

  // What is kept of the storage's answer.
  function Kept(o: Options, listed: seq<Name>): seq<Name>
    requires Accepted(o)
  {
    var keyNames := Without(listed, ALARM_KEY);
    var after := if o.startAfter.Some? && keyNames != [] && keyNames[0] == o.startAfter.value then keyNames[1..] else keyNames;
    Limited(LimitOf(o), after)
  }

  ghost function List(o: Options, keys: set<Name>): Result {
    if o.limit.Some? && o.limit.value <= 0 then LimitNotPositive
    else if o.start.Some? && o.startAfter.Some? then StartAndStartAfter
    else Listed(Kept(o, FirstMatching(Passed(o), keys)))
  }

  // --- What a caller wants ---------------------------------------------------------------------

  ghost function Wanted(o: Options, keys: set<Name>): set<Name> {
    set n | n in keys && n != ALARM_KEY
         && (o.prefix.Some? ==> StartsWith(n, o.prefix.value))
         && (o.start.Some? ==> !Less(n, o.start.value))
         && (o.startAfter.Some? ==> Less(o.startAfter.value, n))
         && (o.end.Some? ==> Less(n, o.end.value))
  }

  ghost function FirstWanted(o: Options, keys: set<Name>): seq<Name>
    requires Accepted(o)
  {
    Limited(LimitOf(o), InOrder(Wanted(o, keys), o.reverse))
  }

  // Names in range, the bound of startAfter included.
  ghost function InRange(o: Options, keys: set<Name>): set<Name>
    requires Accepted(o)
  {
    Matching(Passed(o), keys) - {ALARM_KEY}
  }

  // --- Leaving the alarm out -----------------------------------------------------------------------

  lemma {:induction false} WithoutSorted(names: seq<Name>, n: Name, reverse: bool)
    requires Sorted(names, reverse)
    ensures Sorted(Without(names, n), reverse) && Names(Without(names, n)) == Names(names) - {n}
  {
    if names != [] {
      WithoutSorted(names[1..], n, reverse);
      TailNames(names, reverse);
      var rest := Without(names[1..], n);
      forall j | 0 <= j < |rest| ensures Before(names[0], rest[j], reverse) {
        assert rest[j] in Names(rest);
        var k :| 0 <= k < |names| - 1 && names[1..][k] == rest[j];
        assert Before(names[0], names[k + 1], reverse);
      }
      assert Names([names[0]] + rest) == {names[0]} + Names(rest);
      assert Names(names) == {names[0]} + Names(names[1..]);
      assert Without(names, n) == if names[0] == n then rest else [names[0]] + rest;
    }
  }

  lemma {:induction false} WithoutPrefix(names: seq<Name>, cut: nat, n: Name, reverse: bool)
    requires Sorted(names, reverse) && cut <= |names|
    ensures Without(names[..cut], n) <= Without(names, n) && |Without(names[..cut], n)| >= cut - 1
    ensures n !in names ==> Without(names, n) == names
  {
    if names != [] && cut != 0 {
      assert names[..cut][1..] == names[1..][..cut - 1];
      WithoutPrefix(names[1..], cut - 1, n, reverse);
      if names[0] == n {
        NotAgain(names, n, reverse);
        WithoutNone(names[1..], n);
        WithoutNone(names[1..][..cut - 1], n);
      }
      assert names == [names[0]] + names[1..];
    } else if names != [] {
      WithoutPrefix(names[1..], 0, n, reverse);
      assert names == [names[0]] + names[1..];
    }
  }

  lemma NotAgain(names: seq<Name>, n: Name, reverse: bool)
    requires Sorted(names, reverse) && names != [] && names[0] == n
    ensures n !in names[1..]
  {
    SortedDistinct(names, reverse);
  }

  lemma {:induction false} WithoutNone(names: seq<Name>, n: Name)
    requires n !in names
    ensures Without(names, n) == names
  {
    if names != [] {
      WithoutNone(names[1..], n);
    }
  }

  // The storage's answer less the alarm is the start of the range in order, long enough.
  lemma KeptIsPrefix(o: Options, keys: set<Name>)
    requires Accepted(o)
    ensures var kept, range := Without(FirstMatching(Passed(o), keys), ALARM_KEY), InOrder(InRange(o, keys), o.reverse);
            && kept <= range
            && (o.limit.None? ==> kept == range)
            && (o.limit.Some? ==> |kept| == |range| || |kept| >= o.limit.value + if o.startAfter.Some? then 1 else 0)
  {
    var all := InOrder(Matching(Passed(o), keys), o.reverse);
    WithoutSorted(all, ALARM_KEY, o.reverse);
    SortedUnique(Without(all, ALARM_KEY), InOrder(InRange(o, keys), o.reverse), o.reverse);
    if o.limit.Some? && Passed(o).limit.value < |all| {
      WithoutPrefix(all, Passed(o).limit.value, ALARM_KEY, o.reverse);
    }
  }

  // --- startAfter ----------------------------------------------------------------------------------

  lemma WantedInRange(o: Options, keys: set<Name>)
    requires Accepted(o)
    ensures Wanted(o, keys) == if o.startAfter.Some? then InRange(o, keys) - {o.startAfter.value} else InRange(o, keys)
  {
    if o.startAfter.Some? {
      forall n ensures Less(o.startAfter.value, n) <==> !Less(n, o.startAfter.value) && n != o.startAfter.value {
        Total(n, o.startAfter.value);
        Asymmetric(o.startAfter.value, n);
        Asymmetric(n, o.startAfter.value);
      }
    }
  }

  // Where the bound itself stands: first, or last if reversed.
  lemma BoundStands(o: Options, keys: set<Name>)
    requires Accepted(o) && o.startAfter.Some? && o.startAfter.value in InRange(o, keys)
    ensures var range, wanted := InOrder(InRange(o, keys), o.reverse), InOrder(Wanted(o, keys), o.reverse);
            range == if o.reverse then wanted + [o.startAfter.value] else [o.startAfter.value] + wanted
  {
    var bound := o.startAfter.value;
    var wanted := InOrder(Wanted(o, keys), o.reverse);
    var range := if o.reverse then wanted + [bound] else [bound] + wanted;
    WantedInRange(o, keys);
    assert bound !in Names(wanted);
    forall j | 0 <= j < |wanted| ensures Less(bound, wanted[j]) {
      assert wanted[j] in Names(wanted);
    }
    assert Names(range) == Names(wanted) + {bound};
    SortedUnique(range, InOrder(InRange(o, keys), o.reverse), o.reverse);
  }

  lemma BoundOutside(o: Options, keys: set<Name>)
    requires Accepted(o) && (o.startAfter.None? || o.startAfter.value !in InRange(o, keys))
    ensures InOrder(Wanted(o, keys), o.reverse) == InOrder(InRange(o, keys), o.reverse)
    ensures o.startAfter.Some? ==> o.startAfter.value !in InOrder(InRange(o, keys), o.reverse)
  {
    WantedInRange(o, keys);
    assert Wanted(o, keys) == InRange(o, keys);
    assert forall n :: n in InOrder(InRange(o, keys), o.reverse) ==> n in Names(InOrder(InRange(o, keys), o.reverse));
  }

  // The listing is exactly the first `limit` names wanted, unless it is reversed with a
  // startAfter that is itself in range behind at least one other name and the limit, if
  // any, lets all of them through: then the excluded name is listed too.
  lemma ListExact(o: Options, keys: set<Name>)
    requires Accepted(o)
    ensures List(o, keys) == Listed(FirstWanted(o, keys))
       <==> !(&& o.reverse && o.startAfter.Some? && o.startAfter.value in InRange(o, keys)
              && |InRange(o, keys)| > 1 && (o.limit.Some? ==> |InRange(o, keys)| <= o.limit.value))
  {
    var range := InOrder(InRange(o, keys), o.reverse);
    SortedDistinct(range, o.reverse);
    NamesSize(range);
    if o.startAfter.Some? && o.startAfter.value in InRange(o, keys) {
      BoundListed(o, keys);
    } else {
      UnboundListed(o, keys);
    }
  }

  lemma UnboundListed(o: Options, keys: set<Name>)
    requires Accepted(o) && (o.startAfter.None? || o.startAfter.value !in InRange(o, keys))
    ensures List(o, keys) == Listed(FirstWanted(o, keys))
  {
    KeptIsPrefix(o, keys);
    BoundOutside(o, keys);
    var range := InOrder(InRange(o, keys), o.reverse);
    var kept := Without(FirstMatching(Passed(o), keys), ALARM_KEY);
    PrefixLimited(kept, range, LimitOf(o));
    assert kept != [] ==> kept[0] in range;
  }

  lemma PrefixLimited(kept: seq<Name>, range: seq<Name>, limit: Option<nat>)
    requires kept <= range && (limit.None? ==> kept == range)
    requires limit.Some? ==> |kept| == |range| || |kept| >= limit.value
    ensures Limited(limit, kept) == Limited(limit, range)
  {
    assert kept == range[..|kept|];
  }

  // The two ways an answer can end up, as sequences: `kept` is the start of the range.
  lemma BoundFirst(kept: seq<Name>, wanted: seq<Name>, bound: Name, limit: Option<nat>)
    requires kept <= [bound] + wanted && (limit.None? ==> |kept| == |wanted| + 1)
    requires limit.Some? ==> |kept| == |wanted| + 1 || |kept| >= limit.value + 1
    ensures kept != [] && kept[0] == bound && Limited(limit, kept[1..]) == Limited(limit, wanted)
  {
    assert kept == ([bound] + wanted)[..|kept|];
    assert kept[1..] == wanted[..|kept| - 1];
    if limit.Some? && limit.value < |kept| - 1 {
      assert kept[1..][..limit.value] == wanted[..limit.value];
    }
  }

  lemma BoundLast(kept: seq<Name>, wanted: seq<Name>, bound: Name, limit: Option<nat>)
    requires kept <= wanted + [bound] && (limit.None? ==> |kept| == |wanted| + 1)
    requires limit.Some? ==> limit.value > 0 && (|kept| == |wanted| + 1 || |kept| >= limit.value + 1)
    ensures kept != [] && (wanted == [] ==> kept == [bound]) && (wanted != [] ==> kept[0] == wanted[0])
    ensures Limited(limit, kept) == Limited(limit, wanted) <==> limit.Some? && limit.value <= |wanted|
  {
    assert kept == (wanted + [bound])[..|kept|];
    if limit.Some? && limit.value <= |wanted| {
      assert kept[..limit.value] == wanted[..limit.value];
      assert limit.value == |wanted| ==> wanted[..limit.value] == wanted;
    } else {
      assert |Limited(limit, kept)| == |wanted| + 1;
    }
  }

  lemma BoundListed(o: Options, keys: set<Name>)
    requires Accepted(o) && o.startAfter.Some? && o.startAfter.value in InRange(o, keys)
    ensures List(o, keys) == Listed(FirstWanted(o, keys))
       <==> !(o.reverse && |InOrder(InRange(o, keys), o.reverse)| > 1
              && (o.limit.Some? ==> |InOrder(InRange(o, keys), o.reverse)| <= o.limit.value))
  {
    KeptIsPrefix(o, keys);
    BoundStands(o, keys);
    var wanted := InOrder(Wanted(o, keys), o.reverse);
    var kept := Without(FirstMatching(Passed(o), keys), ALARM_KEY);
    if o.reverse {
      BoundKeptLast(o, kept, wanted, keys);
    } else {
      BoundFirst(kept, wanted, o.startAfter.value, LimitOf(o));
    }
  }

  lemma BoundKeptLast(o: Options, kept: seq<Name>, wanted: seq<Name>, keys: set<Name>)
    requires Accepted(o) && o.startAfter.Some? && o.reverse && wanted == InOrder(Wanted(o, keys), true)
    requires kept <= wanted + [o.startAfter.value] && (o.limit.None? ==> |kept| == |wanted| + 1)
    requires o.limit.Some? ==> |kept| == |wanted| + 1 || |kept| >= o.limit.value + 1
    requires kept == Without(FirstMatching(Passed(o), keys), ALARM_KEY)
    ensures Kept(o, FirstMatching(Passed(o), keys)) == Limited(LimitOf(o), wanted)
       <==> !(wanted != [] && (o.limit.Some? ==> |wanted| + 1 <= o.limit.value))
  {
    BoundLast(kept, wanted, o.startAfter.value, LimitOf(o));
    if wanted != [] {
      WantedInRange(o, keys);
      assert wanted[0] in Names(wanted);
    }
  }

  // Of the keys "a" and "b", those after "a" in reverse come out as "b" and "a".
  lemma ReverseListsBound(o: Options, keys: set<Name>)
    requires o == Options(None, Some([97]), None, None, true, None) && keys == {[97], [98]}
    ensures List(o, keys) != Listed(FirstWanted(o, keys))
  {
    assert Less([97], [98]) && !Less([98], [97]) && !Less([97], [97]);
    assert InRange(o, keys) == {[97], [98]};
    ListExact(o, keys);
  }

  // What the first names wanted are, said of the names one by one.
  lemma FirstWantedExact(o: Options, keys: set<Name>)
    requires Accepted(o)
    ensures AreFirst(FirstWanted(o, keys), Wanted(o, keys), LimitOf(o), o.reverse)
    ensures forall n :: n in Wanted(o, keys) <==>
              n in keys && n != ALARM_KEY && Passes(ListOptions(o.prefix, None, o.start, o.end, o.reverse, [], None, None), n)
              && (o.startAfter.Some? ==> Less(o.startAfter.value, n))
  {
    LimitedFirst(Wanted(o, keys), LimitOf(o), o.reverse);
    forall n ensures o.start.Some? ==> (!Less(n, o.start.value) <==> n == o.start.value || Less(o.start.value, n)) {
      if o.start.Some? {
        Total(n, o.start.value);
        Asymmetric(n, o.start.value);
        Irreflexive(n);
      }
    }
  }

  // A listing is refused for a limit that is not positive, and else exactly for both bounds.
  lemma ListRefuses(o: Options, keys: set<Name>)
    ensures List(o, keys) == LimitNotPositive <==> o.limit.Some? && o.limit.value < 1
    ensures List(o, keys) == StartAndStartAfter <==> !(o.limit.Some? && o.limit.value < 1) && o.start != None && o.startAfter != None
    ensures List(o, keys).Listed? <==> Accepted(o)
  {
  }
}
