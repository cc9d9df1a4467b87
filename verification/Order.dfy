/** The byte-lexicographic order of names that every listing relies on, and sorting by it. */
module Order {
  import opened Common

  type Name = Bytes

  // a comes strictly before b: it is a proper prefix of b, or smaller where they first differ.
  predicate Less(a: Name, b: Name) {
    b != [] && (a == [] || a[0] < b[0] || (a[0] == b[0] && Less(a[1..], b[1..])))
  }

  // The comparison of two encoded strings: negative, zero or positive.
  method ArrayCompare(a: Name, b: Name) returns (r: int)
    ensures r < 0 <==> Less(a, b)
    ensures r == 0 <==> a == b
    ensures r > 0 <==> Less(b, a)
  {
    var minLength := if |a| <= |b| then |a| else |b|;
    for i := 0 to minLength
      invariant a[..i] == b[..i]
    {
      if a[i] < b[i] {
        LessAt(a, b, i);
        Asymmetric(a, b);
        return -1;
      }
      if a[i] > b[i] {
        LessAt(b, a, i);
        Asymmetric(b, a);
        return 1;
      }
    }
    assert a[..minLength] == b[..minLength];
    if |a| < |b| {
      LessAt(a, b, |a|);
      Asymmetric(a, b);
    } else if |b| < |a| {
      LessAt(b, a, |b|);
      Asymmetric(b, a);
    } else {
      assert a == a[..minLength] && b == b[..minLength];
      Irreflexive(a);
    }
    r := |a| - |b|;
  }

  lemma {:induction false} LessAt(a: Name, b: Name, i: nat)
    requires i <= |a| && i < |b| && a[..i] == b[..i] && (i < |a| ==> a[i] < b[i])
    ensures Less(a, b)
  {
    if i != 0 {
      assert a[0] == a[..i][0] && b[0] == b[..i][0];
      assert a[1..][..i - 1] == a[..i][1..] && b[1..][..i - 1] == b[..i][1..];
      LessAt(a[1..], b[1..], i - 1);
    }
  }

  lemma {:induction false} Irreflexive(a: Name)
    ensures !Less(a, a)
  {
    if a != [] {
      Irreflexive(a[1..]);
    }
  }

  lemma {:induction false} Asymmetric(a: Name, b: Name)
    ensures Less(a, b) ==> !Less(b, a) && a != b
  {
    if a != [] && b != [] {
      Asymmetric(a[1..], b[1..]);
    }
  }

  lemma {:induction false} Total(a: Name, b: Name)
    ensures Less(a, b) || a == b || Less(b, a)
  {
    if a != [] && b != [] {
      Total(a[1..], b[1..]);
      if a[0] == b[0] && a[1..] == b[1..] {
        assert a == [a[0]] + a[1..] && b == [b[0]] + b[1..];
      }
    }
  }

  lemma {:induction false} Transitive(a: Name, b: Name, c: Name)
    ensures Less(a, b) && Less(b, c) ==> Less(a, c)
  {
    if a != [] && b != [] && c != [] {
      Transitive(a[1..], b[1..], c[1..]);
    }
  }

  // The place of the first difference.
  ghost predicate DiffersAt(a: Name, b: Name, i: nat) {
    i <= |a| && i < |b| && a[..i] == b[..i] && (i < |a| ==> a[i] < b[i])
  }

  // A name comes before another exactly if it ends, or has the smaller byte, where they first
  // differ.
  lemma {:induction false} LessExact(a: Name, b: Name)
    ensures Less(a, b) <==> exists i :: DiffersAt(a, b, i)
  {
    forall i: nat | DiffersAt(a, b, i) ensures Less(a, b) {
      LessAt(a, b, i);
    }
    if Less(a, b) {
      var i := FirstDifference(a, b);
      assert DiffersAt(a, b, i);
    }
  }

  lemma {:induction false} FirstDifference(a: Name, b: Name) returns (i: nat)
    requires Less(a, b)
    ensures DiffersAt(a, b, i)
  {
    if a == [] || a[0] < b[0] {
      i := 0;
    } else {
      var j := FirstDifference(a[1..], b[1..]);
      i := j + 1;
      assert a[..i] == [a[0]] + a[1..][..j] && b[..i] == [b[0]] + b[1..][..j];
    }
  }

  // --- Prefixes --------------------------------------------------------------------------

  predicate StartsWith(name: Name, prefix: Name) {
    |prefix| <= |name| && name[..|prefix|] == prefix
  }

  // Whatever lies between two names with a common prefix has that prefix too.
  lemma {:induction false} Between(a: Name, b: Name, c: Name, prefix: Name)
    requires StartsWith(a, prefix) && StartsWith(c, prefix)
    requires (Less(a, b) && Less(b, c)) || (Less(c, b) && Less(b, a))
    ensures StartsWith(b, prefix)
  {
    if prefix != [] {
      assert a[0] == prefix[0] && c[0] == prefix[0];
      assert b[0] == prefix[0];
      assert a[1..][..|prefix| - 1] == prefix[1..] && c[1..][..|prefix| - 1] == prefix[1..];
      Between(a[1..], b[1..], c[1..], prefix[1..]);
      assert b[..|prefix|] == [b[0]] + b[1..][..|prefix| - 1];
      assert prefix == [prefix[0]] + prefix[1..];
    }
  }

  // --- Sorted sequences --------------------------------------------------------------------

  predicate Before(a: Name, b: Name, reverse: bool) {
    if reverse then Less(b, a) else Less(a, b)
  }

  // Strictly ascending, or descending if reversed; so without repetition.
  ghost predicate Sorted(names: seq<Name>, reverse: bool) {
    forall i, j | 0 <= i < j < |names| :: Before(names[i], names[j], reverse)
  }

  function Names(names: seq<Name>): set<Name> {
    set n | n in names
  }

  function Insert(n: Name, names: seq<Name>, reverse: bool): (r: seq<Name>)
    ensures Names(r) == Names(names) + {n} && |r| == |names| + 1
  {
    if names == [] then [n]
    else if Before(n, names[0], reverse) then
      assert Names([n] + names) == Names(names) + {n};
      [n] + names
    else
      var rest := Insert(n, names[1..], reverse);
      assert names == [names[0]] + names[1..];
      assert Names([names[0]] + rest) == Names(rest) + {names[0]};
      assert Names(names) == Names(names[1..]) + {names[0]};
      [names[0]] + rest
  }

  lemma {:induction false} InsertSorted(n: Name, names: seq<Name>, reverse: bool)
    requires Sorted(names, reverse) && n !in names
    ensures Sorted(Insert(n, names, reverse), reverse)
  {
    if names != [] {
      var rest := Insert(n, names[1..], reverse);
      if Before(n, names[0], reverse) {
        forall j | 0 <= j < |names| ensures Before(n, names[j], reverse) {
          Transitive(n, names[0], names[j]);
          Transitive(names[j], names[0], n);
        }
      } else {
        InsertSorted(n, names[1..], reverse);
        Total(n, names[0]);
        forall j | 0 <= j < |rest| ensures Before(names[0], rest[j], reverse) {
          assert rest[j] in Names(rest);
        }
      }
    }
  }

  // What the library sort makes of distinct names.
  function Sort(names: seq<Name>, reverse: bool): (r: seq<Name>)
    ensures Names(r) == Names(names) && |r| == |names|
  {
    if names == [] then []
    else
      assert names == [names[0]] + names[1..];
      assert Names(names) == Names(names[1..]) + {names[0]};
      Insert(names[0], Sort(names[1..], reverse), reverse)
  }

  ghost predicate Distinct(names: seq<Name>) {
    forall i, j | 0 <= i < j < |names| :: names[i] != names[j]
  }

  // Sorting keeps each name once, in ascending order or in descending order if reversed.
  lemma SortExact(names: seq<Name>, reverse: bool)
    requires Distinct(names)
    ensures var r := Sort(names, reverse);
            && |r| == |names| && (forall n :: n in r <==> n in names)
            && forall i, j | 0 <= i < j < |r| :: if reverse then Less(r[j], r[i]) else Less(r[i], r[j])
  {
    var r := Sort(names, reverse);
    SortSorts(names, reverse);
    forall n ensures n in r <==> n in names {
      assert n in Names(r) <==> n in Names(names);
    }
    forall i, j | 0 <= i < j < |r| ensures if reverse then Less(r[j], r[i]) else Less(r[i], r[j]) {
      assert Before(r[i], r[j], reverse);
    }
  }

  lemma {:induction false} SortSorts(names: seq<Name>, reverse: bool)
    requires Distinct(names)
    ensures Sorted(Sort(names, reverse), reverse)
  {
    if names != [] {
      SortSorts(names[1..], reverse);
      assert names[0] !in names[1..];
      assert names[0] !in Names(Sort(names[1..], reverse));
      InsertSorted(names[0], Sort(names[1..], reverse), reverse);
    }
  }

  // The members of a set in order.
  ghost function InOrder(names: set<Name>, reverse: bool): (r: seq<Name>)
    ensures Names(r) == names && Sorted(r, reverse)
  {
    if names == {} then []
    else
      var n :| n in names;
      var rest := InOrder(names - {n}, reverse);
      InsertSorted(n, rest, reverse);
      Insert(n, rest, reverse)
  }

  lemma SortedDistinct(names: seq<Name>, reverse: bool)
    requires Sorted(names, reverse)
    ensures Distinct(names)
  {
    forall i, j | 0 <= i < j < |names| ensures names[i] != names[j] {
      assert Before(names[i], names[j], reverse);
      Irreflexive(names[i]);
    }
  }

  lemma SomeName(names: seq<Name>)
    ensures names != [] ==> Names(names) != {}
  {
    if names != [] {
      assert names[0] in Names(names);
    }
  }

  // There is only one way to put a set in order.
  lemma {:induction false} SortedUnique(a: seq<Name>, b: seq<Name>, reverse: bool)
    requires Sorted(a, reverse) && Sorted(b, reverse) && Names(a) == Names(b)
    ensures a == b
  {
    if a == [] {
      SomeName(b);
    } else {
      assert a[0] in Names(a);
      assert a[0] in b;
      assert b[0] in Names(b);
      assert b[0] in a;
      FirstIsFirst(a, b, reverse);
      TailNames(a, reverse);
      TailNames(b, reverse);
      SortedUnique(a[1..], b[1..], reverse);
      assert a == [a[0]] + a[1..] && b == [b[0]] + b[1..];
    }
  }

  lemma FirstIsFirst(a: seq<Name>, b: seq<Name>, reverse: bool)
    requires Sorted(a, reverse) && Sorted(b, reverse) && a != [] && b != [] && a[0] in b && b[0] in a
    ensures a[0] == b[0]
  {
    var i :| 0 <= i < |b| && b[i] == a[0];
    var j :| 0 <= j < |a| && a[j] == b[0];
    Asymmetric(a[0], b[0]);
    assert 0 < i ==> Before(b[0], a[0], reverse);
    assert 0 < j ==> Before(a[0], b[0], reverse);
  }

  lemma TailNames(a: seq<Name>, reverse: bool)
    requires Sorted(a, reverse) && a != []
    ensures Names(a[1..]) == Names(a) - {a[0]} && Sorted(a[1..], reverse)
  {
    SortedDistinct(a, reverse);
    forall n ensures n in Names(a[1..]) <==> n in Names(a) - {a[0]} {
      if n in Names(a) - {a[0]} {
        var i :| 0 <= i < |a| && a[i] == n;
        assert a[1..][i - 1] == n;
      }
    }
  }
}
