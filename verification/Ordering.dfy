// The order of paths, and listings of finite sets.

module Ordering {
  import opened SoulTypes

  /** Code-unit order, the default order of Array.prototype.sort on strings. */
  predicate Before(a: Text, b: Text) {
    if |a| == 0 || |b| == 0 then |a| < |b|
    else if a[0] != b[0] then a[0] < b[0]
    else Before(a[1..], b[1..])
  }

  /** Strings compare at the first unit that differs, and a beginning comes first. */
  lemma {:induction false} FirstDifferenceDecides(common: string, c: char, d: char, x: string, y: string)
    requires |common| + 1 + |x| < 0x1_0000_0000 && |common| + 1 + |y| < 0x1_0000_0000 && c < d
    ensures Before(common + [c] + x, common + [d] + y)
    ensures Before(common, common + [c] + x)
  {
    if common != "" {
      FirstDifferenceDecides(common[1..], c, d, x, y);
      assert (common + [c] + x)[1..] == common[1..] + [c] + x;
      assert (common + [d] + y)[1..] == common[1..] + [d] + y;
    }
  }

  lemma {:induction false} BeforeIsTotal(a: Text, b: Text)
    ensures a != b ==> Before(a, b) || Before(b, a)
    ensures !(Before(a, b) && Before(b, a))
  {
    if |a| == 0 || |b| == 0 {
    } else if a[0] == b[0] {
      assert a == [a[0]] + a[1..] && b == [b[0]] + b[1..];
      BeforeIsTotal(a[1..], b[1..]);
    }
  }

  lemma {:induction false} BeforeIsTransitive(a: Text, b: Text, c: Text)
    requires Before(a, b) && Before(b, c)
    ensures Before(a, c)
  {
    if |a| != 0 && a[0] == b[0] == c[0] {
      BeforeIsTransitive(a[1..], b[1..], c[1..]);
    }
  }

  ghost predicate Ascending(keys: seq<Text>) {
    forall i, j :: 0 <= i < j < |keys| ==> Before(keys[i], keys[j])
  }

  ghost predicate Distinct<T>(s: seq<T>) {
    forall i, j :: 0 <= i < j < |s| ==> s[i] != s[j]
  }

  /** `s` lists every element of `all` exactly once. */
  ghost predicate Enumerates<T>(s: seq<T>, all: set<T>) {
    && Distinct(s)
    && (forall x :: x in s ==> x in all)
    && (forall x :: x in all ==> x in s)
  }

  lemma {:induction false} EnumerationSize<T>(s: seq<T>, all: set<T>)
    requires Enumerates(s, all)
    ensures |s| == |all|
  {
    if s == [] {
      assert all == {};
    } else {
      var last := |s| - 1;
      forall x ensures x in s[..last] <==> x in all - {s[last]} {
        if x in all - {s[last]} {
          assert x in s;
        }
      }
      EnumerationSize(s[..last], all - {s[last]});
    }
  }

  lemma SharedElementSoNonEmpty<T>(a: seq<T>, b: seq<T>)
    requires a != [] && forall x :: x in a ==> x in b
    ensures b != []
  {
    assert a[0] in b;
  }

  /** An ascending list is determined by the set of its elements. */
  lemma {:induction false} AscendingIsUnique(a: seq<Text>, b: seq<Text>)
    requires Ascending(a) && Ascending(b)
    requires forall x :: x in a <==> x in b
    ensures a == b
  {
    if b != [] {
      SharedElementSoNonEmpty(b, a);
    }
    if a != [] {
      SharedElementSoNonEmpty(a, b);
      HeadIsLeast(a, b);
      forall x ensures x in a[1..] <==> x in b[1..] {
        TailExcludesHead(a);
        TailExcludesHead(b);
        assert x in a <==> x == a[0] || x in a[1..];
        assert x in b <==> x == b[0] || x in b[1..];
      }
      AscendingIsUnique(a[1..], b[1..]);
      assert a == [a[0]] + a[1..] && b == [b[0]] + b[1..];
    }
  }

  lemma TailExcludesHead(a: seq<Text>)
    requires a != [] && Ascending(a)
    ensures a[0] !in a[1..]
  {
    if a[0] in a[1..] {
      var i :| 0 < i < |a| && a[i] == a[0];
      BeforeIsTotal(a[0], a[i]);
    }
  }

  lemma HeadIsLeast(a: seq<Text>, b: seq<Text>)
    requires a != [] && b != [] && Ascending(a) && Ascending(b)
    requires forall x :: x in a <==> x in b
    ensures a[0] == b[0]
  {
    if a[0] != b[0] {
      assert a[0] in b && b[0] in a;
      var i :| 0 <= i < |b| && b[i] == a[0];
      var j :| 0 <= j < |a| && a[j] == b[0];
      BeforeIsTotal(a[0], b[0]);
    }
  }

  /** Where `x` belongs in an ascending list that does not contain it. */
  function Insert(x: Text, s: seq<Text>): (r: seq<Text>)
    ensures forall y :: y in r <==> y == x || y in s
  {
    if s == [] then [x]
    else if Before(x, s[0]) then [x] + s
    else
      assert s == [s[0]] + s[1..];
      [s[0]] + Insert(x, s[1..])
  }

  lemma {:induction false} InsertKeepsAscending(x: Text, s: seq<Text>)
    requires Ascending(s) && x !in s
    ensures Ascending(Insert(x, s))
  {
    if s != [] {
      if Before(x, s[0]) {
        forall k | 0 <= k < |s| ensures Before(x, s[k]) {
          if 0 < k { BeforeIsTransitive(x, s[0], s[k]); }
        }
      } else {
        BeforeIsTotal(x, s[0]);
        assert s == [s[0]] + s[1..];
        InsertKeepsAscending(x, s[1..]);
        var rest := Insert(x, s[1..]);
        forall k | 0 <= k < |rest| ensures Before(s[0], rest[k]) {
          assert rest[k] in rest;
          if rest[k] in s[1..] {
            var j :| 0 < j < |s| && s[j] == rest[k];
          }
        }
      }
    }
  }

  function Sort(keys: seq<Text>): (r: seq<Text>)
    ensures forall x :: x in r <==> x in keys
  {
    if keys == [] then []
    else
      assert keys == [keys[0]] + keys[1..];
      Insert(keys[0], Sort(keys[1..]))
  }

  lemma {:induction false} SortAscends(keys: seq<Text>)
    requires Distinct(keys)
    ensures Ascending(Sort(keys))
  {
    if keys != [] {
      SortAscends(keys[1..]);
      InsertKeepsAscending(keys[0], Sort(keys[1..]));
    }
  }

  /** Some listing of a finite set. */
  lemma {:induction false} EnumerationExists<T>(all: set<T>) returns (s: seq<T>)
    ensures Enumerates(s, all)
  {
    if all == {} {
      s := [];
    } else {
      var x :| x in all;
      var rest := EnumerationExists(all - {x});
      s := rest + [x];
    }
  }
}
