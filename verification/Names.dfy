/** Names, their order, and the sorted listings Go's `sort.Strings` produces.
    Go compares strings bytewise; on UTF-8 that is the order of code points. */
module Names {

  datatype Option<+T> = None | Some(value: T)

  predicate Less(a: string, b: string) {
    b != [] && (a == [] || a[0] < b[0] || (a[0] == b[0] && Less(a[1..], b[1..])))
  }

  lemma {:induction false} LessTransitive(a: string, b: string, c: string)
    requires Less(a, b) && Less(b, c)
    ensures Less(a, c)
  {
    if a != [] && a[0] == b[0] && b[0] == c[0] {
      LessTransitive(a[1..], b[1..], c[1..]);
    }
  }

  lemma {:induction false} LessAsymmetric(a: string, b: string)
    requires Less(a, b)
    ensures !Less(b, a)
  {
    if a != [] && a[0] == b[0] {
      LessAsymmetric(a[1..], b[1..]);
    }
  }

  lemma {:induction false} LessTotal(a: string, b: string)
    ensures a == b || Less(a, b) || Less(b, a)
  {
    if a != [] && b != [] && a[0] == b[0] {
      LessTotal(a[1..], b[1..]);
      assert a == [a[0]] + a[1..] && b == [b[0]] + b[1..];
    }
  }

  /** The order is decided at the first difference; a prefix comes first. */
  lemma {:induction false} LessExact(a: string, b: string)
    ensures Less(a, b) <==>
            exists k :: 0 <= k <= |a| && k < |b| && a[..k] == b[..k] && (k == |a| || a[k] < b[k])
    decreases |a|
  {
    if a != [] && b != [] && a[0] == b[0] {
      LessExact(a[1..], b[1..]);
      if k :| 0 <= k <= |a| && k < |b| && a[..k] == b[..k] && (k == |a| || a[k] < b[k]) {
        SamePrefixTail(a, b, k);
      }
      if k :| 0 <= k <= |a| - 1 && k < |b| - 1 && a[1..][..k] == b[1..][..k] && (k == |a| - 1 || a[1..][k] < b[1..][k]) {
        assert a[..k + 1] == [a[0]] + a[1..][..k] && b[..k + 1] == [b[0]] + b[1..][..k];
      }
    } else if a != [] && b != [] {
      assert a[..0] == b[..0];
      forall k | 0 < k <= |a| && k < |b| ensures a[..k] != b[..k] { assert a[..k][0] != b[..k][0]; }
    } else if b != [] {
      assert a[..0] == b[..0];
    }
  }

  lemma SamePrefixTail(a: string, b: string, k: nat)
    requires a != [] && b != [] && k <= |a| && k < |b| && a[..k] == b[..k] && a[0] == b[0] && (k == |a| || a[k] < b[k])
    ensures 0 < k && a[1..][..k - 1] == b[1..][..k - 1]
  {
    assert k > 0;
    assert a[1..][..k - 1] == a[..k][1..] && b[1..][..k - 1] == b[..k][1..];
  }

  /** No later name is smaller than an earlier one. */
  ghost predicate Sorted(s: seq<string>) {
    forall i, j :: 0 <= i < j < |s| ==> !Less(s[j], s[i])
  }

  function Insert(x: string, s: seq<string>): (r: seq<string>)
    ensures multiset(r) == multiset(s) + multiset{x}
  {
    if s == [] then [x]
    else
      assert s == [s[0]] + s[1..];
      if Less(s[0], x) then [s[0]] + Insert(x, s[1..]) else [x] + s
  }

  lemma {:induction false} InsertSorted(x: string, s: seq<string>)
    requires Sorted(s)
    ensures Sorted(Insert(x, s))
  {
    if s != [] {
      if Less(s[0], x) {
        InsertSorted(x, s[1..]);
        var rest := Insert(x, s[1..]);
        LessAsymmetric(s[0], x);
        forall y | y in rest ensures !Less(y, s[0]) {
          assert y in multiset(rest);
          assert y == x || y in s[1..];
        }
      } else {
        forall y | y in s ensures !Less(y, x) {
          if Less(y, x) {
            LessTotal(s[0], y);
            if Less(s[0], y) { LessTransitive(s[0], y, x); }
          }
        }
      }
    }
  }

  /** `sort.Strings`. */
  function SortNames(s: seq<string>): (r: seq<string>)
    ensures multiset(r) == multiset(s)
  {
    if s == [] then [] else
      assert s == [s[0]] + s[1..];
      Insert(s[0], SortNames(s[1..]))
  }

  lemma {:induction false} SortNamesSorted(s: seq<string>)
    ensures Sorted(SortNames(s))
  {
    if s != [] {
      SortNamesSorted(s[1..]);
      InsertSorted(s[0], SortNames(s[1..]));
    }
  }

  /** A sorted list is determined by what it holds. */
  lemma {:induction false} SortedUnique(a: seq<string>, b: seq<string>)
    requires Sorted(a) && Sorted(b) && multiset(a) == multiset(b)
    ensures a == b
  {
    if a == [] {
      assert |multiset(b)| == 0;
    } else {
      assert a == [a[0]] + a[1..];
      assert b != [] by { assert a[0] in multiset(b); }
      assert b == [b[0]] + b[1..];
      assert a[0] in multiset(b) && b[0] in multiset(a);
      LessTotal(a[0], b[0]);
      assert multiset(a[1..]) == multiset(a) - multiset{a[0]};
      assert multiset(b[1..]) == multiset(b) - multiset{b[0]};
      SortedUnique(a[1..], b[1..]);
    }
  }

  /** Sorting forgets the order of its argument. */
  lemma SortNamesPermutation(a: seq<string>, b: seq<string>)
    requires multiset(a) == multiset(b)
    ensures SortNames(a) == SortNames(b)
  {
    SortNamesSorted(a);
    SortNamesSorted(b);
    SortedUnique(SortNames(a), SortNames(b));
  }

  /** What the first `j` entries name. */
  function Elements(s: seq<string>, j: nat := |s|): (r: set<string>)
    requires j <= |s|
  {
    if j == 0 then {} else Elements(s, j - 1) + {s[j - 1]}
  }

  lemma {:induction false} ElementsContents(s: seq<string>, j: nat)
    requires j <= |s|
    ensures forall x :: x in Elements(s, j) <==> exists i :: 0 <= i < j && s[i] == x
  {
    if j > 0 { ElementsContents(s, j - 1); }
  }

  ghost function AnyOf<T>(keys: set<T>): T
    requires keys != {}
  {
    var x :| x in keys; x
  }

  /** A map or set is ranged over in no particular order. */
  method PickAny<T>(keys: set<T>) returns (x: T)
    requires keys != {}
    ensures x in keys
  {
    x :| x in keys;
  }

  /** The list without its element at `k`. */
  function Cut<T>(s: seq<T>, k: nat): (r: seq<T>)
    requires k < |s|
    ensures |r| == |s| - 1
  {
    s[..k] + s[k + 1..]
  }

  lemma CutAt<T>(s: seq<T>, k: nat)
    requires k < |s|
    ensures forall i :: 0 <= i < k ==> Cut(s, k)[i] == s[i]
    ensures forall i :: k <= i < |s| - 1 ==> Cut(s, k)[i] == s[i + 1]
  {
  }

  lemma CutWhole<T>(s: seq<T>, k: nat)
    requires k < |s|
    ensures s == s[..k] + ([s[k]] + s[k + 1..])
  {
  }

  lemma CutBag<T>(s: seq<T>, k: nat)
    requires k < |s|
    ensures multiset(Cut(s, k)) == multiset(s) - multiset{s[k]}
  {
    assert s == s[..k] + [s[k]] + s[k + 1..];
  }

  /** Where a permutation keeps the first element; cutting it leaves a permutation. */
  lemma SameHead<T>(a: seq<T>, b: seq<T>) returns (k: nat)
    requires multiset(a) == multiset(b) && a != []
    ensures k < |b| && b[k] == a[0] && multiset(Cut(a, 0)) == multiset(Cut(b, k))
  {
    assert a[0] in multiset(b);
    k :| 0 <= k < |b| && b[k] == a[0];
    CutBag(a, 0);
    CutBag(b, k);
  }

  /** The members of a set in order, each exactly once. */
  ghost function Listing(keys: set<string>): (r: seq<string>)
    ensures forall i :: 0 <= i < |r| ==> r[i] in keys
  {
    if keys == {} then [] else
      var x := AnyOf(keys);
      var r := Insert(x, Listing(keys - {x}));
      assert forall i :: 0 <= i < |r| ==> r[i] in multiset(r);
      r
  }

  lemma MultisetRemove(keys: set<string>, x: string)
    requires x in keys
    ensures multiset(keys) == multiset(keys - {x}) + multiset{x}
  {
  }

  lemma {:induction false} ListingMultiset(keys: set<string>)
    ensures multiset(Listing(keys)) == multiset(keys)
    decreases keys
  {
    if keys != {} {
      var x := AnyOf(keys);
      ListingMultiset(keys - {x});
      MultisetRemove(keys, x);
    }
  }

  lemma ListingContents(keys: set<string>, x: string)
    ensures x in Listing(keys) <==> x in keys
  {
    ListingMultiset(keys);
    assert x in Listing(keys) <==> x in multiset(Listing(keys));
  }

  lemma {:induction false} ListingSorted(keys: set<string>)
    ensures Sorted(Listing(keys))
    decreases keys
  {
    if keys != {} {
      var x := AnyOf(keys);
      ListingSorted(keys - {x});
      InsertSorted(x, Listing(keys - {x}));
    }
  }

  /** Each name of a listing comes before all later ones. */
  lemma ListingStrict(keys: set<string>, i: nat, j: nat)
    requires i < j < |Listing(keys)|
    ensures Less(Listing(keys)[i], Listing(keys)[j])
  {
    var r := Listing(keys);
    ListingSorted(keys);
    ListingMultiset(keys);
    LessTotal(r[i], r[j]);
    if r[i] == r[j] { OccursTwice(r, i, j); }
  }

  lemma OccursTwice<T>(s: seq<T>, i: nat, j: nat)
    requires i < j < |s| && s[i] == s[j]
    ensures multiset(s)[s[i]] >= 2
  {
    assert s == s[..i] + [s[i]] + s[i + 1..j] + [s[j]] + s[j + 1..];
  }

  /** `sortedKeys`: whatever order the map is ranged over, the result is the listing. */
  method SortedKeys(keys: set<string>) returns (r: seq<string>)
    ensures r == Listing(keys)
  {
    r := [];
    var rest := keys;
    while rest != {}
      invariant rest <= keys
      invariant Sorted(r) && multiset(r) == multiset(keys - rest)
      decreases rest
    {
      var k := PickAny(rest);
      InsertSorted(k, r);
      r := Insert(k, r);
      assert keys - (rest - {k}) == (keys - rest) + {k};
      rest := rest - {k};
    }
    assert keys - rest == keys;
    ListingSorted(keys);
    ListingMultiset(keys);
    SortedUnique(r, Listing(keys));
  }
}
