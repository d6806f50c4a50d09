/** Ordinal order of strings, and the sorted listings of `SortedDictionary`. */
module Listings {

  /** `StringComparer.Ordinal`, by code unit. */
  predicate Before(a: string, b: string) {
    if b == "" then false
    else if a == "" then true
    else a[0] < b[0] || (a[0] == b[0] && Before(a[1..], b[1..]))
  }

  lemma {:induction false} BeforeIsTotal(a: string, b: string)
    ensures Before(a, b) || a == b || Before(b, a)
    ensures !(Before(a, b) && Before(b, a)) && (Before(a, b) ==> a != b)
  {
    if a != "" && b != "" {
      assert a == [a[0]] + a[1..] && b == [b[0]] + b[1..];
      BeforeIsTotal(a[1..], b[1..]);
    }
  }

  lemma {:induction false} BeforeIsTransitive(a: string, b: string, c: string)
    requires Before(a, b) && Before(b, c)
    ensures Before(a, c)
  {
    if a != "" && a[0] == b[0] == c[0] { BeforeIsTransitive(a[1..], b[1..], c[1..]); }
  }

  /** Listed in ascending order of their keys, each key once. */
  ghost predicate Ascending<T>(items: seq<T>, key: T -> string) {
    forall i, j | 0 <= i < j < |items| :: Before(key(items[i]), key(items[j]))
  }

  lemma FirstIsLeast<T>(items: seq<T>, key: T -> string, x: T)
    requires Ascending(items, key) && x in items
    ensures items[0] == x || Before(key(items[0]), key(x))
  {
  }

  lemma RestWithoutFirst<T>(items: seq<T>, key: T -> string, x: T)
    requires Ascending(items, key) && items != []
    ensures x in items[1..] <==> x in items && x != items[0]
  {
    if x in items[1..] {
      var i :| 0 <= i < |items[1..]| && items[1..][i] == x;
      assert items[i + 1] == x && Before(key(items[0]), key(items[i + 1]));
      BeforeIsTotal(key(items[0]), key(x));
    }
  }

  /** Two ascending lists of the same items are the same list. */
  lemma {:induction false} AscendingIsUnique<T(!new)>(a: seq<T>, b: seq<T>, key: T -> string)
    requires Ascending(a, key) && Ascending(b, key) && forall x :: x in a <==> x in b
    ensures a == b
    decreases |a|
  {
    assert |b| > 0 ==> b[0] in a;
    if a == [] {
    } else {
      assert a[0] in b;
      FirstIsLeast(a, key, b[0]);
      FirstIsLeast(b, key, a[0]);
      BeforeIsTotal(key(a[0]), key(b[0]));
      forall x
        ensures x in a[1..] <==> x in b[1..]
      {
        RestWithoutFirst(a, key, x);
        RestWithoutFirst(b, key, x);
      }
      AscendingIsUnique(a[1..], b[1..], key);
      assert a == [a[0]] + a[1..] && b == [b[0]] + b[1..];
    }
  }

  // ---- Sorting ----

  function Inserted<T>(x: T, items: seq<T>, key: T -> string): seq<T> {
    if items == [] then [x]
    else if Before(key(items[0]), key(x)) then [items[0]] + Inserted(x, items[1..], key)
    else [x] + items
  }

  function Sorted<T>(items: seq<T>, key: T -> string): seq<T> {
    if items == [] then [] else Inserted(items[0], Sorted(items[1..], key), key)
  }

  lemma {:induction false} InsertedMembers<T>(x: T, items: seq<T>, key: T -> string, y: T)
    ensures y in Inserted(x, items, key) <==> y == x || y in items
  {
    if items != [] && Before(key(items[0]), key(x)) {
      InsertedMembers(x, items[1..], key, y);
      assert items == [items[0]] + items[1..];
    }
  }

  lemma {:induction false} InsertedAscends<T>(x: T, items: seq<T>, key: T -> string)
    requires Ascending(items, key) && forall y | y in items :: key(y) != key(x)
    ensures Ascending(Inserted(x, items, key), key)
  {
    if items != [] {
      assert items[0] in items;
      BeforeIsTotal(key(items[0]), key(x));
      if Before(key(items[0]), key(x)) {
        var rest := Inserted(x, items[1..], key);
        assert forall y | y in items[1..] :: y in items;
        InsertedAscends(x, items[1..], key);
        forall j | 0 <= j < |rest|
          ensures Before(key(items[0]), key(rest[j]))
        {
          InsertedMembers(x, items[1..], key, rest[j]);
          if rest[j] != x {
            var i :| 0 <= i < |items[1..]| && items[1..][i] == rest[j];
            assert items[i + 1] == rest[j];
          }
        }
      } else {
        forall j | 0 <= j < |items|
          ensures Before(key(x), key(items[j]))
        {
          if j > 0 { BeforeIsTransitive(key(x), key(items[0]), key(items[j])); }
        }
      }
    }
  }

  ghost predicate Distinct<T>(items: seq<T>) {
    forall i, j | 0 <= i < j < |items| :: items[i] != items[j]
  }

  ghost predicate DistinctBy<T>(items: seq<T>, key: T -> string) {
    forall i, j | 0 <= i < j < |items| :: key(items[i]) != key(items[j])
  }

  /** Sorting lists every item once, in ascending order. */
  lemma {:induction false} SortedAscends<T(!new)>(items: seq<T>, key: T -> string)
    requires DistinctBy(items, key)
    ensures Ascending(Sorted(items, key), key) && forall x :: x in Sorted(items, key) <==> x in items
  {
    if items != [] {
      var rest := items[1..];
      SortedAscends(rest, key);
      forall y | y in Sorted(rest, key)
        ensures key(y) != key(items[0])
      {
        assert y in rest;
        var i :| 0 <= i < |rest| && rest[i] == y;
        assert items[i + 1] == y;
      }
      InsertedAscends(items[0], Sorted(rest, key), key);
      forall x
        ensures x in Sorted(items, key) <==> x in items
      {
        InsertedMembers(items[0], Sorted(rest, key), key, x);
        assert items == [items[0]] + rest;
      }
    }
  }
}
