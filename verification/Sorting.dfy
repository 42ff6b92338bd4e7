/** Array.prototype.sort with a comparison of text keys by code units. */
module Sorting {
  import opened Common

  /** String comparison `<`: lexicographic by UTF-16 code unit. */
  predicate Less(a: Text, b: Text) {
    if b == [] then false
    else if a == [] then true
    else if a[0] != b[0] then a[0] < b[0]
    else Less(a[1..], b[1..])
  }

  lemma {:induction false} LessIsTotal(a: Text, b: Text)
    ensures Less(a, b) || Less(b, a) <==> a != b
    ensures !(Less(a, b) && Less(b, a))
  {
    if a != [] && b != [] && a[0] == b[0] {
      LessIsTotal(a[1..], b[1..]);
      assert a == [a[0]] + a[1..] && b == [b[0]] + b[1..];
    }
  }

  lemma {:induction false} LessIsTransitive(a: Text, b: Text, c: Text)
    requires Less(a, b) && Less(b, c)
    ensures Less(a, c)
  {
    if a != [] && a[0] == b[0] && b[0] == c[0] {
      LessIsTransitive(a[1..], b[1..], c[1..]);
    }
  }

  ghost predicate Ordered<T>(s: seq<T>, key: T -> Text) {
    forall i, j | 0 <= i < j < |s| :: Less(key(s[i]), key(s[j]))
  }

  ghost predicate DistinctKeys<T>(s: seq<T>, key: T -> Text) {
    forall i, j | 0 <= i < j < |s| :: key(s[i]) != key(s[j])
  }

  function Insert<T>(x: T, s: seq<T>, key: T -> Text): seq<T> {
    if s == [] || !Less(key(s[0]), key(x)) then [x] + s
    else [s[0]] + Insert(x, s[1..], key)
  }

  /** Stable: an element stays in front of the later ones with an equal key. */
  function Sort<T>(s: seq<T>, key: T -> Text): seq<T> {
    if s == [] then [] else Insert(s[0], Sort(s[1..], key), key)
  }

  lemma {:induction false} InsertAdds<T>(x: T, s: seq<T>, key: T -> Text)
    ensures multiset(Insert(x, s, key)) == multiset{x} + multiset(s)
  {
    if s == [] || !Less(key(s[0]), key(x)) {
    } else {
      InsertAdds(x, s[1..], key);
      assert s == [s[0]] + s[1..];
    }
  }

  lemma {:induction false} SortPermutes<T>(s: seq<T>, key: T -> Text)
    ensures multiset(Sort(s, key)) == multiset(s)
  {
    if s != [] {
      SortPermutes(s[1..], key);
      InsertAdds(s[0], Sort(s[1..], key), key);
      assert s == [s[0]] + s[1..];
    }
  }

  lemma SortKeepsMembers<T>(s: seq<T>, key: T -> Text)
    ensures |Sort(s, key)| == |s|
    ensures forall x: T :: x in Sort(s, key) <==> x in s
  {
    SortPermutes(s, key);
    assert |multiset(Sort(s, key))| == |multiset(s)|;
    forall x: T ensures x in Sort(s, key) <==> x in s {
      assert x in multiset(Sort(s, key)) <==> x in multiset(s);
    }
  }

  lemma {:induction false} InsertOrders<T>(x: T, s: seq<T>, key: T -> Text)
    requires Ordered(s, key)
    requires forall y <- s :: key(y) != key(x)
    ensures Ordered(Insert(x, s, key), key)
  {
    if s != [] {
      LessIsTotal(key(s[0]), key(x));
      if Less(key(s[0]), key(x)) {
        InsertOrders(x, s[1..], key);
        InsertAdds(x, s[1..], key);
        var t := Insert(x, s[1..], key);
        forall j | 0 <= j < |t| ensures Less(key(s[0]), key(t[j])) {
          assert t[j] in multiset(t);
        }
      } else {
        forall j | 0 < j < |s| ensures Less(key(x), key(s[j])) {
          LessIsTransitive(key(x), key(s[0]), key(s[j]));
        }
      }
    }
  }

  lemma {:induction false} SortOrders<T>(s: seq<T>, key: T -> Text)
    requires DistinctKeys(s, key)
    ensures Ordered(Sort(s, key), key)
  {
    if s != [] {
      var tail := Sort(s[1..], key);
      SortOrders(s[1..], key);
      SortPermutes(s[1..], key);
      forall y | y in tail ensures key(y) != key(s[0]) {
        assert y in multiset(tail);
        var i :| 1 <= i < |s| && s[i] == y;
      }
      InsertOrders(s[0], tail, key);
    }
  }

  /** A sorted list with distinct keys is determined by its members. */
  lemma {:induction false} OrderedIsUnique<T>(a: seq<T>, b: seq<T>, key: T -> Text)
    requires Ordered(a, key) && Ordered(b, key)
    requires forall x: T :: x in a <==> x in b
    ensures a == b
  {
    if a != [] { assert a[0] in b; }
    if b != [] { assert b[0] in a; }
    if a != [] {
      HeadsAgree(a, b, key);
      forall x: T ensures x in a[1..] <==> x in b[1..] {
        if x in a[1..] { NotInTail(a, x, key); assert x in b && x != b[0]; }
        if x in b[1..] { NotInTail(b, x, key); assert x in a && x != a[0]; }
      }
      OrderedIsUnique(a[1..], b[1..], key);
      assert a == [a[0]] + a[1..] && b == [b[0]] + b[1..];
    }
  }

  lemma HeadsAgree<T>(a: seq<T>, b: seq<T>, key: T -> Text)
    requires Ordered(a, key) && Ordered(b, key) && a != [] && b != []
    requires forall x: T :: x in a <==> x in b
    ensures a[0] == b[0]
  {
    assert a[0] in b && b[0] in a;
    var i :| 0 <= i < |b| && b[i] == a[0];
    var j :| 0 <= j < |a| && a[j] == b[0];
    LessIsTotal(key(a[0]), key(b[0]));
  }

  lemma NotInTail<T>(a: seq<T>, x: T, key: T -> Text)
    requires Ordered(a, key) && a != [] && x in a[1..]
    ensures x != a[0]
  {
    var i :| 1 <= i < |a| && a[i] == x;
    LessIsTotal(key(a[0]), key(a[i]));
  }

  lemma OrderedKeysDistinct<T>(s: seq<T>, key: T -> Text)
    requires Ordered(s, key)
    ensures DistinctKeys(s, key)
  {
    forall i, j | 0 <= i < j < |s| ensures key(s[i]) != key(s[j]) {
      LessIsTotal(key(s[i]), key(s[j]));
    }
  }

  /** Sorting a sorted list changes nothing. */
  lemma SortIsIdempotent<T>(s: seq<T>, key: T -> Text)
    requires Ordered(s, key)
    ensures Sort(s, key) == s
  {
    OrderedKeysDistinct(s, key);
    SortOrders(s, key);
    SortKeepsMembers(s, key);
    OrderedIsUnique(Sort(s, key), s, key);
  }

  /** Sorting looks at keys only, so it commutes with any change of the rest. */
  lemma {:induction false} SortCommutes<T, U>(s: seq<T>, t: seq<U>, f: T -> U, key: T -> Text, key': U -> Text)
    requires |s| == |t| && forall i | 0 <= i < |s| :: t[i] == f(s[i])
    requires forall x: T :: key'(f(x)) == key(x)
    ensures |Sort(t, key')| == |Sort(s, key)|
    ensures forall i | 0 <= i < |Sort(s, key)| :: Sort(t, key')[i] == f(Sort(s, key)[i])
  {
    if s != [] {
      SortCommutes(s[1..], t[1..], f, key, key');
      InsertCommutes(s[0], Sort(s[1..], key), Sort(t[1..], key'), f, key, key');
    }
  }

  lemma {:induction false} InsertCommutes<T, U>(x: T, s: seq<T>, t: seq<U>, f: T -> U, key: T -> Text, key': U -> Text)
    requires |s| == |t| && forall i | 0 <= i < |s| :: t[i] == f(s[i])
    requires forall x: T :: key'(f(x)) == key(x)
    ensures |Insert(f(x), t, key')| == |Insert(x, s, key)|
    ensures forall i | 0 <= i < |Insert(x, s, key)| :: Insert(f(x), t, key')[i] == f(Insert(x, s, key)[i])
  {
    if s != [] && Less(key(s[0]), key(x)) {
      InsertCommutes(x, s[1..], t[1..], f, key, key');
    }
  }

  ghost predicate WeaklyOrdered<T>(s: seq<T>, key: T -> Text) {
    forall i, j | 0 <= i < j < |s| :: !Less(key(s[j]), key(s[i]))
  }

  lemma {:induction false} InsertWeaklyOrders<T>(x: T, s: seq<T>, key: T -> Text)
    requires WeaklyOrdered(s, key)
    ensures WeaklyOrdered(Insert(x, s, key), key)
  {
    if s != [] {
      if Less(key(s[0]), key(x)) {
        InsertWeaklyOrders(x, s[1..], key);
        InsertAdds(x, s[1..], key);
        var t := Insert(x, s[1..], key);
        LessIsTotal(key(s[0]), key(x));
        forall j | 0 <= j < |t| ensures !Less(key(t[j]), key(s[0])) {
          assert t[j] in multiset(t);
        }
      } else {
        forall j | 0 < j < |s| ensures !Less(key(s[j]), key(x)) {
          if Less(key(s[j]), key(x)) { NotLessChain(key(s[j]), key(s[0]), key(x)); }
        }
      }
    }
  }

  lemma NotLessChain(a: Text, b: Text, c: Text)
    requires Less(a, c) && !Less(a, b)
    ensures Less(b, c)
  {
    LessIsTotal(a, b);
    if a != b { LessIsTransitive(b, a, c); }
  }

  lemma {:induction false} WeaklyOrderedIsSorted<T>(s: seq<T>, key: T -> Text)
    requires WeaklyOrdered(s, key)
    ensures Sort(s, key) == s
  {
    if s != [] {
      WeaklyOrderedIsSorted(s[1..], key);
      assert s == [s[0]] + s[1..];
    }
  }

  lemma {:induction false} SortWeaklyOrders<T>(s: seq<T>, key: T -> Text)
    ensures WeaklyOrdered(Sort(s, key), key)
  {
    if s != [] {
      SortWeaklyOrders(s[1..], key);
      InsertWeaklyOrders(s[0], Sort(s[1..], key), key);
    }
  }

  /** Sorting twice is sorting once, with or without equal keys. */
  lemma SortIsSortedAgain<T>(s: seq<T>, key: T -> Text)
    ensures Sort(Sort(s, key), key) == Sort(s, key)
  {
    SortWeaklyOrders(s, key);
    WeaklyOrderedIsSorted(Sort(s, key), key);
  }
}
