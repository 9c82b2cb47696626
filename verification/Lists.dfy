/** Lists of keyed items: the keys they have, the first item of each key, and the items of one class. */
module Lists {

  function Keys<T, K(==)>(items: seq<T>, keyOf: T -> K): set<K> {
    if items == [] then {} else Keys(items[..|items| - 1], keyOf) + {keyOf(items[|items| - 1])}
  }

  /** The items whose key does not occur before them. */
  function Firsts<T, K(==)>(items: seq<T>, keyOf: T -> K): seq<T> {
    if items == [] then []
    else
      var front, last := items[..|items| - 1], items[|items| - 1];
      if keyOf(last) in Keys(front, keyOf) then Firsts(front, keyOf) else Firsts(front, keyOf) + [last]
  }

  /** The items of one class, in order. */
  function OfClass<T, C(==)>(items: seq<T>, classOf: T -> C, c: C): seq<T> {
    if items == [] then []
    else
      var front, last := OfClass(items[..|items| - 1], classOf, c), items[|items| - 1];
      if classOf(last) == c then front + [last] else front
  }

  ghost predicate DistinctKeys<T, K>(items: seq<T>, keyOf: T -> K) {
    forall i, j :: 0 <= i < j < |items| ==> keyOf(items[i]) != keyOf(items[j])
  }

  lemma {:induction false} KeysExactly<T, K>(items: seq<T>, keyOf: T -> K, key: K)
    ensures key in Keys(items, keyOf) <==> exists l :: l in items && keyOf(l) == key
  {
    if items != [] {
      var front, last := items[..|items| - 1], items[|items| - 1];
      KeysExactly(front, keyOf, key);
      assert items == front + [last];
    }
  }

  lemma KeysOfOneMore<T, K>(items: seq<T>, last: T, keyOf: T -> K)
    ensures Keys(items + [last], keyOf) == Keys(items, keyOf) + {keyOf(last)}
  {
  }

  lemma {:induction false} KeysOfConcat<T, K>(a: seq<T>, b: seq<T>, keyOf: T -> K)
    ensures Keys(a + b, keyOf) == Keys(a, keyOf) + Keys(b, keyOf)
  {
    if b == [] {
      assert a + b == a;
    } else {
      assert (a + b)[..|a + b| - 1] == a + b[..|b| - 1];
      KeysOfConcat(a, b[..|b| - 1], keyOf);
    }
  }

  lemma {:induction false} FirstsHaveKeys<T, K>(items: seq<T>, keyOf: T -> K)
    ensures Keys(Firsts(items, keyOf), keyOf) == Keys(items, keyOf)
  {
    if items != [] {
      FirstsHaveKeys(items[..|items| - 1], keyOf);
      KeysOfOneMore(Firsts(items[..|items| - 1], keyOf), items[|items| - 1], keyOf);
    }
  }

  lemma DistinctKeysOfOneMore<T, K>(items: seq<T>, last: T, keyOf: T -> K)
    requires DistinctKeys(items, keyOf) && keyOf(last) !in Keys(items, keyOf)
    ensures DistinctKeys(items + [last], keyOf)
  {
    forall i | 0 <= i < |items|
      ensures keyOf(items[i]) != keyOf(last)
    {
      KeysExactly(items, keyOf, keyOf(items[i]));
    }
  }

  lemma {:induction false} FirstsAreDistinct<T, K>(items: seq<T>, keyOf: T -> K)
    ensures DistinctKeys(Firsts(items, keyOf), keyOf)
  {
    if items != [] {
      var front, last := items[..|items| - 1], items[|items| - 1];
      FirstsAreDistinct(front, keyOf);
      FirstsHaveKeys(front, keyOf);
      if keyOf(last) !in Keys(front, keyOf) {
        DistinctKeysOfOneMore(Firsts(front, keyOf), last, keyOf);
      }
    }
  }

  lemma {:induction false} FirstsAreItems<T, K>(items: seq<T>, keyOf: T -> K)
    ensures forall l :: l in Firsts(items, keyOf) ==> l in items
  {
    if items != [] {
      FirstsAreItems(items[..|items| - 1], keyOf);
      assert items == items[..|items| - 1] + [items[|items| - 1]];
    }
  }

  /** Taking first occurrences keeps every key, once. */
  lemma FirstsKeepKeys<T, K>(items: seq<T>, keyOf: T -> K)
    ensures Keys(Firsts(items, keyOf), keyOf) == Keys(items, keyOf)
    ensures DistinctKeys(Firsts(items, keyOf), keyOf)
    ensures forall l :: l in Firsts(items, keyOf) ==> l in items
  {
    FirstsHaveKeys(items, keyOf);
    FirstsAreDistinct(items, keyOf);
    FirstsAreItems(items, keyOf);
  }

  lemma {:induction false} FirstsOfDistinct<T, K>(items: seq<T>, keyOf: T -> K)
    requires DistinctKeys(items, keyOf)
    ensures Firsts(items, keyOf) == items
  {
    if items != [] {
      var front, last := items[..|items| - 1], items[|items| - 1];
      FirstsOfDistinct(front, keyOf);
      KeysExactly(front, keyOf, keyOf(last));
      assert items == front + [last];
    }
  }

  lemma {:induction false} FirstsOfConcat<T, K>(a: seq<T>, b: seq<T>, keyOf: T -> K)
    requires Keys(a, keyOf) !! Keys(b, keyOf)
    ensures Firsts(a + b, keyOf) == Firsts(a, keyOf) + Firsts(b, keyOf)
  {
    if b == [] {
      assert a + b == a;
    } else {
      var front, last := b[..|b| - 1], b[|b| - 1];
      assert (a + b)[..|a + b| - 1] == a + front;
      assert forall l :: l in front ==> l in b;
      assert keyOf(last) in Keys(b, keyOf);
      FirstsOfConcat(a, front, keyOf);
      KeysOfConcat(a, front, keyOf);
    }
  }

  /** It is the first occurrences that are taken: later items never move or replace them. */
  lemma {:induction false} FirstsOfLonger<T, K>(a: seq<T>, b: seq<T>, keyOf: T -> K)
    ensures Firsts(a, keyOf) <= Firsts(a + b, keyOf)
  {
    if b == [] {
      assert a + b == a;
    } else {
      FirstsOfLonger(a, b[..|b| - 1], keyOf);
      assert (a + b)[..|a + b| - 1] == a + b[..|b| - 1];
    }
  }

  lemma {:induction false} OfClassExactly<T, C>(items: seq<T>, classOf: T -> C, c: C, item: T)
    ensures item in OfClass(items, classOf, c) <==> item in items && classOf(item) == c
  {
    if items != [] {
      OfClassExactly(items[..|items| - 1], classOf, c, item);
      assert items == items[..|items| - 1] + [items[|items| - 1]];
    }
  }

  lemma {:induction false} OfClassOfConcat<T, C>(a: seq<T>, b: seq<T>, classOf: T -> C, c: C)
    ensures OfClass(a + b, classOf, c) == OfClass(a, classOf, c) + OfClass(b, classOf, c)
  {
    if b == [] {
      assert a + b == a;
    } else {
      assert (a + b)[..|a + b| - 1] == a + b[..|b| - 1];
      OfClassOfConcat(a, b[..|b| - 1], classOf, c);
    }
  }

  /** A list of one class is all of that class and nothing of another. */
  lemma {:induction false} OfOneClass<T, C>(items: seq<T>, classOf: T -> C, c: C, d: C)
    requires forall l :: l in items ==> classOf(l) == c
    ensures OfClass(items, classOf, d) == if c == d then items else []
  {
    if items != [] {
      assert items[|items| - 1] in items;
      assert forall l :: l in items[..|items| - 1] ==> l in items;
      OfOneClass(items[..|items| - 1], classOf, c, d);
    }
  }

  lemma FirstsOfOneMore<T, K>(items: seq<T>, last: T, keyOf: T -> K)
    ensures Firsts(items + [last], keyOf) ==
            if keyOf(last) in Keys(items, keyOf) then Firsts(items, keyOf) else Firsts(items, keyOf) + [last]
  {
  }

  lemma OfClassOfOneMore<T, C>(items: seq<T>, last: T, classOf: T -> C, c: C)
    ensures OfClass(items + [last], classOf, c) ==
            if classOf(last) == c then OfClass(items, classOf, c) + [last] else OfClass(items, classOf, c)
  {
  }

  lemma {:induction false} OfClassKeepsDistinct<T, C, K>(items: seq<T>, classOf: T -> C, c: C, keyOf: T -> K)
    requires DistinctKeys(items, keyOf)
    ensures DistinctKeys(OfClass(items, classOf, c), keyOf)
  {
    if items != [] {
      var front, last := items[..|items| - 1], items[|items| - 1];
      OfClassKeepsDistinct(front, classOf, c, keyOf);
      var kept := OfClass(front, classOf, c);
      forall i | 0 <= i < |kept|
        ensures keyOf(kept[i]) != keyOf(last)
      {
        OfClassExactly(front, classOf, c, kept[i]);
      }
    }
  }

  lemma {:induction false} DistinctKeysCount<T, K>(items: seq<T>, keyOf: T -> K)
    requires DistinctKeys(items, keyOf)
    ensures |Keys(items, keyOf)| == |items|
  {
    if items != [] {
      var front, last := items[..|items| - 1], items[|items| - 1];
      DistinctKeysCount(front, keyOf);
      KeysExactly(front, keyOf, keyOf(last));
    }
  }
}
