/** Byte-string order and the sorted form of a list of counted codes. */
module Sorting {
  import opened Bytes

  predicate LexLess(a: Bytes, b: Bytes) {
    b != [] && (a == [] || a[0] < b[0] || (a[0] == b[0] && LexLess(a[1..], b[1..])))
  }

  lemma {:induction false} LexTrichotomy(a: Bytes, b: Bytes)
    ensures a == b || LexLess(a, b) || LexLess(b, a)
    ensures !(LexLess(a, b) && LexLess(b, a)) && (a == b ==> !LexLess(a, b))
  {
    if a != [] && b != [] {
      LexTrichotomy(a[1..], b[1..]);
      assert a == [a[0]] + a[1..] && b == [b[0]] + b[1..];
    }
  }

  lemma {:induction false} LexTransitive(a: Bytes, b: Bytes, c: Bytes)
    requires LexLess(a, b) && LexLess(b, c)
    ensures LexLess(a, c)
  {
    if a != [] && a[0] == b[0] == c[0] {
      LexTransitive(a[1..], b[1..], c[1..]);
    }
  }

  datatype Entry = Entry(code: Bytes, count: nat)

  /** The builder's order, and the reader's: larger counts first. */
  datatype Order = ByCode | ByCount

  /** `a` may stand before `b`. */
  predicate Leq(o: Order, a: Entry, b: Entry) {
    match o
    case ByCode => LexLess(a.code, b.code) || (a.code == b.code && a.count <= b.count)
    case ByCount => a.count > b.count || (a.count == b.count && !LexLess(b.code, a.code))
  }

  lemma {:induction false} LeqOrder(o: Order, a: Entry, b: Entry)
    ensures Leq(o, a, b) || Leq(o, b, a)
    ensures Leq(o, a, b) && Leq(o, b, a) ==> a == b
  {
    LexTrichotomy(a.code, b.code);
  }

  lemma {:induction false} LeqTransitive(o: Order, a: Entry, b: Entry, c: Entry)
    requires Leq(o, a, b) && Leq(o, b, c)
    ensures Leq(o, a, c)
  {
    hide LexLess;
    LexTrichotomy(a.code, b.code);
    LexTrichotomy(b.code, c.code);
    LexTrichotomy(a.code, c.code);
    if LexLess(a.code, b.code) && LexLess(b.code, c.code) {
      LexTransitive(a.code, b.code, c.code);
    }
  }

  predicate Sorted(o: Order, s: seq<Entry>) {
    forall i, j :: 0 <= i < j < |s| ==> Leq(o, s[i], s[j])
  }

  function Insert(o: Order, x: Entry, s: seq<Entry>): (r: seq<Entry>) {
    if s == [] || Leq(o, x, s[0]) then [x] + s else [s[0]] + Insert(o, x, s[1..])
  }

  function Sort(o: Order, s: seq<Entry>): (r: seq<Entry>) {
    if s == [] then [] else Insert(o, s[0], Sort(o, s[1..]))
  }

  lemma {:induction false} InsertSorts(o: Order, x: Entry, s: seq<Entry>)
    requires Sorted(o, s)
    ensures Sorted(o, Insert(o, x, s)) && multiset(Insert(o, x, s)) == multiset(s) + multiset{x}
  {
    hide Leq;
    if s != [] {
      assert s == [s[0]] + s[1..];
      if Leq(o, x, s[0]) {
        SortedFront(o, x, s);
      } else {
        LeqOrder(o, x, s[0]);
        InsertSorts(o, x, s[1..]);
        var t := Insert(o, x, s[1..]);
        forall y | y in t ensures Leq(o, s[0], y) {
          assert y in multiset(t);
        }
        ConsSorted(o, s[0], t);
      }
    }
  }

  lemma {:induction false} SortedFront(o: Order, x: Entry, s: seq<Entry>)
    requires Sorted(o, s) && s != [] && Leq(o, x, s[0])
    ensures Sorted(o, [x] + s)
  {
    hide Leq;
    forall y | y in s ensures Leq(o, x, y) {
      var i :| 0 <= i < |s| && s[i] == y;
      if i > 0 {
        LeqTransitive(o, x, s[0], y);
      }
    }
    ConsSorted(o, x, s);
  }

  lemma ConsSorted(o: Order, x: Entry, s: seq<Entry>)
    requires Sorted(o, s) && forall y :: y in s ==> Leq(o, x, y)
    ensures Sorted(o, [x] + s)
  {}

  lemma {:induction false} SortSorts(o: Order, s: seq<Entry>)
    ensures Sorted(o, Sort(o, s)) && multiset(Sort(o, s)) == multiset(s)
  {
    if s != [] {
      SortSorts(o, s[1..]);
      InsertSorts(o, s[0], Sort(o, s[1..]));
      assert s == [s[0]] + s[1..];
    }
  }

  /** The order is total, so a list has one sorted form. */
  lemma {:induction false} SortedUnique(o: Order, a: seq<Entry>, b: seq<Entry>)
    requires Sorted(o, a) && Sorted(o, b) && multiset(a) == multiset(b)
    ensures a == b
  {
    hide Leq, Sorted;
    assert |multiset(a)| == |a| && |multiset(b)| == |b|;
    if a != [] {
      assert a[0] in multiset(b) && b[0] in multiset(a);
      HeadLeast(o, b, a[0]);
      HeadLeast(o, a, b[0]);
      LeqOrder(o, a[0], b[0]);
      SortedTail(o, a);
      SortedTail(o, b);
      SortedUnique(o, a[1..], b[1..]);
      assert a == [a[0]] + a[1..] && b == [b[0]] + b[1..];
    }
  }

  lemma {:induction false} SortedTail(o: Order, s: seq<Entry>)
    requires Sorted(o, s) && s != []
    ensures Sorted(o, s[1..]) && multiset(s[1..]) == multiset(s) - multiset{s[0]}
  {
    assert s == [s[0]] + s[1..];
  }

  lemma HeadLeast(o: Order, s: seq<Entry>, x: Entry)
    requires Sorted(o, s) && x in s
    ensures x == s[0] || Leq(o, s[0], x)
  {}

  /** What is sorted does not depend on the order it came in. */
  lemma {:induction false} SortPermutation(o: Order, a: seq<Entry>, b: seq<Entry>)
    requires multiset(a) == multiset(b)
    ensures Sort(o, a) == Sort(o, b)
  {
    SortSorts(o, a);
    SortSorts(o, b);
    SortedUnique(o, Sort(o, a), Sort(o, b));
  }
}
