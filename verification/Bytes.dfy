/** Bytes as they travel on the wire, and the sequence lemmas every module shares. */
module Bytes {

  /** One octet. Bytes are characters below 256, so that text literals are byte strings. */
  type byte = c: char | c as int < 256 witness 'a'
  type Bytes = seq<byte>

  datatype Option<+T> = None | Some(value: T)

  /** The concatenation of a sequence of chunks. */
  function Flatten(chunks: seq<Bytes>): (r: Bytes) {
    if chunks == [] then [] else chunks[0] + Flatten(chunks[1..])
  }

  lemma {:induction false} FlattenAppend(chunks: seq<Bytes>, last: Bytes)
    ensures Flatten(chunks + [last]) == Flatten(chunks) + last
  {
    if chunks == [] {
      assert chunks + [last] == [last];
      assert Flatten([last][1..]) == [];
    } else {
      assert (chunks + [last])[1..] == chunks[1..] + [last];
      FlattenAppend(chunks[1..], last);
    }
  }

  predicate Prefix(a: Bytes, b: Bytes) {
    |a| <= |b| && b[..|a|] == a
  }

  function Min(a: int, b: int): int {
    if a <= b then a else b
  }

  /** The index of the first `c` at or after `from`, or the length if there is none. */
  function Find(s: Bytes, c: byte, from: nat): (r: nat)
    requires from <= |s|
    ensures from <= r <= |s|
    decreases |s| - from
  {
    if from == |s| || s[from] == c then from else Find(s, c, from + 1)
  }

  lemma {:induction false} FindSkips(s: Bytes, c: byte, from: nat)
    requires from <= |s|
    ensures forall i :: from <= i < Find(s, c, from) ==> s[i] != c
    ensures Find(s, c, from) < |s| ==> s[Find(s, c, from)] == c
    decreases |s| - from
  {
    if from < |s| && s[from] != c {
      FindSkips(s, c, from + 1);
    }
  }

  lemma {:induction false} FindUnique(s: Bytes, c: byte, from: nat, r: nat)
    requires from <= r <= |s| && (r < |s| ==> s[r] == c) && forall i :: from <= i < r ==> s[i] != c
    ensures Find(s, c, from) == r
    decreases |s| - from
  {
    if from < r {
      FindUnique(s, c, from + 1, r);
    }
  }

  lemma {:induction false} FindAppend(a: Bytes, b: Bytes, c: byte, from: nat)
    requires from <= |a|
    ensures Find(a + b, c, from) == if Find(a, c, from) < |a| then Find(a, c, from) else |a| + Find(b, c, 0)
  {
    var i, j := Find(a, c, from), Find(b, c, 0);
    FindSkips(a, c, from);
    FindSkips(b, c, 0);
    if i < |a| {
      FindUnique(a + b, c, from, i);
    } else {
      FindUnique(a + b, c, from, |a| + j);
    }
  }

  lemma {:induction false} FindBeyond(a: Bytes, b: Bytes, c: byte, from: nat)
    requires from <= |b|
    ensures Find(a + b, c, |a| + from) == |a| + Find(b, c, from)
  {
    FindSkips(b, c, from);
    FindUnique(a + b, c, |a| + from, |a| + Find(b, c, from));
  }

  /** What stands between `a` and the first `c` after it. */
  lemma {:induction false} FindSeam(a: Bytes, b: Bytes, c: byte, rest: Bytes)
    requires c !in b
    ensures var s, i := a + b + [c] + rest, |a| + |b|;
            |s| > i && s[i] == c && Find(s, c, |a|) == i && s[|a|..i] == b && s[i + 1..] == rest
  {
    var s := a + b + [c] + rest;
    assert forall i :: |a| <= i < |a| + |b| ==> s[i] == b[i - |a|];
    FindUnique(s, c, |a|, |a| + |b|);
  }

  /** Slices of a concatenation. */
  lemma SliceWithin(a: Bytes, b: Bytes, i: nat, j: nat)
    requires i <= j <= |a|
    ensures (a + b)[i..j] == a[i..j]
  {}

  lemma SliceOfTake(s: Bytes, k: nat, i: nat, j: nat)
    requires i <= j <= k <= |s|
    ensures s[..k][i..j] == s[i..j]
  {}

  lemma SliceBeyond(a: Bytes, b: Bytes, i: nat, j: nat)
    requires i <= j <= |b|
    ensures (a + b)[|a| + i..|a| + j] == b[i..j]
  {}

  lemma SliceAcross(a: Bytes, b: Bytes, i: nat, j: nat)
    requires i <= |a| && j <= |b|
    ensures (a + b)[i..|a| + j] == a[i..] + b[..j]
  {}

  /** `text` occurs in `s` at index `i`. */
  predicate OccursAt(s: Bytes, text: Bytes, i: nat) {
    i + |text| <= |s| && s[i..i + |text|] == text
  }

  /** The first occurrence of `text` at or after `from`. */
  function FindText(s: Bytes, text: Bytes, from: nat): (r: Option<nat>)
    ensures r.Some? ==> from <= r.value && OccursAt(s, text, r.value)
    ensures forall i :: from <= i && OccursAt(s, text, i) ==> r.Some? && r.value <= i
    decreases |s| - from
  {
    if OccursAt(s, text, from) then Some(from)
    else if from >= |s| then None
    else FindText(s, text, from + 1)
  }
}
