/** Sequence operations the components share: the order-preserving filter
    (`Array.prototype.filter`), `find`, the first-occurrence de-duplication
    that the `reduce`/`includes`/`push` and `forEach`/`if (!obj[key])` loops
    perform, and the three list updates every store applies. */
module Seqs {
  import opened Types

  /** `xs.filter(p)`. */
  function Filter<T>(xs: seq<T>, p: T -> bool): (r: seq<T>)
    ensures |r| <= |xs|
    ensures forall i :: 0 <= i < |r| ==> p(r[i])
  {
    if xs == [] then [] else (if p(xs[0]) then [xs[0]] else []) + Filter(xs[1..], p)
  }

  /** The filter keeps exactly the elements that pass: everything kept comes
      from the input, and every passing element is kept. */
  lemma {:induction false} FilterMembers<T>(xs: seq<T>, p: T -> bool)
    ensures forall i :: 0 <= i < |Filter(xs, p)| ==> Filter(xs, p)[i] in xs
    ensures forall i :: 0 <= i < |xs| && p(xs[i]) ==> xs[i] in Filter(xs, p)
  {
    if xs != [] {
      FilterMembers(xs[1..], p);
      var head := if p(xs[0]) then [xs[0]] else [];
      var rest := Filter(xs[1..], p);
      assert Filter(xs, p) == head + rest;
      forall i | 0 <= i < |Filter(xs, p)|
        ensures Filter(xs, p)[i] in xs
      {
        if i >= |head| {
          assert Filter(xs, p)[i] == rest[i - |head|];
          assert rest[i - |head|] in xs[1..];
        }
      }
      forall i | 0 <= i < |xs| && p(xs[i])
        ensures xs[i] in Filter(xs, p)
      {
        if i > 0 {
          assert xs[i] == xs[1..][i - 1];
          assert xs[i] in rest;
        }
      }
    }
  }

  /** A filter that no element passes leaves nothing. */
  lemma {:induction false} FilterNone<T>(xs: seq<T>, p: T -> bool)
    requires forall i :: 0 <= i < |xs| ==> !p(xs[i])
    ensures Filter(xs, p) == []
  {
    if xs != [] {
      FilterNone(xs[1..], p);
    }
  }

  /** Filtering distributes over concatenation: the kept elements stay in
      input order. Together with the one-element case this determines the
      filter completely. */
  lemma {:induction false} FilterConcat<T>(a: seq<T>, b: seq<T>, p: T -> bool)
    ensures Filter(a + b, p) == Filter(a, p) + Filter(b, p)
  {
    if a == [] {
      assert a + b == b;
    } else {
      assert (a + b)[0] == a[0];
      assert (a + b)[1..] == a[1..] + b;
      FilterConcat(a[1..], b, p);
    }
  }

  lemma FilterSingleton<T>(x: T, p: T -> bool)
    ensures Filter([x], p) == if p(x) then [x] else []
  {
    assert [x][1..] == [];
  }

  /** Appending one element extends the filter by that element or by nothing. */
  lemma FilterSnoc<T>(xs: seq<T>, x: T, p: T -> bool)
    ensures Filter(xs + [x], p) == Filter(xs, p) + (if p(x) then [x] else [])
  {
    FilterConcat(xs, [x], p);
    FilterSingleton(x, p);
  }

  /** A filter that keeps everything is the identity. */
  lemma {:induction false} FilterKeepsAll<T>(xs: seq<T>, p: T -> bool)
    requires forall i :: 0 <= i < |xs| ==> p(xs[i])
    ensures Filter(xs, p) == xs
  {
    if xs != [] {
      FilterKeepsAll(xs[1..], p);
    }
  }

  /** `xs.find(p)`: the first element satisfying p, if any. */
  function Find<T>(xs: seq<T>, p: T -> bool): (r: Option<T>)
    ensures r.None? <==> forall i :: 0 <= i < |xs| ==> !p(xs[i])
    ensures r.Some? ==> exists k :: 0 <= k < |xs| && xs[k] == r.value && p(xs[k]) &&
                                    forall j :: 0 <= j < k ==> !p(xs[j])
  {
    if xs == [] then None
    else if p(xs[0]) then Some(xs[0])
    else
      var r := Find(xs[1..], p);
      assert r.Some? ==> exists k :: 1 <= k < |xs| && xs[k] == r.value && p(xs[k]) &&
                                     forall j :: 0 <= j < k ==> !p(xs[j]) by {
        if r.Some? {
          var k :| 0 <= k < |xs[1..]| && xs[1..][k] == r.value && p(xs[1..][k]) &&
                   forall j :: 0 <= j < k ==> !p(xs[1..][j]);
          assert forall j :: 0 <= j < k + 1 ==> !p(xs[j]) by {
            forall j | 0 <= j < k + 1 ensures !p(xs[j]) {
              if j > 0 { assert xs[j] == xs[1..][j - 1]; }
            }
          }
        }
      }
      r
  }

  predicate NoDuplicates<T(==)>(s: seq<T>) {
    forall i, j :: 0 <= i < j < |s| ==> s[i] != s[j]
  }

  /** The index of the first occurrence of x in xs. */
  function FirstIndex<T(==)>(xs: seq<T>, x: T): (k: nat)
    requires x in xs
    ensures k < |xs| && xs[k] == x && forall j :: 0 <= j < k ==> xs[j] != x
  {
    if xs[0] == x then 0 else 1 + FirstIndex(xs[1..], x)
  }

  /** The accumulator of a left-to-right pass that pushes each element not
      already present. */
  function Dedup<T(==)>(xs: seq<T>): (r: seq<T>)
    ensures NoDuplicates(r) && |r| <= |xs|
    ensures forall i :: 0 <= i < |r| ==> r[i] in xs
    decreases |xs|
  {
    if xs == [] then []
    else
      var d := Dedup(xs[..|xs| - 1]);
      var x := xs[|xs| - 1];
      assert xs == xs[..|xs| - 1] + [x];
      if x in d then d else d + [x]
  }

  /** Every element of the input survives de-duplication. */
  lemma {:induction false} DedupMembers<T>(xs: seq<T>)
    ensures forall i :: 0 <= i < |xs| ==> xs[i] in Dedup(xs)
    decreases |xs|
  {
    if xs != [] {
      var n := |xs| - 1;
      DedupMembers(xs[..n]);
      var d := Dedup(xs[..n]);
      assert xs == xs[..n] + [xs[n]];
      forall i | 0 <= i < |xs|
        ensures xs[i] in Dedup(xs)
      {
        if i < n {
          assert xs[i] == xs[..n][i];
          assert xs[i] in d;
        }
      }
    }
  }

  lemma DedupSnoc<T>(xs: seq<T>, x: T)
    ensures Dedup(xs + [x]) == if x in Dedup(xs) then Dedup(xs) else Dedup(xs) + [x]
  {
    assert (xs + [x])[..|xs + [x]| - 1] == xs;
  }

  /** A first occurrence is characterised by its two properties. */
  lemma FirstIndexUnique<T>(xs: seq<T>, y: T, k: nat)
    requires k < |xs| && xs[k] == y && forall j :: 0 <= j < k ==> xs[j] != y
    ensures FirstIndex(xs, y) == k
  {
  }

  lemma FirstIndexSnoc<T>(xs: seq<T>, x: T, y: T)
    requires y in xs
    ensures FirstIndex(xs + [x], y) == FirstIndex(xs, y)
  {
    FirstIndexUnique(xs + [x], y, FirstIndex(xs, y));
  }

  /** The de-duplicated sequence lists the distinct elements in the order of
      their first occurrence. */
  lemma {:induction false} DedupFirstOccurrenceOrder<T>(xs: seq<T>, i: nat, j: nat)
    requires i < j < |Dedup(xs)|
    ensures FirstIndex(xs, Dedup(xs)[i]) < FirstIndex(xs, Dedup(xs)[j])
    decreases |xs|
  {
    var n := |xs| - 1;
    var pre, x := xs[..n], xs[n];
    assert xs == pre + [x];
    DedupSnoc(pre, x);
    var d := Dedup(pre);
    var a, b := Dedup(xs)[i], Dedup(xs)[j];
    if j < |d| {
      DedupFirstOccurrenceOrder(pre, i, j);
      FirstIndexSnoc(pre, x, a);
      FirstIndexSnoc(pre, x, b);
    } else {
      DedupMembers(pre);
      assert b == x && x !in d && a in pre;
      FirstIndexSnoc(pre, x, a);
      assert xs[..n] == pre;
    }
  }

  /** The ids of a list, in order. */
  function Ids<T>(xs: seq<T>, key: T -> int): (r: seq<int>)
    ensures |r| == |xs| && forall i :: 0 <= i < |xs| ==> r[i] == key(xs[i])
  {
    if xs == [] then [] else [key(xs[0])] + Ids(xs[1..], key)
  }

  /** `[...xs, x]`: the server's record after the cached list. */
  function Append<T>(xs: seq<T>, x: T): (r: seq<T>)
    ensures |r| == |xs| + 1 && r[..|xs|] == xs && r[|xs|] == x
  {
    xs + [x]
  }

  /** `xs.map(y => y.id === x.id ? x : y)`. */
  function ReplaceById<T>(xs: seq<T>, x: T, key: T -> int): (r: seq<T>)
    ensures |r| == |xs|
    ensures forall i :: 0 <= i < |xs| && key(xs[i]) == key(x) ==> r[i] == x
    ensures forall i :: 0 <= i < |xs| && key(xs[i]) != key(x) ==> r[i] == xs[i]
  {
    if xs == [] then []
    else [if key(xs[0]) == key(x) then x else xs[0]] + ReplaceById(xs[1..], x, key)
  }

  /** `xs.filter(y => y.id !== id)`, where the id may be undefined, and
      `undefined` differs from every number. */
  function RemoveById<T>(xs: seq<T>, id: Option<int>, key: T -> int): (r: seq<T>)
    ensures |r| <= |xs|
    ensures forall i :: 0 <= i < |r| ==> Some(key(r[i])) != id
  {
    Filter(xs, y => Some(key(y)) != id)
  }

  /** Removal keeps every record with another id, and only records of the
      list. */
  lemma RemoveByIdMembers<T>(xs: seq<T>, id: Option<int>, key: T -> int)
    ensures forall i :: 0 <= i < |RemoveById(xs, id, key)| ==> RemoveById(xs, id, key)[i] in xs
    ensures forall i :: 0 <= i < |xs| && Some(key(xs[i])) != id ==> xs[i] in RemoveById(xs, id, key)
  {
    FilterMembers(xs, y => Some(key(y)) != id);
  }

  /** Replacing keeps the list's ids, in order. */
  lemma ReplaceKeepsIds<T>(xs: seq<T>, x: T, key: T -> int)
    ensures Ids(ReplaceById(xs, x, key), key) == Ids(xs, key)
  {
  }

  /** A record whose id matches nothing leaves the list as it was. */
  lemma ReplaceUnmatched<T>(xs: seq<T>, x: T, key: T -> int)
    requires forall i :: 0 <= i < |xs| ==> key(xs[i]) != key(x)
    ensures ReplaceById(xs, x, key) == xs
  {
  }

  /** Replacing twice with the same record is replacing once. */
  lemma ReplaceIdempotent<T>(xs: seq<T>, x: T, key: T -> int)
    ensures ReplaceById(ReplaceById(xs, x, key), x, key) == ReplaceById(xs, x, key)
  {
  }

  /** Removing an id nothing carries leaves the list as it was. */
  lemma RemoveUnknown<T>(xs: seq<T>, id: Option<int>, key: T -> int)
    requires forall i :: 0 <= i < |xs| ==> Some(key(xs[i])) != id
    ensures RemoveById(xs, id, key) == xs
  {
    FilterKeepsAll(xs, y => Some(key(y)) != id);
  }

  /** Removing the id of a just-appended record undoes the append, and
      also drops older records with that id. */
  lemma RemoveAfterAppend<T>(xs: seq<T>, x: T, key: T -> int)
    ensures RemoveById(Append(xs, x), Some(key(x)), key) == RemoveById(xs, Some(key(x)), key)
  {
    FilterSnoc(xs, x, y => Some(key(y)) != Some(key(x)));
  }

  /** Removal keeps the survivors in their order: removing from a
      concatenation is removing from each part. */
  lemma RemoveConcat<T>(a: seq<T>, b: seq<T>, id: Option<int>, key: T -> int)
    ensures RemoveById(a + b, id, key) == RemoveById(a, id, key) + RemoveById(b, id, key)
  {
    FilterConcat(a, b, y => Some(key(y)) != id);
  }
}
