/** The two list/object combinators of the ramda library that the merge of
    sibling filters relies on, written out over `Json`:
    `mergeDeepRight(l, r)` and `reduceRight(mergeDeepRight, acc, list)`. */
module DeepMerge {
  import opened JsonValue

  /** `mergeDeepRight(l, r)`: every key of either object is kept; on a key
      both carry, the values are merged recursively when both are plain
      objects, and otherwise the right-hand value wins.  Arrays and dates
      are not plain objects, so they are replaced, never merged. */
  function MergeDeepRight(l: Where, r: Where): (m: Where)
    decreases JObj(r)
    ensures m.Keys == l.Keys + r.Keys
    ensures forall k :: k in l && k !in r ==> m[k] == l[k]
    ensures forall k :: k in r && !(k in l && l[k].JObj? && r[k].JObj?) ==> m[k] == r[k]
    ensures forall k :: k in l && k in r && l[k].JObj? && r[k].JObj? ==>
      m[k].JObj? && m[k].fields.Keys == l[k].fields.Keys + r[k].fields.Keys
  {
    map k | k in l.Keys + r.Keys ::
      if k in l && k in r && l[k].JObj? && r[k].JObj? then
        JObj(MergeDeepRight(l[k].fields, r[k].fields))
      else if k in r then r[k]
      else l[k]
  }

  /** `m` agrees with `r` on every leaf of `r`: each key of `r` is in `m`,
      a plain-object value of `r` is extended recursively, and any other
      value of `r` is found unchanged in `m`. */
  ghost predicate Extends(m: Where, r: Where)
    decreases JObj(r)
  {
    forall k | k in r ::
      k in m &&
      if r[k].JObj? then m[k].JObj? && Extends(m[k].fields, r[k].fields)
      else m[k] == r[k]
  }

  lemma {:induction false} ExtendsReflexive(m: Where)
    ensures Extends(m, m)
    decreases JObj(m)
  {
    forall k | k in m && m[k].JObj? ensures Extends(m[k].fields, m[k].fields) {
      ExtendsReflexive(m[k].fields);
    }
  }

  lemma {:induction false} ExtendsTransitive(a: Where, b: Where, c: Where)
    requires Extends(a, b) && Extends(b, c)
    ensures Extends(a, c)
    decreases JObj(c)
  {
    forall k | k in c && c[k].JObj? ensures Extends(a[k].fields, c[k].fields) {
      ExtendsTransitive(a[k].fields, b[k].fields, c[k].fields);
    }
  }

  /** The right operand wins: every leaf of `r` survives the merge. */
  lemma {:induction false} MergeDeepRightExtendsRight(l: Where, r: Where)
    ensures Extends(MergeDeepRight(l, r), r)
    decreases JObj(r)
  {
    var m := MergeDeepRight(l, r);
    forall k | k in r && r[k].JObj? ensures m[k].JObj? && Extends(m[k].fields, r[k].fields) {
      if k in l && l[k].JObj? {
        MergeDeepRightExtendsRight(l[k].fields, r[k].fields);
      } else {
        ExtendsReflexive(r[k].fields);
      }
    }
  }

  /** `m` keeps every leaf of `l` that `r` does not override: each key of
      `l` is in `m`; a key `r` lacks keeps its value; and where both hold
      plain objects, the left object's leaves are kept recursively. */
  ghost predicate KeepsLeft(m: Where, l: Where, r: Where)
    decreases JObj(l)
  {
    forall k | k in l ::
      k in m &&
      (k !in r ==> m[k] == l[k]) &&
      (k in r && l[k].JObj? && r[k].JObj? ==>
         m[k].JObj? && KeepsLeft(m[k].fields, l[k].fields, r[k].fields))
  }

  /** The merge is deep: every leaf of the left operand that the right
      operand does not reach, or reaches only through plain objects,
      survives unchanged. */
  lemma {:induction false} MergeDeepRightKeepsLeft(l: Where, r: Where)
    ensures KeepsLeft(MergeDeepRight(l, r), l, r)
    decreases JObj(l)
  {
    var m := MergeDeepRight(l, r);
    forall k | k in l && k in r && l[k].JObj? && r[k].JObj?
      ensures m[k].JObj? && KeepsLeft(m[k].fields, l[k].fields, r[k].fields)
    {
      MergeDeepRightKeepsLeft(l[k].fields, r[k].fields);
    }
  }

  /** Merging an object with itself changes nothing. */
  lemma {:induction false} MergeDeepRightIdempotent(m: Where)
    ensures MergeDeepRight(m, m) == m
    decreases JObj(m)
  {
    forall k | k in m && m[k].JObj? ensures MergeDeepRight(m[k].fields, m[k].fields) == m[k].fields {
      MergeDeepRightIdempotent(m[k].fields);
    }
  }

  /** Objects with no key in common merge into their union. */
  lemma MergeDeepRightDisjoint(l: Where, r: Where)
    requires l.Keys !! r.Keys
    ensures MergeDeepRight(l, r) == l + r
  {
  }

  /** The own enumerable properties `mergeDeepRight` copies from a value:
      those of a plain object, none for anything else. */
  function Fields(j: Json): Where {
    if j.JObj? then j.fields else map[]
  }

  /** `reduceRight(mergeDeepRight, acc, items)`: walks `items` from the last
      element to the first, merging each element under the accumulator
      (`acc := mergeDeepRight(items[i], acc)`). */
  function ReduceRight(items: seq<Json>, acc: Where): Where
    decreases |items|
  {
    if items == [] then acc
    else ReduceRight(items[..|items| - 1], MergeDeepRight(Fields(items[|items| - 1]), acc))
  }

  /** Folding from the right is merging the first element under the fold of
      the rest: each element is overridden by every later one and by the
      accumulator. */
  lemma {:induction false} ReduceRightUnfold(items: seq<Json>, acc: Where)
    requires items != []
    ensures ReduceRight(items, acc) == MergeDeepRight(Fields(items[0]), ReduceRight(items[1..], acc))
    decreases |items|
  {
    var n := |items|;
    if n > 1 {
      var init := items[..n - 1];
      ReduceRightUnfold(init, MergeDeepRight(Fields(items[n - 1]), acc));
      assert init[1..] == items[1..][..n - 2];
      assert items[1..][n - 2] == items[n - 1];
    } else {
      assert items[1..] == [];
    }
  }

  /** The result of the fold extends the fold of every suffix; in particular
      (`i == |items|`) every leaf of the accumulator survives. */
  lemma {:induction false} ReduceRightSuffixWins(items: seq<Json>, acc: Where, i: nat)
    requires i <= |items|
    ensures Extends(ReduceRight(items, acc), ReduceRight(items[i..], acc))
    decreases i
  {
    if i == 0 {
      assert items[0..] == items;
      ExtendsReflexive(ReduceRight(items, acc));
    } else {
      ReduceRightSuffixWins(items, acc, i - 1);
      var tail := items[i - 1..];
      ReduceRightUnfold(tail, acc);
      assert tail[1..] == items[i..];
      MergeDeepRightExtendsRight(Fields(tail[0]), ReduceRight(items[i..], acc));
      ExtendsTransitive(ReduceRight(items, acc), ReduceRight(tail, acc), ReduceRight(items[i..], acc));
    }
  }
}
