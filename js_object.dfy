/**
 * The order in which JavaScript's `Object.values` lists the own properties
 * of a plain object (the ECMAScript OrdinaryOwnPropertyKeys order): every key
 * that is an array index comes first, in ascending numeric order, and then
 * every other string key, in the order it was first inserted.
 */
module JsObject {

  /** No key appears twice. */
  predicate Distinct(ks: seq<string>)
  {
    forall i, j :: 0 <= i < j < |ks| ==> ks[i] != ks[j]
  }

  predicate IsDigit(c: char)
  {
    '0' <= c <= '9'
  }

  predicate AllDigits(k: string)
  {
    forall i :: 0 <= i < |k| ==> IsDigit(k[i])
  }

  /** The decimal value of a digit string. */
  function DigitsValue(k: string): nat
    requires AllDigits(k)
  {
    if k == [] then 0
    else DigitsValue(k[..|k| - 1]) * 10 + (k[|k| - 1] as int - '0' as int)
  }

  /** 2^32 - 1: the array indices are 0 .. 2^32 - 2. */
  const ArrayIndexBound: nat := 0x1_0000_0000 - 1

  /** A canonical decimal numeral (no leading zero, no sign) below 2^32 - 1. */
  predicate IsArrayIndex(k: string)
  {
    && |k| > 0
    && AllDigits(k)
    && (k[0] == '0' ==> |k| == 1)
    && DigitsValue(k) < ArrayIndexBound
  }

  predicate AllArrayIndices(ks: seq<string>)
  {
    forall i :: 0 <= i < |ks| ==> IsArrayIndex(ks[i])
  }

  predicate NoArrayIndices(ks: seq<string>)
  {
    forall i :: 0 <= i < |ks| ==> !IsArrayIndex(ks[i])
  }

  predicate SortedByIndex(ks: seq<string>)
    requires AllArrayIndices(ks)
  {
    forall i, j :: 0 <= i < j < |ks| ==> DigitsValue(ks[i]) <= DigitsValue(ks[j])
  }

  /** The keys of `ks`, in their order, that are array indices (`index`) or are not (`!index`). */
  function KeysWhere(ks: seq<string>, index: bool): (r: seq<string>)
    ensures forall k :: k in r <==> k in ks && IsArrayIndex(k) == index
    ensures forall i :: 0 <= i < |r| ==> IsArrayIndex(r[i]) == index
    ensures Distinct(ks) ==> Distinct(r)
    ensures (forall i :: 0 <= i < |ks| ==> IsArrayIndex(ks[i]) == index) ==> r == ks
  {
    if ks == [] then []
    else
      var rest := KeysWhere(ks[1..], index);
      if IsArrayIndex(ks[0]) == index then
        assert Distinct(ks) ==> ks[0] !in ks[1..];
        [ks[0]] + rest
      else rest
  }

  /** Filtering one more key onto the end keeps the earlier result as a prefix: the filter keeps the input's order. */
  lemma {:induction false} KeysWhereSnoc(ks: seq<string>, k: string, index: bool)
    ensures KeysWhere(ks + [k], index) == KeysWhere(ks, index) + (if IsArrayIndex(k) == index then [k] else [])
  {
    if ks != [] {
      assert (ks + [k])[1..] == ks[1..] + [k];
      KeysWhereSnoc(ks[1..], k, index);
    }
  }

  /** Inserts an array index into a list of array indices before the first larger one. */
  function InsertByIndex(k: string, ks: seq<string>): (r: seq<string>)
    requires IsArrayIndex(k) && AllArrayIndices(ks)
    ensures |r| == |ks| + 1 && AllArrayIndices(r)
    ensures forall x :: x in r <==> x == k || x in ks
    ensures SortedByIndex(ks) ==> SortedByIndex(r)
    ensures Distinct(ks) && k !in ks ==> Distinct(r)
  {
    if ks == [] || DigitsValue(k) <= DigitsValue(ks[0]) then [k] + ks
    else
      var rest := InsertByIndex(k, ks[1..]);
      var r := [ks[0]] + rest;
      assert SortedByIndex(ks) ==> SortedByIndex(r) by {
        if SortedByIndex(ks) {
          forall j | 0 < j < |r| ensures DigitsValue(ks[0]) <= DigitsValue(r[j]) {
            assert r[j] in rest;
            if r[j] != k {
              var q :| 0 <= q < |ks[1..]| && ks[1..][q] == r[j];
              assert ks[q + 1] == r[j];
            }
          }
        }
      }
      assert Distinct(ks) && k !in ks ==> Distinct(r) by {
        if Distinct(ks) && k !in ks {
          assert ks[0] !in ks[1..];
          assert ks[0] !in rest;
        }
      }
      r
  }

  /** Inserting adds exactly one occurrence of `k` and keeps every other occurrence. */
  lemma {:induction false} InsertByIndexPermutes(k: string, ks: seq<string>)
    requires IsArrayIndex(k) && AllArrayIndices(ks)
    ensures multiset(InsertByIndex(k, ks)) == multiset{k} + multiset(ks)
  {
    if ks != [] && DigitsValue(k) > DigitsValue(ks[0]) {
      InsertByIndexPermutes(k, ks[1..]);
      assert ks == [ks[0]] + ks[1..];
    }
  }

  /** Insertion sort of array indices by numeric value. */
  function SortByIndex(ks: seq<string>): (r: seq<string>)
    requires AllArrayIndices(ks)
    ensures |r| == |ks| && AllArrayIndices(r) && SortedByIndex(r)
    ensures forall x :: x in r <==> x in ks
    ensures Distinct(ks) ==> Distinct(r)
  {
    if ks == [] then []
    else InsertByIndex(ks[0], SortByIndex(ks[1..]))
  }

  /** Sorting is a permutation: every key keeps its number of occurrences. */
  lemma {:induction false} SortByIndexPermutes(ks: seq<string>)
    requires AllArrayIndices(ks)
    ensures multiset(SortByIndex(ks)) == multiset(ks)
  {
    if ks != [] {
      SortByIndexPermutes(ks[1..]);
      InsertByIndexPermutes(ks[0], SortByIndex(ks[1..]));
      assert ks == [ks[0]] + ks[1..];
    }
  }

  /**
   * The own keys of an object whose string keys were inserted in the order
   * `inserted`, in the order `Object.keys` and `Object.values` list them.
   */
  function OwnKeys(inserted: seq<string>): (r: seq<string>)
    ensures forall k :: k in r <==> k in inserted
    ensures Distinct(inserted) ==> Distinct(r)
    ensures forall i, j :: 0 <= i < j < |r| && IsArrayIndex(r[j]) ==>
              IsArrayIndex(r[i]) && DigitsValue(r[i]) <= DigitsValue(r[j])
    ensures NoArrayIndices(inserted) ==> r == inserted
  {
    var indices := SortByIndex(KeysWhere(inserted, true));
    var others := KeysWhere(inserted, false);
    assert forall i :: 0 <= i < |indices| ==> indices[i] !in others;
    indices + others
  }

  /** The keys that are not array indices come last, in insertion order. */
  lemma OwnKeysOthersLast(inserted: seq<string>)
    ensures var others := KeysWhere(inserted, false);
      |others| <= |OwnKeys(inserted)| && OwnKeys(inserted)[|OwnKeys(inserted)| - |others|..] == others
  {
    var indices := SortByIndex(KeysWhere(inserted, true));
    assert (indices + KeysWhere(inserted, false))[|indices|..] == KeysWhere(inserted, false);
  }

  /** The values stored under `ks`, in that order. */
  function Values<V>(m: map<string, V>, ks: seq<string>): (r: seq<V>)
    requires forall k :: k in ks ==> k in m
    ensures |r| == |ks|
    ensures forall i :: 0 <= i < |ks| ==> r[i] == m[ks[i]]
  {
    if ks == [] then []
    else Values(m, ks[..|ks| - 1]) + [m[ks[|ks| - 1]]]
  }

  /** `Object.values` of an object with entries `m` whose keys were inserted in the order `inserted`. */
  function ObjectValues<V>(m: map<string, V>, inserted: seq<string>): (r: seq<V>)
    requires forall k :: k in inserted ==> k in m
  {
    Values(m, OwnKeys(inserted))
  }
}
