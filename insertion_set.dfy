/** A JavaScript Set as a sequence without duplicates, in insertion order
    (the order Array.from reads it back in). */
module InsertionSet {
  import opened JsonValues

  predicate Distinct(s: seq<Json>) {
    forall i, j :: 0 <= i < j < |s| ==> s[i] != s[j]
  }

  /** Set.prototype.delete: s without x, the order of the rest kept. */
  function Without(s: seq<Json>, x: Json): (r: seq<Json>)
    ensures forall y :: y in r <==> y in s && y != x
    ensures x !in s ==> r == s
    ensures Distinct(s) ==> Distinct(r)
    ensures Distinct(s) && x in s ==> |r| == |s| - 1
  {
    if s == [] then []
    else if s[0] == x then Without(s[1..], x)
    else
      var rest := Without(s[1..], x);
      assert Distinct(s) ==> s[0] !in rest && Distinct(s[1..]) by {
        if Distinct(s) {
          forall k | 0 <= k < |s| - 1 ensures s[1..][k] != s[0] {
            assert s[1..][k] == s[k + 1];
          }
        }
      }
      [s[0]] + rest
  }

  /** Set.prototype.add: x is appended unless already present. */
  function Inserted(s: seq<Json>, x: Json): (r: seq<Json>)
    ensures forall y :: y in r <==> y in s || y == x
    ensures |s| <= |r| && r[..|s|] == s
    ensures Distinct(s) ==> Distinct(r)
  {
    if x in s then s else s + [x]
  }

  /** The membership flip of toggleFavorite: delete x when present, add it otherwise. */
  function Toggled(s: seq<Json>, x: Json): (r: seq<Json>)
    ensures x in r <==> x !in s
    ensures forall y :: y != x ==> (y in r <==> y in s)
    ensures Distinct(s) ==> Distinct(r)
  {
    if x in s then Without(s, x) else Inserted(s, x)
  }

  /** Adding the elements of xs one by one to the set acc. */
  function AddAll(acc: seq<Json>, xs: seq<Json>): (r: seq<Json>)
    ensures forall y :: y in r <==> y in acc || y in xs
    ensures |acc| <= |r| && r[..|acc|] == acc
    ensures Distinct(acc) ==> Distinct(r)
    decreases |xs|
  {
    if xs == [] then acc else AddAll(Inserted(acc, xs[0]), xs[1..])
  }

  /** new Set(xs): the elements of xs, each once, in order of first occurrence. */
  function FromSeq(xs: seq<Json>): (r: seq<Json>)
    ensures Distinct(r)
    ensures forall y :: y in r <==> y in xs
  {
    AddAll([], xs)
  }

  lemma {:induction false} AddAllOfDistinct(acc: seq<Json>, xs: seq<Json>)
    requires Distinct(acc + xs)
    ensures AddAll(acc, xs) == acc + xs
    decreases |xs|
  {
    if xs != [] {
      var acc' := acc + [xs[0]];
      assert (acc + xs)[|acc|] == xs[0];
      assert xs[0] !in acc by {
        forall i | 0 <= i < |acc| ensures acc[i] != xs[0] {
          assert (acc + xs)[i] == acc[i];
        }
      }
      assert acc' + xs[1..] == acc + xs;
      AddAllOfDistinct(acc', xs[1..]);
    }
  }

  /** A set built from a sequence without duplicates keeps it as it is. */
  lemma FromSeqOfDistinct(xs: seq<Json>)
    requires Distinct(xs)
    ensures FromSeq(xs) == xs
  {
    assert [] + xs == xs;
    AddAllOfDistinct([], xs);
  }

  lemma DistinctTail(s: seq<Json>)
    requires Distinct(s) && s != []
    ensures Distinct(s[1..]) && s[0] !in s[1..]
  {
    forall k | 0 <= k < |s| - 1 ensures s[1..][k] != s[0] {
      assert s[1..][k] == s[k + 1];
    }
  }

  lemma SpliceCons(s: seq<Json>, i: int)
    requires 0 < i < |s|
    ensures [s[0]] + (s[1..][..i - 1] + s[1..][i..]) == s[..i] + s[i + 1..]
  {
  }

  /** Deleting the element at position i of a set keeps the others in their order. */
  lemma {:induction false} WithoutAt(s: seq<Json>, i: int)
    requires Distinct(s) && 0 <= i < |s|
    ensures Without(s, s[i]) == s[..i] + s[i + 1..]
  {
    DistinctTail(s);
    if i > 0 {
      var t := s[1..];
      assert t[i - 1] == s[i] && s[0] != s[i];
      WithoutAt(t, i - 1);
      SpliceCons(s, i);
    }
  }

  lemma {:induction false} AddAllAppended(acc: seq<Json>, xs: seq<Json>, y: Json)
    ensures AddAll(acc, xs + [y]) == Inserted(AddAll(acc, xs), y)
    decreases |xs|
  {
    if xs == [] {
      assert [] + [y] == [y] && [y][1..] == [];
    } else {
      assert (xs + [y])[0] == xs[0] && (xs + [y])[1..] == xs[1..] + [y];
      AddAllAppended(Inserted(acc, xs[0]), xs[1..], y);
    }
  }

  /** The order of new Set(xs) is the order of first occurrence: an element
      read after xs is added at the end exactly when xs did not contain it. */
  lemma FromSeqAppended(xs: seq<Json>, y: Json)
    ensures FromSeq(xs + [y]) == Inserted(FromSeq(xs), y)
  {
    AddAllAppended([], xs, y);
  }

  lemma {:induction false} WithoutAppended(s: seq<Json>, x: Json)
    requires x !in s
    ensures Without(s + [x], x) == s
  {
    if s != [] {
      assert (s + [x])[1..] == s[1..] + [x];
      WithoutAppended(s[1..], x);
    }
  }

  /** Flipping an absent element twice gives back exactly the same set, in the same order. */
  lemma ToggleTwiceAbsent(s: seq<Json>, x: Json)
    requires x !in s
    ensures Toggled(Toggled(s, x), x) == s
  {
    WithoutAppended(s, x);
  }

  /** Flipping a present element twice gives back the same members; the
      element has moved to the end of the insertion order. */
  lemma ToggleTwicePresent(s: seq<Json>, x: Json)
    requires x in s
    ensures Toggled(Toggled(s, x), x) == Without(s, x) + [x]
    ensures forall y :: y in Toggled(Toggled(s, x), x) <==> y in s
  {
  }
}
