/** uniqueStrings of internal/modules/rbac/repository_helpers.go. */
module UniqueStrings {

  function Elements(values: seq<string>): set<string> {
    set v | v in values
  }

  /** Drops every value that occurs earlier in the sequence. */
  function Unique(values: seq<string>): (unique: seq<string>)
    decreases |values|
  {
    if values == [] then []
    else
      var init, last := values[..|values| - 1], values[|values| - 1];
      if last in init then Unique(init) else Unique(init) + [last]
  }

  ghost predicate NoRepeats(values: seq<string>) {
    forall i, j :: 0 <= i < j < |values| ==> values[i] != values[j]
  }

  /** Same elements, none twice, and as long as the set of elements is large. */
  lemma {:induction false} UniqueKeepsElements(values: seq<string>)
    ensures forall v :: v in Unique(values) <==> v in values
    ensures NoRepeats(Unique(values))
    ensures |Unique(values)| == |Elements(values)|
    decreases |values|
  {
    if values != [] {
      var init, last := values[..|values| - 1], values[|values| - 1];
      UniqueKeepsElements(init);
      assert values == init + [last];
      if last in init {
        assert Elements(values) == Elements(init);
      } else {
        assert Elements(values) == Elements(init) + {last};
      }
    }
  }

  /** Position in `values` of the k-th kept value: its first occurrence. */
  ghost predicate FirstAt(values: seq<string>, i: int, v: string) {
    0 <= i < |values| && values[i] == v && v !in values[..i]
  }

  /** Order-preserving: kept values stand in the order of their first occurrences. */
  lemma {:induction false} UniqueKeepsOrder(values: seq<string>, a: int, b: int, i: int, j: int)
    requires 0 <= a < b < |Unique(values)|
    requires FirstAt(values, i, Unique(values)[a]) && FirstAt(values, j, Unique(values)[b])
    ensures i < j
    decreases |values|
  {
    var init, last := values[..|values| - 1], values[|values| - 1];
    assert values == init + [last];
    UniqueKeepsElements(init);
    UniqueKeepsElements(values);
    var va := Unique(values)[a];
    assert va in init by {
      assert Unique(init) == Unique(values) || Unique(init) + [last] == Unique(values);
      assert va == Unique(init)[a];
    }
    assert values[..|init|] == init;
    assert i < |init|;
    assert values[..i] == init[..i];
    if j < |init| {
      assert values[..j] == init[..j];
      assert Unique(values)[b] in init;
      assert b < |Unique(init)|;
      UniqueKeepsOrder(init, a, b, i, j);
    }
  }

  /** A sequence without repeats is left alone, so uniqueStrings is idempotent. */
  lemma {:induction false} UniqueFixesNoRepeats(values: seq<string>)
    requires NoRepeats(values)
    ensures Unique(values) == values
    decreases |values|
  {
    if values != [] {
      var init, last := values[..|values| - 1], values[|values| - 1];
      assert NoRepeats(init);
      assert last !in init;
      UniqueFixesNoRepeats(init);
    }
  }

  lemma UniqueIdempotent(values: seq<string>)
    ensures Unique(Unique(values)) == Unique(values)
  {
    UniqueKeepsElements(values);
    UniqueFixesNoRepeats(Unique(values));
  }

  /** The loop over `values` with its `seen` map. */
  method ComputeUnique(values: seq<string>) returns (unique: seq<string>)
    ensures unique == Unique(values)
  {
    var seen: map<string, ()> := map[];
    unique := [];
    for k := 0 to |values|
      invariant unique == Unique(values[..k])
      invariant forall v :: v in seen <==> v in values[..k]
    {
      assert values[..k + 1] == values[..k] + [values[k]];
      assert values[..k + 1][..k] == values[..k];
      if values[k] in seen {
        continue;
      }
      seen := seen[values[k] := ()];
      unique := unique + [values[k]];
    }
    assert values[..|values|] == values;
  }
}
