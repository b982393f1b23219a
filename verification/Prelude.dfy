/** Small datatypes and collection lemmas shared by every module. */
module Prelude {

  datatype Option<+T> = None | Some(value: T)

  /** What a Go call returning `(T, error)` hands back. */
  datatype Result<+T, +E> = Ok(value: T) | Err(error: E)

  /** An injective map has as many values as keys. */
  lemma {:induction false} InjectiveMapSize<K, V>(m: map<K, V>)
    requires forall a, b :: a in m && b in m && m[a] == m[b] ==> a == b
    ensures |m.Values| == |m|
    decreases |m|
  {
    if m != map[] {
      var k :| k in m;
      var rest := m - {k};
      InjectiveMapSize(rest);
      assert |rest.Keys| == |m.Keys - {k}|;
      forall v | v in m.Values ensures v in rest.Values + {m[k]} {
        var a :| a in m && m[a] == v;
        assert a != k ==> a in rest && rest[a] == v;
      }
      forall v | v in rest.Values ensures v in m.Values {
        var a :| a in rest && rest[a] == v;
        assert a in m && m[a] == v;
      }
      assert m.Values == rest.Values + {m[k]};
      assert m[k] !in rest.Values;
    }
  }

  /** A subset with as many elements as the whole is the whole. */
  lemma {:induction false} SubsetOfSameSize<T>(part: set<T>, whole: set<T>)
    requires part <= whole
    ensures |part| <= |whole|
    ensures |part| == |whole| <==> part == whole
    decreases |part|
  {
    if part != {} {
      var x :| x in part;
      SubsetOfSameSize(part - {x}, whole - {x});
      assert part == (part - {x}) + {x} && whole == (whole - {x}) + {x};
    }
  }

  lemma CountCons<T>(x: T, rest: seq<T>, y: T)
    ensures multiset([x] + rest)[y] == (if x == y then 1 else 0) + multiset(rest)[y]
  {
    assert multiset([x] + rest) == multiset{x} + multiset(rest);
  }

  lemma PickElement<T>(s: set<T>) returns (x: T)
    requires s != {}
    ensures x in s
  {
    x :| x in s;
  }

  lemma PickKey<K, V>(m: map<K, V>, v: V) returns (k: K)
    requires v in m.Values
    ensures k in m && m[k] == v
  {
    k :| k in m && m[k] == v;
  }

  lemma {:induction false} FreshInt(used: set<int>) returns (x: int)
    ensures forall y :: y in used ==> y < x
    decreases |used|
  {
    if used == {} {
      x := 0;
    } else {
      var y := PickElement(used);
      x := FreshInt(used - {y});
      forall z | z in used ensures z < if y < x then x else y + 1 {
        assert z != y ==> z in used - {y};
      }
      x := if y < x then x else y + 1;
    }
  }

  lemma {:induction false} FreshString(used: set<string>) returns (x: string)
    ensures forall y :: y in used ==> |y| < |x|
    decreases |used|
  {
    if used == {} {
      x := "";
    } else {
      var y := PickElement(used);
      x := FreshString(used - {y});
      x := if |y| < |x| then x else y + "x";
    }
  }
}
