// Sizes of sets and of the images of maps.
module Counting {
  lemma {:induction false} SubsetCount<T>(a: set<T>, b: set<T>)
    requires a <= b
    ensures |a| <= |b|
    ensures |a| == |b| <==> a == b
  {
    if a != {} {
      var x :| x in a;
      SubsetCount(a - {x}, b - {x});
      if a - {x} == b - {x} {
        assert a == b;
      }
    }
  }

  ghost predicate Injective<K, V>(f: map<K, V>) {
    forall a, b :: a in f && b in f && a != b ==> f[a] != f[b]
  }

  lemma RemoveOne<K, V>(f: map<K, V>, key: K)
    requires key in f && Injective(f)
    ensures (f - {key}).Values == f.Values - {f[key]} && Injective(f - {key})
  {
    forall v | v in f.Values - {f[key]}
      ensures v in (f - {key}).Values
    {
      var k :| k in f && f[k] == v;
      assert k in f - {key};
    }
  }

  lemma AddOne<K, V>(f: map<K, V>, key: K, value: V)
    requires key !in f && Injective(f) && value !in f.Values
    ensures f[key := value].Values == f.Values + {value} && Injective(f[key := value])
  {
    assert key in f[key := value];
    forall v | v in f.Values
      ensures v in f[key := value].Values
    {
      var k :| k in f && f[k] == v;
      assert k in f[key := value];
    }
  }

  lemma {:induction false} ImageSize<K, V>(f: map<K, V>)
    requires Injective(f)
    ensures |f.Values| == |f|
    decreases |f|
  {
    if f != map[] {
      var key :| key in f;
      RemoveOne(f, key);
      ImageSize(f - {key});
      assert f[key] in f.Values;
    } else {
      assert f.Values == {};
    }
  }
}
