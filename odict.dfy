/**
 * Python's `dict` (and `OrderedDict`) with string keys, as the conversion
 * uses it: iteration follows insertion order, assigning to a present key
 * keeps its place, deleting a key removes it from the order, and assigning
 * it again later puts it at the end.
 */
module ODicts {

  datatype ODict<V> = ODict(keys: seq<string>, vals: map<string, V>)

  /** No key occurs twice. */
  predicate Distinct(ks: seq<string>)
  {
    forall i, j :: 0 <= i < j < |ks| ==> ks[i] != ks[j]
  }

  /** The keys in order are exactly the keys of the map, each once. */
  predicate Valid<V>(d: ODict<V>)
  {
    && Distinct(d.keys)
    && (forall k :: k in d.keys ==> k in d.vals)
    && (forall k :: k in d.vals ==> k in d.keys)
  }

  function Empty<V>(): (r: ODict<V>)
    ensures Valid(r) && r.keys == [] && r.vals == map[]
  {
    ODict([], map[])
  }

  /** `d[k] = v`. */
  function Put<V>(d: ODict<V>, k: string, v: V): (r: ODict<V>)
    requires Valid(d)
    ensures Valid(r)
    ensures r.vals == d.vals[k := v]
    ensures k in d.vals ==> r.keys == d.keys
    ensures k !in d.vals ==> r.keys == d.keys + [k]
  {
    if k in d.vals then ODict(d.keys, d.vals[k := v]) else ODict(d.keys + [k], d.vals[k := v])
  }

  /** `del d[k]` for a present key. */
  function Remove<V>(d: ODict<V>, k: string): (r: ODict<V>)
    requires Valid(d)
    ensures Valid(r)
    ensures r.vals == d.vals - {k}
    ensures r.keys == Without(d.keys, k)
  {
    WithoutMeans(d.keys, k);
    ODict(Without(d.keys, k), d.vals - {k})
  }

  /** The keys other than `k`, in their order. */
  function Without(ks: seq<string>, k: string): seq<string>
  {
    if ks == [] then [] else (if ks[0] == k then [] else [ks[0]]) + Without(ks[1..], k)
  }

  lemma {:induction false} WithoutMeans(ks: seq<string>, k: string)
    requires Distinct(ks)
    ensures forall x :: x in Without(ks, k) <==> x in ks && x != k
    ensures Distinct(Without(ks, k))
  {
    if ks != [] {
      var rest := ks[1..];
      assert Distinct(rest) by {
        forall i, j | 0 <= i < j < |rest| ensures rest[i] != rest[j] {
          assert rest[i] == ks[i + 1] && rest[j] == ks[j + 1];
        }
      }
      WithoutMeans(rest, k);
      var w := Without(rest, k);
      assert ks[0] !in rest by {
        forall m | 0 <= m < |rest| ensures rest[m] != ks[0] {
          assert rest[m] == ks[m + 1];
        }
      }
      if ks[0] != k {
        var all := Without(ks, k);
        assert all == [ks[0]] + w;
        forall i, j | 0 <= i < j < |all| ensures all[i] != all[j] {
          assert all[j] == w[j - 1];
          if i > 0 {
            assert all[i] == w[i - 1];
          } else {
            assert w[j - 1] in w;
          }
        }
      } else {
        assert Without(ks, k) == w;
      }
    }
  }

  /** Removing a key that is the last one drops it from the end. */
  lemma {:induction false} WithoutLast(ks: seq<string>, k: string)
    requires ks != [] && ks[|ks| - 1] == k
    requires Distinct(ks)
    ensures Without(ks, k) == ks[..|ks| - 1]
    decreases |ks|
  {
    if |ks| == 1 {
      assert Without(ks[1..], k) == [];
    } else {
      assert ks[0] != k;
      WithoutLast(ks[1..], k);
      assert ks[1..][..|ks[1..]| - 1] == ks[..|ks| - 1][1..];
    }
  }

  /** `list(d.values())`. */
  function Values<V>(d: ODict<V>): (r: seq<V>)
    requires Valid(d)
    ensures |r| == |d.keys|
    ensures forall i :: 0 <= i < |r| ==> r[i] == d.vals[d.keys[i]]
  {
    seq(|d.keys|, i requires 0 <= i < |d.keys| => d.vals[d.keys[i]])
  }

  /** Adding a new key appends its value. */
  lemma ValuesPutNew<V>(d: ODict<V>, k: string, v: V)
    requires Valid(d) && k !in d.vals
    ensures Values(Put(d, k, v)) == Values(d) + [v]
  {
    var r := Put(d, k, v);
    assert r.keys == d.keys + [k];
    forall i | 0 <= i < |d.keys| ensures Values(r)[i] == (Values(d) + [v])[i] {
      assert r.keys[i] == d.keys[i] && d.keys[i] != k;
    }
  }

  lemma {:induction false} WithoutConcat(a: seq<string>, b: seq<string>, k: string)
    ensures Without(a + b, k) == Without(a, k) + Without(b, k)
  {
    if a != [] {
      assert (a + b)[1..] == a[1..] + b;
      WithoutConcat(a[1..], b, k);
    } else {
      assert a + b == b;
    }
  }

  lemma {:induction false} WithoutAbsent(a: seq<string>, k: string)
    requires k !in a
    ensures Without(a, k) == a
  {
    if a != [] {
      WithoutAbsent(a[1..], k);
    }
  }

  /** Removing a key that sits at index `i` leaves the keys before and after it. */
  lemma {:induction false} WithoutAt(ks: seq<string>, i: nat)
    requires Distinct(ks) && i < |ks|
    ensures ks == ks[..i] + [ks[i]] + ks[i + 1..]
    ensures Without(ks, ks[i]) == ks[..i] + ks[i + 1..]
  {
    var k, a, b := ks[i], ks[..i], ks[i + 1..];
    assert ks == a + ([k] + b);
    NotBeside(ks, i);
    WithoutOne(k, b);
    WithoutConcat(a, [k] + b, k);
    WithoutAbsent(a, k);
  }

  lemma {:induction false} WithoutOne(k: string, b: seq<string>)
    requires k !in b
    ensures Without([k] + b, k) == b
  {
    assert ([k] + b)[1..] == b;
    WithoutAbsent(b, k);
  }

  /** A key of distinct keys occurs neither before nor after its own place. */
  lemma NotBeside(ks: seq<string>, i: nat)
    requires Distinct(ks) && i < |ks|
    ensures ks[i] !in ks[..i] && ks[i] !in ks[i + 1..]
  {
    var a, b := ks[..i], ks[i + 1..];
    forall j | 0 <= j < |a| ensures a[j] != ks[i] {
      assert a[j] == ks[j];
    }
    forall j | 0 <= j < |b| ensures b[j] != ks[i] {
      assert b[j] == ks[i + 1 + j];
    }
  }
}
