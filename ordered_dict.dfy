/** Python dictionaries as the bed script builds them from query rows: the
    keys in order of first insertion, and for each key the value assigned
    last. */
module OrderedDict {

  datatype Dict<K, V> = Dict(keys: seq<K>, values: map<K, V>)

  /** The keys are distinct and are exactly the keys of the value map. */
  ghost predicate Valid<K(!new), V>(d: Dict<K, V>)
  {
    && (forall i, j :: 0 <= i < j < |d.keys| ==> d.keys[i] != d.keys[j])
    && (forall k :: k in d.values <==> k in d.keys)
  }

  /** `{k: v for k, v in pairs}`: a key seen again keeps its position and
      takes the new value. */
  function DictOf<K(!new), V>(pairs: seq<(K, V)>): (d: Dict<K, V>)
    ensures Valid(d)
    ensures |d.keys| <= |pairs|
  {
    if pairs == [] then Dict([], map[])
    else
      var d := DictOf(pairs[..|pairs| - 1]);
      var k := pairs[|pairs| - 1].0;
      var v := pairs[|pairs| - 1].1;
      if k in d.values then Dict(d.keys, d.values[k := v])
      else Dict(d.keys + [k], d.values[k := v])
  }

  /** The keys of the dictionary are the keys of the pairs. */
  lemma {:induction false} DictOfKeys<K(!new), V>(pairs: seq<(K, V)>, k: K)
    ensures k in DictOf(pairs).values <==> exists i :: 0 <= i < |pairs| && pairs[i].0 == k
  {
    if pairs != [] {
      var init := pairs[..|pairs| - 1];
      DictOfKeys(init, k);
      if exists i :: 0 <= i < |init| && init[i].0 == k {
        var i :| 0 <= i < |init| && init[i].0 == k;
        assert pairs[i].0 == k;
      }
      if exists i :: 0 <= i < |pairs| && pairs[i].0 == k {
        var i :| 0 <= i < |pairs| && pairs[i].0 == k;
        if i < |init| {
          assert init[i].0 == k;
        }
      }
    }
  }

  /** A key takes the value of its last pair. */
  lemma {:induction false} DictOfLast<K(!new), V>(pairs: seq<(K, V)>, i: nat)
    requires i < |pairs|
    requires forall j :: i < j < |pairs| ==> pairs[j].0 != pairs[i].0
    ensures pairs[i].0 in DictOf(pairs).values
    ensures DictOf(pairs).values[pairs[i].0] == pairs[i].1
  {
    if i < |pairs| - 1 {
      var init := pairs[..|pairs| - 1];
      assert init[i] == pairs[i];
      DictOfLast(init, i);
    }
  }

  /** Every value of the dictionary comes from a pair with its key. */
  lemma {:induction false} DictOfValue<K(!new), V>(pairs: seq<(K, V)>, k: K)
    requires k in DictOf(pairs).values
    ensures exists i :: 0 <= i < |pairs| && pairs[i] == (k, DictOf(pairs).values[k])
  {
    var init := pairs[..|pairs| - 1];
    var last := pairs[|pairs| - 1];
    if last.0 == k {
      assert pairs[|pairs| - 1] == (k, DictOf(pairs).values[k]);
    } else {
      assert DictOf(pairs).values[k] == DictOf(init).values[k];
      DictOfValue(init, k);
      var i :| 0 <= i < |init| && init[i] == (k, DictOf(init).values[k]);
      assert pairs[i] == init[i];
    }
  }

  /** The keys of the dictionary keep the order of their first pair. */
  lemma {:induction false} DictOfOrder<K(!new), V>(pairs: seq<(K, V)>, a: nat, b: nat)
    requires a < b < |DictOf(pairs).keys|
    ensures exists i :: 0 <= i < |pairs| && pairs[i].0 == DictOf(pairs).keys[a]
              && forall j :: 0 <= j <= i ==> pairs[j].0 != DictOf(pairs).keys[b]
  {
    var init := pairs[..|pairs| - 1];
    var d := DictOf(init);
    var ka := DictOf(pairs).keys[a];
    var kb := DictOf(pairs).keys[b];
    if b < |d.keys| {
      assert d.keys[a] == ka && d.keys[b] == kb;
      DictOfOrder(init, a, b);
      var i :| 0 <= i < |init| && init[i].0 == ka && forall j :: 0 <= j <= i ==> init[j].0 != kb;
      assert pairs[i].0 == ka;
      assert forall j :: 0 <= j <= i ==> pairs[j].0 == init[j].0;
    } else {
      assert kb == pairs[|pairs| - 1].0 && kb !in d.values;
      assert ka == d.keys[a] && ka in d.values;
      DictOfKeys(init, ka);
      DictOfKeys(init, kb);
      var i :| 0 <= i < |init| && init[i].0 == ka;
      assert pairs[i].0 == ka;
      forall j | 0 <= j <= i ensures pairs[j].0 != kb {
        assert pairs[j] == init[j];
      }
    }
  }

  /** Rewriting the value of every pair, key by key, rewrites the values of
      the dictionary the same way and keeps its keys. */
  function MapValues<K(!new), V>(pairs: seq<(K, V)>, f: (K, V) -> V): (r: seq<(K, V)>)
    ensures |r| == |pairs|
    ensures forall i :: 0 <= i < |pairs| ==> r[i] == (pairs[i].0, f(pairs[i].0, pairs[i].1))
  {
    seq(|pairs|, i requires 0 <= i < |pairs| => (pairs[i].0, f(pairs[i].0, pairs[i].1)))
  }

  lemma {:induction false} DictOfMapValues<K(!new), V>(pairs: seq<(K, V)>, f: (K, V) -> V)
    ensures DictOf(MapValues(pairs, f)).keys == DictOf(pairs).keys
    ensures DictOf(MapValues(pairs, f)).values.Keys == DictOf(pairs).values.Keys
    ensures forall k :: k in DictOf(pairs).values ==>
              DictOf(MapValues(pairs, f)).values[k] == f(k, DictOf(pairs).values[k])
  {
    if pairs != [] {
      var init := pairs[..|pairs| - 1];
      assert MapValues(pairs, f)[..|pairs| - 1] == MapValues(init, f);
      DictOfMapValues(init, f);
    }
  }
}
