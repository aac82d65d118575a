/** A pin feature's property object (one parsed CSV row): its own keys in
    enumeration order, each with a string value. */
module Properties {

  datatype Option<T> = None | Some(value: T)

  datatype Entry = Entry(key: string, value: string)

  type Props = seq<Entry>

  /** The own keys of `p`, in enumeration order. */
  function KeysOf(p: Props): (ks: seq<string>)
    ensures |ks| == |p|
    ensures forall i :: 0 <= i < |p| ==> ks[i] == p[i].key
  {
    if p == [] then [] else [p[0].key] + KeysOf(p[1..])
  }

  /** No key occurs twice, as in every JavaScript object. */
  predicate DistinctKeys(p: Props) {
    forall i, j :: 0 <= i < j < |p| ==> p[i].key != p[j].key
  }

  /** `p[k]`: the value stored under `k`, or None where JavaScript reads
      `undefined`. */
  function Get(p: Props, k: string): (r: Option<string>)
    ensures r.Some? <==> k in KeysOf(p)
    ensures r.Some? ==> Entry(k, r.value) in p
  {
    if p == [] then None
    else if p[0].key == k then Some(p[0].value)
    else Get(p[1..], k)
  }

  /** Dropping the first entry keeps the keys distinct and removes its key. */
  lemma TailDistinct(p: Props)
    requires DistinctKeys(p) && p != []
    ensures DistinctKeys(p[1..])
    ensures p[0].key !in KeysOf(p[1..])
    ensures KeysOf(p) == [p[0].key] + KeysOf(p[1..])
  {
    var tail := p[1..];
    forall i, j | 0 <= i < j < |tail| ensures tail[i].key != tail[j].key {
      assert tail[i] == p[i + 1] && tail[j] == p[j + 1];
    }
    forall j | 0 <= j < |tail| ensures KeysOf(tail)[j] != p[0].key {
      assert tail[j] == p[j + 1];
    }
  }

  /** In an object with distinct keys, reading an entry's key gives its value. */
  lemma {:induction false} GetAt(p: Props, i: nat)
    requires DistinctKeys(p) && i < |p|
    ensures Get(p, p[i].key) == Some(p[i].value)
  {
    if i > 0 {
      assert p[0].key != p[i].key;
      assert p[1..][i - 1] == p[i];
      GetAt(p[1..], i - 1);
    }
  }

  /** `p[k] = v`: an existing key keeps its place and takes the new value,
      a new key is added last. */
  function SetProp(p: Props, k: string, v: string): (r: Props)
    ensures |p| <= |r| <= |p| + 1
  {
    if p == [] then [Entry(k, v)]
    else if p[0].key == k then [Entry(k, v)] + p[1..]
    else [p[0]] + SetProp(p[1..], k, v)
  }

  /** After `p[k] = v`, `k` reads `v` and every other key reads what it
      read before. */
  lemma {:induction false} SetPropGet(p: Props, k: string, v: string)
    ensures Get(SetProp(p, k, v), k) == Some(v)
    ensures forall k' :: k' != k ==> Get(SetProp(p, k, v), k') == Get(p, k')
  {
    if p != [] && p[0].key != k {
      SetPropGet(p[1..], k, v);
    }
  }

  /** `p[k] = v` keeps the key order; a new key comes last. */
  lemma {:induction false} SetPropKeys(p: Props, k: string, v: string)
    ensures KeysOf(SetProp(p, k, v)) == if k in KeysOf(p) then KeysOf(p) else KeysOf(p) + [k]
  {
    if p != [] && p[0].key != k {
      SetPropKeys(p[1..], k, v);
      assert KeysOf(p) == [p[0].key] + KeysOf(p[1..]);
    }
  }

  /** Assignment keeps the keys distinct. */
  lemma SetPropDistinct(p: Props, k: string, v: string)
    requires DistinctKeys(p)
    ensures DistinctKeys(SetProp(p, k, v))
  {
    var r := SetProp(p, k, v);
    SetPropKeys(p, k, v);
    var ks, rs := KeysOf(p), KeysOf(r);
    forall i, j | 0 <= i < j < |r| ensures r[i].key != r[j].key {
      assert rs[i] == r[i].key && rs[j] == r[j].key;
      if j < |p| {
        assert rs[i] == ks[i] && rs[j] == ks[j];
      } else {
        assert rs[j] == k && k !in ks && rs[i] == ks[i];
      }
    }
  }

  /** Assigning a key the value it already has changes nothing. */
  lemma {:induction false} SetPropSame(p: Props, k: string, v: string)
    requires Get(p, k) == Some(v)
    ensures SetProp(p, k, v) == p
  {
    if p[0].key != k {
      SetPropSame(p[1..], k, v);
    }
  }

  /** Assigning a new key appends it. */
  lemma {:induction false} SetPropNew(p: Props, k: string, v: string)
    requires k !in KeysOf(p)
    ensures SetProp(p, k, v) == p + [Entry(k, v)]
  {
    if p != [] {
      assert KeysOf(p)[0] == p[0].key;
      assert KeysOf(p)[1..] == KeysOf(p[1..]);
      SetPropNew(p[1..], k, v);
      calc {
        SetProp(p, k, v);
        [p[0]] + SetProp(p[1..], k, v);
        [p[0]] + (p[1..] + [Entry(k, v)]);
        { assert [p[0]] + p[1..] == p; }
        p + [Entry(k, v)];
      }
    }
  }

  /** Two objects with the same keys in the same order and the same value
      under every key are the same object. */
  lemma PropsEqual(a: Props, b: Props)
    requires DistinctKeys(a) && KeysOf(a) == KeysOf(b)
    requires forall k :: Get(a, k) == Get(b, k)
    ensures a == b
  {
    assert DistinctKeys(b) by {
      forall i, j | 0 <= i < j < |b| ensures b[i].key != b[j].key {
        assert KeysOf(a)[i] == b[i].key && KeysOf(a)[j] == b[j].key;
      }
    }
    forall i | 0 <= i < |a| ensures a[i] == b[i] {
      assert KeysOf(a)[i] == b[i].key;
      GetAt(a, i);
      GetAt(b, i);
    }
  }

  /** JavaScript truthiness of a property read: `undefined` and "" are falsy. */
  predicate Truthy(v: Option<string>) {
    v.Some? && v.value != ""
  }

  /** `v || d` for a property read `v`. */
  function OrDefault(v: Option<string>, d: string): (r: string)
    ensures r == d || (v.Some? && r == v.value)
  {
    if Truthy(v) then v.value else d
  }
}
