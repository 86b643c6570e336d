/** A JavaScript object used as a dictionary (`Record<string, string>`,
    `Record<CareerType, number>`): entries listed in key insertion order.
    Writing an existing key replaces its value in place, so the key keeps
    its original position; writing a new key appends it. */
module Records {
  import opened Wrappers
  import Seqs

  type Entries<K, V> = seq<(K, V)>

  /** The key whose assignment on a plain object sets the prototype instead
      of storing an entry; a string value is ignored. */
  const ProtoKey := "__proto__"

  /** The members every plain object inherits from `Object.prototype`. Reading
      one of these keys from an object that has no own entry for it gives the
      inherited member (a function, or the prototype for `__proto__`), not
      `undefined`. */
  const InheritedNames: set<string> := {
    "constructor", "hasOwnProperty", "isPrototypeOf", "propertyIsEnumerable",
    "toLocaleString", "toString", "valueOf", "__defineGetter__",
    "__defineSetter__", "__lookupGetter__", "__lookupSetter__", ProtoKey}

  function Keys<K, V>(e: Entries<K, V>): (ks: seq<K>)
    ensures |ks| == |e|
    ensures forall i :: 0 <= i < |e| ==> ks[i] == e[i].0
  {
    if |e| == 0 then [] else [e[0].0] + Keys(e[1..])
  }

  /** `obj[k]`: the value stored under `k`, if any. */
  function Get<K(==), V>(e: Entries<K, V>, k: K): (r: Option<V>)
    ensures r.None? <==> k !in Keys(e)
  {
    if |e| == 0 then None
    else if e[0].0 == k then Some(e[0].1)
    else
      var r := Get(e[1..], k);
      assert Keys(e) == [e[0].0] + Keys(e[1..]);
      r
  }

  /** With distinct keys, each entry is what `Get` returns for its key. */
  lemma {:induction false} GetEntry<K, V>(e: Entries<K, V>, i: nat)
    requires Seqs.Distinct(Keys(e)) && i < |e|
    ensures Get(e, e[i].0) == Some(e[i].1)
  {
    if i > 0 {
      assert Keys(e[1..]) == Keys(e)[1..];
      assert e[i] == e[1..][i - 1];
      GetEntry(e[1..], i - 1);
    }
  }

  /** `{ ...e, [k]: v }`. */
  function Put<K(==,!new), V>(e: Entries<K, V>, k: K, v: V): (r: Entries<K, V>)
    ensures Get(r, k) == Some(v)
  {
    if |e| == 0 then [(k, v)]
    else if e[0].0 == k then [(k, v)] + e[1..]
    else
      var t := Put(e[1..], k, v);
      var r := [e[0]] + t;
      assert r[1..] == t;
      r
  }

  /** Writing an existing key keeps the key order; a new key goes last. */
  lemma {:induction false} PutKeys<K(!new), V>(e: Entries<K, V>, k: K, v: V)
    ensures Keys(Put(e, k, v)) == if k in Keys(e) then Keys(e) else Keys(e) + [k]
  {
    if |e| == 0 {
    } else if e[0].0 == k {
      assert Keys(Put(e, k, v)) == Keys(e);
    } else {
      var t := Put(e[1..], k, v);
      PutKeys(e[1..], k, v);
      var ke := Keys(e);
      var ke' := Keys(e[1..]);
      assert ke == [e[0].0] + ke';
      assert k in ke <==> k in ke';
      assert Keys([e[0]] + t) == [e[0].0] + Keys(t);
      if k in ke' {
        assert Keys(t) == ke';
      } else {
        assert Keys(t) == ke' + [k];
        assert [e[0].0] + (ke' + [k]) == ke + [k];
      }
    }
  }

  /** Writing `k` leaves every other key's value as it was. */
  lemma {:induction false} PutOther<K(!new), V>(e: Entries<K, V>, k: K, v: V, k': K)
    requires k' != k
    ensures Get(Put(e, k, v), k') == Get(e, k')
  {
    if |e| > 0 && e[0].0 != k {
      var t := Put(e[1..], k, v);
      assert Put(e, k, v) == [e[0]] + t;
      assert ([e[0]] + t)[1..] == t;
      PutOther(e[1..], k, v, k');
    } else if |e| > 0 {
      assert Put(e, k, v)[1..] == e[1..];
    }
  }

  /** Writing keeps keys distinct. */
  lemma PutDistinct<K(!new), V>(e: Entries<K, V>, k: K, v: V)
    requires Seqs.Distinct(Keys(e))
    ensures Seqs.Distinct(Keys(Put(e, k, v)))
  {
    PutKeys(e, k, v);
    var ks := Keys(e);
    if k !in ks {
      var ks' := ks + [k];
      assert forall i :: 0 <= i < |ks| ==> ks'[i] == ks[i];
      assert ks'[|ks|] == k;
    }
  }

  /** Writing a key that is not there yet appends the entry. */
  lemma PutFresh<K(!new), V>(e: Entries<K, V>, k: K, v: V)
    requires k !in Keys(e)
    ensures Put(e, k, v) == e + [(k, v)]
  {
    if |e| > 0 {
      assert Keys(e) == [e[0].0] + Keys(e[1..]);
      PutFresh(e[1..], k, v);
      assert e == [e[0]] + e[1..];
    }
  }
}
