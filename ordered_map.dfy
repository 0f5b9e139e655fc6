/** A Python `dict` with string keys: entries in insertion order, at most one per key.
    Assigning to an existing key replaces its value in place; a new key goes last. */
module OrderedMap {
  import opened Common

  datatype Entry<V> = Entry(key: string, value: V)

  function Keys<V>(m: seq<Entry<V>>): (ks: seq<string>)
    ensures |ks| == |m| && forall i :: 0 <= i < |m| ==> ks[i] == m[i].key
  {
    if m == [] then [] else [m[0].key] + Keys(m[1..])
  }

  predicate Distinct<V>(m: seq<Entry<V>>) {
    forall i, j :: 0 <= i < j < |m| ==> m[i].key != m[j].key
  }

  /** `d.get(k)` */
  function Lookup<V>(m: seq<Entry<V>>, k: string): (r: Option<V>)
    ensures r.None? <==> k !in Keys(m)
  {
    if m == [] then None
    else if m[0].key == k then Some(m[0].value)
    else
      Lookup(m[1..], k)
  }

  /** In a map with distinct keys every entry is found by its key. */
  lemma {:induction false} LookupEntry<V>(m: seq<Entry<V>>, i: nat)
    requires Distinct(m) && i < |m|
    ensures Lookup(m, m[i].key) == Some(m[i].value)
  {
    if i > 0 {
      assert m[1..][i - 1] == m[i];
      LookupEntry(m[1..], i - 1);
    }
  }

  /** `d[k] = v` */
  function Assign<V>(m: seq<Entry<V>>, k: string, v: V): (r: seq<Entry<V>>)
    ensures k in Keys(m) ==> |r| == |m| && forall i :: 0 <= i < |m| ==> r[i].key == m[i].key
    ensures k !in Keys(m) ==> r == m + [Entry(k, v)]
    ensures forall i :: 0 <= i < |m| && m[i].key != k ==> r[i] == m[i]
  {
    if m == [] then [Entry(k, v)]
    else if m[0].key == k then [Entry(k, v)] + m[1..]
    else
      [m[0]] + Assign(m[1..], k, v)
  }

  /** Assigning makes the key map to the new value and leaves every other key as it was. */
  lemma {:induction false} AssignLookup<V>(m: seq<Entry<V>>, k: string, v: V, k': string)
    ensures Lookup(Assign(m, k, v), k') == if k' == k then Some(v) else Lookup(m, k')
  {
    if m != [] && m[0].key != k {
      var r := Assign(m, k, v);
      assert r[0] == m[0] && r[1..] == Assign(m[1..], k, v);
      AssignLookup(m[1..], k, v, k');
    }
  }

  /** Assigning to a key that is present keeps the keys and their order. */
  lemma AssignKeys<V>(m: seq<Entry<V>>, k: string, v: V)
    requires k in Keys(m)
    ensures Keys(Assign(m, k, v)) == Keys(m)
  {
    var r := Assign(m, k, v);
    assert forall i :: 0 <= i < |Keys(r)| ==> Keys(r)[i] == Keys(m)[i];
  }

  /** Assigning keeps the keys distinct. */
  lemma AssignDistinct<V>(m: seq<Entry<V>>, k: string, v: V)
    requires Distinct(m)
    ensures Distinct(Assign(m, k, v))
  {
    var r := Assign(m, k, v);
    if k in Keys(m) {
      assert forall i :: 0 <= i < |r| ==> r[i].key == Keys(m)[i];
    } else {
      assert forall i :: 0 <= i < |m| ==> r[i].key == Keys(m)[i];
    }
  }

  /** `d.pop(k)`: the remaining entries keep their order. */
  function Remove<V>(m: seq<Entry<V>>, k: string): (r: seq<Entry<V>>)
    ensures |r| <= |m|
    ensures k !in Keys(m) ==> r == m
    ensures forall i :: 0 <= i < |r| ==> r[i].key in Keys(m)
  {
    if m == [] then []
    else if m[0].key == k then m[1..]
    else
      [m[0]] + Remove(m[1..], k)
  }

  /** Removing a key leaves every other key as it was, and in a map with distinct keys the
      removed key is gone. */
  lemma {:induction false} RemoveLookup<V>(m: seq<Entry<V>>, k: string, k': string)
    requires Distinct(m)
    ensures Lookup(Remove(m, k), k') == if k' == k then None else Lookup(m, k')
  {
    if m != [] {
      if m[0].key != k {
        var r := Remove(m, k);
        assert r[0] == m[0] && r[1..] == Remove(m[1..], k);
        RemoveLookup(m[1..], k, k');
      } else {
        assert k !in Keys(m[1..]);
        assert Remove(m, k) == m[1..];
      }
    }
  }

  /** Removing keeps the keys distinct. */
  lemma {:induction false} RemoveDistinct<V>(m: seq<Entry<V>>, k: string)
    requires Distinct(m)
    ensures Distinct(Remove(m, k))
  {
    if m != [] && m[0].key != k {
      RemoveDistinct(m[1..], k);
      var r := Remove(m, k);
      assert r[1..] == Remove(m[1..], k);
      assert m[0].key !in Keys(m[1..]);
      forall j | 1 <= j < |r| ensures r[0].key != r[j].key {
        assert r[j] == r[1..][j - 1];
      }
    }
  }

  /** Assigning every entry of `l` in order, as `for k, v in l: d[k] = v` does. */
  function AssignAll<V>(m: seq<Entry<V>>, l: seq<Entry<V>>): seq<Entry<V>>
  {
    if l == [] then m
    else
      var last := l[|l| - 1];
      Assign(AssignAll(m, l[..|l| - 1]), last.key, last.value)
  }

  /** `dict(l)` for a list of pairs. */
  function FromList<V>(l: seq<Entry<V>>): seq<Entry<V>> { AssignAll([], l) }

  /** The value of the last entry of `l` with key `k`. */
  function LastValue<V>(l: seq<Entry<V>>, k: string): Option<V>
  {
    if l == [] then None
    else if l[|l| - 1].key == k then Some(l[|l| - 1].value)
    else LastValue(l[..|l| - 1], k)
  }

  /** Keys in order of first occurrence. */
  function Dedup(ks: seq<string>): seq<string>
  {
    if ks == [] then []
    else
      var d := Dedup(ks[..|ks| - 1]);
      if ks[|ks| - 1] in d then d else d + [ks[|ks| - 1]]
  }

  /** After assigning a list of entries, a key maps to its last value in the list (or keeps
      its old value), and the keys are the old keys followed by the new ones in order of
      first occurrence. */
  lemma {:induction false} AssignAllLookup<V>(m: seq<Entry<V>>, l: seq<Entry<V>>)
    requires Distinct(m)
    ensures Distinct(AssignAll(m, l))
    ensures forall k :: Lookup(AssignAll(m, l), k) ==
                        (if LastValue(l, k).Some? then LastValue(l, k) else Lookup(m, k))
  {
    if l != [] {
      var init := l[..|l| - 1];
      var last := l[|l| - 1];
      AssignAllLookup(m, init);
      AssignDistinct(AssignAll(m, init), last.key, last.value);
      forall k ensures Lookup(AssignAll(m, l), k) ==
                       (if LastValue(l, k).Some? then LastValue(l, k) else Lookup(m, k)) {
        AssignLookup(AssignAll(m, init), last.key, last.value, k);
      }
    }
  }

  /** `dict(l)[k]` is the value of the last entry for `k`, and the key is present exactly
      when `l` has an entry for it. */
  lemma FromListLookup<V>(l: seq<Entry<V>>, k: string)
    ensures Lookup(FromList(l), k) == LastValue(l, k)
    ensures k in Keys(FromList(l)) <==> LastValue(l, k).Some?
  {
    AssignAllLookup([], l);
  }

  lemma {:induction false} FromListKeys<V>(l: seq<Entry<V>>)
    ensures Keys(FromList(l)) == Dedup(Keys(l))
  {
    if l != [] {
      var init := l[..|l| - 1];
      var last := l[|l| - 1];
      var m := FromList(init);
      var d := Dedup(Keys(init));
      assert Dedup(Keys(l)) == if last.key in d then d else d + [last.key] by {
        var ks := Keys(l);
        KeysSnoc(init, last);
        assert l == init + [last];
        assert ks[..|ks| - 1] == Keys(init);
      }
      assert Keys(FromList(l)) == if last.key in Keys(m) then Keys(m) else Keys(m) + [last.key] by {
        if last.key !in Keys(m) {
          KeysSnoc(m, Entry(last.key, last.value));
        }
      }
      FromListKeys(init);
    }
  }

  lemma KeysSnoc<V>(a: seq<Entry<V>>, e: Entry<V>)
    ensures Keys(a + [e]) == Keys(a) + [e.key]
  {
    KeysAppend(a, [e]);
    assert [e][1..] == [];
  }

  lemma {:induction false} KeysAppend<V>(a: seq<Entry<V>>, b: seq<Entry<V>>)
    ensures Keys(a + b) == Keys(a) + Keys(b)
  {
    if a != [] {
      assert (a + b)[1..] == a[1..] + b;
      KeysAppend(a[1..], b);
    }
  }

  /** Assigning fresh, distinct keys appends them in order. */
  lemma {:induction false} AssignAllFresh<V>(m: seq<Entry<V>>, l: seq<Entry<V>>)
    requires Distinct(m + l)
    ensures AssignAll(m, l) == m + l
  {
    if l != [] {
      var init := l[..|l| - 1];
      var last := l[|l| - 1];
      assert m + l == m + init + [last];
      assert Distinct(m + init) && last.key !in Keys(m + init) by {
        forall i | 0 <= i < |m + init| ensures (m + init)[i] == (m + l)[i] {}
        assert (m + l)[|m + l| - 1] == last;
      }
      AssignAllFresh(m, init);
    }
  }
}
