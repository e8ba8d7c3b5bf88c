/** Python dictionaries with string keys, which remember insertion order: an association list
    whose keys are distinct. Assigning to a key that is already present replaces its value and
    keeps its position; assigning to a new key appends it. */
module Dicts {
  import opened Wrappers

  datatype Entry<V> = Entry(key: string, value: V)

  type Dict<V> = seq<Entry<V>>

  /** The keys, in iteration order. */
  function Keys<V>(d: seq<Entry<V>>): (ks: seq<string>)
    ensures |ks| == |d|
    ensures forall i :: 0 <= i < |d| ==> ks[i] == d[i].key
  {
    seq(|d|, i requires 0 <= i < |d| => d[i].key)
  }

  /** No key occurs twice, as in every Python dict. */
  predicate Valid<V>(d: Dict<V>) {
    forall i, j :: 0 <= i < j < |d| ==> d[i].key != d[j].key
  }

  /** `d.get(k)`. */
  function Get<V>(d: Dict<V>, k: string): (r: Option<V>)
    ensures r.Some? <==> k in Keys(d)
    ensures r.Some? ==> exists i :: 0 <= i < |d| && d[i] == Entry(k, r.value)
  {
    if d == [] then None
    else if d[0].key == k then Some(d[0].value)
    else
      assert forall i :: 0 <= i < |d| - 1 ==> d[1..][i] == d[i + 1];
      Get(d[1..], k)
  }

  /** `d[k]` for a key that is present. */
  function Lookup<V>(d: Dict<V>, k: string): (v: V)
    requires k in Keys(d)
    ensures Get(d, k) == Some(v)
  {
    Get(d, k).value
  }

  /** `d[k] = v`. */
  function Put<V>(d: Dict<V>, k: string, v: V): (r: Dict<V>)
    ensures |r| == if k in Keys(d) then |d| else |d| + 1
  {
    if d == [] then [Entry(k, v)]
    else if d[0].key == k then [Entry(k, v)] + d[1..]
    else [d[0]] + Put(d[1..], k, v)
  }

  /** Assigning to a present key keeps the keys and their order; assigning to a new key appends
      an entry for it at the end. */
  lemma PutKeys<V>(d: Dict<V>, k: string, v: V)
    ensures Keys(Put(d, k, v)) == if k in Keys(d) then Keys(d) else Keys(d) + [k]
    ensures k !in Keys(d) ==> Put(d, k, v) == d + [Entry(k, v)]
  {
    if k in Keys(d) {
      PutPresent(d, k, v);
    } else {
      PutAbsent(d, k, v);
      KeysSnoc(d, Entry(k, v));
    }
  }

  lemma {:induction false} PutAbsent<V>(d: Dict<V>, k: string, v: V)
    requires k !in Keys(d)
    ensures Put(d, k, v) == d + [Entry(k, v)]
  {
    if d != [] {
      assert Keys(d)[0] == d[0].key;
      assert Keys(d[1..]) == Keys(d)[1..];
      PutAbsent(d[1..], k, v);
      assert [d[0]] + (d[1..] + [Entry(k, v)]) == d + [Entry(k, v)];
    }
  }

  lemma {:induction false} PutPresent<V>(d: Dict<V>, k: string, v: V)
    requires k in Keys(d)
    ensures Keys(Put(d, k, v)) == Keys(d)
  {
    assert d != [];
    var r := Put(d, k, v);
    if d[0].key == k {
      assert forall i :: 0 <= i < |r| ==> r[i].key == d[i].key;
    } else {
      assert Keys(d) == [d[0].key] + Keys(d[1..]);
      PutPresent(d[1..], k, v);
      KeysCons(d[0], Put(d[1..], k, v));
    }
  }

  /** After `d[k] = v`, looking up `k` gives `v` and looking up any other key gives what it gave
      before. */
  lemma {:induction false} PutGet<V>(d: Dict<V>, k: string, v: V, k': string)
    ensures Get(Put(d, k, v), k') == if k' == k then Some(v) else Get(d, k')
  {
    if d != [] && d[0].key != k {
      PutGet(d[1..], k, v, k');
      assert Put(d, k, v)[1..] == Put(d[1..], k, v);
    }
  }

  lemma KeysCons<V>(e: Entry<V>, d: seq<Entry<V>>)
    ensures Keys([e] + d) == [e.key] + Keys(d)
  {
  }

  lemma KeysSnoc<V>(d: seq<Entry<V>>, e: Entry<V>)
    ensures Keys(d + [e]) == Keys(d) + [e.key]
  {
  }

  /** Assigning in order every entry of `es` to an empty dictionary. */
  function FromEntries<V>(es: seq<Entry<V>>): (d: Dict<V>)
    ensures Valid(d)
  {
    if es == [] then []
    else
      var last := es[|es| - 1];
      var prefix := FromEntries(es[..|es| - 1]);
      var d := Put(prefix, last.key, last.value);
      PutKeys(prefix, last.key, last.value);
      assert forall i :: 0 <= i < |d| ==> d[i].key == Keys(d)[i];
      d
  }

  /** The value of the last entry of `es` with key `k`. */
  function LastValue<V>(es: seq<Entry<V>>, k: string): Option<V> {
    if es == [] then None
    else if es[|es| - 1].key == k then Some(es[|es| - 1].value)
    else LastValue(es[..|es| - 1], k)
  }

  /** A key repeated among the entries ends up with the value of its last entry. */
  lemma {:induction false} FromEntriesGet<V>(es: seq<Entry<V>>, k: string)
    ensures Get(FromEntries(es), k) == LastValue(es, k)
  {
    if es != [] {
      var last := es[|es| - 1];
      FromEntriesGet(es[..|es| - 1], k);
      PutGet(FromEntries(es[..|es| - 1]), last.key, last.value, k);
    }
  }

  /** The keys of `ks` without repetitions, each where it first occurs. */
  function FirstOccurrences(ks: seq<string>): seq<string> {
    if ks == [] then []
    else
      var r := FirstOccurrences(ks[..|ks| - 1]);
      if ks[|ks| - 1] in r then r else r + [ks[|ks| - 1]]
  }

  /** Each key occurs once, and exactly the keys of `ks` occur. */
  lemma {:induction false} FirstOccurrencesMembers(ks: seq<string>)
    ensures forall k :: k in FirstOccurrences(ks) <==> k in ks
    ensures forall i, j :: 0 <= i < j < |FirstOccurrences(ks)| ==> FirstOccurrences(ks)[i] != FirstOccurrences(ks)[j]
  {
    if ks != [] {
      var n := |ks| - 1;
      FirstOccurrencesMembers(ks[..n]);
      assert ks == ks[..n] + [ks[n]];
    }
  }

  /** The keys of the dictionary are the keys of the entries, each once, in the order of their
      first occurrence: a later entry with a known key does not move it. */
  lemma {:induction false} FromEntriesKeys<V>(es: seq<Entry<V>>)
    ensures Keys(FromEntries(es)) == FirstOccurrences(Keys(es))
  {
    if es != [] {
      var n := |es| - 1;
      var d := FromEntries(es[..n]);
      var ks := Keys(es);
      assert FromEntries(es) == Put(d, es[n].key, es[n].value);
      FromEntriesKeys(es[..n]);
      PutKeys(d, es[n].key, es[n].value);
      assert ks[..n] == Keys(es[..n]);
      assert ks[n] == es[n].key;
      assert FirstOccurrences(ks) == var r := FirstOccurrences(ks[..n]); if ks[n] in r then r else r + [ks[n]];
    }
  }

  /** Re-inserting the entries of a dictionary into an empty one gives the same dictionary. */
  lemma {:induction false} FromEntriesOfValid<V>(d: Dict<V>)
    requires Valid(d)
    ensures FromEntries(d) == d
  {
    if d != [] {
      var n := |d| - 1;
      FromEntriesOfValid(d[..n]);
      assert d[n].key !in Keys(d[..n]);
      PutAbsent(d[..n], d[n].key, d[n].value);
      assert d[..n] + [d[n]] == d;
    }
  }
}
