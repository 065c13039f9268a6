/**
 * A Python dict as the scraper uses it: an insertion-ordered sequence of
 * (key, value) pairs in which no key appears twice. Assigning to an
 * existing key keeps its position; assigning a new key appends it;
 * deleting a key closes the gap.
 */
module Records {
  import opened Wrappers
  import opened PyValues

  /** A job record: column name to value, in insertion order. */
  type Record = seq<(string, Value)>

  function Keys<V>(r: seq<(string, V)>): (ks: seq<string>)
    ensures |ks| == |r|
    ensures forall i :: 0 <= i < |r| ==> ks[i] == r[i].0
  {
    seq(|r|, i requires 0 <= i < |r| => r[i].0)
  }

  /** Two records with the same keys in the same order are both dicts or neither. */
  lemma UniqueKeysSameKeys<V, W>(r: seq<(string, V)>, t: seq<(string, W)>)
    requires Keys(r) == Keys(t) && UniqueKeys(r)
    ensures UniqueKeys(t)
  {
    forall i, j | 0 <= i < j < |t| ensures t[i].0 != t[j].0 {
      assert t[i].0 == Keys(t)[i] == r[i].0;
      assert t[j].0 == Keys(t)[j] == r[j].0;
    }
  }

  lemma KeysAppend<V>(a: seq<(string, V)>, b: seq<(string, V)>)
    ensures Keys(a + b) == Keys(a) + Keys(b)
  {
  }

  lemma KeysSlices<V>(r: seq<(string, V)>, i: nat)
    requires i < |r|
    ensures Keys(r[..i]) == Keys(r)[..i] && Keys(r[i + 1..]) == Keys(r)[i + 1..]
  {
  }

  /** No key appears twice (what a Python dict guarantees). */
  predicate UniqueKeys<V>(r: seq<(string, V)>)
  {
    forall i, j :: 0 <= i < j < |r| ==> r[i].0 != r[j].0
  }

  /** No string appears twice. */
  predicate Distinct(ks: seq<string>)
  {
    forall i, j :: 0 <= i < j < |ks| ==> ks[i] != ks[j]
  }

  /** The position of the first pair with key `k` (`list(d.keys()).index(k)`). */
  function IndexOf<V>(r: seq<(string, V)>, k: string): (res: Option<nat>)
    ensures res.Some? ==> res.value < |r| && r[res.value].0 == k
    ensures res.Some? ==> forall j :: 0 <= j < res.value ==> r[j].0 != k
    ensures res.None? <==> k !in Keys(r)
  {
    if r == [] then None
    else if r[0].0 == k then Some(0)
    else
      match IndexOf(r[1..], k)
      case None => KeysCons(r); None
      case Some(i) => Some(i + 1)
  }

  /** In a record with unique keys, the key at `i` is found at `i`. */
  lemma IndexOfUnique<V>(r: seq<(string, V)>, i: nat)
    requires UniqueKeys(r) && i < |r|
    ensures IndexOf(r, r[i].0) == Some(i)
  {
    assert r[i].0 in Keys(r);
  }

  /** `d[k]`, or nothing when `k` is absent (where Python raises KeyError). */
  function Lookup<V>(r: seq<(string, V)>, k: string): (res: Option<V>)
    ensures res.Some? <==> k in Keys(r)
  {
    match IndexOf(r, k)
    case None => None
    case Some(i) => Some(r[i].1)
  }

  /** `d[k] = v`: an existing key keeps its position, a new key goes last. */
  function Assign<V>(r: seq<(string, V)>, k: string, v: V): (res: seq<(string, V)>)
    ensures k in Keys(r) ==> Keys(res) == Keys(r)
    ensures k !in Keys(r) ==> Keys(res) == Keys(r) + [k]
    ensures Lookup(res, k) == Some(v)
    ensures forall k' :: k' != k ==> Lookup(res, k') == Lookup(r, k')
    ensures UniqueKeys(r) ==> UniqueKeys(res)
  {
    match IndexOf(r, k)
    case Some(i) =>
      var res := r[i := (k, v)];
      assert forall k' :: IndexOf(res, k') == IndexOf(r, k') by {
        forall k' ensures IndexOf(res, k') == IndexOf(r, k') {
          IndexOfSameKeys(r, res, k');
        }
      }
      res
    case None =>
      var res := r + [(k, v)];
      assert forall k' :: k' != k ==> IndexOf(res, k') == IndexOf(r, k') by {
        forall k' | k' != k ensures IndexOf(res, k') == IndexOf(r, k') {
          IndexOfAppend(r, k', v, k);
        }
      }
      assert IndexOf(res, k) == Some(|r|) by { IndexOfAppendNew(r, k, v); }
      res
  }

  lemma {:induction false} IndexOfSameKeys<V>(r: seq<(string, V)>, t: seq<(string, V)>, k: string)
    requires Keys(r) == Keys(t)
    ensures IndexOf(r, k) == IndexOf(t, k)
  {
    if r != [] {
      assert Keys(r[1..]) == Keys(r)[1..];
      assert Keys(t[1..]) == Keys(t)[1..];
      IndexOfSameKeys(r[1..], t[1..], k);
    }
  }

  lemma {:induction false} IndexOfAppend<V>(r: seq<(string, V)>, k': string, v: V, k: string)
    requires k' != k
    ensures IndexOf(r + [(k, v)], k') == IndexOf(r, k')
  {
    if r != [] {
      assert (r + [(k, v)])[1..] == r[1..] + [(k, v)];
      IndexOfAppend(r[1..], k', v, k);
    }
  }

  lemma IndexOfAppendNew<V>(r: seq<(string, V)>, k: string, v: V)
    requires k !in Keys(r)
    ensures IndexOf(r + [(k, v)], k) == Some(|r|)
  {
    var res := r + [(k, v)];
    assert res[|r|].0 == k;
    assert forall j :: 0 <= j < |r| ==> res[j].0 != k by {
      forall j | 0 <= j < |r| ensures res[j].0 != k {
        assert Keys(r)[j] == r[j].0;
      }
    }
    assert k in Keys(res) by { assert Keys(res)[|r|] == k; }
  }

  /** Assigning a key the value it already holds changes nothing. */
  lemma AssignSame<V>(r: seq<(string, V)>, k: string, v: V)
    requires Lookup(r, k) == Some(v)
    ensures Assign(r, k, v) == r
  {
    var i := IndexOf(r, k).value;
    assert r[i] == (k, v);
  }

  /** `for k, v in pairs: d[k] = v` (also `d.update(pairs)`), applied left to right. */
  function AssignAll<V>(r: seq<(string, V)>, pairs: seq<(string, V)>): (res: seq<(string, V)>)
    ensures UniqueKeys(r) ==> UniqueKeys(res)
    decreases |pairs|
  {
    if pairs == [] then r else AssignAll(Assign(r, pairs[0].0, pairs[0].1), pairs[1..])
  }

  /** The next assignment of a left-to-right pass over `pairs`. */
  lemma AssignAllFrom<V>(r: seq<(string, V)>, pairs: seq<(string, V)>, i: nat)
    requires i <= |pairs|
    ensures i == |pairs| ==> AssignAll(r, pairs[i..]) == r
    ensures i < |pairs| ==> AssignAll(r, pairs[i..]) == AssignAll(Assign(r, pairs[i].0, pairs[i].1), pairs[i + 1..])
  {
    if i < |pairs| {
      assert pairs[i..][1..] == pairs[i + 1..];
    }
  }

  /** `del d[k]`, for a key that is present; an absent key leaves the record as it is. */
  function Remove<V>(r: seq<(string, V)>, k: string): (res: seq<(string, V)>)
    ensures UniqueKeys(r) ==> UniqueKeys(res)
  {
    match IndexOf(r, k)
    case None => r
    case Some(i) => r[..i] + r[i + 1..]
  }

  /** The pairs are all new: unique among themselves and absent from `r`. */
  predicate FreshPairs<V>(r: seq<(string, V)>, pairs: seq<(string, V)>)
  {
    UniqueKeys(pairs) && forall j :: 0 <= j < |pairs| ==> pairs[j].0 !in Keys(r)
  }

  lemma KeysCons<V>(pairs: seq<(string, V)>)
    requires pairs != []
    ensures Keys(pairs) == [pairs[0].0] + Keys(pairs[1..])
  {
  }

  lemma FreshStep<V>(r: seq<(string, V)>, pairs: seq<(string, V)>)
    requires FreshPairs(r, pairs) && pairs != []
    ensures Assign(r, pairs[0].0, pairs[0].1) == r + [pairs[0]]
    ensures FreshPairs(r + [pairs[0]], pairs[1..])
  {
    var p := pairs[0];
    var rest := pairs[1..];
    assert p.0 !in Keys(r);
    assert Keys(r + [p]) == Keys(r) + [p.0];
    forall j | 0 <= j < |rest| ensures rest[j].0 !in Keys(r + [p]) {
      assert rest[j] == pairs[j + 1];
      assert pairs[j + 1].0 != pairs[0].0;
    }
    assert UniqueKeys(rest) by {
      forall i, j | 0 <= i < j < |rest| ensures rest[i].0 != rest[j].0 {
        assert rest[i] == pairs[i + 1] && rest[j] == pairs[j + 1];
      }
    }
  }

  lemma ConcatStep<V>(r: seq<(string, V)>, pairs: seq<(string, V)>)
    requires pairs != []
    ensures (r + [pairs[0]]) + pairs[1..] == r + pairs
  {
  }

  lemma {:induction false} AssignAllFresh<V>(r: seq<(string, V)>, pairs: seq<(string, V)>)
    requires FreshPairs(r, pairs)
    ensures AssignAll(r, pairs) == r + pairs
    decreases |pairs|
  {
    if pairs != [] {
      FreshStep(r, pairs);
      AssignAllFresh(r + [pairs[0]], pairs[1..]);
      ConcatStep(r, pairs);
    }
  }

  /** Building a dict from pairs whose keys are unique keeps every pair, in order. */
  lemma DictOfUnique<V>(pairs: seq<(string, V)>)
    requires UniqueKeys(pairs)
    ensures AssignAll([], pairs) == pairs
  {
    AssignAllFresh([], pairs);
  }

  /** The value the last pair with key `k` carries, if any. */
  function LastValue<V>(pairs: seq<(string, V)>, k: string): (res: Option<V>)
    ensures res.Some? <==> k in Keys(pairs)
  {
    if pairs == [] then None
    else
      match LastValue(pairs[1..], k)
      case Some(v) =>
        assert Keys(pairs) == [pairs[0].0] + Keys(pairs[1..]);
        Some(v)
      case None =>
        assert Keys(pairs) == [pairs[0].0] + Keys(pairs[1..]);
        if pairs[0].0 == k then Some(pairs[0].1) else None
  }

  /** The keys of `ks` that `existing` lacks, each once, in order of first appearance. */
  function NewKeys(ks: seq<string>, existing: seq<string>): seq<string>
  {
    if ks == [] then []
    else if ks[0] in existing then NewKeys(ks[1..], existing)
    else [ks[0]] + NewKeys(ks[1..], existing + [ks[0]])
  }

  /** Assigning pairs keeps the existing keys in place and appends the new ones in order of first appearance. */
  lemma {:induction false} AssignAllKeys<V>(r: seq<(string, V)>, pairs: seq<(string, V)>)
    ensures Keys(AssignAll(r, pairs)) == Keys(r) + NewKeys(Keys(pairs), Keys(r))
    decreases |pairs|
  {
    if pairs != [] {
      var (k0, v0) := pairs[0];
      var r' := Assign(r, k0, v0);
      AssignAllKeys(r', pairs[1..]);
      assert AssignAll(r, pairs) == AssignAll(r', pairs[1..]);
      NewKeysHead(pairs, Keys(r));
      if k0 !in Keys(r) {
        var rest := NewKeys(Keys(pairs[1..]), Keys(r) + [k0]);
        assert (Keys(r) + [k0]) + rest == Keys(r) + ([k0] + rest);
      }
    }
  }

  lemma NewKeysHead<V>(pairs: seq<(string, V)>, existing: seq<string>)
    requires pairs != []
    ensures pairs[0].0 in existing ==> NewKeys(Keys(pairs), existing) == NewKeys(Keys(pairs[1..]), existing)
    ensures pairs[0].0 !in existing ==>
              NewKeys(Keys(pairs), existing) == [pairs[0].0] + NewKeys(Keys(pairs[1..]), existing + [pairs[0].0])
  {
    KeysCons(pairs);
  }

  /** After the assignments, every assigned key reads back the last value given to it; every other key keeps its value. */
  lemma {:induction false} AssignAllLookup<V>(r: seq<(string, V)>, pairs: seq<(string, V)>, k: string)
    ensures Lookup(AssignAll(r, pairs), k) ==
              (match LastValue(pairs, k) case Some(v) => Some(v) case None => Lookup(r, k))
    decreases |pairs|
  {
    if pairs != [] {
      var (k0, v0) := pairs[0];
      AssignAllLookup(Assign(r, k0, v0), pairs[1..], k);
    }
  }

  /** In pairs with unique keys, the last value given to a key is its only value. */
  lemma {:induction false} LastValueUnique<V>(pairs: seq<(string, V)>, k: string)
    requires UniqueKeys(pairs)
    ensures LastValue(pairs, k) == Lookup(pairs, k)
    decreases |pairs|
  {
    if pairs != [] {
      var rest := pairs[1..];
      assert UniqueKeys(rest) by {
        forall i, j | 0 <= i < j < |rest| ensures rest[i].0 != rest[j].0 {
          assert rest[i] == pairs[i + 1] && rest[j] == pairs[j + 1];
        }
      }
      LastValueUnique(rest, k);
      if pairs[0].0 == k {
        assert k !in Keys(rest) by {
          forall j | 0 <= j < |rest| ensures Keys(rest)[j] != k {
            assert rest[j] == pairs[j + 1];
          }
        }
      } else {
        assert Lookup(pairs, k) == Lookup(rest, k);
      }
    }
  }

  /** Assigning pairs with unique keys: each of their keys reads back its own value, every other key is untouched. */
  lemma AssignAllUnique<V>(r: seq<(string, V)>, pairs: seq<(string, V)>, k: string)
    requires UniqueKeys(pairs)
    ensures k in Keys(pairs) ==> Lookup(AssignAll(r, pairs), k) == Lookup(pairs, k)
    ensures k !in Keys(pairs) ==> Lookup(AssignAll(r, pairs), k) == Lookup(r, k)
  {
    AssignAllLookup(r, pairs, k);
    LastValueUnique(pairs, k);
  }

  /**
   * What `for k, v in pairs: d[k] = v` promises when the pairs come from
   * a dict: every key of `pairs` reads back its value, every other pair
   * of `r` keeps its place and value, and the new keys follow the old
   * ones in the order of `pairs`.
   */
  lemma AssignAllColumns<V>(r: seq<(string, V)>, pairs: seq<(string, V)>)
    requires UniqueKeys(pairs)
    ensures forall i :: 0 <= i < |pairs| ==> Lookup(AssignAll(r, pairs), pairs[i].0) == Some(pairs[i].1)
    ensures forall i :: 0 <= i < |r| && r[i].0 !in Keys(pairs) ==>
              i < |AssignAll(r, pairs)| && AssignAll(r, pairs)[i] == r[i]
    ensures Keys(AssignAll(r, pairs)) == Keys(r) + NewKeys(Keys(pairs), Keys(r))
  {
    forall i | 0 <= i < |pairs| ensures Lookup(AssignAll(r, pairs), pairs[i].0) == Some(pairs[i].1) {
      IndexOfUnique(pairs, i);
      assert Keys(pairs)[i] == pairs[i].0;
      AssignAllUnique(r, pairs, pairs[i].0);
    }
    forall i | 0 <= i < |r| && r[i].0 !in Keys(pairs)
      ensures i < |AssignAll(r, pairs)| && AssignAll(r, pairs)[i] == r[i]
    {
      AssignAllKeepsOthers(r, pairs, i);
    }
    AssignAllKeys(r, pairs);
  }

  /** Assignments leave every pair whose key they do not name exactly where and what it was. */
  lemma {:induction false} AssignAllKeepsOthers<V>(r: seq<(string, V)>, pairs: seq<(string, V)>, i: nat)
    requires i < |r| && r[i].0 !in Keys(pairs)
    ensures i < |AssignAll(r, pairs)| && AssignAll(r, pairs)[i] == r[i]
    decreases |pairs|
  {
    if pairs != [] {
      var (k0, v0) := pairs[0];
      var r' := Assign(r, k0, v0);
      assert Keys(pairs) == [k0] + Keys(pairs[1..]);
      AssignKeepsOthers(r, k0, v0, i);
      AssignAllKeepsOthers(r', pairs[1..], i);
    }
  }

  /** Assigning key `k` changes no pair whose key is not `k`. */
  lemma AssignKeepsOthers<V>(r: seq<(string, V)>, k: string, v: V, i: nat)
    requires i < |r| && r[i].0 != k
    ensures i < |Assign(r, k, v)| && Assign(r, k, v)[i] == r[i]
  {
  }

  /** `r[..pos] + adds + r[pos..]`: `list.insert` applied to consecutive positions. */
  function InsertAt<V>(r: seq<(string, V)>, pos: nat, adds: seq<(string, V)>): (res: seq<(string, V)>)
    requires pos <= |r|
    ensures |res| == |r| + |adds|
  {
    r[..pos] + adds + r[pos..]
  }

  /** Every value passed through `f`, every key kept in place. */
  function MapValues(r: Record, f: Value -> Value): (res: Record)
    ensures |res| == |r|
    ensures forall i :: 0 <= i < |r| ==> res[i] == (r[i].0, f(r[i].1))
  {
    if r == [] then [] else [(r[0].0, f(r[0].1))] + MapValues(r[1..], f)
  }

  /** Mapping values never touches the keys. */
  lemma MapValuesKeys(r: Record, f: Value -> Value)
    ensures Keys(MapValues(r, f)) == Keys(r)
  {
  }

  /** One more entry of a left-to-right in-place pass over the values. */
  lemma MapValuesStep(r: Record, f: Value -> Value, i: nat)
    requires i < |r|
    ensures MapValues(r[..i + 1], f) + r[i + 1..]
         == (MapValues(r[..i], f) + r[i..])[i := (r[i].0, f(r[i].1))]
  {
    var a, b := MapValues(r[..i + 1], f), MapValues(r[..i], f);
    assert a == b + [(r[i].0, f(r[i].1))] by {
      forall j | 0 <= j < i ensures a[j] == b[j] {
        assert r[..i + 1][j] == r[..i][j];
      }
    }
    assert r[i..] == [r[i]] + r[i + 1..];
  }

  /** Looking a key up after mapping the values gives the mapped value. */
  lemma LookupMapValues(r: Record, f: Value -> Value, k: string)
    ensures Lookup(MapValues(r, f), k) == (match Lookup(r, k) case None => None case Some(v) => Some(f(v)))
  {
    MapValuesKeys(r, f);
    IndexOfSameKeys(MapValues(r, f), r, k);
  }

  /** A pass over every entry covers the whole record. */
  lemma MapValuesDone(r: Record, f: Value -> Value)
    ensures MapValues(r[..|r|], f) + r[|r|..] == MapValues(r, f)
  {
    assert r[..|r|] == r;
    assert r[|r|..] == [];
  }
}
