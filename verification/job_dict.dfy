/**
 * The mutable Python dict a job record lives in. The parsers receive it
 * and change it in place, so it is a class whose `items` field is the
 * ordered content.
 */
module JobDicts {
  import opened Wrappers
  import opened PyValues
  import opened Records

  class JobDict {
    var items: Record

    /** A dict never holds the same key twice. */
    ghost predicate Valid()
      reads this
    {
      UniqueKeys(items)
    }

    /** `{}` */
    constructor ()
      ensures Valid() && items == []
    {
      items := [];
    }

    /** `d[key]`: the value, or KeyError when the key is absent. */
    method Get(key: string) returns (r: Result<Value, PyError>)
      ensures r.Success? <==> key in Keys(items)
      ensures r.Success? ==> Lookup(items, key) == Some(r.value)
      ensures r.Failure? ==> r.error == KeyError(key)
    {
      match Lookup(items, key)
      case None => r := Failure(KeyError(key));
      case Some(v) => r := Success(v);
    }

    /** `d[key] = value` */
    method Set(key: string, value: Value)
      requires Valid()
      modifies this
      ensures Valid() && items == Assign(old(items), key, value)
    {
      items := Assign(items, key, value);
    }

    /** `del d[key]`: KeyError when the key is absent, and then nothing changes. */
    method Delete(key: string) returns (err: Option<PyError>)
      requires Valid()
      modifies this
      ensures Valid() && items == Remove(old(items), key)
      ensures err.Some? <==> key !in Keys(old(items))
      ensures err.Some? ==> err.value == KeyError(key)
    {
      if key in Keys(items) {
        items := Remove(items, key);
        err := None;
      } else {
        err := Some(KeyError(key));
      }
    }

    /** `d.clear()` */
    method Clear()
      modifies this
      ensures Valid() && items == []
    {
      items := [];
    }

    /** `d.update(pairs)`: each pair assigned in turn. */
    method Update(pairs: seq<(string, Value)>)
      requires Valid()
      modifies this
      ensures Valid() && items == AssignAll(old(items), pairs)
    {
      var i := 0;
      while i < |pairs|
        invariant 0 <= i <= |pairs|
        invariant Valid()
        invariant AssignAll(old(items), pairs) == AssignAll(items, pairs[i..])
      {
        assert pairs[i..][1..] == pairs[i + 1..];
        Set(pairs[i].0, pairs[i].1);
        i := i + 1;
      }
    }
  }

  /**
   * Where a sequence of in-place steps leaves a dict: its content, and
   * the exception that stopped the sequence, if any. A step that raises
   * leaves the earlier steps' changes in place.
   */
  datatype Outcome = Outcome(rec: Record, raised: Option<PyError>)

  /** In a dict with unique keys, assigning the key found at `i` rewrites that pair alone. */
  lemma AssignAtIndex(r: Record, i: nat, v: Value)
    requires UniqueKeys(r) && i < |r|
    ensures Assign(r, r[i].0, v) == r[i := (r[i].0, v)]
  {
    IndexOfUnique(r, i);
  }

  /**
   * How one parser call leaves the dict it was given: when the step's
   * specification succeeds the dict holds its result and nothing was
   * raised; when it fails the error was raised and the dict is untouched.
   */
  predicate Applied(spec: Result<Record, PyError>, before: Record, after: Record, err: Option<PyError>)
  {
    match spec
    case Success(r) => err.None? && after == r
    case Failure(e) => err == Some(e) && after == before
  }
}
