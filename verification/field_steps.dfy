/**
 * The two single-column rewrites the parsers share: "if the value is
 * not NA, remove a token and strip whitespace" (revenue, employees,
 * company name) and "store the truth value of the column" (easy apply).
 * Each is specified on the record; the per-file modules perform it on a
 * `JobDict`.
 */
module FieldSteps {
  import opened Wrappers
  import opened PyValues
  import opened Records
  import opened Text
  import opened JobDicts

  /**
   * Python `v.replace(token, "").strip()`: AttributeError when `v` is not
   * a string (ints, lists and bools have no `replace`), TypeError when the
   * token is not a string.
   */
  function ReplaceStrip(v: Value, token: Value): (res: Result<Value, PyError>)
    ensures res.Success? <==> v.Str? && token.Str?
    ensures !v.Str? ==> res == Failure(AttributeError)
    ensures v.Str? && !token.Str? ==> res == Failure(TypeError)
    ensures res.Success? ==> res.value == Str(Strip(Replace(v.s, token.s, [])))
  {
    if !v.Str? then Failure(AttributeError)
    else if !token.Str? then Failure(TypeError)
    else Success(Str(Strip(Replace(v.s, token.s, []))))
  }

  /**
   * `if d[key] != NA: d[key] = d[key].replace(token, "").strip()`:
   * KeyError when the column is missing; an NA value is left alone.
   */
  function CleanField(r: Record, key: string, token: Value): (res: Result<Record, PyError>)
    ensures res == Failure(KeyError(key)) <==> key !in Keys(r)
    ensures res.Failure? ==> res.error == KeyError(key) || res.error == AttributeError || res.error == TypeError
    ensures res.Success? ==> Keys(res.value) == Keys(r)
    ensures res.Success? ==> forall k :: k != key ==> Lookup(res.value, k) == Lookup(r, k)
    ensures res.Success? ==> key in Keys(r) && var v := Lookup(r, key).value;
              (EqualsNA(v) ==> res.value == r)
              && (!EqualsNA(v) ==>
                    v.Str? && token.Str? && Lookup(res.value, key) == Some(Str(Strip(Replace(v.s, token.s, [])))))
  {
    match Lookup(r, key)
    case None => Failure(KeyError(key))
    case Some(v) =>
      if EqualsNA(v) then Success(r)
      else
        match ReplaceStrip(v, token)
        case Failure(e) => Failure(e)
        case Success(w) => Success(Assign(r, key, w))
  }

  /** An NA column (or one equal to -1) passes through untouched. */
  lemma CleanFieldKeepsNA(r: Record, key: string, token: Value)
    requires Lookup(r, key).Some? && EqualsNA(Lookup(r, key).value)
    ensures CleanField(r, key, token) == Success(r)
  {
  }

  /**
   * A present column that is not NA succeeds exactly when it and the
   * token are strings, and then holds a string with no whitespace at
   * either end.
   */
  lemma CleanFieldResult(r: Record, key: string, token: Value)
    requires Lookup(r, key).Some? && !EqualsNA(Lookup(r, key).value)
    ensures CleanField(r, key, token).Success? <==> Lookup(r, key).value.Str? && token.Str?
    ensures !Lookup(r, key).value.Str? ==> CleanField(r, key, token) == Failure(AttributeError)
    ensures Lookup(r, key).value.Str? && !token.Str? ==> CleanField(r, key, token) == Failure(TypeError)
    ensures CleanField(r, key, token).Success? ==>
              var w := Lookup(CleanField(r, key, token).value, key).value;
              w.Str? && (w.s == [] || (!IsSpace(w.s[0]) && !IsSpace(w.s[|w.s| - 1])))
  {
    var v := Lookup(r, key).value;
    if v.Str? && token.Str? {
      StripSpec(Replace(v.s, token.s, []));
    }
  }

  /**
   * A value that is some text, then the token once, then nothing (such
   * as "$1 to $5 billion (USD)" or "51 to 200 Employees") is cleaned to
   * the stripped text alone.
   */
  lemma TrailingTokenRemoved(a: string, token: string)
    requires token != []
    requires forall k :: 0 <= k < |a| ==> !OccursAt(a + token, token, k)
    ensures Strip(Replace(a + token, token, [])) == Strip(a)
  {
    assert a + token + [] == a + token;
    assert !Contains([], token) by {
      NotContains([], token);
    }
    ReplaceSingle(a, token, [], []);
    assert a + [] + [] == a;
  }

  /** `d[key] = bool(d[key])`: KeyError when the column is missing. */
  function BoolField(r: Record, key: string): (res: Result<Record, PyError>)
    ensures res.Failure? <==> key !in Keys(r)
    ensures res.Failure? ==> res.error == KeyError(key)
    ensures res.Success? ==> Keys(res.value) == Keys(r)
    ensures res.Success? ==> Lookup(res.value, key) == Some(Bool(Truthy(Lookup(r, key).value)))
    ensures res.Success? ==> forall k :: k != key ==> Lookup(res.value, k) == Lookup(r, k)
  {
    match Lookup(r, key)
    case None => Failure(KeyError(key))
    case Some(v) => Success(Assign(r, key, Bool(Truthy(v))))
  }

  /** The bool step turns NA, non-empty text and lists into True and empty text into False. */
  lemma BoolFieldValues(r: Record, key: string)
    requires key in Keys(r)
    ensures Lookup(r, key) == Some(NA) ==> Lookup(BoolField(r, key).value, key) == Some(Bool(true))
    ensures Lookup(r, key) == Some(Str([])) ==> Lookup(BoolField(r, key).value, key) == Some(Bool(false))
    ensures (exists s :: Lookup(r, key) == Some(Str(s)) && s != []) ==>
              Lookup(BoolField(r, key).value, key) == Some(Bool(true))
  {
  }

  /** Running the bool step twice is the same as once. */
  lemma BoolFieldIdempotent(r: Record, key: string)
    requires key in Keys(r)
    ensures BoolField(BoolField(r, key).value, key) == BoolField(r, key)
  {
    var once := BoolField(r, key).value;
    var b := Truthy(Lookup(r, key).value);
    assert Lookup(once, key) == Some(Bool(b));
    assert Truthy(Bool(b)) == b;
    AssignSame(once, key, Bool(b));
    assert BoolField(once, key) == Success(once);
  }

  /** The in-place form of `CleanField`, on a live dict. */
  method CleanColumn(job: JobDict, key: string, token: Value) returns (err: Option<PyError>)
    requires job.Valid()
    modifies job
    ensures job.Valid() && Applied(CleanField(old(job.items), key, token), old(job.items), job.items, err)
  {
    var current := job.Get(key);
    if current.Failure? {
      return Some(current.error);
    }
    if !EqualsNA(current.value) {
      match ReplaceStrip(current.value, token)
      case Failure(e) =>
        return Some(e);
      case Success(w) =>
        job.Set(key, w);
    }
    err := None;
  }

  /** The in-place form of `BoolField`. */
  method BoolColumn(job: JobDict, key: string) returns (err: Option<PyError>)
    requires job.Valid()
    modifies job
    ensures job.Valid() && Applied(BoolField(old(job.items), key), old(job.items), job.items, err)
  {
    var current := job.Get(key);
    if current.Failure? {
      return Some(current.error);
    }
    job.Set(key, Bool(Truthy(current.value)));
    err := None;
  }
}
