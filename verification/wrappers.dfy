/** How update.py's partial steps are modelled: a missing dict entry is
    `None`, a raised exception is `Err` carrying one of the `Error` kinds below,
    and `:-` stands for letting the exception propagate. */
module Wrappers {

  /** A field of a build dict that may not have been written yet. */
  datatype Option<+T> = None | Some(value: T) {

    // The three members `:-` needs: an absent value stops the expression.
    predicate IsFailure() {
      None?
    }

    function PropagateFailure<U>(): Option<U>
      requires None?
    {
      None
    }

    function Extract(): T
      requires Some?
    {
      value
    }

    /** The value, or `default` when there is none (Python's `dict.get(k, default)`). */
    function GetOr(default: T): T {
      match this
      case Some(v) => v
      case None => default
    }

    /** The lookup `d[k]` that raises `error` when the entry is absent. */
    function ToResult<E>(error: E): Result<T, E> {
      match this
      case Some(v) => Ok(v)
      case None => Err(error)
    }
  }

  /** A step that either yields a value or raises. */
  datatype Result<+R, +E> = Ok(value: R) | Err(error: E) {

    // An exception propagates through `:-` unchanged.
    predicate IsFailure() {
      Err?
    }

    function PropagateFailure<U>(): Result<U, E>
      requires Err?
    {
      Err(error)
    }

    function Extract(): R
      requires Ok?
    {
      value
    }
  }

  /** The exceptions `update.py` can raise while it assembles builds and groups them. */
  datatype Error =
    | FetchFailed(url: string)        // urlopen of a properties or checksum file failed
    | MalformedLine(line: string)     // dict() got a line that did not split into two parts
    | InvalidVersion(text: string)    // version.parse rejected the version token
    | InvalidInt(text: string)        // int() rejected ro.build.date.utc
    | BadTimestamp(text: string)      // strptime rejected an asset's updated_at
    | MissingField(field: string)     // KeyError on a build dict

  /** `m.get(k, default)` */
  function Get<K, V>(m: map<K, V>, k: K, default: V): V {
    if k in m then m[k] else default
  }

  /** Every element of `s` satisfies `p`; defined from the last element, as the
      folds that use it are. */
  predicate All<T>(s: seq<T>, p: T -> bool) {
    s == [] || (All(s[..|s| - 1], p) && p(s[|s| - 1]))
  }

  lemma {:induction false} AllEach<T>(s: seq<T>, p: T -> bool)
    ensures All(s, p) <==> forall i :: 0 <= i < |s| ==> p(s[i])
  {
    if s != [] {
      var init := s[..|s| - 1];
      AllEach(init, p);
      assert forall i :: 0 <= i < |init| ==> init[i] == s[i];
    }
  }

  /** Applies a step that may fail to every element in order; the first
      failure aborts. */
  function Traverse<T, U, E>(s: seq<T>, f: T -> Result<U, E>): (r: Result<seq<U>, E>)
    ensures r.Ok? <==> forall i :: 0 <= i < |s| ==> f(s[i]).Ok?
    ensures r.Ok? ==> |r.value| == |s| && forall i :: 0 <= i < |s| ==> f(s[i]) == Ok(r.value[i])
    ensures r.Err? ==> exists i :: 0 <= i < |s| && f(s[i]) == Err(r.error)
  {
    if s == [] then Ok([])
    else
      var x :- f(s[0]);
      var rest :- Traverse(s[1..], f);
      assert forall i :: 1 <= i < |s| ==> s[i] == s[1..][i - 1];
      Ok([x] + rest)
  }
}
