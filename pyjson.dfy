/**
 * A decoded JSON document as Python sees it after `json.loads`, and the
 * three Python operations extract_transcript applies to it: the `in` test,
 * subscripting with `[...]`, and iterating in a generator. Each either
 * yields a value or raises one of the exceptions below.
 */
module PyJson {
  import opened Wrappers
  import PyStr

  /** JSON objects become dicts with string keys, arrays become lists. */
  datatype Json =
    | JNull
    | JBool(b: bool)
    | JNum(n: real)
    | JStr(s: string)
    | JArr(items: seq<Json>)
    | JObj(fields: map<string, Json>)

  /** The Python exception classes these operations can raise. */
  datatype Fault = KeyError | IndexError | TypeError

  /** What goes inside `[...]`: a string key or a non-negative position. */
  datatype Index = Key(name: string) | Position(i: nat)

  /** Python's `key in container` for a string `key`. */
  function Contains(container: Json, key: string): Result<bool, Fault>
  {
    match container
    case JObj(m) => Success(key in m)
    case JArr(xs) => Success(JStr(key) in xs)
    case JStr(s) => Success(PyStr.HasSubstring(s, key))
    case _ => Failure(TypeError)
  }

  /** `in` is a key test on a dict, a membership test on a list, a substring
      test on a string, and raises TypeError on anything else. */
  lemma ContainsMeaning(container: Json, key: string)
    ensures container.JObj? ==> Contains(container, key) == Success(key in container.fields)
    ensures container.JArr? ==> Contains(container, key) == Success(JStr(key) in container.items)
    ensures container.JStr? ==>
              Contains(container, key).Success?
              && (Contains(container, key).value <==>
                    exists i :: 0 <= i <= |container.s| && key <= container.s[i..])
    ensures !(container.JObj? || container.JArr? || container.JStr?) ==>
              Contains(container, key) == Failure(TypeError)
  {
    if container.JStr? {
      PyStr.HasSubstringIff(container.s, key);
    }
  }

  /** Python's `v[ix]`. Dict keys are strings, so an integer subscript on a
      dict misses; a string subscripted by a position gives a one-character string. */
  function Subscript(v: Json, ix: Index): Result<Json, Fault>
  {
    match v
    case JObj(m) =>
      (match ix
       case Key(k) => if k in m then Success(m[k]) else Failure(KeyError)
       case Position(_) => Failure(KeyError))
    case JArr(xs) =>
      (match ix
       case Position(i) => if i < |xs| then Success(xs[i]) else Failure(IndexError)
       case Key(_) => Failure(TypeError))
    case JStr(s) =>
      (match ix
       case Position(i) => if i < |s| then Success(JStr([s[i]])) else Failure(IndexError)
       case Key(_) => Failure(TypeError))
    case _ => Failure(TypeError)
  }

  /** `[x[key] for x in xs]`, stopping at the first element that raises. */
  function SubscriptAll(xs: seq<Json>, key: string): (r: Result<seq<Json>, Fault>)
    ensures r.Success? <==> forall k :: 0 <= k < |xs| ==> Subscript(xs[k], Key(key)).Success?
    ensures r.Success? ==>
              |r.value| == |xs| && forall k :: 0 <= k < |xs| ==> r.value[k] == Subscript(xs[k], Key(key)).value
    ensures r.Failure? ==>
              exists k :: 0 <= k < |xs| && Subscript(xs[k], Key(key)) == Failure(r.error)
                && forall j :: 0 <= j < k ==> Subscript(xs[j], Key(key)).Success?
    decreases |xs|
  {
    if xs == [] then Success([])
    else
      var v :- Subscript(xs[0], Key(key));
      var rest :- SubscriptAll(xs[1..], key);
      Success([v] + rest)
  }

  /** The items `str.join` accepts: every one must be a string. */
  function Strings(vs: seq<Json>): (r: Result<seq<string>, Fault>)
    ensures r.Success? <==> forall k :: 0 <= k < |vs| ==> vs[k].JStr?
    ensures r.Success? ==> |r.value| == |vs| && forall k :: 0 <= k < |vs| ==> vs[k] == JStr(r.value[k])
    ensures r.Failure? ==> r.error == TypeError
    decreases |vs|
  {
    if vs == [] then Success([])
    else if vs[0].JStr? then
      var rest :- Strings(vs[1..]);
      Success([vs[0].s] + rest)
    else Failure(TypeError)
  }
}
