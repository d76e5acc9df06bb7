/**
 * Shared vocabulary: optional values, calls that may throw, and JavaScript
 * plain objects with string keys modelled as association lists in insertion
 * order.
 */
module Common {

  datatype Option<T> = None | Some(value: T)

  /** The outcome of a call that may throw an exception. */
  datatype Attempt<T> = Threw | Done(value: T)

  /** A status line `{ message, type }`; `kind` is "info", "success", "error" or "". */
  datatype Status = Status(message: string, kind: string)

  /** No key occurs twice: the shape of a JavaScript object's own entries. */
  predicate DistinctKeys<V>(e: seq<(string, V)>) {
    forall i, j :: 0 <= i < j < |e| ==> e[i].0 != e[j].0
  }

  /** An object with string values, such as `metadataFields`. */
  type Fields = f: seq<(string, string)> | DistinctKeys(f)

  /** `Object.keys(e)`. */
  function KeysOf<V>(e: seq<(string, V)>): seq<string> {
    seq(|e|, i requires 0 <= i < |e| => e[i].0)
  }

  /** `Object.values(e)`. */
  function ValuesOf<V>(e: seq<(string, V)>): seq<V> {
    seq(|e|, i requires 0 <= i < |e| => e[i].1)
  }

  /** `e[k]`, `None` standing for `undefined`. */
  function Lookup<V>(e: seq<(string, V)>, k: string): Option<V> {
    if e == [] then None
    else if e[0].0 == k then Some(e[0].1)
    else Lookup(e[1..], k)
  }

  /** `e[k]` is undefined exactly when `k` is not a key, and otherwise holds a value stored under `k`. */
  lemma {:induction false} LookupFinds<V>(e: seq<(string, V)>, k: string)
    ensures Lookup(e, k).None? <==> k !in KeysOf(e)
    ensures Lookup(e, k).Some? ==> exists i :: 0 <= i < |e| && e[i] == (k, Lookup(e, k).value)
  {
    if e == [] {
    } else if e[0].0 == k {
      assert KeysOf(e)[0] == k;
    } else {
      LookupFinds(e[1..], k);
      assert KeysOf(e) == [e[0].0] + KeysOf(e[1..]);
      var r := Lookup(e[1..], k);
      if r.Some? {
        var i :| 0 <= i < |e[1..]| && e[1..][i] == (k, r.value);
        assert e[i + 1] == (k, r.value);
      }
    }
  }

  /** In an object with distinct keys, each entry's key looks up that entry's value. */
  lemma {:induction false} LookupAt<V>(e: seq<(string, V)>, i: nat)
    requires DistinctKeys(e) && i < |e|
    ensures Lookup(e, e[i].0) == Some(e[i].1)
    decreases i
  {
    if i > 0 {
      var t := e[1..];
      assert forall a, b :: 0 <= a < b < |t| ==> t[a].0 == e[a + 1].0 && t[b].0 == e[b + 1].0;
      assert t[i - 1] == e[i];
      LookupAt(t, i - 1);
    }
  }
}
