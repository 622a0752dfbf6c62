/** Small sequence helpers shared by the ranking and the selection: the
    JavaScript `Array.prototype.find` searches and the position they take. */
module Seqs {

  datatype Option<+T> = None | Some(value: T)

  /** Position of the first element of `s` satisfying `f`, or `|s|` when no
      element does: the position `Find` takes. */
  function IndexWhere<T>(s: seq<T>, f: T -> bool): (r: nat)
    ensures r <= |s|
    ensures r < |s| ==> f(s[r])
    ensures forall k :: 0 <= k < r ==> !f(s[k])
  {
    if s == [] then 0
    else if f(s[0]) then 0
    else 1 + IndexWhere(s[1..], f)
  }

  /** The first element of `s` satisfying `f` (`Array.prototype.find`);
      `None` plays the part of `undefined`. */
  function Find<T>(s: seq<T>, f: T -> bool): (r: Option<T>)
    ensures r.None? <==> forall k :: 0 <= k < |s| ==> !f(s[k])
    ensures r.Some? ==> f(r.value)
    ensures r.Some? ==> exists k :: 0 <= k < |s| && s[k] == r.value && forall j :: 0 <= j < k ==> !f(s[j])
  {
    var i := IndexWhere(s, f);
    if i < |s| then Some(s[i]) else None
  }
}
