/** Optional values, and the search that most often yields one. */
module Options {

  datatype Option<+T> = None | Some(value: T) {
    function GetOr(default: T): T {
      match this
      case Some(v) => v
      case None => default
    }
  }

  /** The first element with the wanted key. */
  function FirstKeyed<T>(s: seq<T>, key: T -> string, wanted: string): (r: Option<T>)
    ensures r.Some? ==> r.value in s && key(r.value) == wanted
    ensures r.None? <==> forall x :: x in s ==> key(x) != wanted
  {
    if s == [] then None
    else if key(s[0]) == wanted then Some(s[0])
    else FirstKeyed(s[1..], key, wanted)
  }

  /** Where keys are unique, an element is the first with its key. */
  lemma {:induction false} FirstIsOnly<T>(s: seq<T>, key: T -> string, x: T)
    requires x in s && forall i, j :: 0 <= i < j < |s| ==> key(s[i]) != key(s[j])
    ensures FirstKeyed(s, key, key(x)) == Some(x)
  {
    if s[0] != x {
      assert x in s[1..];
      FirstIsOnly(s[1..], key, x);
    }
  }
}
