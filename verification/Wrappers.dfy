/** Optional values and error results shared by every module. */
module Wrappers {
  datatype Option<+T> = None | Some(value: T)

  datatype Result<+T, +E> = Success(value: T) | Failure(error: E)

  /** A numbered comprehension whose first failing element decides. */
  function Traverse<T, U, E>(s: seq<T>, f: (nat, T) -> Result<U, E>): (r: Result<seq<U>, E>)
    ensures r.Success? ==>
      |r.value| == |s| && forall i :: 0 <= i < |s| ==> f(i, s[i]) == Success(r.value[i])
    ensures r.Failure? ==>
      exists i :: 0 <= i < |s| && f(i, s[i]) == Failure(r.error)
                  && forall j :: 0 <= j < i ==> f(j, s[j]).Success?
  {
    if s == [] then Success([])
    else
      var last := |s| - 1;
      var before := Traverse(s[..last], f);
      if before.Failure? then
        assert s[..last] <= s;
        Failure(before.error)
      else
        match f(last, s[last])
        case Failure(e) => Failure(e)
        case Success(u) => Success(before.value + [u])
  }

  /** The last element that meets a test: what a dictionary filled in order answers. */
  function LastWith<T>(s: seq<T>, p: T -> bool): (r: Option<T>)
    ensures r.Some? ==> r.value in s && p(r.value)
    ensures r.None? ==> forall i :: 0 <= i < |s| ==> !p(s[i])
  {
    if s == [] then None
    else
      var last := s[|s| - 1];
      if p(last) then Some(last) else LastWith(s[..|s| - 1], p)
  }
}
