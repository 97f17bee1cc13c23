/** The System.Linq operators the engine and the builders rely on. */
module Enumerable {
  import opened Errors

  /** `source.Any(p)`: some element satisfies `p`. */
  function Any<T>(s: seq<T>, p: T -> bool): (r: bool)
    ensures r <==> exists i :: 0 <= i < |s| && p(s[i])
  {
    if |s| == 0 then false
    else
      var rest := Any(s[1..], p);
      assert rest <==> exists i :: 1 <= i < |s| && p(s[i]) by {
        forall i | 1 <= i < |s| ensures s[i] == s[1..][i - 1] { }
        forall i | 0 <= i < |s| - 1 ensures s[1..][i] == s[i + 1] { }
      }
      p(s[0]) || rest
  }

  /** `source.First()`: the head, or `NoElements` on an empty sequence. */
  function First<T>(s: seq<T>): (r: Result<T>)
    ensures r.Ok? <==> |s| > 0
    ensures r.Ok? ==> s == [r.value] + s[1..]
    ensures r.Err? ==> r.error == NoElements
  {
    if |s| == 0 then Err(NoElements) else Ok(s[0])
  }

  /** `source.Single()`: the one element of a one-element sequence; an
      empty sequence and a longer one throw different exceptions. */
  function Single<T>(s: seq<T>): (r: Result<T>)
    ensures r.Ok? <==> |s| == 1
    ensures r.Ok? ==> s == [r.value]
    ensures |s| == 0 ==> r == Err(NoElements)
    ensures |s| > 1 ==> r == Err(MoreThanOneElement)
  {
    if |s| == 0 then Err(NoElements)
    else if |s| > 1 then Err(MoreThanOneElement)
    else Ok(s[0])
  }

  /** `Single()` succeeds only where `First()` does, and then agrees with it. */
  lemma SingleRefinesFirst<T>(s: seq<T>)
    ensures Single(s).Ok? ==> First(s) == Single(s)
    ensures First(s).Err? ==> Single(s) == First(s)
  {
  }
}
