/** Sequence vocabulary shared by the models. */
module Lists {

  datatype Option<+T> = None | Some(value: T)

  datatype Result<+T, +E> = Ok(value: T) | Err(error: E)

  predicate Distinct<T(==)>(s: seq<T>) {
    forall i, j :: 0 <= i < j < |s| ==> s[i] != s[j]
  }

  /** Everything but the last element; the loops of the models walk their lists from the front. */
  function Front<T>(s: seq<T>): seq<T>
    requires s != []
  {
    s[..|s| - 1]
  }

  function Last<T>(s: seq<T>): T
    requires s != []
  {
    s[|s| - 1]
  }

  lemma TakeStep<T>(s: seq<T>, i: nat)
    requires i < |s|
    ensures s[..i + 1] != [] && Front(s[..i + 1]) == s[..i] && Last(s[..i + 1]) == s[i]
    ensures s[..i + 1] == s[..i] + [s[i]]
  {
  }

  lemma DistinctFront<T>(s: seq<T>)
    requires s != []
    ensures Distinct(s) <==> Distinct(Front(s)) && Last(s) !in Front(s)
  {
    var front := Front(s);
    assert forall i :: 0 <= i < |front| ==> front[i] == s[i];
    if Distinct(front) && Last(s) !in front {
      forall i, j | 0 <= i < j < |s| ensures s[i] != s[j] {
        assert s[i] == front[i] && front[i] in front;
      }
    }
  }

  lemma TakeAll<T>(s: seq<T>)
    ensures s[..|s|] == s
  {
  }

  /** A list without repetitions is as long as its set of elements. */
  lemma {:induction false} DistinctCardinality<T>(s: seq<T>)
    ensures |set x | x in s| <= |s|
    ensures Distinct(s) <==> |set x | x in s| == |s|
  {
    if s != [] {
      DistinctCardinality(Front(s));
      DistinctFront(s);
      ElementsOf(s);
    }
  }

  lemma ElementsOf<T>(s: seq<T>)
    requires s != []
    ensures (set x | x in s) == (set x | x in Front(s)) + {Last(s)}
  {
    assert s == Front(s) + [Last(s)];
  }
}
