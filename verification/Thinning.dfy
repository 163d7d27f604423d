/**
 Lists that keep some elements of another list: those that pass a test, in their order, and nothing
 else.
 */
module Thinning {
  import opened Options

  /** The positions of what is kept: all of them and no other, in order. */
  function Kept<T>(s: seq<T>, keep: T -> bool): (at: seq<nat>)
    ensures forall j | 0 <= j < |at| :: at[j] < |s| && keep(s[at[j]])
    ensures forall i, j | 0 <= i < j < |at| :: at[i] < at[j]
    ensures forall i | 0 <= i < |s| && keep(s[i]) :: i in at
  {
    if s == [] then []
    else
      var k := |s| - 1;
      var done := Kept(s[..k], keep);
      assert forall i | 0 <= i < k && keep(s[i]) :: s[..k][i] == s[i];
      if keep(s[k]) then done + [k] else done
  }

  ghost predicate Thins<T>(s: seq<T>, out: seq<T>, keep: T -> bool) {
    |out| == |Kept(s, keep)| && forall j | 0 <= j < |out| :: out[j] == s[Kept(s, keep)[j]]
  }

  /** The same, where each element that is kept may be changed on the way. */
  ghost predicate ThinsTo<T, U>(s: seq<T>, out: seq<U>, keep: T -> bool, becomes: (T, U) -> bool) {
    |out| == |Kept(s, keep)| && forall j | 0 <= j < |out| :: becomes(s[Kept(s, keep)[j]], out[j])
  }

  lemma ThinsMore<T>(s: seq<T>, done: seq<T>, out: seq<T>, keep: T -> bool)
    requires s != [] && Thins(s[..|s| - 1], done, keep)
    requires out == if keep(s[|s| - 1]) then done + [s[|s| - 1]] else done
    ensures Thins(s, out, keep)
  {
  }

  lemma ThinsToMore<T, U>(s: seq<T>, done: seq<U>, out: seq<U>, keep: T -> bool, becomes: (T, U) -> bool)
    requires s != [] && ThinsTo(s[..|s| - 1], done, keep, becomes)
    requires keep(s[|s| - 1]) ==> |out| == |done| + 1 && out[..|done|] == done && becomes(s[|s| - 1], out[|done|])
    requires !keep(s[|s| - 1]) ==> out == done
    ensures ThinsTo(s, out, keep, becomes)
  {
    var k := |s| - 1;
    forall j | 0 <= j < |out|
      ensures becomes(s[Kept(s, keep)[j]], out[j])
    {
      if j < |done| {
        assert out[..|done|][j] == out[j];
      }
    }
  }

  /** So what is kept is exactly what passes. */
  lemma ThinsIn<T>(s: seq<T>, out: seq<T>, keep: T -> bool)
    requires Thins(s, out, keep)
    ensures forall x :: x in out <==> x in s && keep(x)
  {
    forall x | x in s && keep(x)
      ensures x in out
    {
      var i :| 0 <= i < |s| && s[i] == x;
      assert i in Kept(s, keep);
      var j :| 0 <= j < |out| && Kept(s, keep)[j] == i;
      assert out[j] == x;
    }
  }

  /** The first element that passes, if there is one. */
  function First<T>(s: seq<T>, test: T -> bool): (r: Option<T>)
    ensures r.Some? ==> exists i | 0 <= i < |s| :: s[i] == r.value && test(s[i]) && forall j | 0 <= j < i :: !test(s[j])
    ensures r.None? ==> forall i | 0 <= i < |s| :: !test(s[i])
  {
    if s == [] then None
    else
      var done := First(s[..|s| - 1], test);
      assert forall i | 0 <= i < |s| - 1 :: s[..|s| - 1][i] == s[i];
      if done.Some? then done else if test(s[|s| - 1]) then Some(s[|s| - 1]) else None
  }

  lemma {:induction false} FirstOfMore<T>(s: seq<T>, test: T -> bool)
    requires s != []
    ensures First(s, test) == if test(s[0]) then Some(s[0]) else First(s[1..], test)
  {
    var k := |s| - 1;
    if k > 0 {
      FirstOfMore(s[..k], test);
      assert s[..k][1..] == s[1..][..k - 1];
    }
  }
}
