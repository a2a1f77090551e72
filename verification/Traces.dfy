// Something that steps of a run take away and give back: whether it is there at the end.
module Traces {
  // has[k] says whether it is there before step k, takes[k] and gives[k] what step k does to it.
  ghost predicate Tracks(has: seq<bool>, takes: seq<bool>, gives: seq<bool>) {
    && |takes| == |gives| && |has| == |takes| + 1
    && forall k :: 0 <= k < |takes| ==> (!has[k + 1] <==> takes[k] || (!has[k] && !gives[k]))
  }

  // Some step takes it away and no later one gives it back.
  ghost predicate TakenForGood(takes: seq<bool>, gives: seq<bool>) {
    exists k :: 0 <= k < |takes| && takes[k] && forall j :: k < j < |gives| ==> !gives[j]
  }

  lemma {:induction false} AbsentAtEndIff(has: seq<bool>, takes: seq<bool>, gives: seq<bool>)
    requires Tracks(has, takes, gives)
    ensures !has[|takes|] <==>
            TakenForGood(takes, gives) || (!has[0] && forall j :: 0 <= j < |gives| ==> !gives[j])
    decreases |takes|
  {
    if |takes| > 0 {
      var n := |takes| - 1;
      AbsentAtEndIff(has[..n + 1], takes[..n], gives[..n]);
      assert !has[n + 1] <==> takes[n] || (!has[n] && !gives[n]);
      if !has[n + 1] && !takes[n] {
        if TakenForGood(takes[..n], gives[..n]) {
          var k :| 0 <= k < n && takes[..n][k] && forall j :: k < j < n ==> !gives[..n][j];
          assert takes[k] && forall j :: k < j < |gives| ==> j == n || !gives[..n][j];
        } else {
          assert forall j :: 0 <= j < n ==> !gives[..n][j];
        }
      }
      if TakenForGood(takes, gives) && !takes[n] {
        var k :| 0 <= k < |takes| && takes[k] && forall j :: k < j < |gives| ==> !gives[j];
        assert takes[..n][k];
      }
    }
  }
}
