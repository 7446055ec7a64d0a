/** Running effectful stages one after another, in order or reversed, with an early exit. */
module Functions {

  /** A stage is ready, has to be retried later, or failed. */
  datatype Outcome = Ready | NotReady | Error

  /** Runs stages over a state until one is not ready. */
  function RunInOrder<S>(stages: seq<S -> (S, Outcome)>, s: S): (S, Outcome) {
    if stages == [] then (s, Ready) else
    var r := stages[0](s);
    if r.1 != Ready then r else RunInOrder(stages[1..], r.0)
  }

  function Reversed<T>(xs: seq<T>): (r: seq<T>)
    ensures |r| == |xs| && forall k :: 0 <= k < |xs| ==> r[k] == xs[|xs| - 1 - k]
  {
    if xs == [] then [] else [xs[|xs| - 1]] + Reversed(xs[..|xs| - 1])
  }

  function RunSequentially<S>(inOrder: bool, stages: seq<S -> (S, Outcome)>, s: S): (S, Outcome) {
    RunInOrder(if inOrder then stages else Reversed(stages), s)
  }

  /** The state after the first k stages, each run from where the one before it ended. */
  function RunUpTo<S>(stages: seq<S -> (S, Outcome)>, s: S, k: nat): S
    requires k <= |stages|
  {
    if k == 0 then s else RunUpTo(stages[1..], stages[0](s).0, k - 1)
  }

  /** The index of the first stage that is not ready, or the number of stages. */
  function FirstUnready<S>(stages: seq<S -> (S, Outcome)>, s: S): (k: nat)
    ensures k <= |stages|
  {
    if stages == [] || stages[0](s).1 != Ready then 0 else 1 + FirstUnready(stages[1..], stages[0](s).0)
  }

  /**
   * Any number of stages: those before the first one that is not ready ran, each from where the one before it ended, and
   * none after it.  That stage's outcome is the outcome of the run.
   */
  lemma {:induction false} RunStopsAtFirstUnready<S>(stages: seq<S -> (S, Outcome)>, s: S)
    ensures var k := FirstUnready(stages, s);
            && (forall i :: 0 <= i < k ==> stages[i](RunUpTo(stages, s, i)).1 == Ready)
            && (k < |stages| ==> stages[k](RunUpTo(stages, s, k)).1 != Ready)
            && RunInOrder(stages, s) == if k < |stages| then stages[k](RunUpTo(stages, s, k)) else (RunUpTo(stages, s, k), Ready)
  {
    if stages != [] && stages[0](s).1 == Ready {
      var k := FirstUnready(stages, s);
      RunStopsAtFirstUnready(stages[1..], stages[0](s).0);
      forall i | 0 <= i < k
        ensures stages[i](RunUpTo(stages, s, i)).1 == Ready
      {
        if i > 0 {
          assert stages[i] == stages[1..][i - 1];
        }
      }
      if k < |stages| {
        assert stages[k] == stages[1..][k - 1];
      }
    }
  }

  /** Two stages: the second one runs, from where the first one ended, exactly when the first one is ready. */
  lemma RunTwo<S>(a: S -> (S, Outcome), b: S -> (S, Outcome), s: S)
    ensures RunSequentially(true, [a, b], s) == if a(s).1 == Ready then b(a(s).0) else a(s)
    ensures RunSequentially(false, [a, b], s) == if b(s).1 == Ready then a(b(s).0) else b(s)
  {
    assert Reversed([a, b]) == [b, a];
    RunPair(a, b, s);
    RunPair(b, a, s);
  }

  lemma RunPair<S>(a: S -> (S, Outcome), b: S -> (S, Outcome), s: S)
    ensures RunInOrder([a, b], s) == if a(s).1 == Ready then b(a(s).0) else a(s)
  {
    var stages := [a, b];
    assert stages[0] == a && stages[1] == b && stages[1..] == [b] && [b][0] == b;
    RunStopsAtFirstUnready(stages, s);
    assert RunUpTo(stages, s, 1) == RunUpTo([b], a(s).0, 0);
    assert FirstUnready(stages, s) == 2
           ==> RunUpTo(stages, s, 2) == RunUpTo([b], a(s).0, 1) == RunUpTo([b][1..], b(a(s).0).0, 0);
  }
}
