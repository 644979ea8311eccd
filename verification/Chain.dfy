/** What a chain of stages computes, said without any executor: every stage is a Mealy machine
    that sees the whole output of the stage before it, in order. Both executors are measured
    against this. */
module Chain {
  import opened Media

  /** A stage call always leaves a next state behind, also when it reports an error. */
  datatype Reply<S> = Reply(next: S, result: Result<seq<MediaBuffer>>)

  type Stage<!S> = (S, MediaBuffer) -> Reply<S>

  /** A stage after some calls: its state, all it emitted, how many calls contributed nothing,
      how many reported an error, and how many frames the most productive call emitted. */
  datatype StageRun<S> = StageRun(state: S, emitted: seq<MediaBuffer>, empties: nat, errors: nat, widest: nat)

  /** The stage meets one more frame. A frame that is shed never reaches the stage; shed and failed
      frames both contribute the empty list. */
  function Meet<S>(stage: Stage<S>, r: StageRun<S>, frame: MediaBuffer, admitted: bool): StageRun<S> {
    if !admitted then
      r.(empties := r.empties + 1)
    else
      var reply := stage(r.state, frame);
      match reply.result
      case Err(_) => r.(state := reply.next, empties := r.empties + 1, errors := r.errors + 1)
      case Ok(made) =>
        StageRun(reply.next, r.emitted + made, r.empties + (if made == [] then 1 else 0), r.errors,
                 Max(r.widest, |made|))
  }

  /** Verdicts are given frame by frame; where a list of them ends, frames are admitted. */
  predicate Admitted(verdicts: seq<bool>, k: nat) {
    k < |verdicts| ==> verdicts[k]
  }

  function RunStage<S>(stage: Stage<S>, start: S, frames: seq<MediaBuffer>, verdicts: seq<bool>): StageRun<S> {
    if frames == [] then StageRun(start, [], 0, 0, 0)
    else
      var last := |frames| - 1;
      Meet(stage, RunStage(stage, start, frames[..last], verdicts), frames[last], Admitted(verdicts, last))
  }

  /** The states the chain ends in, what leaves its last stage, and the failed calls it saw. */
  datatype ChainRun<S> = ChainRun(states: seq<S>, out: seq<MediaBuffer>, errors: nat)

  function RunChain<S>(stages: seq<Stage<S>>, states: seq<S>, verdicts: seq<seq<bool>>,
                       frames: seq<MediaBuffer>): (c: ChainRun<S>)
    requires |states| == |verdicts| == |stages|
    ensures |c.states| == |stages|
  {
    if stages == [] then ChainRun([], frames, 0)
    else
      var r := RunStage(stages[0], states[0], frames, verdicts[0]);
      var rest := RunChain(stages[1..], states[1..], verdicts[1..], r.emitted);
      ChainRun([r.state] + rest.states, rest.out, r.errors + rest.errors)
  }

  /** Nothing is ever shed. */
  function AdmitAll(n: nat): (v: seq<seq<bool>>)
    ensures |v| == n
  {
    seq(n, _ => [])
  }

  /** Only the verdicts on the given frames matter. */
  lemma {:induction false} SameVerdicts<S>(stage: Stage<S>, start: S, frames: seq<MediaBuffer>,
                                           v: seq<bool>, w: seq<bool>)
    requires forall k :: 0 <= k < |frames| ==> Admitted(v, k) == Admitted(w, k)
    ensures RunStage(stage, start, frames, v) == RunStage(stage, start, frames, w)
  {
    if frames != [] {
      SameVerdicts(stage, start, frames[..|frames| - 1], v, w);
    }
  }

  /** The frames that are let through. */
  function LetThrough(frames: seq<MediaBuffer>, verdicts: seq<bool>): seq<MediaBuffer> {
    if frames == [] then []
    else
      var last := |frames| - 1;
      LetThrough(frames[..last], verdicts) + (if Admitted(verdicts, last) then [frames[last]] else [])
  }

  /** To the stage and to all that comes behind it a frame that is shed was never there; it is only counted. */
  lemma {:induction false} ShedWasNeverThere<S>(stage: Stage<S>, start: S, frames: seq<MediaBuffer>, verdicts: seq<bool>)
    ensures var seen := LetThrough(frames, verdicts);
            var r := RunStage(stage, start, seen, []);
            |seen| <= |frames|
            && RunStage(stage, start, frames, verdicts) == r.(empties := r.empties + |frames| - |seen|)
  {
    if frames != [] {
      var last := |frames| - 1;
      ShedWasNeverThere(stage, start, frames[..last], verdicts);
      var seen := LetThrough(frames[..last], verdicts);
      assert (seen + [frames[last]])[..|seen|] == seen && seen + [] == seen;
    }
  }

  /** A failed call moves the stage's state and adds nothing to what it emitted. */
  lemma FailedAddsNothing<S>(stage: Stage<S>, start: S, frames: seq<MediaBuffer>, frame: MediaBuffer)
    requires stage(RunStage(stage, start, frames, []).state, frame).result.Err?
    ensures var r, r' := RunStage(stage, start, frames, []), RunStage(stage, start, frames + [frame], []);
            && r'.state == stage(r.state, frame).next
            && r'.emitted == r.emitted
            && r'.errors == r.errors + 1 && r'.empties == r.empties + 1
  {
    assert (frames + [frame])[..|frames|] == frames;
  }

  /** A stage fed in two parts continues where the first part left it. */
  lemma {:induction false} RunStageConcat<S>(stage: Stage<S>, start: S, a: seq<MediaBuffer>, b: seq<MediaBuffer>)
    ensures var first := RunStage(stage, start, a, []);
            var second := RunStage(stage, first.state, b, []);
            var whole := RunStage(stage, start, a + b, []);
            && whole.state == second.state
            && whole.emitted == first.emitted + second.emitted
            && whole.empties == first.empties + second.empties
            && whole.errors == first.errors + second.errors
  {
    if b == [] {
      assert a + b == a;
    } else {
      assert (a + b)[..|a + b| - 1] == a + b[..|b| - 1];
      RunStageConcat(stage, start, a, b[..|b| - 1]);
    }
  }

  /** A chain fed in two parts: stage by stage is the same as part by part. */
  lemma {:induction false} RunChainConcat<S>(stages: seq<Stage<S>>, states: seq<S>,
                                             a: seq<MediaBuffer>, b: seq<MediaBuffer>)
    requires |states| == |stages|
    ensures var all := AdmitAll(|stages|);
            var first := RunChain(stages, states, all, a);
            var second := RunChain(stages, first.states, all, b);
            RunChain(stages, states, all, a + b)
            == ChainRun(second.states, first.out + second.out, first.errors + second.errors)
  {
    if stages != [] {
      assert AdmitAll(|stages|)[1..] == AdmitAll(|stages[1..]|);
      var first := RunStage(stages[0], states[0], a, []);
      var second := RunStage(stages[0], first.state, b, []);
      RunStageConcat(stages[0], states[0], a, b);
      RunChainConcat(stages[1..], states[1..], first.emitted, second.emitted);
    }
  }

  lemma {:induction false} RunChainNothing<S>(stages: seq<Stage<S>>, states: seq<S>)
    requires |states| == |stages|
    ensures RunChain(stages, states, AdmitAll(|stages|), []) == ChainRun(states, [], 0)
  {
    if stages != [] {
      assert AdmitAll(|stages|)[1..] == AdmitAll(|stages[1..]|);
      RunChainNothing(stages[1..], states[1..]);
    }
  }

  /** Shedding nothing, said with explicit verdicts. */
  lemma {:induction false} RunChainAllAdmitted<S>(stages: seq<Stage<S>>, states: seq<S>, verdicts: seq<seq<bool>>,
                                                  frames: seq<MediaBuffer>)
    requires |states| == |verdicts| == |stages|
    requires forall i, k :: 0 <= i < |verdicts| && 0 <= k < |verdicts[i]| ==> verdicts[i][k]
    ensures RunChain(stages, states, verdicts, frames) == RunChain(stages, states, AdmitAll(|stages|), frames)
  {
    if stages != [] {
      assert AdmitAll(|stages|)[1..] == AdmitAll(|stages[1..]|);
      SameVerdicts(stages[0], states[0], frames, verdicts[0], []);
      RunChainAllAdmitted(stages[1..], states[1..], verdicts[1..],
                          RunStage(stages[0], states[0], frames, verdicts[0]).emitted);
    }
  }
}
