/** When a run can fail: exactly when an empty source meets a non-empty file at the receiver. */
module ProtocolFailures {
  import opened Bytes
  import opened Protocol
  import opened ProtocolRuns
  import opened ProtocolSafety
  import opened Sender
  import opened SumHeads
  import opened Sums

  ghost predicate FailedRun(cfg: Config, states: seq<State>, actions: seq<Action>)
    requires WellFormed(cfg)
  {
    Run(cfg, states, actions) && Failed(states[|actions|])
  }

  lemma RunSnoc(cfg: Config, states: seq<State>, actions: seq<Action>, a: Action)
    requires WellFormed(cfg) && Run(cfg, states, actions) && Enabled(cfg, states[|actions|], a)
    ensures Run(cfg, states + [Apply(cfg, states[|actions|], a)], actions + [a])
  {
    hide Enabled, Apply;
    var n := |actions|;
    var ss, aa := states + [Apply(cfg, states[n], a)], actions + [a];
    forall k | 0 <= k <= n
      ensures Enabled(cfg, ss[k], aa[k]) && ss[k + 1] == Apply(cfg, ss[k], aa[k])
    {
      if k < n {
        assert ss[k] == states[k] && ss[k + 1] == states[k + 1] && aa[k] == actions[k];
      } else {
        assert ss[k] == states[k] && aa[k] == a;
      }
    }
    assert ss[0] == states[0];
  }

  /** The generator is at file n, and every earlier request has been answered. */
  ghost predicate AtFile(cfg: Config, s: State, n: nat) {
    !Failed(s) && s.sphase == 0 && s.gi == n && s.up == [] && s.dest == cfg.initial
  }

  /** Some run gets there, serving what is not skipped. */
  lemma {:induction false} FileIsReached(cfg: Config, n: nat) returns (states: seq<State>, actions: seq<Action>)
    requires WellFormed(cfg) && n <= |cfg.sources|
    ensures Run(cfg, states, actions) && AtFile(cfg, states[|actions|], n)
  {
    hide Skips, Run;
    if n == 0 {
      states, actions := [Init(cfg)], [];
      assert Run(cfg, states, actions) by {
        StartRuns(cfg);
      }
    } else {
      states, actions := FileIsReached(cfg, n - 1);
      assert |states| == |actions| + 1 by {
        RunLength(cfg, states, actions);
      }
      var s := states[|actions|];
      if Skips(cfg, n - 1, s.dest[n - 1]) {
        states, actions := Step(cfg, states, actions, GenSkip);
      } else {
        assert RequestFor(cfg, s.dest[n - 1], EMPTY_HEAD, []);
        states, actions := Step(cfg, states, actions, GenAsk(EMPTY_HEAD, []));
        var toks := PlainExists(cfg.sources[n - 1]);
        assert ReplyFor(cfg, cfg.sources[n - 1], EMPTY_HEAD, [], EMPTY_HEAD, toks);
        states, actions := Step(cfg, states, actions, SndServe(EMPTY_HEAD, toks));
      }
    }
  }

  lemma StartRuns(cfg: Config)
    requires WellFormed(cfg)
    ensures Run(cfg, [Init(cfg)], [])
  {
  }

  lemma RunLength(cfg: Config, states: seq<State>, actions: seq<Action>)
    requires WellFormed(cfg) && Run(cfg, states, actions)
    ensures |states| == |actions| + 1
  {
  }

  lemma Step(cfg: Config, states: seq<State>, actions: seq<Action>, a: Action) returns (ss: seq<State>, aa: seq<Action>)
    requires WellFormed(cfg) && Run(cfg, states, actions) && |states| == |actions| + 1
    requires Enabled(cfg, states[|actions|], a)
    ensures Run(cfg, ss, aa) && |ss| == |aa| + 1 && ss[|aa|] == Apply(cfg, states[|actions|], a)
  {
    hide Run, Enabled, Apply;
    RunSnoc(cfg, states, actions, a);
    ss, aa := states + [Apply(cfg, states[|actions|], a)], actions + [a];
  }

  lemma {:induction false} RootExists(len: nat) returns (root: nat)
    requires len <= 0x400_0000_0000_0000
    ensures FloatRoot(len, root) && root <= MAX_BLOCK_LEN
  {
    root := 0;
    while root < MAX_BLOCK_LEN && (root + 1) * (root + 1) <= len
      invariant root <= MAX_BLOCK_LEN && root * root <= len
    {
      root := root + 1;
    }
    SquaresGrow(root, len);
  }

  lemma SquaresGrow(root: nat, len: nat)
    requires root <= MAX_BLOCK_LEN && root * root <= len <= 0x400_0000_0000_0000
    requires root == MAX_BLOCK_LEN || len < (root + 1) * (root + 1)
    ensures FloatRoot(len, root)
  {
    assert (root + 2) * (root + 2) == (root + 1) * (root + 1) + 2 * root + 3;
    assert root > 0 ==> (root - 1) * (root - 1) == root * root - 2 * root + 1;
    assert root < MAX_BLOCK_LEN ==> (root + 1) * (root + 1) <= MAX_BLOCK_LEN * MAX_BLOCK_LEN;
  }

  /** The generator asks with the sums of its file, and the search panics on the empty source. */
  lemma EmptySourceCrashes(cfg: Config, i: nat, root: nat)
    requires WellFormed(cfg) && i < |cfg.sources| && !Servable(cfg, i)
    requires FloatRoot(|cfg.initial[i].value|, root) && root <= MAX_BLOCK_LEN
    ensures exists states, actions :: FailedRun(cfg, states, actions)
  {
    hide Run, SumsOf, SumSizesSqroot, FloatRoot;
    var basis := cfg.initial[i].value;
    var states, actions := FileIsReached(cfg, i);
    RunLength(cfg, states, actions);
    SumSizesDescribe(|basis|, root);
    var head := SumSizesSqroot(|basis|, root);
    var sums := SumsExist(cfg.md4, cfg.seed, basis, head);
    assert sums != [] by {
      SumsAreThere(cfg, basis, head, sums);
    }
    states, actions := Step(cfg, states, actions, GenAsk(head, sums));
    states, actions := Step(cfg, states, actions, SndCrash);
    assert FailedRun(cfg, states, actions);
  }

  lemma SumsAreThere(cfg: Config, basis: seq<byte>, head: SumHead, sums: seq<SumBuf>)
    requires SumsOf(cfg.md4, cfg.seed, head, sums, basis)
    ensures sums == [] <==> basis == []
  {
    assert |basis| == 0 <==> head.count == 0;
  }

  /**
   * Without collisions, and for files the generator can take sums of, some run fails exactly when the sender
   * lists an empty source for which the receiver has a non-empty file.
   */
  lemma SomeRunFailsExactly(cfg: Config)
    requires WellFormed(cfg) && CollisionFree(cfg)
    requires forall i | 0 <= i < |cfg.initial| :: cfg.initial[i].Some? ==> |cfg.initial[i].value| <= 0x400_0000_0000_0000
    ensures (exists states, actions :: FailedRun(cfg, states, actions)) <==> !AllServable(cfg)
  {
    hide CollisionFree, Servable, Run, FloatRoot;
    if !AllServable(cfg) {
      var i :| 0 <= i < |cfg.sources| && !Servable(cfg, i);
      assert cfg.initial[i].Some? by {
        UnservableHasBasis(cfg, i);
      }
      var root := RootExists(|cfg.initial[i].value|);
      EmptySourceCrashes(cfg, i, root);
    } else {
      forall states, actions | FailedRun(cfg, states, actions)
        ensures false
      {
        NoFailure(cfg, states, actions);
      }
    }
  }

  lemma UnservableHasBasis(cfg: Config, i: nat)
    requires WellFormed(cfg) && i < |cfg.sources| && !Servable(cfg, i)
    ensures cfg.initial[i].Some?
  {
  }

  lemma NoFailure(cfg: Config, states: seq<State>, actions: seq<Action>)
    requires WellFormed(cfg) && Trusted(cfg) && Run(cfg, states, actions)
    ensures !FailedRun(cfg, states, actions)
  {
    hide InPhase, BasesUnchanged, InStep, Settled, Trusted, Enabled, Apply;
    InvOfRun(cfg, states, actions, |actions|);
  }
}
