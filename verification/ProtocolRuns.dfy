/** Whole runs of the protocol: what they leave behind, that they stay in step, and that they end. */
module ProtocolRuns {
  import opened Bytes
  import opened Checksum
  import opened Delta
  import opened Greedy
  import opened Protocol
  import opened ProtocolSafety
  import opened Sender
  import opened SumHeads
  import opened Sums

  // ----- what is left behind -----

  /** The sender can serve a file unless it is empty and the receiver has something to compare it with. */
  predicate Servable(cfg: Config, i: nat)
    requires |cfg.initial| == |cfg.sources| && i < |cfg.sources|
  {
    cfg.sources[i] != [] || cfg.initial[i] == None || cfg.initial[i] == Some([])
  }

  ghost predicate AllServable(cfg: Config)
    requires WellFormed(cfg)
  {
    forall i | 0 <= i < |cfg.sources| :: Servable(cfg, i)
  }

  /** A hash without collisions between the sources and the files they replace. */
  ghost predicate CollisionFree(cfg: Config)
    requires WellFormed(cfg)
  {
    forall i | 0 <= i < |cfg.sources| ::
      && (cfg.initial[i].Some? && cfg.md4(cfg.initial[i].value) == cfg.md4(cfg.sources[i])
          ==> cfg.initial[i] == Some(cfg.sources[i]))
      && (cfg.initial[i].Some? ==> forall head, sums ::
            SumsOf(cfg.md4, cfg.seed, head, sums, cfg.initial[i].value) && Signature(cfg.md4, cfg.seed, head, sums).Valid()
            ==> NoCollision(Signature(cfg.md4, cfg.seed, head, sums), cfg.sources[i], cfg.initial[i].value))
  }

  /** The byte strings a run over this file hashes: the contents, and their slices in front of the seed. */
  ghost predicate HashedOf(cfg: Config, content: seq<byte>, hashed: set<seq<byte>>) {
    && content in hashed
    && forall a, b | 0 <= a <= b <= |content| :: content[a..b] + PutInt32(cfg.seed) in hashed
  }

  /** Whenever the hash is injective on what a run hashes, there are no collisions. */
  lemma InjectiveIsEnough(cfg: Config, hashed: set<seq<byte>>)
    requires WellFormed(cfg)
    requires forall x, y | x in hashed && y in hashed :: cfg.md4(x) == cfg.md4(y) ==> x == y
    requires forall i | 0 <= i < |cfg.sources| ::
               HashedOf(cfg, cfg.sources[i], hashed)
               && (cfg.initial[i].Some? ==> HashedOf(cfg, cfg.initial[i].value, hashed))
    ensures CollisionFree(cfg)
  {
    hide NoCollision, Describes, Signature.Valid;
    forall i, head, sums | 0 <= i < |cfg.sources| && cfg.initial[i].Some?
                           && SumsOf(cfg.md4, cfg.seed, head, sums, cfg.initial[i].value)
                           && Signature(cfg.md4, cfg.seed, head, sums).Valid()
      ensures NoCollision(Signature(cfg.md4, cfg.seed, head, sums), cfg.sources[i], cfg.initial[i].value)
    {
      WindowsDiffer(cfg, Signature(cfg.md4, cfg.seed, head, sums), cfg.sources[i], cfg.initial[i].value, hashed);
    }
  }

  lemma WindowsDiffer(cfg: Config, sig: Signature, src: seq<byte>, basis: seq<byte>, hashed: set<seq<byte>>)
    requires sig.Valid() && Describes(sig.head, |basis|) && sig.md4 == cfg.md4 && sig.seed == cfg.seed
    requires forall x, y | x in hashed && y in hashed :: cfg.md4(x) == cfg.md4(y) ==> x == y
    requires HashedOf(cfg, src, hashed) && HashedOf(cfg, basis, hashed)
    ensures NoCollision(sig, src, basis)
  {
    hide Weak, PutInt32;
    forall q: nat, i: nat | q < |src| && i < sig.head.count
      ensures var w, b, n := sig.Window(src, q), BlockOf(sig.head, basis, i), sig.head.checksumLength;
              sig.md4(w + PutInt32(sig.seed))[..n] == sig.md4(b + PutInt32(sig.seed))[..n] && |w| == |b| ==> w == b
    {
      BlocksAreAdjacent(sig.head, |basis|, i);
      var w, b := sig.Window(src, q), BlockOf(sig.head, basis, i);
      assert w + PutInt32(sig.seed) in hashed && b + PutInt32(sig.seed) in hashed;
      SeedApart(sig.md4(w + PutInt32(sig.seed)), sig.md4(b + PutInt32(sig.seed)));
      SameSuffix(w, b, PutInt32(sig.seed));
    }
  }

  lemma SeedApart(x: Digest, y: Digest)
    ensures x[..16] == y[..16] ==> x == y
  {
    assert x[..16] == x && y[..16] == y;
  }

  lemma SameSuffix(w: seq<byte>, b: seq<byte>, suffix: seq<byte>)
    ensures w + suffix == b + suffix && |w| == |b| ==> w == b
  {
    assert (w + suffix)[..|w|] == w && |w| == |b| ==> (b + suffix)[..|w|] == b;
  }

  ghost predicate Trusted(cfg: Config)
    requires WellFormed(cfg)
  {
    AllServable(cfg) && CollisionFree(cfg)
  }

  /** A request with sums comes from a non-empty file, so a servable source of it is not empty. */
  lemma AskIsServable(cfg: Config, s: State)
    requires WellFormed(cfg) && |s.dest| == |cfg.sources| && AllServable(cfg)
    requires s.up != [] && s.up[0].Ask? && GoodAsk(cfg, s.dest, s.up[0])
    ensures s.up[0].sums == [] || cfg.sources[s.up[0].i] != []
  {
    hide BlockOf, Weak, Strong;
    var m := s.up[0];
    if m.sums != [] {
      assert SumsOf(cfg.md4, cfg.seed, m.head, m.sums, cfg.initial[m.i].value);
      assert |cfg.initial[m.i].value| != 0;
      assert Servable(cfg, m.i);
    }
  }

  /** The file has the source's length and list digest, or its transfer digest; under trust it is the source. */
  ghost predicate Settled(cfg: Config, i: nat, d: Option<seq<byte>>)
    requires WellFormed(cfg) && i < |cfg.sources|
  {
    && d.Some?
    && var src := cfg.sources[i];
    && ((|d.value| == |src| && cfg.md4(d.value) == cfg.md4(src))
        || FileDigest(cfg.md4, cfg.seed, d.value) == FileDigest(cfg.md4, cfg.seed, src))
    && (Trusted(cfg) ==> d.value == src)
  }

  ghost predicate Results(cfg: Config, s: State)
    requires WellFormed(cfg)
  {
    && |s.dest| == |cfg.sources| && s.gi <= |cfg.sources|
    && (forall i | i in s.vanished :: i < s.gi && i !in InFlight(s) && s.dest[i] == cfg.initial[i])
    && (forall i | 0 <= i < s.gi :: i !in InFlight(s) && i !in s.vanished ==> Settled(cfg, i, s.dest[i]))
    && (Trusted(cfg) ==> !Failed(s))
  }

  /** Sums of a non-empty list of blocks make a signature the search accepts. */
  lemma RequestIsSearchable(cfg: Config, basis: Option<seq<byte>>, head: SumHead, sums: seq<SumBuf>)
    requires RequestFor(cfg, basis, head, sums) && sums != []
    ensures Signature(cfg.md4, cfg.seed, head, sums).Valid()
  {
    hide Weak, Strong, BlockOf, BlockStart, BlockLen;
    forall j | 0 <= j < |sums|
      ensures sums[j].index == 0 + j && sums[j].offset == BlockStart(head, 0 + j) && sums[j].len == BlockLen(head, 0 + j)
    {
      assert sums[j] == SumOf(cfg.md4, cfg.seed, head, j, BlockOf(head, basis.value, j));
    }
  }

  /** A reply computed from the file's own sums is accepted only with the source's digest, and under trust is the source. */
  lemma ReplySettles(cfg: Config, s: State)
    requires WellFormed(cfg) && BasesUnchanged(cfg, s) && s.down != [] && s.down[0].File? && s.down[0].i < |s.dest|
    ensures var i := s.down[0].i;
            match Outcome(cfg, s.dest[i], s.down[0])
            case None => !CollisionFree(cfg)
            case Some(c) => Settled(cfg, i, Some(c))
  {
    hide FileDigest, Skips, NoCollision, Plain, SumsOf, Replay, Increasing, GoodAsk, InFlight;
    var m := s.down[0];
    var i, src, basis := m.i, cfg.sources[m.i], cfg.initial[m.i];
    assert GoodFile(cfg, s.dest, m);
    var head, sums :| RequestFor(cfg, basis, head, sums) && ReplyFor(cfg, src, head, sums, m.head, m.toks);
    if sums == [] {
      PlainReplays(m.toks, src, m.head, basis);
    } else {
      var sig := Signature(cfg.md4, cfg.seed, head, sums);
      TilesReplay(sig, src, basis.value, m.toks, 0, |src|);
      assert src[0..|src|] == src;
    }
  }

  lemma FileSettles(cfg: Config, s: State, a: Action)
    requires WellFormed(cfg) && BasesUnchanged(cfg, s) && Results(cfg, s) && Enabled(cfg, s, a) && a.RcvFile?
    ensures Results(cfg, Apply(cfg, s, a))
  {
    hide AllServable, CollisionFree, Outcome, Settled, BasesUnchanged;
    ReplySettles(cfg, s);
    FileKeepsBases(cfg, s, a);
    var t := Apply(cfg, s, a);
    if !t.rcvFailed {
      assert s.down[0].i in InFlight(s);
      InFlightApart(cfg, s, t);
    }
  }

  lemma InFlightApart(cfg: Config, s: State, t: State)
    requires WellFormed(cfg) && BasesUnchanged(cfg, s) && s.down != [] && s.down[0].File?
    requires InFlight(s) == [s.down[0].i] + InFlight(t)
    ensures s.down[0].i !in InFlight(t)
    ensures forall x :: x in InFlight(s) <==> x == s.down[0].i || x in InFlight(t)
  {
    hide GoodAsk, GoodFile, InFlight;
    var i, q, r := s.down[0].i, InFlight(s), InFlight(t);
    forall k | 0 <= k < |r|
      ensures r[k] != i
    {
      assert q[0] == i && q[k + 1] == r[k];
    }
  }

  lemma GeneratorResults(cfg: Config, s: State, a: Action)
    requires WellFormed(cfg) && BasesUnchanged(cfg, s) && Results(cfg, s) && Enabled(cfg, s, a)
    requires a.GenSkip? || a.GenAsk?
    ensures Results(cfg, Apply(cfg, s, a))
  {
    hide GoodAsk, GoodFile, RequestFor;
    var t := Apply(cfg, s, a);
    if a.GenAsk? {
      UpSnoc(s.up, Ask(s.gi, a.head, a.sums));
      assert InFlight(t) == InFlight(s) + [s.gi];
    } else {
      assert InFlight(t) == InFlight(s);
      assert Skips(cfg, s.gi, cfg.initial[s.gi]);
    }
  }

  lemma VanishResults(cfg: Config, s: State, a: Action)
    requires WellFormed(cfg) && BasesUnchanged(cfg, s) && Results(cfg, s) && Enabled(cfg, s, a) && a.SndVanish?
    ensures Results(cfg, Apply(cfg, s, a))
  {
    hide GoodFile, RequestFor, Settled, Trusted, UpIndices, DownIndices, Increasing;
    var t := Apply(cfg, s, a);
    var before, i, after := DownIndices(s.down), s.up[0].i, UpIndices(t.up);
    NextIndex(s.up);
    assert InFlight(s) == before + ([i] + after) && InFlight(t) == before + after;
    assert GoodAsk(cfg, s.dest, s.up[0]);
    assert InFlight(s)[|before|] == i;
    NowhereElse(before, i, after);
    OthersStay(before, i, after);
  }

  lemma OthersStay(before: seq<nat>, i: nat, after: seq<nat>)
    ensures forall x: nat | x != i :: x in before + ([i] + after) <==> x in before + after
  {
  }

  lemma OtherResults(cfg: Config, s: State, a: Action)
    requires WellFormed(cfg) && BasesUnchanged(cfg, s) && InPhase(cfg, s) && Results(cfg, s) && Enabled(cfg, s, a)
    requires !a.RcvFile? && !a.GenSkip? && !a.GenAsk? && !a.SndVanish?
    ensures Results(cfg, Apply(cfg, s, a))
  {
    hide GoodAsk, GoodFile, InFlight, Settled, Skips, UpMarks, DownMarks, AllServable, CollisionFree;
    if a.SndCrash? && Trusted(cfg) {
      AskIsServable(cfg, s);
    } else if a.SndServe? {
      ServeKeepsBases(cfg, s, a);
    } else {
      OthersKeepBases(cfg, s, a);
    }
  }

  lemma ResultsKept(cfg: Config, s: State, a: Action)
    requires WellFormed(cfg) && BasesUnchanged(cfg, s) && InPhase(cfg, s) && Results(cfg, s) && Enabled(cfg, s, a)
    ensures Results(cfg, Apply(cfg, s, a))
  {
    hide Results, BasesUnchanged, InPhase, Enabled, Apply;
    if a.RcvFile? {
      FileSettles(cfg, s, a);
    } else if a.GenSkip? || a.GenAsk? {
      GeneratorResults(cfg, s, a);
    } else if a.SndVanish? {
      VanishResults(cfg, s, a);
    } else {
      OtherResults(cfg, s, a);
    }
  }

  // ----- order -----

  ghost function Without(q: seq<nat>, v: set<nat>): seq<nat> {
    if q == [] then [] else (if q[0] in v then [] else [q[0]]) + Without(q[1..], v)
  }

  lemma {:induction false} WithoutConcat(p: seq<nat>, q: seq<nat>, v: set<nat>)
    ensures Without(p + q, v) == Without(p, v) + Without(q, v)
  {
    if p == [] {
      assert p + q == q;
    } else {
      WithoutConcat(p[1..], q, v);
      assert (p + q)[1..] == p[1..] + q && (p + q)[0] == p[0];
      ConcatAssoc(if p[0] in v then [] else [p[0]], Without(p[1..], v), Without(q, v));
    }
  }

  lemma {:induction false} WithoutMore(q: seq<nat>, v: set<nat>, i: nat)
    ensures Without(q, v + {i}) == Without(Without(q, v), {i})
  {
    if q == [] {
    } else {
      WithoutMore(q[1..], v, i);
      var head := if q[0] in v then [] else [q[0]];
      WithoutConcat(head, Without(q[1..], v), {i});
      assert head != [] ==> Without(head, {i}) == (if q[0] == i then [] else [q[0]]) + Without(head[1..], {i});
    }
  }

  lemma {:induction false} WithoutAbsent(q: seq<nat>, i: nat)
    requires i !in q
    ensures Without(q, {i}) == q
  {
    if q == [] {
    } else {
      WithoutAbsent(q[1..], i);
    }
  }

  /** The receiver has got, and will get, exactly the requested indices in order, minus those that vanished. */
  ghost predicate InStep(s: State) {
    && s.received + InFlight(s) == Without(s.asked, s.vanished)
    && Increasing(s.received + InFlight(s))
    && AllBelow(s.asked, s.gi)
  }

  lemma AskInStep(cfg: Config, s: State, a: Action)
    requires WellFormed(cfg) && Results(cfg, s) && InStep(s) && Enabled(cfg, s, a) && a.GenAsk?
    ensures InStep(Apply(cfg, s, a))
  {
    hide RequestFor, Skips, Settled, Trusted, Without, Increasing, InFlight, UpIndices, DownIndices;
    var t := Apply(cfg, s, a);
    var q := s.received + InFlight(s);
    AskInFlight(cfg, s, a);
    ConcatAssoc(s.received, InFlight(s), [s.gi]);
    WithoutConcat(s.asked, [s.gi], s.vanished);
    WithoutOne(s.gi, s.vanished);
    WithoutBelow(s.asked, s.vanished, s.gi);
    IncreasingSnoc(q, s.gi);
  }

  lemma AskInFlight(cfg: Config, s: State, a: Action)
    requires WellFormed(cfg) && Enabled(cfg, s, a) && a.GenAsk?
    ensures InFlight(Apply(cfg, s, a)) == InFlight(s) + [s.gi]
  {
    hide RequestFor, Skips, UpIndices, DownIndices;
    UpSnoc(s.up, Ask(s.gi, a.head, a.sums));
  }

  lemma IncreasingSnoc(q: seq<nat>, x: nat)
    requires Increasing(q) && AllBelow(q, x)
    ensures Increasing(q + [x])
  {
  }

  lemma WithoutOne(i: nat, v: set<nat>)
    ensures Without([i], v) == if i in v then [] else [i]
  {
    assert [i][1..] == [];
  }

  lemma {:induction false} WithoutBelow(q: seq<nat>, v: set<nat>, n: nat)
    requires AllBelow(q, n)
    ensures AllBelow(Without(q, v), n)
  {
    if q == [] {
    } else {
      WithoutBelow(q[1..], v, n);
    }
  }

  lemma VanishInStep(cfg: Config, s: State, a: Action)
    requires WellFormed(cfg) && InStep(s) && Enabled(cfg, s, a) && a.SndVanish?
    ensures InStep(Apply(cfg, s, a))
  {
    hide RequestFor, Without;
    var t := Apply(cfg, s, a);
    var i := s.up[0].i;
    var before, after := s.received + DownIndices(s.down), UpIndices(t.up);
    assert s.received + InFlight(s) == before + ([i] + after);
    assert t.received + InFlight(t) == before + after;
    WithoutMore(s.asked, s.vanished, i);
    OnlyOnce(before, i, after);
  }

  /** Taking i out of an increasing sequence leaves what was before and after it. */
  lemma OnlyOnce(before: seq<nat>, i: nat, after: seq<nat>)
    requires Increasing(before + ([i] + after))
    ensures Without(before + ([i] + after), {i}) == before + after
    ensures Increasing(before + after)
  {
    hide Without, Increasing;
    StillIncreasing(before, i, after);
    NowhereElse(before, i, after);
    WithoutAbsent(before, i);
    WithoutAbsent(after, i);
    WithoutConcat(before, [i] + after, {i});
    WithoutConcat([i], after, {i});
    WithoutOne(i, {i});
  }

  lemma NowhereElse(before: seq<nat>, i: nat, after: seq<nat>)
    requires Increasing(before + ([i] + after))
    ensures i !in before && i !in after
  {
    var q := before + ([i] + after);
    var k := |before|;
    assert q[k] == i;
    assert forall n | 0 <= n < k :: q[n] == before[n];
    assert forall n | 0 <= n < |after| :: q[k + 1 + n] == after[n];
  }

  /** What was asked and vanished stays, and what was received grows only by a received file. */
  lemma HistoryKept(cfg: Config, s: State, a: Action)
    requires WellFormed(cfg) && Enabled(cfg, s, a) && !a.GenAsk? && !a.SndVanish?
    ensures var t := Apply(cfg, s, a);
            && t.asked == s.asked && t.vanished == s.vanished && s.gi <= t.gi
            && (a.RcvFile? ==> s.down != [] && s.down[0].File?)
            && t.received == (if a.RcvFile? && !t.rcvFailed then s.received + [s.down[0].i] else s.received)
            && (a.RcvFile? && t.rcvFailed ==> t.up == s.up && t.down == s.down)
  {
    hide Outcome, RequestFor, ReplyFor, Skips, FileDigest;
  }

  lemma OthersInStep(cfg: Config, s: State, a: Action)
    requires WellFormed(cfg) && BasesUnchanged(cfg, s) && InStep(s) && Enabled(cfg, s, a)
    requires !a.GenAsk? && !a.SndVanish?
    ensures InStep(Apply(cfg, s, a))
  {
    hide BasesUnchanged, Without, Outcome, Enabled, Apply, UpIndices, DownIndices, Increasing;
    var t := Apply(cfg, s, a);
    HistoryKept(cfg, s, a);
    if a.SndServe? {
      ServeKeepsBases(cfg, s, a);
    } else if a.RcvFile? {
      FileKeepsBases(cfg, s, a);
      if !t.rcvFailed {
        ConcatAssoc(s.received, [s.down[0].i], InFlight(t));
      }
    } else {
      OthersKeepBases(cfg, s, a);
    }
  }

  // ----- all reachable states -----

  ghost predicate Inv(cfg: Config, s: State)
    requires WellFormed(cfg)
  {
    InPhase(cfg, s) && BasesUnchanged(cfg, s) && Results(cfg, s) && InStep(s)
  }

  lemma InvInit(cfg: Config)
    requires WellFormed(cfg)
    ensures Inv(cfg, Init(cfg))
  {
    hide InPhase, GoodAsk, GoodFile, Settled, Trusted;
    InitInPhase(cfg);
  }

  lemma InvKept(cfg: Config, s: State, a: Action)
    requires WellFormed(cfg) && Inv(cfg, s) && Enabled(cfg, s, a)
    ensures Inv(cfg, Apply(cfg, s, a))
  {
    hide InPhase, BasesUnchanged, Results, InStep, Enabled, Apply;
    PhaseKept(cfg, s, a);
    BasesKept(cfg, s, a);
    ResultsKept(cfg, s, a);
    if a.GenAsk? {
      AskInStep(cfg, s, a);
    } else if a.SndVanish? {
      VanishInStep(cfg, s, a);
    } else {
      OthersInStep(cfg, s, a);
    }
  }

  /** Every state of every interleaving keeps the invariant. */
  lemma {:induction false} InvOfRun(cfg: Config, states: seq<State>, actions: seq<Action>, k: nat)
    requires WellFormed(cfg) && Run(cfg, states, actions) && k < |states|
    ensures Inv(cfg, states[k])
  {
    hide Inv, Enabled, Apply;
    if k == 0 {
      InvInit(cfg);
    } else {
      InvOfRun(cfg, states, actions, k - 1);
      InvKept(cfg, states[k - 1], actions[k - 1]);
    }
  }

  // ----- what is asked for -----

  /** As far as the list tells: the file there at the start has the source's length and digest. */
  ghost predicate UpToDate(cfg: Config, i: nat)
    requires WellFormed(cfg) && i < |cfg.sources|
  {
    && cfg.initial[i].Some?
    && |cfg.initial[i].value| == |cfg.sources[i]|
    && cfg.md4(cfg.initial[i].value) == cfg.md4(cfg.sources[i])
  }

  /**
   * Exactly those files are asked for that are missing, or differ from the source in length or list digest, and
   * only a received file is touched.
   */
  ghost predicate AskedForChanged(cfg: Config, s: State)
    requires WellFormed(cfg)
  {
    && s.gi <= |cfg.sources| == |s.dest|
    && (forall i: nat :: i in s.asked <==> i < s.gi && !UpToDate(cfg, i))
    && (forall i: nat | i < |s.dest| :: i in s.received || s.dest[i] == cfg.initial[i])
  }

  lemma AskedForChangedKept(cfg: Config, s: State, a: Action)
    requires WellFormed(cfg) && BasesUnchanged(cfg, s) && AskedForChanged(cfg, s) && Enabled(cfg, s, a)
    ensures AskedForChanged(cfg, Apply(cfg, s, a))
  {
    hide Apply, Enabled, UpToDate, GoodAsk, GoodFile, InFlight;
    if a.GenAsk? || a.GenSkip? {
      PassedKept(cfg, s, a);
    } else if !a.SndVanish? {
      HistoryKept(cfg, s, a);
      OnlyReceivedTouched(cfg, s, a);
    } else {
      VanishedUntouched(cfg, s, a);
    }
  }

  lemma PassedKept(cfg: Config, s: State, a: Action)
    requires WellFormed(cfg) && BasesUnchanged(cfg, s) && AskedForChanged(cfg, s) && Enabled(cfg, s, a)
    requires a.GenAsk? || a.GenSkip?
    ensures AskedForChanged(cfg, Apply(cfg, s, a))
  {
    hide GoodAsk, GoodFile, InFlight, RequestFor;
  }

  lemma OnlyReceivedTouched(cfg: Config, s: State, a: Action)
    requires WellFormed(cfg) && Enabled(cfg, s, a) && !a.GenAsk? && !a.GenSkip? && !a.SndVanish?
    requires s.gi <= |cfg.sources|
    ensures var t := Apply(cfg, s, a);
            && t.gi == s.gi && |t.dest| == |s.dest|
            && forall i: nat | i < |s.dest| :: i in s.received || t.dest[i] == s.dest[i] || i in t.received
  {
    hide Outcome, RequestFor, ReplyFor, Skips, FileDigest;
  }

  lemma VanishedUntouched(cfg: Config, s: State, a: Action)
    requires WellFormed(cfg) && AskedForChanged(cfg, s) && Enabled(cfg, s, a) && a.SndVanish?
    ensures AskedForChanged(cfg, Apply(cfg, s, a))
  {
    hide UpToDate;
  }

  /** At any moment of any run, failed or not. */
  lemma {:induction false} OnlyChangedAreAsked(cfg: Config, states: seq<State>, actions: seq<Action>, k: nat)
    requires WellFormed(cfg) && Run(cfg, states, actions) && k < |states|
    ensures AskedForChanged(cfg, states[k])
  {
    hide Inv, Enabled, Apply, AskedForChanged;
    if k == 0 {
      NothingAsked(cfg);
    } else {
      OnlyChangedAreAsked(cfg, states, actions, k - 1);
      InvOfRun(cfg, states, actions, k - 1);
      InvHasBases(cfg, states[k - 1]);
      AskedForChangedKept(cfg, states[k - 1], actions[k - 1]);
    }
  }

  lemma InvHasBases(cfg: Config, s: State)
    requires WellFormed(cfg) && Inv(cfg, s)
    ensures BasesUnchanged(cfg, s)
  {
  }

  lemma NothingAsked(cfg: Config)
    requires WellFormed(cfg)
    ensures AskedForChanged(cfg, Init(cfg))
  {
  }

  /** A run over files that are already equal to their sources asks for none of them and changes nothing. */
  lemma UpToDateIsLeftAlone(cfg: Config, states: seq<State>, actions: seq<Action>, k: nat)
    requires WellFormed(cfg) && Run(cfg, states, actions) && k < |states|
    requires forall i | 0 <= i < |cfg.sources| :: cfg.initial[i] == Some(cfg.sources[i])
    ensures states[k].asked == [] && states[k].received == [] && states[k].dest == cfg.initial
  {
    hide Run, Inv, AskedForChanged, InFlight;
    OnlyChangedAreAsked(cfg, states, actions, k);
    InvOfRun(cfg, states, actions, k);
    NothingChanged(cfg, states[k]);
    NothingAskedNothingReceived(cfg, states[k]);
    NothingReceivedNothingTouched(cfg, states[k]);
  }

  lemma NothingChanged(cfg: Config, s: State)
    requires WellFormed(cfg) && AskedForChanged(cfg, s)
    requires forall i | 0 <= i < |cfg.sources| :: cfg.initial[i] == Some(cfg.sources[i])
    ensures s.asked == []
  {
    forall i: nat
      ensures i !in s.asked
    {
      assert i < |cfg.sources| ==> UpToDate(cfg, i);
    }
    NoElements(s.asked);
  }

  lemma NoElements(q: seq<nat>)
    requires forall i: nat :: i !in q
    ensures q == []
  {
    if q != [] {
      FirstIsIn(q);
    }
  }

  lemma FirstIsIn(q: seq<nat>)
    requires q != []
    ensures q[0] in q
  {
  }

  lemma NothingAskedNothingReceived(cfg: Config, s: State)
    requires WellFormed(cfg) && Inv(cfg, s) && s.asked == []
    ensures s.received == []
  {
    hide InPhase, BasesUnchanged, Results, InFlight;
    assert |s.received + InFlight(s)| == |Without([], s.vanished)| == 0;
  }

  lemma NothingReceivedNothingTouched(cfg: Config, s: State)
    requires WellFormed(cfg) && AskedForChanged(cfg, s) && s.received == []
    ensures s.dest == cfg.initial
  {
    forall i: nat | i < |s.dest|
      ensures s.dest[i] == cfg.initial[i]
    {
      assert i !in s.received;
    }
  }

  // ----- after a failure -----

  /** A receiver gives up only on a bad reply, or when the sender is gone and everything it sent was read. */
  ghost predicate AllRead(s: State) {
    s.rcvFailed ==> s.sndFailed && s.down == []
  }

  lemma AllReadKept(cfg: Config, s: State, a: Action)
    requires WellFormed(cfg) && BasesUnchanged(cfg, s) && CollisionFree(cfg) && AllRead(s) && Enabled(cfg, s, a)
    ensures AllRead(Apply(cfg, s, a))
  {
    hide BasesUnchanged, CollisionFree, Outcome, Skips, RequestFor, ReplyFor, FileDigest;
    if a.RcvFile? {
      ReplySettles(cfg, s);
    }
  }

  /**
   * Without collisions a failing sender loses no reply it has sent: when the receiver gives up, it has received all
   * that was asked for, in order, but what vanished and what the sender never answered.
   */
  lemma {:induction false} NoReplyIsLost(cfg: Config, states: seq<State>, actions: seq<Action>, k: nat)
    requires WellFormed(cfg) && CollisionFree(cfg) && Run(cfg, states, actions) && k < |states|
    ensures AllRead(states[k])
    ensures var s := states[k];
            s.rcvFailed ==> s.received + UpIndices(s.up) == Without(s.asked, s.vanished)
  {
    hide Inv, Enabled, Apply, CollisionFree, AllRead;
    if k == 0 {
      assert AllRead(Init(cfg)) by {
        NothingFailed(cfg);
      }
    } else {
      NoReplyIsLost(cfg, states, actions, k - 1);
      InvOfRun(cfg, states, actions, k - 1);
      InvHasBases(cfg, states[k - 1]);
      AllReadKept(cfg, states[k - 1], actions[k - 1]);
    }
    InvOfRun(cfg, states, actions, k);
    ReadInStep(cfg, states[k]);
  }

  lemma NothingFailed(cfg: Config)
    requires WellFormed(cfg)
    ensures AllRead(Init(cfg))
  {
  }

  lemma ReadInStep(cfg: Config, s: State)
    requires WellFormed(cfg) && Inv(cfg, s) && AllRead(s)
    ensures s.rcvFailed ==> s.received + UpIndices(s.up) == Without(s.asked, s.vanished)
  {
    hide InPhase, BasesUnchanged, Results, Without, UpIndices;
    assert [] + UpIndices(s.up) == UpIndices(s.up);
    assert DownIndices([]) == [];
  }

  // ----- progress -----

  /** Steps of the parties themselves: no file vanishes under the sender and nothing fails. */
  ghost predicate Regular(a: Action) {
    !a.SndVanish? && !a.SndCrash? && !a.SndLost? && !a.RcvLost?
  }

  ghost predicate CanMove(cfg: Config, s: State)
    requires WellFormed(cfg)
  {
    exists a :: Regular(a) && Enabled(cfg, s, a)
  }

  /** A request for a servable file can be served. */
  lemma RequestMoves(cfg: Config, s: State)
    requires WellFormed(cfg) && BasesUnchanged(cfg, s) && !Failed(s)
    requires s.sphase < 2 && s.up != [] && s.up[0].Ask?
    requires AllServable(cfg)
    ensures CanMove(cfg, s)
  {
    hide Signature.Tiles, Plain, Signature.Valid, SumsOf, AllServable;
    assert GoodAsk(cfg, s.dest, s.up[0]);
    AskIsServable(cfg, s);
    var m := s.up[0];
    var src := cfg.sources[m.i];
    var head, toks := EMPTY_HEAD, [];
    if m.sums == [] {
      toks := PlainExists(src);
    } else {
      RequestIsSearchable(cfg, cfg.initial[m.i], m.head, m.sums);
      head := m.head;
      toks := Signature(cfg.md4, cfg.seed, m.head, m.sums).TilingExists(src, 0);
    }
    assert ReplyFor(cfg, src, m.head, m.sums, head, toks);
    assert Enabled(cfg, s, SndServe(head, toks)) && Regular(SndServe(head, toks));
  }

  lemma GeneratorMoves(cfg: Config, s: State)
    requires WellFormed(cfg) && |s.dest| == |cfg.sources| && s.gi <= |cfg.sources| && s.gphase < 2
    ensures CanMove(cfg, s)
  {
    hide Skips;
    if s.gi == |cfg.sources| {
      assert Enabled(cfg, s, GenDone) && Regular(GenDone);
    } else if Skips(cfg, s.gi, s.dest[s.gi]) {
      assert Enabled(cfg, s, GenSkip) && Regular(GenSkip);
    } else {
      assert RequestFor(cfg, s.dest[s.gi], EMPTY_HEAD, []);
      assert Enabled(cfg, s, GenAsk(EMPTY_HEAD, [])) && Regular(GenAsk(EMPTY_HEAD, []));
    }
  }

  /** The receiver reads what there is; with nothing to read the sender has failed, or all marks were read. */
  lemma ReceiverStep(cfg: Config, s: State) returns (a: Action)
    requires WellFormed(cfg) && InPhase(cfg, s) && BasesUnchanged(cfg, s) && (cfg.serverSender || cfg.noReport)
    requires s.gphase == 2 && !s.rcvFailed && s.dphase < 2
    requires s.sndFailed || s.sphase == 4 || (s.up == [] && s.sphase != 2)
    ensures Enabled(cfg, s, a) && (Regular(a) || s.sndFailed)
  {
    hide UpMarks, InFlight, GoodAsk, ReplyFor, RequestFor, FileDigest, PhaseMarks;
    if s.dphase == 1 {
      a := Goodbye;
    } else if s.down != [] && s.down[0].File? {
      assert GoodFile(cfg, s.dest, s.down[0]);
      a := RcvFile;
    } else if s.down != [] && s.down[0].DownDone? {
      NoDownMarks(s.down);
      a := RcvDone;
    } else if s.rphase == 2 && (cfg.noReport || s.down != []) {
      a := Report;
    } else {
      NothingToRead(cfg, s);
      a := RcvLost;
    }
  }

  lemma NothingToRead(cfg: Config, s: State)
    requires InPhase(cfg, s) && s.gphase == 2 && s.dphase == 0 && !s.rcvFailed && (cfg.serverSender || cfg.noReport)
    requires s.down == [] || s.down[0].Stats?
    requires s.rphase < 2 || (!cfg.noReport && s.down == [])
    requires s.sndFailed || s.sphase == 4 || (s.up == [] && s.sphase != 2)
    ensures s.down == [] && s.sndFailed
  {
    NoDownMarks(s.down);
    assert s.down != [] ==> |s.down| == 1;
  }

  /**
   * No deadlock: whenever the run is not over some party can move. The stats must be expected only from
   * a sender that sends them.
   */
  lemma Progress(cfg: Config, s: State)
    requires WellFormed(cfg) && Inv(cfg, s) && !Failed(s)
    requires AllServable(cfg)
    requires cfg.serverSender || cfg.noReport
    ensures Finished(s) || CanMove(cfg, s)
  {
    hide BasesUnchanged, Results, InStep, DownInPhase, CanMove, Regular, Enabled;
    NoUpMarks(s.up);
    if s.gphase < 2 {
      GeneratorMoves(cfg, s);
    } else if s.sphase < 2 {
      assert UpMarks(s.up) > 0;
      if s.up[0].Ask? {
        RequestMoves(cfg, s);
      } else {
        Moves(cfg, s, SndDone);
      }
    } else if s.sphase == 2 {
      Moves(cfg, s, SndStats);
    } else if s.sphase == 3 {
      if s.up != [] {
        Moves(cfg, s, SndFinish);
      } else {
        var a := ReceiverStep(cfg, s);
        Moves(cfg, s, a);
      }
    }
  }

  /** Sender and receiver have both come to an end, in success or failure. */
  ghost predicate Over(s: State) {
    (s.sphase == 4 || s.sndFailed) && (s.dphase == 2 || s.rcvFailed)
  }

  /**
   * Nobody waits forever, whatever is listed and whatever fails: as long as a party has not come to an end some
   * step is possible. The stats must be expected only from a sender that sends them.
   */
  lemma NobodyHangs(cfg: Config, s: State)
    requires WellFormed(cfg) && Inv(cfg, s) && (cfg.serverSender || cfg.noReport)
    ensures Over(s) || exists a :: Enabled(cfg, s, a)
  {
    hide UpInPhase, DownInPhase, BasesUnchanged, Results, InStep, Enabled, Skips, RequestFor;
    if s.gphase < 2 {
      GeneratorMoves(cfg, s);
    } else if !s.sndFailed && s.sphase < 4 && (s.up != [] || s.sphase == 2 || s.rcvFailed) {
      SenderEnabled(cfg, s);
    } else if !s.rcvFailed && s.dphase < 2 {
      var a := ReceiverStep(cfg, s);
    } else if !s.rcvFailed && s.sphase < 4 {
      GoodbyeIsUnderWay(s.up, s.sphase);
    }
  }

  lemma SenderEnabled(cfg: Config, s: State)
    requires WellFormed(cfg) && InPhase(cfg, s) && !s.sndFailed && s.sphase < 4
    requires s.up != [] || s.sphase == 2 || s.rcvFailed
    ensures exists a :: Enabled(cfg, s, a)
  {
    hide UpInPhase, DownInPhase;
    if s.sphase == 2 {
      assert Enabled(cfg, s, SndStats);
    } else if s.up == [] {
      assert Enabled(cfg, s, SndLost);
    } else if s.sphase == 3 {
      assert Enabled(cfg, s, SndFinish);
    } else if s.up[0].Ask? {
      assert Enabled(cfg, s, SndVanish);
    } else {
      assert Enabled(cfg, s, SndDone);
    }
  }

  /** When the receiver is done, its goodbye is on the connection until it is read. */
  lemma GoodbyeIsUnderWay(up: seq<Up>, sphase: nat)
    requires UpInPhase(up, 2, sphase, 2) && sphase < 4
    ensures up != []
  {
  }

  lemma Moves(cfg: Config, s: State, a: Action)
    requires WellFormed(cfg) && Enabled(cfg, s, a) && Regular(a)
    ensures CanMove(cfg, s)
  {
  }

  // ----- termination -----

  lemma SenderSpends(cfg: Config, s: State, a: Action)
    requires WellFormed(cfg) && Enabled(cfg, s, a) && SenderActs(a)
    ensures Budget(cfg, Apply(cfg, s, a)) < Budget(cfg, s)
  {
    hide Skips, RequestFor, ReplyFor, FileDigest;
  }

  lemma ReceiverSpends(cfg: Config, s: State, a: Action)
    requires WellFormed(cfg) && Enabled(cfg, s, a) && ReceiverActs(a)
    ensures Budget(cfg, Apply(cfg, s, a)) < Budget(cfg, s)
  {
    hide Outcome;
  }

  lemma GeneratorSpends(cfg: Config, s: State, a: Action)
    requires WellFormed(cfg) && Enabled(cfg, s, a) && !SenderActs(a) && !ReceiverActs(a)
    ensures Budget(cfg, Apply(cfg, s, a)) < Budget(cfg, s)
  {
    hide Skips, RequestFor;
  }

  lemma BudgetIsNat(cfg: Config, s: State)
    requires InPhase(cfg, s)
    ensures 0 <= Budget(cfg, s)
  {
    hide UpInPhase, DownInPhase;
  }

  lemma BudgetShrinks(cfg: Config, s: State, a: Action)
    requires WellFormed(cfg) && Inv(cfg, s) && Enabled(cfg, s, a)
    ensures 0 <= Budget(cfg, Apply(cfg, s, a)) < Budget(cfg, s)
  {
    hide InPhase, BasesUnchanged, Results, InStep, Enabled, Apply, Budget;
    PhaseKept(cfg, s, a);
    BudgetIsNat(cfg, Apply(cfg, s, a));
    if SenderActs(a) {
      SenderSpends(cfg, s, a);
    } else if ReceiverActs(a) {
      ReceiverSpends(cfg, s, a);
    } else {
      GeneratorSpends(cfg, s, a);
    }
  }

  /** Every run ends after at most three steps a file and a constant number more. */
  lemma {:induction false} RunsAreBounded(cfg: Config, states: seq<State>, actions: seq<Action>, k: nat)
    requires WellFormed(cfg) && Run(cfg, states, actions) && k < |states|
    ensures k + Budget(cfg, states[k]) <= 3 * |cfg.sources| + 18
    ensures 0 <= Budget(cfg, states[k])
  {
    hide Inv, Enabled, Apply;
    if k > 0 {
      RunsAreBounded(cfg, states, actions, k - 1);
      InvOfRun(cfg, states, actions, k - 1);
      BudgetShrinks(cfg, states[k - 1], actions[k - 1]);
    } else {
      InitBudget(cfg);
    }
  }

  lemma InitBudget(cfg: Config)
    ensures Budget(cfg, Init(cfg)) == 3 * |cfg.sources| + 18
  {
  }

  // ----- the main results -----

  lemma {:induction false} UpIndexFrom(up: seq<Up>, x: nat) returns (j: nat)
    requires x in UpIndices(up)
    ensures j < |up| && up[j].Ask? && up[j].i == x
  {
    if up[0].Ask? && up[0].i == x {
      j := 0;
    } else {
      j := UpIndexFrom(up[1..], x);
      j := j + 1;
    }
  }

  lemma {:induction false} DownIndexFrom(down: seq<Down>, x: nat) returns (j: nat)
    requires x in DownIndices(down)
    ensures j < |down| && down[j].File? && down[j].i == x
  {
    if down[0].File? && down[0].i == x {
      j := 0;
    } else {
      j := DownIndexFrom(down[1..], x);
      j := j + 1;
    }
  }

  /** At any moment of any run, failed or not, a destination file is untouched or settled, never in between. */
  lemma UntouchedOrSettled(cfg: Config, states: seq<State>, actions: seq<Action>, k: nat, i: nat)
    requires WellFormed(cfg) && Run(cfg, states, actions) && k < |states| && i < |cfg.sources|
    ensures |states[k].dest| == |cfg.sources|
    ensures states[k].dest[i] == cfg.initial[i] || Settled(cfg, i, states[k].dest[i])
  {
    hide Run, Settled, Trusted, InPhase, InStep, RequestFor;
    InvOfRun(cfg, states, actions, k);
    var s := states[k];
    if i in InFlight(s) {
      if i in DownIndices(s.down) {
        var j := DownIndexFrom(s.down, i);
        assert GoodFile(cfg, s.dest, s.down[j]);
      } else {
        var j := UpIndexFrom(s.up, i);
        assert GoodAsk(cfg, s.dest, s.up[j]);
      }
    }
  }

  lemma NothingInFlight(cfg: Config, s: State)
    requires InPhase(cfg, s) && Finished(s)
    ensures s.up == [] && InFlight(s) == []
    ensures s.down == if cfg.serverSender && cfg.noReport then [Stats] else []
    ensures s.gi == |cfg.sources|
  {
    NoUpMarks(s.up);
    NoDownMarks(s.down);
    assert s.up == [];
    assert forall j | 0 <= j < |s.down| :: s.down[j].Stats?;
    assert UpIndices([]) == [] && DownIndices(s.down) == [] by {
      assert s.down == [] || s.down == [Stats];
      assert [Stats][1..] == [];
    }
    if s.down == [] {
      assert !HasStats(s.down);
    } else {
      assert HasStats(s.down) && s.down == [Stats];
    }
  }

  /**
   * A completed run: both connections are empty, every requested file that did not vanish was received,
   * in order, and every listed file equals its source.
   */
  lemma CompletedRun(cfg: Config, states: seq<State>, actions: seq<Action>)
    requires WellFormed(cfg) && Run(cfg, states, actions)
    requires Trusted(cfg) && cfg.serverSender == !cfg.noReport
    requires !CanMove(cfg, states[|actions|])
    ensures var s := states[|actions|];
            && Finished(s) && !Failed(s) && s.up == [] && s.down == []
            && s.received == Without(s.asked, s.vanished)
            && |s.dest| == |cfg.sources|
            && forall i | 0 <= i < |cfg.sources| ::
                 s.dest[i] == if i in s.vanished then cfg.initial[i] else Some(cfg.sources[i])
  {
    hide Enabled, Apply, CanMove, BasesUnchanged, InPhase;
    var s := states[|actions|];
    InvOfRun(cfg, states, actions, |actions|);
    Progress(cfg, s);
    NothingInFlight(cfg, s);
    assert s.received + [] == s.received;
  }

  /** Expecting stats from a sender that is no server: the run never finishes. */
  lemma {:induction false} NoStatsNoFinish(cfg: Config, states: seq<State>, actions: seq<Action>, k: nat)
    requires WellFormed(cfg) && Run(cfg, states, actions) && k < |states|
    requires !cfg.serverSender && !cfg.noReport
    ensures states[k].dphase == 0 && !Finished(states[k])
  {
    hide Inv, Enabled, Apply;
    if k == 0 {
    } else {
      NoStatsNoFinish(cfg, states, actions, k - 1);
      InvOfRun(cfg, states, actions, k - 1);
      NoReportStep(cfg, states[k - 1], actions[k - 1]);
    }
  }

  lemma NoReportStep(cfg: Config, s: State, a: Action)
    requires WellFormed(cfg) && Inv(cfg, s) && Enabled(cfg, s, a)
    requires !cfg.serverSender && !cfg.noReport && s.dphase == 0
    ensures Apply(cfg, s, a).dphase == 0
  {
    hide BasesUnchanged, Results, InStep, UpInPhase, DownInPhase, Skips, RequestFor, ReplyFor, Outcome, FileDigest;
    NoStatsSent(cfg, s.down, s.sphase, s.rphase);
  }

  lemma NoStatsSent(cfg: Config, down: seq<Down>, sphase: nat, rphase: nat)
    requires DownInPhase(cfg, down, sphase, rphase, 0) && !cfg.serverSender
    ensures down != [] ==> !down[0].Stats?
  {
    hide DownMarks;
    assert !HasStats(down);
  }

  /** Sending stats nobody reads leaves them on the connection of a finished run. */
  lemma UnreadStatsRemain(cfg: Config, states: seq<State>, actions: seq<Action>)
    requires WellFormed(cfg) && Run(cfg, states, actions) && Finished(states[|actions|])
    ensures states[|actions|].down == [] <==> cfg.serverSender == !cfg.noReport
  {
    hide Enabled, Apply, InPhase, BasesUnchanged, Results, InStep;
    InvOfRun(cfg, states, actions, |actions|);
    NothingInFlight(cfg, states[|actions|]);
    if !cfg.serverSender && !cfg.noReport {
      NoStatsNoFinish(cfg, states, actions, |actions|);
    }
  }
}
