/** What every step of the protocol keeps, and what follows for whole runs. */
module ProtocolSafety {
  import opened Bytes
  import opened Checksum
  import opened Protocol

  // ----- what is on the two connections -----

  ghost function UpIndices(up: seq<Up>): seq<nat> {
    if up == [] then [] else (if up[0].Ask? then [up[0].i] else []) + UpIndices(up[1..])
  }

  ghost function DownIndices(down: seq<Down>): seq<nat> {
    if down == [] then [] else (if down[0].File? then [down[0].i] else []) + DownIndices(down[1..])
  }

  ghost function UpMarks(up: seq<Up>): nat {
    if up == [] then 0 else (if up[0].UpDone? then 1 else 0) + UpMarks(up[1..])
  }

  ghost function DownMarks(down: seq<Down>): nat {
    if down == [] then 0 else (if down[0].DownDone? then 1 else 0) + DownMarks(down[1..])
  }

  lemma {:induction false} UpSnoc(up: seq<Up>, m: Up)
    ensures UpMarks(up + [m]) == UpMarks(up) + (if m.UpDone? then 1 else 0)
    ensures UpIndices(up + [m]) == UpIndices(up) + (if m.Ask? then [m.i] else [])
  {
    if up == [] {
      assert [m][1..] == [];
    } else {
      UpSnoc(up[1..], m);
      assert (up + [m])[1..] == up[1..] + [m];
    }
  }

  lemma {:induction false} DownSnoc(down: seq<Down>, m: Down)
    ensures DownMarks(down + [m]) == DownMarks(down) + (if m.DownDone? then 1 else 0)
    ensures DownIndices(down + [m]) == DownIndices(down) + (if m.File? then [m.i] else [])
  {
    if down == [] {
      assert [m][1..] == [];
    } else {
      DownSnoc(down[1..], m);
      assert (down + [m])[1..] == down[1..] + [m];
    }
  }

  lemma {:induction false} NoUpMarks(up: seq<Up>)
    ensures UpMarks(up) == 0 <==> forall j | 0 <= j < |up| :: up[j].Ask?
  {
    if up == [] {
    } else {
      NoUpMarks(up[1..]);
      assert forall j | 0 < j < |up| :: up[j] == up[1..][j - 1];
      assert forall j | 0 <= j < |up| - 1 :: up[1..][j] == up[j + 1];
    }
  }

  lemma {:induction false} NoDownMarks(down: seq<Down>)
    ensures DownMarks(down) == 0 <==> forall j | 0 <= j < |down| :: !down[j].DownDone?
  {
    if down == [] {
    } else {
      NoDownMarks(down[1..]);
      assert forall j | 0 < j < |down| :: down[j] == down[1..][j - 1];
      assert forall j | 0 <= j < |down| - 1 :: down[1..][j] == down[j + 1];
    }
  }

  lemma {:induction false} UpIndexOf(up: seq<Up>, j: nat)
    requires j < |up| && up[j].Ask?
    ensures up[j].i in UpIndices(up)
  {
    if j == 0 {
    } else {
      UpIndexOf(up[1..], j - 1);
    }
  }

  lemma {:induction false} DownIndexOf(down: seq<Down>, j: nat)
    requires j < |down| && down[j].File?
    ensures down[j].i in DownIndices(down)
  {
    if j == 0 {
    } else {
      DownIndexOf(down[1..], j - 1);
    }
  }

  // ----- phases -----

  ghost function PhaseMarks(sphase: nat): nat {
    (if sphase < 2 then sphase else 2) + (if sphase == 4 then 1 else 0)
  }

  ghost predicate HasStats(down: seq<Down>) {
    down != [] && down[|down| - 1].Stats?
  }

  /** Requests come before the -1 marks, and the marks sent are those answered or still on the way. */
  ghost predicate UpInPhase(up: seq<Up>, gphase: nat, sphase: nat, dphase: nat) {
    && (forall j | 0 <= j < |up| :: up[j].Ask? ==> sphase == 0 && forall k | 0 <= k < j :: up[k].Ask?)
    && UpMarks(up) + PhaseMarks(sphase) == gphase + (if dphase == 2 then 1 else 0)
  }

  /** Replies come before their -1 marks and stats last, and the marks answered are those seen or on the way. */
  ghost predicate DownInPhase(cfg: Config, down: seq<Down>, sphase: nat, rphase: nat, dphase: nat) {
    && (forall j | 0 <= j < |down| :: down[j].File? ==> rphase == 0 && forall k | 0 <= k < j :: down[k].File?)
    && (forall j | 0 <= j < |down| :: down[j].Stats? ==> j == |down| - 1)
    && DownMarks(down) + rphase == (if sphase < 2 then sphase else 2)
    && (HasStats(down) <==> cfg.serverSender && sphase >= 3 && !(dphase >= 1 && !cfg.noReport))
  }

  ghost predicate InPhase(cfg: Config, s: State) {
    && |s.dest| == |cfg.sources|
    && s.gi <= |cfg.sources| && s.gphase <= 2 && s.sphase <= 4 && s.rphase <= 2 && s.dphase <= 2
    && (s.gphase > 0 ==> s.gi == |cfg.sources|)
    && (s.dphase > 0 ==> s.gphase == 2 && s.rphase == 2)
    && (s.dphase > 0 && !cfg.noReport ==> s.sphase >= 3)
    && (s.sndFailed && !s.rcvFailed ==> s.sphase < 2)
    && UpInPhase(s.up, s.gphase, s.sphase, s.dphase)
    && DownInPhase(cfg, s.down, s.sphase, s.rphase, s.dphase)
  }

  lemma InitInPhase(cfg: Config)
    requires WellFormed(cfg)
    ensures InPhase(cfg, Init(cfg))
  {
  }

  // What may be written to the sender...

  lemma UpAsked(up: seq<Up>, m: Up, sphase: nat, dphase: nat)
    requires UpInPhase(up, 0, sphase, dphase) && dphase < 2 && m.Ask?
    ensures UpInPhase(up + [m], 0, sphase, dphase)
  {
    NoUpMarks(up);
    UpSnoc(up, m);
  }

  lemma UpMarked(up: seq<Up>, gphase: nat, sphase: nat, dphase: nat)
    requires UpInPhase(up, gphase, sphase, dphase) && dphase < 2
    ensures UpInPhase(up + [UpDone], gphase + 1, sphase, dphase)
    ensures dphase == 1 ==> UpInPhase(up + [UpDone], gphase, sphase, 2)
  {
    hide UpMarks, PhaseMarks;
    UpSnoc(up, UpDone);
  }

  // ...and what it makes of it.

  lemma UpTaken(up: seq<Up>, gphase: nat, sphase: nat, dphase: nat)
    requires UpInPhase(up, gphase, sphase, dphase) && up != []
    ensures up[0].Ask? ==> UpInPhase(up[1..], gphase, sphase, dphase)
    ensures up[0].UpDone? && sphase < 2 ==> UpInPhase(up[1..], gphase, sphase + 1, dphase)
    ensures up[0].UpDone? && sphase == 3 ==> UpInPhase(up[1..], gphase, 4, dphase)
  {
    assert forall j | 0 <= j < |up| - 1 :: up[1..][j] == up[j + 1];
  }

  // What it may write to the receiver...

  lemma NoStatsYet(cfg: Config, down: seq<Down>, sphase: nat, rphase: nat, dphase: nat)
    requires DownInPhase(cfg, down, sphase, rphase, dphase) && sphase < 3
    ensures forall j | 0 <= j < |down| :: !down[j].Stats?
  {
    hide DownMarks;
    assert !HasStats(down);
  }

  lemma DownServed(cfg: Config, down: seq<Down>, m: Down, rphase: nat, dphase: nat)
    requires DownInPhase(cfg, down, 0, rphase, dphase) && m.File?
    ensures DownInPhase(cfg, down + [m], 0, rphase, dphase)
  {
    hide DownMarks;
    NoStatsYet(cfg, down, 0, rphase, dphase);
    NoDownMarks(down);
    DownSnoc(down, m);
  }

  lemma DownAnswered(cfg: Config, down: seq<Down>, sphase: nat, rphase: nat, dphase: nat)
    requires DownInPhase(cfg, down, sphase, rphase, dphase) && sphase < 2
    ensures DownInPhase(cfg, down + [DownDone], sphase + 1, rphase, dphase)
  {
    hide DownMarks;
    DownSnoc(down, DownDone);
    NoStatsYet(cfg, down, sphase, rphase, dphase);
  }

  lemma DownReported(cfg: Config, down: seq<Down>, rphase: nat)
    requires DownInPhase(cfg, down, 2, rphase, 0)
    ensures DownInPhase(cfg, if cfg.serverSender then down + [Stats] else down, 3, rphase, 0)
  {
    hide DownMarks;
    DownSnoc(down, Stats);
    NoStatsYet(cfg, down, 2, rphase, 0);
  }

  // ...and what the receiver makes of it.

  lemma DownTaken(cfg: Config, down: seq<Down>, sphase: nat, rphase: nat, dphase: nat)
    requires DownInPhase(cfg, down, sphase, rphase, dphase) && down != []
    ensures down[0].File? ==> DownInPhase(cfg, down[1..], sphase, rphase, dphase)
    ensures down[0].DownDone? ==> DownInPhase(cfg, down[1..], sphase, rphase + 1, dphase)
    ensures down[0].Stats? && dphase == 0 && !cfg.noReport ==> DownInPhase(cfg, down[1..], sphase, rphase, 1)
  {
    assert forall j | 0 <= j < |down| - 1 :: down[1..][j] == down[j + 1];
    assert !down[0].Stats? ==> HasStats(down[1..]) == HasStats(down);
  }

  lemma DownUnread(cfg: Config, down: seq<Down>, sphase: nat, rphase: nat)
    requires DownInPhase(cfg, down, sphase, rphase, 0) && cfg.noReport
    ensures DownInPhase(cfg, down, sphase, rphase, 1)
  {
  }

  lemma PhaseOfGenerator(cfg: Config, s: State, a: Action)
    requires WellFormed(cfg) && InPhase(cfg, s) && Enabled(cfg, s, a)
    requires a.GenSkip? || a.GenAsk? || a.GenDone?
    ensures InPhase(cfg, Apply(cfg, s, a))
  {
    hide RequestFor, Skips, UpInPhase, DownInPhase;
    if a.GenAsk? {
      UpAsked(s.up, Ask(s.gi, a.head, a.sums), s.sphase, s.dphase);
    } else if a.GenDone? {
      UpMarked(s.up, s.gphase, s.sphase, s.dphase);
    }
  }

  lemma PhaseOfSender(cfg: Config, s: State, a: Action)
    requires WellFormed(cfg) && InPhase(cfg, s) && Enabled(cfg, s, a) && SenderActs(a)
    ensures InPhase(cfg, Apply(cfg, s, a))
  {
    hide ReplyFor, FileDigest, UpInPhase, DownInPhase;
    var t := Apply(cfg, s, a);
    if s.up != [] {
      UpTaken(s.up, s.gphase, s.sphase, s.dphase);
    }
    if a.SndServe? {
      AskInFirstPhase(s.up, s.gphase, s.sphase, s.dphase);
      DownServed(cfg, s.down, t.down[|s.down|], s.rphase, s.dphase);
    } else if a.SndDone? {
      DownAnswered(cfg, s.down, s.sphase, s.rphase, s.dphase);
    } else if a.SndStats? {
      StatsSent(cfg, s);
    } else if a.SndFinish? {
      NoAskLater(s.up, s.gphase, s.sphase, s.dphase);
      DownAfterStats(cfg, s.down, s.rphase, s.dphase);
    }
  }

  lemma AskInFirstPhase(up: seq<Up>, gphase: nat, sphase: nat, dphase: nat)
    requires UpInPhase(up, gphase, sphase, dphase) && up != [] && up[0].Ask?
    ensures sphase == 0
  {
    hide UpMarks;
  }

  lemma NoAskLater(up: seq<Up>, gphase: nat, sphase: nat, dphase: nat)
    requires UpInPhase(up, gphase, sphase, dphase) && up != [] && sphase > 0
    ensures up[0].UpDone?
  {
    hide UpMarks;
  }

  lemma DownAfterStats(cfg: Config, down: seq<Down>, rphase: nat, dphase: nat)
    requires DownInPhase(cfg, down, 3, rphase, dphase)
    ensures DownInPhase(cfg, down, 4, rphase, dphase)
  {
    hide DownMarks;
  }

  lemma StatsSent(cfg: Config, s: State)
    requires InPhase(cfg, s) && s.sphase == 2
    ensures UpInPhase(s.up, s.gphase, 3, s.dphase)
    ensures DownInPhase(cfg, if cfg.serverSender then s.down + [Stats] else s.down, 3, s.rphase, s.dphase)
  {
    hide UpMarks, DownMarks;
    if s.dphase == 0 {
      DownReported(cfg, s.down, s.rphase);
    } else {
      DownSnoc(s.down, Stats);
      NoStatsYet(cfg, s.down, 2, s.rphase, s.dphase);
    }
  }

  lemma PhaseOfReceiver(cfg: Config, s: State, a: Action)
    requires WellFormed(cfg) && InPhase(cfg, s) && Enabled(cfg, s, a) && ReceiverActs(a)
    ensures InPhase(cfg, Apply(cfg, s, a))
  {
    hide Outcome, UpInPhase, DownInPhase;
    if s.down != [] {
      DownTaken(cfg, s.down, s.sphase, s.rphase, s.dphase);
    }
    if a.Report? {
      ReportRead(cfg, s);
    } else if a.Goodbye? {
      UpMarked(s.up, s.gphase, s.sphase, s.dphase);
      DownAtGoodbye(cfg, s.down, s.sphase, s.rphase);
    }
  }

  lemma ReportRead(cfg: Config, s: State)
    requires InPhase(cfg, s) && s.dphase == 0 && (cfg.noReport || (s.down != [] && s.down[0].Stats?))
    ensures UpInPhase(s.up, s.gphase, s.sphase, 1)
    ensures DownInPhase(cfg, if cfg.noReport then s.down else s.down[1..], s.sphase, s.rphase, 1)
    ensures !cfg.noReport ==> s.sphase >= 3
  {
    hide UpMarks;
    if cfg.noReport {
      DownUnread(cfg, s.down, s.sphase, s.rphase);
    } else {
      DownTaken(cfg, s.down, s.sphase, s.rphase, 0);
    }
  }

  lemma DownAtGoodbye(cfg: Config, down: seq<Down>, sphase: nat, rphase: nat)
    requires DownInPhase(cfg, down, sphase, rphase, 1)
    ensures DownInPhase(cfg, down, sphase, rphase, 2)
  {
    hide DownMarks;
  }

  lemma PhaseKept(cfg: Config, s: State, a: Action)
    requires WellFormed(cfg) && InPhase(cfg, s) && Enabled(cfg, s, a)
    ensures InPhase(cfg, Apply(cfg, s, a))
  {
    hide InPhase, Enabled, Apply;
    if SenderActs(a) {
      PhaseOfSender(cfg, s, a);
    } else if ReceiverActs(a) {
      PhaseOfReceiver(cfg, s, a);
    } else {
      PhaseOfGenerator(cfg, s, a);
    }
  }

  // ----- files in flight -----

  /** Indices requested but not yet received, oldest first. */
  ghost function InFlight(s: State): seq<nat> {
    DownIndices(s.down) + UpIndices(s.up)
  }

  ghost predicate Increasing(q: seq<nat>) {
    forall i, j | 0 <= i < j < |q| :: q[i] < q[j]
  }

  /** A request whose sums are those of the file as it was, and still is. */
  ghost predicate GoodAsk(cfg: Config, dest: seq<Option<seq<byte>>>, m: Up)
    requires WellFormed(cfg) && |dest| == |cfg.sources|
  {
    m.Ask? ==> m.i < |cfg.sources| && dest[m.i] == cfg.initial[m.i] && RequestFor(cfg, cfg.initial[m.i], m.head, m.sums)
  }

  /** A reply computed from such a request. */
  ghost predicate GoodFile(cfg: Config, dest: seq<Option<seq<byte>>>, m: Down)
    requires WellFormed(cfg) && |dest| == |cfg.sources|
  {
    m.File? ==>
      && m.i < |cfg.sources| && dest[m.i] == cfg.initial[m.i]
      && m.digest == FileDigest(cfg.md4, cfg.seed, cfg.sources[m.i])
      && exists head, sums :: RequestFor(cfg, cfg.initial[m.i], head, sums)
                              && ReplyFor(cfg, cfg.sources[m.i], head, sums, m.head, m.toks)
  }

  /** The basis of every file in flight is unchanged since its sums were taken. */
  ghost predicate BasesUnchanged(cfg: Config, s: State)
    requires WellFormed(cfg)
  {
    && |s.dest| == |cfg.sources|
    && Increasing(InFlight(s))
    && AllBelow(InFlight(s), s.gi)
    && (forall j | 0 <= j < |s.up| :: GoodAsk(cfg, s.dest, s.up[j]))
    && (forall j | 0 <= j < |s.down| :: GoodFile(cfg, s.dest, s.down[j]))
    && (forall i | s.gi <= i < |s.dest| :: s.dest[i] == cfg.initial[i])
  }

  lemma AskKeepsBases(cfg: Config, s: State, a: Action)
    requires WellFormed(cfg) && BasesUnchanged(cfg, s) && Enabled(cfg, s, a) && a.GenAsk?
    ensures BasesUnchanged(cfg, Apply(cfg, s, a))
  {
    hide RequestFor, Skips, GoodFile;
    UpSnoc(s.up, Ask(s.gi, a.head, a.sums));
    var t := Apply(cfg, s, a);
    assert InFlight(t) == InFlight(s) + [s.gi];
  }

  /** Neither files nor requests and replies differ; only marks may come or go, and the generator move on. */
  ghost predicate SameInFlight(s: State, t: State) {
    && t.dest == s.dest && s.gi <= t.gi
    && UpIndices(t.up) == UpIndices(s.up) && DownIndices(t.down) == DownIndices(s.down)
    && (forall j | 0 <= j < |t.up| :: t.up[j].Ask? ==> t.up[j] in s.up)
    && (forall j | 0 <= j < |t.down| :: t.down[j].File? ==> t.down[j] in s.down)
  }

  lemma SameKeepsBases(cfg: Config, s: State, t: State)
    requires WellFormed(cfg) && BasesUnchanged(cfg, s) && SameInFlight(s, t)
    ensures BasesUnchanged(cfg, t) && InFlight(t) == InFlight(s)
  {
    hide RequestFor, ReplyFor, FileDigest, UpIndices, DownIndices, Increasing;
    forall j | 0 <= j < |t.up|
      ensures GoodAsk(cfg, t.dest, t.up[j])
    {
      if t.up[j].Ask? {
        var k :| 0 <= k < |s.up| && s.up[k] == t.up[j];
        assert GoodAsk(cfg, s.dest, s.up[k]);
      }
    }
    forall j | 0 <= j < |t.down|
      ensures GoodFile(cfg, t.dest, t.down[j])
    {
      if t.down[j].File? {
        var k :| 0 <= k < |s.down| && s.down[k] == t.down[j];
        assert GoodFile(cfg, s.dest, s.down[k]);
      }
    }
  }

  lemma MarkSent(up: seq<Up>, down: seq<Down>)
    ensures UpIndices(up + [UpDone]) == UpIndices(up)
    ensures DownIndices(down + [DownDone]) == DownIndices(down) && DownIndices(down + [Stats]) == DownIndices(down)
  {
    UpSnoc(up, UpDone);
    DownSnoc(down, DownDone);
    DownSnoc(down, Stats);
  }

  lemma MarkTaken(up: seq<Up>, down: seq<Down>)
    ensures up != [] && up[0].UpDone? ==> UpIndices(up[1..]) == UpIndices(up)
    ensures down != [] && !down[0].File? ==> DownIndices(down[1..]) == DownIndices(down)
  {
  }

  lemma MarksOnly(cfg: Config, s: State, a: Action)
    requires WellFormed(cfg) && Enabled(cfg, s, a)
    requires !a.GenAsk? && !a.SndServe? && !a.SndVanish? && !a.RcvFile?
    ensures SameInFlight(s, Apply(cfg, s, a))
  {
    hide Skips, UpIndices, DownIndices;
    MarkSent(s.up, s.down);
    MarkTaken(s.up, s.down);
  }

  lemma OthersKeepBases(cfg: Config, s: State, a: Action)
    requires WellFormed(cfg) && BasesUnchanged(cfg, s) && Enabled(cfg, s, a)
    requires !a.GenAsk? && !a.SndServe? && !a.SndVanish? && !a.RcvFile?
    ensures BasesUnchanged(cfg, Apply(cfg, s, a))
    ensures InFlight(Apply(cfg, s, a)) == InFlight(s)
  {
    hide BasesUnchanged, Enabled, Apply, SameInFlight, InFlight;
    MarksOnly(cfg, s, a);
    SameKeepsBases(cfg, s, Apply(cfg, s, a));
  }

  lemma ServeKeepsBases(cfg: Config, s: State, a: Action)
    requires WellFormed(cfg) && BasesUnchanged(cfg, s) && Enabled(cfg, s, a) && a.SndServe?
    ensures BasesUnchanged(cfg, Apply(cfg, s, a))
    ensures InFlight(Apply(cfg, s, a)) == InFlight(s)
  {
    hide ReplyFor, RequestFor, FileDigest;
    var t := Apply(cfg, s, a);
    var m := t.down[|s.down|];
    DownSnoc(s.down, m);
    ConcatAssoc(DownIndices(s.down), [m.i], UpIndices(t.up));
    assert GoodAsk(cfg, s.dest, s.up[0]);
    assert GoodFile(cfg, t.dest, m);
  }

  lemma VanishKeepsBases(cfg: Config, s: State, a: Action)
    requires WellFormed(cfg) && BasesUnchanged(cfg, s) && Enabled(cfg, s, a) && a.SndVanish?
    ensures BasesUnchanged(cfg, Apply(cfg, s, a))
  {
    hide GoodAsk, GoodFile, RequestFor, ReplyFor, Skips, Increasing, UpIndices, DownIndices;
    var t := Apply(cfg, s, a);
    var before, i, after := DownIndices(s.down), s.up[0].i, UpIndices(t.up);
    NextIndex(s.up);
    assert InFlight(s) == before + ([i] + after) && InFlight(t) == before + after;
    OneOut(before, i, after, s.gi);
    assert forall j | 0 <= j < |t.up| :: t.up[j] == s.up[j + 1];
  }

  lemma NextIndex(up: seq<Up>)
    requires up != [] && up[0].Ask?
    ensures UpIndices(up) == [up[0].i] + UpIndices(up[1..])
  {
  }

  ghost predicate AllBelow(q: seq<nat>, bound: nat) {
    forall k | 0 <= k < |q| :: q[k] < bound
  }

  lemma OneOut(before: seq<nat>, i: nat, after: seq<nat>, bound: nat)
    requires Increasing(before + ([i] + after)) && AllBelow(before + ([i] + after), bound)
    ensures Increasing(before + after) && AllBelow(before + after, bound)
  {
    StillIncreasing(before, i, after);
    var q, r := before + ([i] + after), before + after;
    forall j | 0 <= j < |r|
      ensures r[j] < bound
    {
      assert q[if j < |before| then j else j + 1] == r[j];
    }
  }

  lemma StillIncreasing(before: seq<nat>, i: nat, after: seq<nat>)
    requires Increasing(before + ([i] + after))
    ensures Increasing(before + after)
  {
    var q, r := before + ([i] + after), before + after;
    forall j, k | 0 <= j < k < |r|
      ensures r[j] < r[k]
    {
      assert q[if j < |before| then j else j + 1] == r[j] && q[if k < |before| then k else k + 1] == r[k];
    }
  }

  lemma AskElsewhere(cfg: Config, was: seq<Option<seq<byte>>>, now: seq<Option<seq<byte>>>, m: Up)
    requires WellFormed(cfg) && |was| == |now| == |cfg.sources| && GoodAsk(cfg, was, m)
    requires m.Ask? && m.i < |was| ==> now[m.i] == was[m.i]
    ensures GoodAsk(cfg, now, m)
  {
    hide RequestFor;
  }

  lemma FileElsewhere(cfg: Config, was: seq<Option<seq<byte>>>, now: seq<Option<seq<byte>>>, m: Down)
    requires WellFormed(cfg) && |was| == |now| == |cfg.sources| && GoodFile(cfg, was, m)
    requires m.File? && m.i < |was| ==> now[m.i] == was[m.i]
    ensures GoodFile(cfg, now, m)
  {
    hide RequestFor, ReplyFor, FileDigest;
  }

  /** The received file is the oldest in flight. */
  lemma FileTaken(cfg: Config, s: State, a: Action)
    requires WellFormed(cfg) && Enabled(cfg, s, a) && a.RcvFile? && !Apply(cfg, s, a).rcvFailed
    ensures var t := Apply(cfg, s, a);
            && t.up == s.up && t.down == s.down[1..] && t.gi == s.gi && |t.dest| == |s.dest|
            && (forall i | 0 <= i < |s.dest| && i != s.down[0].i :: t.dest[i] == s.dest[i])
            && InFlight(s) == [s.down[0].i] + InFlight(t)
  {
    hide Outcome;
  }

  lemma FileKeepsBases(cfg: Config, s: State, a: Action)
    requires WellFormed(cfg) && BasesUnchanged(cfg, s) && Enabled(cfg, s, a) && a.RcvFile?
    ensures BasesUnchanged(cfg, Apply(cfg, s, a))
    ensures !Apply(cfg, s, a).rcvFailed ==> InFlight(s) == [s.down[0].i] + InFlight(Apply(cfg, s, a))
  {
    hide Outcome, FileDigest, GoodAsk, GoodFile, RequestFor, ReplyFor, Skips;
    var t := Apply(cfg, s, a);
    if t.rcvFailed {
      assert t == s.(rcvFailed := true);
    } else {
      FileTaken(cfg, s, a);
      TakingKeepsBases(cfg, s, t);
    }
  }

  lemma TakingKeepsBases(cfg: Config, s: State, t: State)
    requires WellFormed(cfg) && BasesUnchanged(cfg, s) && s.down != [] && s.down[0].File? && s.down[0].i < |s.dest|
    requires t.up == s.up && t.down == s.down[1..] && t.gi == s.gi && |t.dest| == |s.dest|
    requires forall i | 0 <= i < |s.dest| && i != s.down[0].i :: t.dest[i] == s.dest[i]
    requires InFlight(s) == [s.down[0].i] + InFlight(t)
    ensures BasesUnchanged(cfg, t)
  {
    hide GoodAsk, GoodFile;
    var i := s.down[0].i;
    assert InFlight(s)[1..] == InFlight(t) && InFlight(s)[0] == i;
    assert forall k | 0 <= k < |InFlight(t)| :: InFlight(t)[k] == InFlight(s)[k + 1];
    forall j | 0 <= j < |t.up|
      ensures GoodAsk(cfg, t.dest, t.up[j])
    {
      if t.up[j].Ask? {
        UpIndexOf(t.up, j);
        LaterInFlight(i, InFlight(s), t.up[j].i);
      }
      AskElsewhere(cfg, s.dest, t.dest, t.up[j]);
    }
    forall j | 0 <= j < |t.down|
      ensures GoodFile(cfg, t.dest, t.down[j])
    {
      if t.down[j].File? {
        DownIndexOf(t.down, j);
        LaterInFlight(i, InFlight(s), t.down[j].i);
      }
      FileElsewhere(cfg, s.dest, t.dest, s.down[j + 1]);
    }
  }

  lemma LaterInFlight(i: nat, q: seq<nat>, x: nat)
    requires Increasing(q) && q != [] && q[0] == i && x in q[1..]
    ensures x != i
  {
  }

  lemma BasesKept(cfg: Config, s: State, a: Action)
    requires WellFormed(cfg) && BasesUnchanged(cfg, s) && Enabled(cfg, s, a)
    ensures BasesUnchanged(cfg, Apply(cfg, s, a))
  {
    hide BasesUnchanged, Enabled, Apply, InFlight;
    if a.GenAsk? {
      AskKeepsBases(cfg, s, a);
    } else if a.SndServe? {
      ServeKeepsBases(cfg, s, a);
    } else if a.SndVanish? {
      VanishKeepsBases(cfg, s, a);
    } else if a.RcvFile? {
      FileKeepsBases(cfg, s, a);
    } else {
      OthersKeepBases(cfg, s, a);
    }
  }
}
