/** Whole runs on the bytes of the two connections: every step reads from the front and writes to the end. */
module ProtocolWire {
  import opened Bytes
  import opened Checksum
  import opened Protocol
  import opened ProtocolBytes
  import opened ProtocolRuns
  import opened ProtocolSafety
  import opened Receiver
  import opened Sender
  import opened Session
  import opened SumHeads
  import opened Sums
  import opened Tokens

  /** The three counters of handle_stats. */
  datatype Counters = Counters(read: int64, written: int64, size: int64)

  function PutReport(r: Counters): seq<byte> {
    PutInt64(r.read) + (PutInt64(r.written) + PutInt64(r.size))
  }

  function ParseReport(s: seq<byte>): Result<(Counters, seq<byte>)> {
    var (read, s1) :- ParseInt64(s);
    var (written, s2) :- ParseInt64(s1);
    var (size, s3) :- ParseInt64(s2);
    Ok((Counters(read, written, size), s3))
  }

  lemma ParsePutReport(r: Counters, rest: seq<byte>)
    ensures ParseReport(PutReport(r) + rest) == Ok((r, rest))
  {
    hide PutInt64, ParseInt64;
    ConcatAssoc(PutInt64(r.read), PutInt64(r.written) + PutInt64(r.size), rest);
    ConcatAssoc(PutInt64(r.written), PutInt64(r.size), rest);
    ParsePutInt64(r.read, PutInt64(r.written) + (PutInt64(r.size) + rest));
    ParsePutInt64(r.written, PutInt64(r.size) + rest);
    ParsePutInt64(r.size, rest);
  }

  ghost predicate Askable(m: Up) {
    m.Ask? ==> m.i < 0x8000_0000
  }

  ghost predicate Tellable(m: Down) {
    m.File? ==> m.i < 0x8000_0000 && AllSendable(m.toks) && Acceptable(m.head)
  }

  ghost function PutUp(m: Up): seq<byte>
    requires Askable(m)
  {
    if m.Ask? then AskBytes(m) else PutInt32(-1)
  }

  ghost function PutDown(m: Down, report: Counters): seq<byte>
    requires Tellable(m)
  {
    match m
    case File(_, _, _, _) => FileBytes(m)
    case DownDone => PutInt32(-1)
    case Stats => PutReport(report)
  }

  ghost predicate AllAskable(up: seq<Up>) {
    forall j | 0 <= j < |up| :: Askable(up[j])
  }

  ghost predicate AllTellable(down: seq<Down>) {
    forall j | 0 <= j < |down| :: Tellable(down[j])
  }

  /** The bytes on the connection to the sender. */
  ghost function UpWire(up: seq<Up>): seq<byte>
    requires AllAskable(up)
  {
    if up == [] then [] else PutUp(up[0]) + UpWire(up[1..])
  }

  /** The bytes on the connection to the receiver. */
  ghost function DownWire(down: seq<Down>, report: Counters): seq<byte>
    requires AllTellable(down)
  {
    if down == [] then [] else PutDown(down[0], report) + DownWire(down[1..], report)
  }

  lemma {:induction false} UpWireSnoc(up: seq<Up>, m: Up)
    requires AllAskable(up) && Askable(m)
    ensures AllAskable(up + [m]) && UpWire(up + [m]) == UpWire(up) + PutUp(m)
  {
    hide PutUp, Askable;
    if up == [] {
      assert [m][1..] == [] && [] + PutUp(m) == PutUp(m) + [];
    } else {
      assert (up + [m])[1..] == up[1..] + [m];
      UpWireSnoc(up[1..], m);
      ConcatAssoc(PutUp(up[0]), UpWire(up[1..]), PutUp(m));
    }
  }

  lemma {:induction false} DownWireSnoc(down: seq<Down>, m: Down, report: Counters)
    requires AllTellable(down) && Tellable(m)
    ensures AllTellable(down + [m]) && DownWire(down + [m], report) == DownWire(down, report) + PutDown(m, report)
  {
    hide PutDown, Tellable;
    if down == [] {
      assert [m][1..] == [] && [] + PutDown(m, report) == PutDown(m, report) + [];
    } else {
      assert (down + [m])[1..] == down[1..] + [m];
      DownWireSnoc(down[1..], m, report);
      ConcatAssoc(PutDown(down[0], report), DownWire(down[1..], report), PutDown(m, report));
    }
  }

  /** In every reachable state what is on the connections has bytes. */
  lemma WireExists(cfg: Config, s: State)
    requires WellFormed(cfg) && |cfg.sources| < 0x8000_0000 && BasesUnchanged(cfg, s)
    ensures AllAskable(s.up) && AllTellable(s.down)
  {
    hide InFlight, RequestFor, FileDigest;
    forall j | 0 <= j < |s.up|
      ensures Askable(s.up[j])
    {
      assert GoodAsk(cfg, s.dest, s.up[j]);
    }
    forall j | 0 <= j < |s.down|
      ensures Tellable(s.down[j])
    {
      assert GoodFile(cfg, s.dest, s.down[j]);
      if s.down[j].File? {
        GoodFileIsTellable(cfg, s.dest, s.down[j]);
      }
    }
  }

  lemma GoodFileIsTellable(cfg: Config, dest: seq<Option<seq<byte>>>, m: Down)
    requires WellFormed(cfg) && |dest| == |cfg.sources| < 0x8000_0000 && m.File? && GoodFile(cfg, dest, m)
    ensures Tellable(m)
  {
    hide RequestFor, FileDigest, Plain;
    var head, sums :| RequestFor(cfg, cfg.initial[m.i], head, sums)
                      && ReplyFor(cfg, cfg.sources[m.i], head, sums, m.head, m.toks);
  }

  // ----- steps -----

  /** The request at the front of these bytes, and what follows it. */
  ghost predicate ReadsAsk(bytes: seq<byte>, m: Up, rest: seq<byte>) {
    && m.Ask? && Acceptable(m.head)
    && var index := ParseInt32(bytes);
    && index.Ok? && index.value.0 == m.i
    && var head := ParseHead(index.value.1);
    head.Ok? && head.value.0 == m.head && ParseSums(head.value.1, m.head, 0, 0) == Ok((m.sums, rest))
  }

  /** What a step does on the connection to the sender. */
  ghost predicate UpStep(s: State, t: State, a: Action)
    requires AllAskable(s.up) && AllAskable(t.up)
  {
    var was, now := UpWire(s.up), UpWire(t.up);
    match a
    case GenAsk(head, sums) => s.gi < 0x8000_0000 && now == was + RequestBytes(s.gi, head, sums)
    case GenDone => now == was + PutInt32(-1)
    case Goodbye => now == was + PutInt32(-1)
    case SndServe(_, _) => s.up != [] && ReadsAsk(was, s.up[0], now)
    case SndVanish => s.up != [] && ReadsAsk(was, s.up[0], now)
    case SndDone => ParseInt32(was) == Ok((-1, now))
    case SndFinish => !t.sndFailed && ParseInt32(was) == Ok((-1, now))
    case _ => now == was
  }

  /** What a step does on the connection to the receiver. */
  ghost predicate DownStep(cfg: Config, s: State, t: State, a: Action, report: Counters)
    requires AllTellable(s.down) && AllTellable(t.down)
  {
    var was, now := DownWire(s.down, report), DownWire(t.down, report);
    match a
    case SndServe(head, toks) =>
      && s.up != [] && s.up[0].Ask? && s.up[0].i < |cfg.sources| && s.up[0].i < 0x8000_0000 && AllSendable(toks)
      && now == was + FileMessage(s.up[0].i, head, toks, FileDigest(cfg.md4, cfg.seed, cfg.sources[s.up[0].i]))
    case SndDone => now == was + PutInt32(-1)
    case SndStats => now == was + (if cfg.serverSender then PutReport(report) else [])
    case RcvFile =>
      var index := ParseInt32(was);
      && index.Ok? && 0 <= index.value.0 < |s.dest| == |t.dest|
      && var i := index.value.0;
      var received := ReceiveFile(index.value.1, cfg.md4, cfg.seed, s.dest[i]);
      if t.rcvFailed then received.Err?
      else t.dest[i].Some? && received == Ok((t.dest[i].value, now)) && t.dest == s.dest[i := t.dest[i]]
    case RcvDone => ParseInt32(was) == Ok((-1, now))
    case Report => if cfg.noReport then now == was else ParseReport(was) == Ok((report, now))
    case _ => now == was
  }

  lemma AskRead(cfg: Config, s: State)
    requires WellFormed(cfg) && BasesUnchanged(cfg, s) && AllAskable(s.up) && s.up != [] && s.up[0].Ask?
    ensures AllAskable(s.up[1..]) && ReadsAsk(UpWire(s.up), s.up[0], UpWire(s.up[1..]))
  {
    hide InFlight, AskBytes, RequestFor, ParseInt32, ParseHead, ParseSums;
    assert GoodAsk(cfg, s.dest, s.up[0]);
    AskStepIsRequest(cfg, cfg.initial[s.up[0].i], s.up[0], UpWire(s.up[1..]));
  }

  lemma UpMarkRead(up: seq<Up>)
    requires AllAskable(up) && up != [] && up[0].UpDone?
    ensures AllAskable(up[1..]) && ParseInt32(UpWire(up)) == Ok((-1, UpWire(up[1..])))
  {
    hide PutInt32, ParseInt32;
    ParsePutInt32(-1, UpWire(up[1..]));
  }

  lemma UpStepHolds(cfg: Config, s: State, a: Action)
    requires WellFormed(cfg) && |cfg.sources| < 0x8000_0000 && InPhase(cfg, s) && BasesUnchanged(cfg, s) && Enabled(cfg, s, a)
    requires AllAskable(s.up) && AllAskable(Apply(cfg, s, a).up)
    ensures UpStep(s, Apply(cfg, s, a), a)
  {
    hide BasesUnchanged, UpInPhase, DownInPhase, ReadsAsk, UpWire, ParseInt32, RequestBytes, FileDigest, Outcome, Skips;
    if a.GenAsk? {
      UpWireSnoc(s.up, Ask(s.gi, a.head, a.sums));
    } else if a.GenDone? || a.Goodbye? {
      UpWireSnoc(s.up, UpDone);
    } else if a.SndServe? || a.SndVanish? {
      AskRead(cfg, s);
    } else if a.SndDone? {
      UpMarkRead(s.up);
    } else if a.SndFinish? {
      NoAskLater(s.up, s.gphase, s.sphase, s.dphase);
      UpMarkRead(s.up);
    }
  }

  lemma DownMarkRead(down: seq<Down>, report: Counters)
    requires AllTellable(down) && down != []
    ensures AllTellable(down[1..])
    ensures down[0].DownDone? ==> ParseInt32(DownWire(down, report)) == Ok((-1, DownWire(down[1..], report)))
    ensures down[0].Stats? ==> ParseReport(DownWire(down, report)) == Ok((report, DownWire(down[1..], report)))
  {
    hide PutInt32, ParseInt32, PutReport, ParseReport;
    ParsePutInt32(-1, DownWire(down[1..], report));
    ParsePutReport(report, DownWire(down[1..], report));
  }

  lemma FileRead(cfg: Config, s: State, report: Counters)
    requires AllTellable(s.down) && s.down != [] && s.down[0].File? && s.down[0].i < |s.dest|
    ensures AllTellable(s.down[1..])
    ensures var index := ParseInt32(DownWire(s.down, report));
            var m := s.down[0];
            && index.Ok? && index.value.0 == m.i
            && var r := ReceiveFile(index.value.1, cfg.md4, cfg.seed, s.dest[m.i]);
            match Outcome(cfg, s.dest[m.i], m)
            case Some(content) => r == Ok((content, DownWire(s.down[1..], report)))
            case None => r.Err?
  {
    hide ParseInt32, ReceiveFile, Outcome, FileBytes;
    assert Tellable(s.down[0]);
    FileStepIsReceiveData(cfg, s.dest[s.down[0].i], s.down[0], DownWire(s.down[1..], report));
  }

  lemma ServedWire(cfg: Config, s: State, a: Action, report: Counters)
    requires WellFormed(cfg) && Enabled(cfg, s, a) && a.SndServe? && s.up[0].i < 0x8000_0000
    requires AllTellable(s.down) && AllTellable(Apply(cfg, s, a).down)
    ensures DownStep(cfg, s, Apply(cfg, s, a), a, report)
  {
    hide DownWire, FileMessage, FileDigest, ReplyFor;
    var t := Apply(cfg, s, a);
    var m := t.down[|s.down|];
    assert Tellable(m);
    DownWireSnoc(s.down, m, report);
  }

  lemma DownStepHolds(cfg: Config, s: State, a: Action, report: Counters)
    requires WellFormed(cfg) && |cfg.sources| < 0x8000_0000 && Enabled(cfg, s, a)
    requires AllTellable(s.down) && AllTellable(Apply(cfg, s, a).down)
    ensures DownStep(cfg, s, Apply(cfg, s, a), a, report)
  {
    hide DownWire, ParseInt32, ParseReport, PutReport, ReceiveFile, Outcome, FileDigest, ReplyFor, RequestFor, Skips;
    if a.SndServe? {
      ServedWire(cfg, s, a, report);
    } else if a.SndDone? {
      DownWireSnoc(s.down, DownDone, report);
    } else if a.SndStats? {
      DownWireSnoc(s.down, Stats, report);
      assert DownWire(s.down, report) + [] == DownWire(s.down, report);
    } else if a.RcvFile? {
      FileRead(cfg, s, report);
    } else if a.RcvDone? || (a.Report? && !cfg.noReport) {
      DownMarkRead(s.down, report);
    }
  }

  /**
   * Every step of every run is a step on bytes: a party reads its message off the front of what is under way to it,
   * and what it sends goes to the end.
   */
  lemma RunOnWire(cfg: Config, states: seq<State>, actions: seq<Action>, k: nat, report: Counters)
    requires WellFormed(cfg) && |cfg.sources| < 0x8000_0000 && Run(cfg, states, actions) && k < |actions|
    ensures |states| == |actions| + 1
    ensures var s, t := states[k], states[k + 1];
            && AllAskable(s.up) && AllAskable(t.up) && UpStep(s, t, actions[k])
            && AllTellable(s.down) && AllTellable(t.down) && DownStep(cfg, s, t, actions[k], report)
  {
    hide InPhase, BasesUnchanged, Results, InStep, UpStep, DownStep, AllAskable, AllTellable, Apply;
    InvOfRun(cfg, states, actions, k);
    InvOfRun(cfg, states, actions, k + 1);
    WireExists(cfg, states[k]);
    WireExists(cfg, states[k + 1]);
    UpStepHolds(cfg, states[k], actions[k]);
    DownStepHolds(cfg, states[k], actions[k], report);
  }
}
