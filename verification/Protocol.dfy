/**
 * Generator, sender and receiver as concurrent steps over two FIFO connections:
 * GenerateFiles, SendFiles, RecvFiles and the two Do functions.
 */
module Protocol {
  import opened Bytes
  import opened Checksum
  import opened Delta
  import opened Greedy
  import opened Sender
  import opened SumHeads
  import opened Sums
  import opened Tokens

  /** The files both sides list, by index, and the options that shape the end of a run. */
  datatype Config = Config(md4: Hash, seed: int32, sources: seq<seq<byte>>, initial: seq<Option<seq<byte>>>,
                           serverSender: bool, noReport: bool)

  datatype Up = Ask(i: nat, head: SumHead, sums: seq<SumBuf>) | UpDone

  datatype Down = File(i: nat, head: SumHead, toks: seq<Token>, digest: Digest) | DownDone | Stats

  /**
   * `sphase`: 0 and 1 serving, 2 both phases answered, 3 stats sent, 4 final -1 read.
   * `dphase`: 0 transferring, 1 report read, 2 goodbye sent.
   * A failed sender or receiver takes no more steps; the generator and the other one go on.
   */
  datatype State = State(gi: nat, gphase: nat, sphase: nat, rphase: nat, dphase: nat,
                         up: seq<Up>, down: seq<Down>, dest: seq<Option<seq<byte>>>,
                         sndFailed: bool, rcvFailed: bool, asked: seq<nat>, vanished: set<nat>, received: seq<nat>)

  datatype Action =
    | GenSkip
    | GenAsk(head: SumHead, sums: seq<SumBuf>)
    | GenDone
    | SndServe(head: SumHead, toks: seq<Token>)
    | SndVanish
    | SndCrash
    | SndDone
    | SndStats
    | SndFinish
    | SndLost
    | RcvFile
    | RcvDone
    | Report
    | Goodbye
    | RcvLost

  predicate SenderActs(a: Action) {
    a.SndServe? || a.SndVanish? || a.SndCrash? || a.SndDone? || a.SndStats? || a.SndFinish? || a.SndLost?
  }

  predicate ReceiverActs(a: Action) {
    a.RcvFile? || a.RcvDone? || a.Report? || a.Goodbye? || a.RcvLost?
  }

  ghost predicate Failed(s: State) {
    s.sndFailed || s.rcvFailed
  }

  ghost predicate WellFormed(cfg: Config) {
    |cfg.initial| == |cfg.sources|
  }

  ghost function Init(cfg: Config): State {
    State(0, 0, 0, 0, 0, [], [], cfg.initial, false, false, [], {}, [])
  }

  /** skip_file under --checksum: same length and same list digest. */
  ghost predicate Skips(cfg: Config, i: nat, d: Option<seq<byte>>)
    requires i < |cfg.sources|
  {
    d.Some? && |d.value| == |cfg.sources[i]| && cfg.md4(d.value) == cfg.md4(cfg.sources[i])
  }

  /** A full-file request, or the sums of the local file. */
  ghost predicate RequestFor(cfg: Config, basis: Option<seq<byte>>, head: SumHead, sums: seq<SumBuf>) {
    RequestOf(cfg.md4, cfg.seed, basis, head, sums)
  }

  /** What serving a request may put on the wire. */
  ghost predicate ReplyFor(cfg: Config, src: seq<byte>, head: SumHead, sums: seq<SumBuf>, reply: SumHead, toks: seq<Token>) {
    && AllSendable(toks)
    && if sums == [] then Acceptable(reply) && Plain(toks, src)
       else
         var sig := Signature(cfg.md4, cfg.seed, head, sums);
         reply == head && sig.Valid() && sig.Tiles(src, toks, 0, |src|)
  }

  ghost predicate Enabled(cfg: Config, s: State, a: Action)
    requires WellFormed(cfg)
  {
    && |s.dest| == |cfg.sources|
    && (SenderActs(a) ==> !s.sndFailed)
    && (ReceiverActs(a) ==> !s.rcvFailed)
    && match a
       case GenSkip => s.gi < |cfg.sources| && Skips(cfg, s.gi, s.dest[s.gi])
       case GenAsk(head, sums) =>
         s.gi < |cfg.sources| && !Skips(cfg, s.gi, s.dest[s.gi]) && RequestFor(cfg, s.dest[s.gi], head, sums)
       case GenDone => s.gi == |cfg.sources| && s.gphase < 2
       case SndServe(head, toks) =>
         s.sphase < 2 && s.up != [] && s.up[0].Ask? && s.up[0].i < |cfg.sources|
         && ReplyFor(cfg, cfg.sources[s.up[0].i], s.up[0].head, s.up[0].sums, head, toks)
         && (s.up[0].sums == [] || cfg.sources[s.up[0].i] != [])
       case SndVanish => s.sphase < 2 && s.up != [] && s.up[0].Ask?
       case SndCrash =>
         s.sphase < 2 && s.up != [] && s.up[0].Ask? && s.up[0].i < |cfg.sources|
         && s.up[0].sums != [] && cfg.sources[s.up[0].i] == []
       case SndDone => s.sphase < 2 && s.up != [] && s.up[0].UpDone?
       case SndStats => s.sphase == 2
       case SndFinish => s.sphase == 3 && s.up != []
       case SndLost => s.sphase < 4 && s.sphase != 2 && s.up == [] && s.rcvFailed
       case RcvFile => s.rphase < 2 && s.down != [] && s.down[0].File? && s.down[0].i < |s.dest|
       case RcvDone => s.rphase < 2 && s.down != [] && s.down[0].DownDone?
       case Report =>
         s.gphase == 2 && s.rphase == 2 && s.dphase == 0 && (cfg.noReport || (s.down != [] && s.down[0].Stats?))
       case Goodbye => s.dphase == 1
       case RcvLost => s.dphase == 0 && s.down == [] && s.sndFailed && (s.rphase < 2 || (s.gphase == 2 && !cfg.noReport))
  }

  /** The outcome of a received file: new content, or None when the receiver gives up. */
  ghost function Outcome(cfg: Config, basis: Option<seq<byte>>, m: Down): Option<seq<byte>>
    requires m.File?
  {
    if !Acceptable(m.head) then None else
    match Replay(m.head, basis, m.toks)
    case Err(e) => None
    case Ok(content) => if FileDigest(cfg.md4, cfg.seed, content) == m.digest then Some(content) else None
  }

  ghost function AfterFile(s: State, outcome: Option<seq<byte>>): State
    requires s.down != [] && s.down[0].File? && s.down[0].i < |s.dest|
  {
    match outcome
    case None => s.(rcvFailed := true)
    case Some(content) =>
      var i := s.down[0].i;
      s.(down := s.down[1..], dest := s.dest[i := outcome], received := s.received + [i])
  }

  ghost function Apply(cfg: Config, s: State, a: Action): State
    requires WellFormed(cfg) && Enabled(cfg, s, a)
  {
    match a
    case GenSkip => s.(gi := s.gi + 1)
    case GenAsk(head, sums) => s.(gi := s.gi + 1, up := s.up + [Ask(s.gi, head, sums)], asked := s.asked + [s.gi])
    case GenDone => s.(gphase := s.gphase + 1, up := s.up + [UpDone])
    case SndServe(head, toks) =>
      var i := s.up[0].i;
      s.(up := s.up[1..], down := s.down + [File(i, head, toks, FileDigest(cfg.md4, cfg.seed, cfg.sources[i]))])
    case SndVanish => s.(up := s.up[1..], vanished := s.vanished + {s.up[0].i})
    case SndCrash => s.(sndFailed := true)
    case SndDone => s.(up := s.up[1..], sphase := s.sphase + 1, down := s.down + [DownDone])
    case SndStats => s.(sphase := 3, down := if cfg.serverSender then s.down + [Stats] else s.down)
    case SndFinish => if s.up[0].UpDone? then s.(up := s.up[1..], sphase := 4) else s.(sndFailed := true)
    case SndLost => s.(sndFailed := true)
    case RcvFile => AfterFile(s, Outcome(cfg, s.dest[s.down[0].i], s.down[0]))
    case RcvDone => s.(down := s.down[1..], rphase := s.rphase + 1)
    case Report => s.(dphase := 1, down := if cfg.noReport then s.down else s.down[1..])
    case Goodbye => s.(dphase := 2, up := s.up + [UpDone])
    case RcvLost => s.(rcvFailed := true)
  }

  ghost predicate Finished(s: State) {
    s.sphase == 4 && s.dphase == 2
  }

  // ----- runs -----

  ghost predicate Run(cfg: Config, states: seq<State>, actions: seq<Action>)
    requires WellFormed(cfg)
  {
    && |states| == |actions| + 1
    && states[0] == Init(cfg)
    && forall k | 0 <= k < |actions| :: Enabled(cfg, states[k], actions[k]) && states[k + 1] == Apply(cfg, states[k], actions[k])
  }

  /** Each step uses up part of this budget. */
  ghost function Budget(cfg: Config, s: State): int {
    3 * (|cfg.sources| - s.gi) + 3 * (2 - s.gphase) + 2 * |s.up| + |s.down|
    + (if s.sphase < 3 then 2 else 0) + 4 * (2 - s.dphase) + (if s.sndFailed then 0 else 1) + (if s.rcvFailed then 0 else 1)
  }
}
