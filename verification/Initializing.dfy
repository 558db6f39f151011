// initializing.rs: what the check found becomes the tracker of a paused torrent, and that
// tracker starts a live session.
module Initializing {
  import opened Wrappers
  import L = Lengths
  import CT = ChunkTracker
  import FO = FileOps
  import IC = InitialCheck
  import DP = DownloadProtocol
  import DR = DownloadReachability
  import TSL = TorrentStateLive

  // How it ends: the check failed, the tracker panicked, or a session started.
  datatype Outcome =
    | CheckFailed(error: FO.FileError)
    | Panicked
    | Started(live: TSL.TorrentStateLive, neededBytes: nat)

  // The bitfields of a finished check make a tracker that a session may start from, with
  // no piece that is stuck and none both needed and had; the byte total of the check is
  // the session's; and the session can finish if and only if the chunk bitfield has the
  // range of every needed piece.
  ghost predicate CleanStart(cfg: DP.Config, neededBytes: nat) {
    && DP.StartOk(cfg)
    && DP.Stuck(cfg.start) == {}
    && (forall p: nat :: p < DP.PieceTotal(cfg) ==> !(cfg.start.needed[p] && cfg.start.have[p]))
    && DP.InitiallyNeededBytes(cfg) == neededBytes
    && ((exists events, s :: DR.Finishes(cfg, events, s)) <==>
        forall p: nat :: p < DP.PieceTotal(cfg) && cfg.start.needed[p] ==> DP.HasRange(cfg.lengths, p))
  }

  lemma CheckedTrackerStarts(cfg: DP.Config, totals: IC.CheckTotals, selected: seq<bool>)
    requires L.Valid(cfg.lengths) && CT.Shaped(cfg.start, DP.PieceTotal(cfg)) && |selected| == DP.PieceTotal(cfg)
    requires forall p: nat :: p < DP.PieceTotal(cfg) ==> !(cfg.start.needed[p] && cfg.start.have[p])
    requires forall p: nat :: p < DP.PieceTotal(cfg) ==> CT.AllEqual(cfg.start.chunks[p], !cfg.start.needed[p])
    requires IC.Totalled(cfg.lengths, cfg.start.needed, cfg.start.have, selected, totals)
    ensures CleanStart(cfg, totals.neededBytes)
  {
    hide DP.HasRange;
    var t := cfg.start;
    forall p: nat | p < DP.PieceTotal(cfg)
      ensures t.have[p] || !t.needed[p] ==> CT.All(t.chunks[p])
      ensures t.needed[p] ==> !CT.All(t.chunks[p])
    {
      assert CT.AllEqual(t.chunks[p], !t.needed[p]);
      assert t.chunks[p][0] == !t.needed[p];
    }
    assert DP.Stuck(t) == {};
    DR.CanFinishIff(cfg);
  }

  // `check`, then going live: nothing is downloaded yet, and the session is over if and
  // only if nothing was needed.
  method CheckThenStart(ops: FO.FileOps, onlyFiles: Option<seq<nat>>)
    returns (r: Outcome, ghost needed: seq<bool>, ghost have: seq<bool>, ghost selected: seq<bool>)
    requires ops.Readable() && L.Sane(ops.lengths) && ops.lengths.lastPieceId + 1 < U32_LIMIT
    ensures r.CheckFailed? <==> !IC.Checkable(ops, onlyFiles)
    ensures !r.CheckFailed? ==>
              && |needed| == |have| == ops.lengths.lastPieceId + 1
              && IC.AllDecided(ops, onlyFiles, needed, have, selected)
              && (r.Panicked? <==> !CT.StatusComputable(ops.lengths, needed))
    ensures r.Started? ==>
              && r.live.Valid() && r.live.lengths == ops.lengths
              && r.live.start.needed == needed && r.live.start.have == have
              && CleanStart(r.live.Cfg(), r.neededBytes)
              && r.live.Abs() == DP.Initial(r.live.Cfg())
              && (DP.IsFinished(r.live.Cfg(), r.live.Abs()) <==> r.neededBytes == 0)
  {
    hide CT.StatusComputable, CleanStart, DP.Inv, L.Fits, IC.AllDecided, IC.Checkable;
    var totals, neededPieces, havePieces;
    totals, neededPieces, havePieces, selected := IC.InitialCheck(ops, onlyFiles);
    needed, have := neededPieces[..ops.lengths.lastPieceId + 1], havePieces[..ops.lengths.lastPieceId + 1];
    if totals.Err? { return CheckFailed(totals.error), needed, have, selected; }
    CheckedBits(ops, onlyFiles, neededPieces, havePieces, selected, totals.value);
    var tracker := CT.ChunkTracker.New(neededPieces, havePieces, ops.lengths, totals.value.totalSelectedBytes);
    if tracker.None? { return Panicked, needed, have, selected; }
    var live := GoLive(tracker.value, totals.value, selected);
    r := Started(live, totals.value.neededBytes);
  }

  // `TorrentStatePaused` to live.
  method GoLive(tracker: CT.ChunkTracker, totals: IC.CheckTotals, ghost selected: seq<bool>)
    returns (live: TSL.TorrentStateLive)
    requires tracker.Valid() && |selected| == tracker.lengths.lastPieceId + 1
    requires forall p: nat :: p <= tracker.lengths.lastPieceId ==> !(tracker.Abs().needed[p] && tracker.Abs().have[p])
    requires forall p: nat :: p <= tracker.lengths.lastPieceId ==>
               CT.AllEqual(tracker.Abs().chunks[p], !tracker.Abs().needed[p])
    requires IC.Totalled(tracker.lengths, tracker.Abs().needed, tracker.Abs().have, selected, totals)
    ensures live.Valid() && live.lengths == tracker.lengths && live.start == tracker.Abs()
    ensures CleanStart(live.Cfg(), totals.neededBytes) && live.Abs() == DP.Initial(live.Cfg())
    ensures DP.IsFinished(live.Cfg(), live.Abs()) <==> totals.neededBytes == 0
  {
    hide DP.Inv, L.Fits, CT.Cut;
    CheckedTrackerStarts(DP.Config(tracker.lengths, tracker.Abs(), tracker.priorityPieceIds), totals, selected);
    live := new TSL.TorrentStateLive(tracker, totals.neededBytes);
  }

  lemma CheckedBits(ops: FO.FileOps, onlyFiles: Option<seq<nat>>, needed: array<bool>, have: array<bool>,
                    selected: seq<bool>, totals: IC.CheckTotals)
    requires ops.Readable() && |selected| == ops.lengths.lastPieceId + 1
    requires IC.Recorded(ops, onlyFiles, needed, have, selected, totals)
    ensures var n := ops.lengths.lastPieceId + 1;
            && n <= needed.Length == have.Length
            && (forall i :: n <= i < needed.Length ==> !needed[i] && !have[i])
            && (forall p: nat :: p < n ==> !(needed[..n][p] && have[..n][p]))
            && IC.Totalled(ops.lengths, needed[..n], have[..n], selected, totals)
            && IC.AllDecided(ops, onlyFiles, needed[..n], have[..n], selected)
  {
    var n := ops.lengths.lastPieceId + 1;
    forall p: nat | p < n ensures !(needed[..n][p] && have[..n][p]) {
      assert IC.Decided(ops, onlyFiles, p, needed[..n][p], have[..n][p], selected[p]);
    }
  }
}
