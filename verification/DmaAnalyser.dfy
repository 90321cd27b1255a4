/**
 The trace analyser's loops: over the log, and over the matched transfers for their bandwidths.
 The aggregate counts every cycle in which some transfer is active once, however many overlap.
 */
module DmaAnalyser {
  import opened Wrappers
  import opened DmaMetrics

  /** The cycles from `lo` up to `hi`. */
  ghost function Cycles(lo: nat, hi: nat): (cycles: set<nat>)
    ensures forall x :: x in cycles <==> lo <= x < hi
    ensures lo <= hi ==> |cycles| == hi - lo
  {
    if hi <= lo then {} else Cycles(lo, hi - 1) + {hi - 1}
  }

  /** The cycles in which some transfer is active. */
  ghost function Active(ts: seq<Transfer>): (cycles: set<nat>) {
    if ts == [] then {} else Active(ts[..|ts| - 1]) + Cycles(ts[|ts| - 1].tstart, ts[|ts| - 1].tend)
  }

  function BytesOf(ts: seq<Transfer>): (n: nat) {
    if ts == [] then 0 else BytesOf(ts[..|ts| - 1]) + ts[|ts| - 1].bytes
  }

  function LastEnd(ts: seq<Transfer>): (n: nat) {
    if ts == [] then 0 else ts[|ts| - 1].tend
  }

  lemma {:induction false} ActiveBeforeEnd(ts: seq<Transfer>)
    requires InOrder(ts)
    ensures forall x :: x in Active(ts) ==> x < LastEnd(ts)
  {
    if ts != [] {
      ActiveBeforeEnd(ts[..|ts| - 1]);
    }
  }

  /** The cycles that a further transfer adds begin where the last one ended. */
  lemma {:induction false} ActiveGrows(ts: seq<Transfer>, t: Transfer)
    requires InOrder(ts + [t])
    ensures LastEnd(ts) <= t.tend
    ensures |Active(ts + [t])| == |Active(ts)| + (t.tend - if t.tstart > LastEnd(ts) then t.tstart else LastEnd(ts))
  {
    var us := ts + [t];
    assert us[..|us| - 1] == ts && us[|ts|] == t;
    assert forall i :: 0 <= i < |ts| ==> us[i] == ts[i];
    assert InOrder(ts);
    ActiveBeforeEnd(ts);
    var lo := if t.tstart > LastEnd(ts) then t.tstart else LastEnd(ts);
    if ts != [] {
      assert us[|ts| - 1].tstart <= us[|ts|].tstart && us[|ts| - 1].tend <= us[|ts|].tend;
      OverlapIsActive(ts, t.tstart);
    }
    UnionSize(Active(ts), t.tstart, lo, t.tend);
  }

  lemma {:induction false} OverlapIsActive(ts: seq<Transfer>, from: nat)
    requires ts != [] && ts[|ts| - 1].tstart <= from
    ensures Cycles(from, LastEnd(ts)) <= Active(ts)
  {}

  lemma {:induction false} UnionSize(covered: set<nat>, from: nat, lo: nat, end: nat)
    requires from <= lo <= end && Cycles(from, lo) <= covered
    requires forall x :: x in covered ==> x < lo
    ensures |covered + Cycles(from, end)| == |covered| + (end - lo)
  {
    assert covered + Cycles(from, end) == covered + Cycles(lo, end) by {
      assert forall x :: x in Cycles(from, end) ==> x in Cycles(from, lo) || x in Cycles(lo, end);
    }
    assert covered !! Cycles(lo, end);
  }

  // ----- Reports

  /** A completed transfer; its bandwidth is computed when it moves a byte. */
  datatype Report = Report(transfer: Transfer, cycles: int, bw: Option<real>)

  datatype Metrics = Metrics(aggregateBw: Option<real>, transfers: seq<Report>)

  /** A transfer whose bandwidth is a division by zero. */
  predicate Instant(t: Transfer) {
    t.tend == t.tstart && t.bytes > 0
  }

  /** `bw` is `bytes` per cycle. */
  ghost predicate Rate(bw: Option<real>, bytes: nat, cycles: int) {
    bw.Some? && bw.value * cycles as real == bytes as real
  }

  ghost predicate Reported(t: Transfer, r: Report) {
    && r.transfer == t && t.tstart + r.cycles == t.tend
    && if t.bytes > 0 then Rate(r.bw, t.bytes, r.cycles) else r.bw == None
  }

  ghost predicate Reports(ts: seq<Transfer>, rs: seq<Report>) {
    |rs| == |ts| && forall i :: 0 <= i < |ts| ==> Reported(ts[i], rs[i])
  }

  method TransferBandwidths(ts: seq<Transfer>) returns (r: Result<seq<Report>>)
    ensures r.Err? ==> r.error == ZeroDivision
    ensures r.Err? <==> exists i :: 0 <= i < |ts| && Instant(ts[i])
    ensures r.Ok? ==> Reports(ts, r.value)
  {
    var reports: seq<Report> := [];
    for i := 0 to |ts|
      invariant forall j :: 0 <= j < i ==> !Instant(ts[j])
      invariant Reports(ts[..i], reports)
    {
      var cycles := ts[i].tend - ts[i].tstart;
      var bw := None;
      if ts[i].bytes > 0 {
        if cycles == 0 {
          assert Instant(ts[i]);
          return Err(ZeroDivision);
        }
        bw := Some(ts[i].bytes as real / cycles as real);
      }
      reports := reports + [Report(ts[i], cycles, bw)];
    }
    assert ts[..|ts|] == ts;
    return Ok(reports);
  }

  /** The aggregate bandwidth counts the cycles in which any transfer is active, each once. */
  ghost predicate Aggregate(ts: seq<Transfer>, bw: Option<real>) {
    if Active(ts) == {} then bw == None else Rate(bw, BytesOf(ts), |Active(ts)|)
  }

  method ActiveCycles(ts: seq<Transfer>) returns (active: int, bytes: nat)
    ensures bytes == BytesOf(ts)
    ensures InOrder(ts) ==> active == |Active(ts)|
  {
    hide InOrder, Active, LastEnd, BytesOf;
    var prevEnd: int := 0;
    active, bytes := 0, 0;
    NothingActive();
    for i := 0 to |ts|
      invariant prevEnd == LastEnd(ts[..i]) && bytes == BytesOf(ts[..i])
      invariant InOrder(ts) ==> active == |Active(ts[..i])|
    {
      OneMore(ts, i);
      if InOrder(ts) {
        FrontInOrder(ts, i);
      }
      if ts[i].tstart > prevEnd {
        active := active + ts[i].tend - ts[i].tstart;
      } else {
        active := active + ts[i].tend - prevEnd;
      }
      prevEnd := ts[i].tend;
      bytes := bytes + ts[i].bytes;
    }
    assert ts[..|ts|] == ts;
  }

  method AggregateBandwidth(ts: seq<Transfer>) returns (bw: Option<real>)
    ensures InOrder(ts) ==> Aggregate(ts, bw)
  {
    hide InOrder, Active, BytesOf;
    var active, bytes := ActiveCycles(ts);
    if active != 0 {
      bw := Some(bytes as real / active as real);
      assert Rate(bw, bytes, active);
    } else {
      bw := None;
    }
  }

  lemma {:induction false} NothingActive()
    ensures LastEnd([]) == 0 && BytesOf([]) == 0 && Active([]) == {}
  {}

  lemma {:induction false} OneMore(ts: seq<Transfer>, i: nat)
    requires i < |ts|
    ensures LastEnd(ts[..i + 1]) == ts[i].tend && BytesOf(ts[..i + 1]) == BytesOf(ts[..i]) + ts[i].bytes
  {
    assert ts[..i + 1][..i] == ts[..i];
  }

  lemma {:induction false} FrontInOrder(ts: seq<Transfer>, i: nat)
    requires InOrder(ts) && i < |ts|
    ensures LastEnd(ts[..i]) <= ts[i].tend
    ensures |Active(ts[..i + 1])|
         == |Active(ts[..i])| + (ts[i].tend - if ts[i].tstart > LastEnd(ts[..i]) then ts[i].tstart else LastEnd(ts[..i]))
  {
    assert ts[..i + 1] == ts[..i] + [ts[i]];
    assert InOrder(ts[..i + 1]);
    ActiveGrows(ts[..i], ts[i]);
  }

  // ----- The loop over the log

  method MatchTransfers(trans: seq<Trans>, log: seq<Line>) returns (r: Result<Tracker>)
    ensures r == Analysed(trans, log)
    ensures WellFormed(trans, log) ==> r.Ok? && Matches(trans, log, r.value.compl)
  {
    hide OnLine, WellFormed, Matches;
    var t := Start;
    for i := 0 to |log|
      invariant Analysed(trans, log[..i]) == Ok(t)
    {
      assert log[..i + 1][..i] == log[..i];
      var r' := OnLine(trans, t, log[i]);
      if r'.Err? {
        ErrorStays(trans, log, i + 1);
        if WellFormed(trans, log) {
          TransfersMatch(trans, log);
        }
        return r';
      }
      t := r'.value;
    }
    assert log[..|log|] == log;
    if WellFormed(trans, log) {
      TransfersMatch(trans, log);
    }
    return Ok(t);
  }

  lemma {:induction false} ErrorStays(trans: seq<Trans>, log: seq<Line>, i: nat)
    requires i <= |log| && Analysed(trans, log[..i]).Err?
    ensures Analysed(trans, log) == Analysed(trans, log[..i])
  {
    if i == |log| {
      assert log[..i] == log;
    } else {
      var front := log[..|log| - 1];
      assert front[..i] == log[..i];
      ErrorStays(trans, front, i);
    }
  }

  /**
   On a well-formed log the analyser fails only on a transfer that starts and ends in one cycle.
   Otherwise it reports the reference transfers, and an aggregate bandwidth over the union of
   their intervals.
   */
  method EvalMetrics(trans: seq<Trans>, log: seq<Line>) returns (r: Result<Metrics>)
    ensures var a := Analysed(trans, log);
      && (a.Err? ==> r == Err(a.error))
      && (a.Ok? && r.Ok? ==> Reports(a.value.compl, r.value.transfers))
      && (a.Ok? ==> (r.Err? <==> exists i :: 0 <= i < |a.value.compl| && Instant(a.value.compl[i])))
      && (WellFormed(trans, log) ==> a.Ok? && Matches(trans, log, a.value.compl)
                                     && (r.Ok? ==> Aggregate(a.value.compl, r.value.aggregateBw)))
  {
    hide WellFormed, Aggregate, Reports, Matches, InOrder, Instant, Analysed;
    var t := MatchTransfers(trans, log);
    if t.Err? {
      return Err(t.error);
    }
    if WellFormed(trans, log) {
      MatchedInOrder(trans, log, t.value.compl);
    }
    var reports := TransferBandwidths(t.value.compl);
    if reports.Err? {
      return Err(reports.error);
    }
    var bw := AggregateBandwidth(t.value.compl);
    return Ok(Metrics(bw, reports.value));
  }
}
