/**
 The DMA analysis over a history of instructions and a log, stated without the analyser's own
 notions: which lines grant and answer bursts, which instructions copy, how many bytes a copy
 moves, and which bursts belong to it.
 */
module DmaHistory {
  import opened Wrappers
  import opened DmaMetrics

  // ----- Lines and instructions by position

  /** `at` are the positions of the true elements, in order. */
  ghost predicate Marked(marks: seq<bool>, at: seq<nat>) {
    && (forall p, q :: 0 <= p < q < |at| ==> at[p] < at[q])
    && (forall q :: 0 <= q < |at| ==> at[q] < |marks| && marks[at[q]])
    && (forall i :: 0 <= i < |marks| && marks[i] ==> i in at)
  }

  /** The lines on which a burst is granted. */
  ghost function Grants(log: seq<Line>): (marks: seq<bool>)
    ensures |marks| == |log|
    ensures forall i :: 0 <= i < |log| ==> marks[i] == (log[i].reqValid && log[i].reqReady)
  {
    seq(|log|, i requires 0 <= i < |log| => log[i].reqValid && log[i].reqReady)
  }

  /** The lines on which a burst completes. */
  ghost function Answers(log: seq<Line>): (marks: seq<bool>)
    ensures |marks| == |log|
    ensures forall i :: 0 <= i < |log| ==> marks[i] == (log[i].rspValid && log[i].rspReady)
  {
    seq(|log|, i requires 0 <= i < |log| => log[i].rspValid && log[i].rspReady)
  }

  /** The copy instructions. */
  ghost function CopyMarks(insns: seq<Insn>): (marks: seq<bool>)
    ensures |marks| == |insns| && forall i :: 0 <= i < |insns| ==> marks[i] == insns[i].Copy?
  {
    seq(|insns|, i requires 0 <= i < |insns| => insns[i].Copy?)
  }

  /** The repetition count in force before instruction `i`. */
  ghost function RepBefore(insns: seq<Insn>, i: nat): (n: nat)
    requires i <= |insns|
  {
    if i == 0 then 1 else if insns[i - 1].Rep? then insns[i - 1].count else RepBefore(insns, i - 1)
  }

  /** The bytes that copy instruction `i` moves: bit 1 of its configuration makes it repeat. */
  ghost function BytesMoved(insns: seq<Insn>, i: nat): (n: nat)
    requires i < |insns| && insns[i].Copy?
  {
    if insns[i].config / 2 % 2 == 1 then RepBefore(insns, i) * insns[i].bytes else insns[i].bytes
  }

  // ----- The analyser's lists

  lemma {:induction false} LastIsLargest(marks: seq<bool>, at: seq<nat>, q: nat)
    requires Marked(marks, at) && q < |at| && at[q] == |marks| - 1
    ensures q == |at| - 1
  {
    var p := |at| - 1;
    assert at[p] < |marks|;
  }

  /** Positions in all elements but the last. */
  lemma {:induction false} MarkedFront(marks: seq<bool>, at: seq<nat>)
    requires Marked(marks, at) && marks != []
    ensures var n := |marks| - 1;
      if marks[n] then |at| > 0 && at[|at| - 1] == n && Marked(marks[..n], at[..|at| - 1]) else Marked(marks[..n], at)
  {
    var n := |marks| - 1;
    if marks[n] {
      var q :| 0 <= q < |at| && at[q] == n;
      LastIsLargest(marks, at, q);
      var rest := at[..|at| - 1];
      forall i | 0 <= i < n && marks[..n][i] ensures i in rest {
        assert marks[i];
        var p :| 0 <= p < |at| && at[p] == i;
        assert rest[p] == i;
      }
      assert forall p :: 0 <= p < |rest| ==> rest[p] == at[p];
    } else {
      assert forall q :: 0 <= q < |at| ==> at[q] != n;
    }
  }

  lemma {:induction false} GrantsFront(log: seq<Line>, at: seq<nat>)
    requires Marked(Grants(log), at) && log != []
    ensures var n := |log| - 1;
      if log[n].reqValid && log[n].reqReady then
        |at| > 0 && at[|at| - 1] == n && Marked(Grants(log[..n]), at[..|at| - 1])
      else Marked(Grants(log[..n]), at)
  {
    hide Marked;
    MarkedFront(Grants(log), at);
    assert Grants(log[..|log| - 1]) == Grants(log)[..|log| - 1];
  }

  lemma {:induction false} BurstsAre(log: seq<Line>, at: seq<nat>)
    requires Marked(Grants(log), at)
    ensures |Bursts(log)| == |at|
    ensures forall q :: 0 <= q < |at| ==> at[q] < |log| && Bursts(log)[q] == log[at[q]]
  {
    if log == [] {
      assert at == [];
    } else {
      hide Marked, Grants;
      var n := |log| - 1;
      GrantsFront(log, at);
      var rest := if log[n].reqValid && log[n].reqReady then at[..|at| - 1] else at;
      BurstsAre(log[..n], rest);
      assert forall q :: 0 <= q < |rest| ==> Bursts(log[..n])[q] == log[rest[q]];
    }
  }

  lemma {:induction false} AnswersFront(log: seq<Line>, at: seq<nat>)
    requires Marked(Answers(log), at) && log != []
    ensures var n := |log| - 1;
      if log[n].rspValid && log[n].rspReady then
        |at| > 0 && at[|at| - 1] == n && Marked(Answers(log[..n]), at[..|at| - 1])
      else Marked(Answers(log[..n]), at)
  {
    hide Marked;
    MarkedFront(Answers(log), at);
    assert Answers(log[..|log| - 1]) == Answers(log)[..|log| - 1];
  }

  lemma {:induction false} ResponsesAre(log: seq<Line>, at: seq<nat>)
    requires Marked(Answers(log), at)
    ensures |Responses(log)| == |at|
    ensures forall q :: 0 <= q < |at| ==> at[q] < |log| && Responses(log)[q] == log[at[q]]
  {
    if log == [] {
      assert at == [];
    } else {
      hide Marked, Answers;
      var n := |log| - 1;
      AnswersFront(log, at);
      var rest := if log[n].rspValid && log[n].rspReady then at[..|at| - 1] else at;
      ResponsesAre(log[..n], rest);
      assert forall q :: 0 <= q < |rest| ==> Responses(log[..n])[q] == log[rest[q]];
    }
  }

  lemma {:induction false} LastRepIs(insns: seq<Insn>, i: nat)
    requires i <= |insns|
    ensures LastRep(insns[..i]) == RepBefore(insns, i)
  {
    if i > 0 {
      LastRepIs(insns, i - 1);
      assert insns[..i][..i - 1] == insns[..i - 1];
    }
  }

  lemma {:induction false} RepBeforeFront(insns: seq<Insn>, n: nat, i: nat)
    requires i <= n <= |insns|
    ensures RepBefore(insns[..n], i) == RepBefore(insns, i)
  {
    if i > 0 {
      RepBeforeFront(insns, n, i - 1);
    }
  }

  lemma {:induction false} BytesMovedFront(insns: seq<Insn>, n: nat, i: nat)
    requires i < n <= |insns| && insns[i].Copy?
    ensures BytesMoved(insns[..n], i) == BytesMoved(insns, i)
  {
    RepBeforeFront(insns, n, i);
  }

  lemma {:induction false} LastCopyIs(insns: seq<Insn>)
    requires insns != [] && insns[|insns| - 1].Copy?
    ensures var (n, ts) := (|insns| - 1, Copies(insns));
      && |ts| > 0 && ts[..|ts| - 1] == Copies(insns[..n])
      && ts[|ts| - 1].size.Some? && Bytes(ts[|ts| - 1]) == BytesMoved(insns, n)
  {
    LastRepIs(insns, |insns| - 1);
  }

  /** The j-th recorded transfer moves the bytes of the j-th copy. */
  lemma {:induction false} CopiesAre(insns: seq<Insn>, at: seq<nat>)
    requires Marked(CopyMarks(insns), at)
    ensures |Copies(insns)| == |at|
    ensures forall q :: 0 <= q < |at| ==>
      at[q] < |insns| && insns[at[q]].Copy? && Copies(insns)[q].size.Some?
      && Bytes(Copies(insns)[q]) == BytesMoved(insns, at[q])
  {
    if insns == [] {
      assert at == [];
    } else {
      var n := |insns| - 1;
      MarkedFront(CopyMarks(insns), at);
      assert CopyMarks(insns[..n]) == CopyMarks(insns)[..n];
      hide Marked, Bytes, BytesMoved;
      var rest := if insns[n].Copy? then at[..|at| - 1] else at;
      CopiesAre(insns[..n], rest);
      forall q | 0 <= q < |rest| ensures BytesMoved(insns, rest[q]) == BytesMoved(insns[..n], rest[q]) {
        BytesMovedFront(insns, n, rest[q]);
      }
      if insns[n].Copy? {
        LastCopyIs(insns);
      }
    }
  }

  // ----- A response is on the line of its burst or behind it

  lemma {:induction false} BurstsBefore(log: seq<Line>, at: seq<nat>, i: nat, q: nat)
    requires Marked(Grants(log), at) && i <= |log| && q < |at|
    ensures q < |Bursts(log[..i])| <==> at[q] < i
  {
    hide Marked, Bursts, Grants;
    BurstsAre(log, at);
    if i == |log| {
      assert log[..i] == log;
    } else {
      var n := |log| - 1;
      MarkedFront(Grants(log), at);
      assert Grants(log[..n]) == Grants(log)[..n] && log[..n][..i] == log[..i];
      Prefixes(log[..n], i);
      var rest := if Grants(log)[n] then at[..|at| - 1] else at;
      BurstsAre(log[..n], rest);
      if q < |rest| {
        BurstsBefore(log[..n], rest, i, q);
      }
    }
  }

  lemma {:induction false} ResponsesBefore(log: seq<Line>, at: seq<nat>, i: nat, q: nat)
    requires Marked(Answers(log), at) && i <= |log| && q < |at|
    ensures q < |Responses(log[..i])| <==> at[q] < i
  {
    hide Marked, Responses, Answers;
    ResponsesAre(log, at);
    if i == |log| {
      assert log[..i] == log;
    } else {
      var n := |log| - 1;
      MarkedFront(Answers(log), at);
      assert Answers(log[..n]) == Answers(log)[..n] && log[..n][..i] == log[..i];
      Prefixes(log[..n], i);
      var rest := if Answers(log)[n] then at[..|at| - 1] else at;
      ResponsesAre(log[..n], rest);
      if q < |rest| {
        ResponsesBefore(log[..n], rest, i, q);
      }
    }
  }

  lemma {:induction false} AnsweredInOrder(log: seq<Line>, bursts: seq<nat>, responses: seq<nat>)
    requires Marked(Grants(log), bursts) && Marked(Answers(log), responses)
    requires |responses| <= |bursts| && forall q :: 0 <= q < |responses| ==> bursts[q] <= responses[q]
    ensures Answered(log)
  {
    hide Marked, Bursts, Responses;
    forall i | 0 <= i <= |log| ensures |Responses(log[..i])| <= |Bursts(log[..i])| {
      Prefixes(log, i);
      ResponsesAre(log, responses);
      var k := |Responses(log[..i])|;
      if k > 0 {
        ResponsesBefore(log, responses, i, k - 1);
        BurstsBefore(log, bursts, i, k - 1);
      }
    }
  }

  // ----- The theorem

  /** The bytes of bursts `lo` up to `hi`. */
  ghost function Lengths(log: seq<Line>, at: seq<nat>, lo: nat, hi: nat): (n: nat)
    requires lo <= hi <= |at| && forall q :: 0 <= q < |at| ==> at[q] < |log|
  {
    if lo == hi then 0 else Lengths(log, at, lo, hi - 1) + log[at[hi - 1]].length
  }

  /** Which instructions copy, which lines grant and answer bursts, and the first burst of each copy. */
  datatype Reading = Reading(copies: seq<nat>, bursts: seq<nat>, responses: seq<nat>, first: seq<nat>)

  ghost predicate Located(insns: seq<Insn>, log: seq<Line>, h: Reading) {
    Marked(CopyMarks(insns), h.copies) && Marked(Grants(log), h.bursts) && Marked(Answers(log), h.responses)
  }

  /** The log advances in time, its bursts are not empty, and the q-th response answers the q-th burst. */
  ghost predicate Plausible(log: seq<Line>, h: Reading) {
    && (forall i, j :: 0 <= i <= j < |log| ==> log[i].time <= log[j].time)
    && (forall q :: 0 <= q < |h.bursts| ==> h.bursts[q] < |log| && log[h.bursts[q]].length > 0)
    && |h.responses| <= |h.bursts| && (forall q :: 0 <= q < |h.responses| ==> h.bursts[q] <= h.responses[q])
  }

  /** Bursts `first[j]` up to `first[j + 1]` move the bytes of the j-th copy; the bursts behind them are
      the beginning of the next copy. */
  ghost predicate Grouped(insns: seq<Insn>, log: seq<Line>, h: Reading)
    requires Located(insns, log, h)
  {
    var n := |h.first| - 1;
    && 0 <= n <= |h.copies| && h.first[0] == 0 && h.first[n] <= |h.bursts|
    && (forall i, j :: 0 <= i < j <= n ==> h.first[i] < h.first[j])
    && (forall j :: 0 <= j < n ==> Moves(insns, log, h, j))
    && (h.first[n] < |h.bursts| ==>
          n < |h.copies| && Lengths(log, h.bursts, h.first[n], |h.bursts|) < BytesMoved(insns, h.copies[n]))
  }

  ghost predicate Moves(insns: seq<Insn>, log: seq<Line>, h: Reading, j: nat)
    requires Located(insns, log, h) && j < |h.copies| && j + 1 < |h.first|
  {
    && h.first[j] <= h.first[j + 1] <= |h.bursts|
    && Lengths(log, h.bursts, h.first[j], h.first[j + 1]) == BytesMoved(insns, h.copies[j])
  }

  lemma {:induction false} LengthsAreMoved(log: seq<Line>, at: seq<nat>, lo: nat, hi: nat)
    requires Marked(Grants(log), at) && lo <= hi <= |at|
    ensures |Bursts(log)| == |at| && Moved(Bursts(log), hi) == Moved(Bursts(log), lo) + Lengths(log, at, lo, hi)
  {
    BurstsAre(log, at);
    if lo < hi {
      LengthsAreMoved(log, at, lo, hi - 1);
    }
  }

  /** Copy `j` begins where its first burst begins. */
  lemma {:induction false} TotalsAtFirst(insns: seq<Insn>, log: seq<Line>, h: Reading, j: nat)
    requires Located(insns, log, h) && Grouped(insns, log, h) && j < |h.first|
    ensures |Bursts(log)| == |h.bursts| && j < |Recorded(insns)| && h.first[j] <= |h.bursts|
    ensures Total(Recorded(insns), j) == Moved(Bursts(log), h.first[j])
  {
    hide Marked, Bytes, BytesMoved, Bursts, Lengths;
    CopiesAre(insns, h.copies);
    BurstsAre(log, h.bursts);
    if j > 0 {
      TotalsAtFirst(insns, log, h, j - 1);
      assert Moves(insns, log, h, j - 1);
      LengthsAreMoved(log, h.bursts, h.first[j - 1], h.first[j]);
      assert Recorded(insns)[j - 1] == Copies(insns)[j - 1];
    }
  }

  lemma {:induction false} NextTotal(insns: seq<Insn>, log: seq<Line>, h: Reading)
    requires Located(insns, log, h) && Grouped(insns, log, h)
    ensures var (n, ts) := (|h.first| - 1, Recorded(insns));
      && |Bursts(log)| == |h.bursts| && n < |ts|
      && (n < |h.copies| ==> Bytes(ts[n]) > 0 ==> Moved(Bursts(log), |h.bursts|) < Total(ts, n + 1))
      && (h.first[n] < |h.bursts| ==> n < |h.copies| && Bytes(ts[n]) > 0)
      && (n == |h.copies| || h.first[n] == |h.bursts| ==> Moved(Bursts(log), |h.bursts|) == Total(ts, n))
  {
    hide Marked, Bytes, BytesMoved, Bursts, Lengths, Moves;
    var n := |h.first| - 1;
    CopiesAre(insns, h.copies);
    TotalsAtFirst(insns, log, h, n);
    LengthsAreMoved(log, h.bursts, h.first[n], |h.bursts|);
    if n < |h.copies| {
      assert Recorded(insns)[n] == Copies(insns)[n];
    }
  }

  /** Such a history and log are well-formed for the analyser. */
  lemma {:induction false} ReadingIsWellFormed(insns: seq<Insn>, log: seq<Line>, h: Reading)
    requires Located(insns, log, h) && Plausible(log, h) && Grouped(insns, log, h)
    ensures WellFormed(Recorded(insns), log)
  {
    hide Marked, Bytes, BytesMoved, Lengths, Moves, Recorded, Sized, Aligned;
    RecordedIsSized(insns);
    AnsweredInOrder(log, h.bursts, h.responses);
    BurstsAre(log, h.bursts);
    NextTotal(insns, log, h);
    ReadingIsAligned(insns, log, h);
    LastTotal(insns, log, h);
  }

  lemma {:induction false} LastTotal(insns: seq<Insn>, log: seq<Line>, h: Reading)
    requires Located(insns, log, h) && Grouped(insns, log, h)
    ensures var ts := Recorded(insns);
      |ts| > 0 && |Bursts(log)| == |h.bursts| && Moved(Bursts(log), |h.bursts|) <= Total(ts, |ts| - 1)
  {
    hide Marked, Bytes, BytesMoved, Lengths, Moves, Bursts;
    var (n, ts) := (|h.first| - 1, Recorded(insns));
    CopiesAre(insns, h.copies);
    NextTotal(insns, log, h);
    TotalGrows(ts, n, |ts| - 1);
    if n < |h.copies| {
      TotalGrows(ts, n + 1, |ts| - 1);
    }
  }

  lemma {:induction false} ReadingIsAligned(insns: seq<Insn>, log: seq<Line>, h: Reading)
    requires Located(insns, log, h) && Grouped(insns, log, h)
    ensures Aligned(Recorded(insns), Bursts(log))
  {
    hide Marked, Bytes, BytesMoved, Lengths, Moves, Bursts, Recorded, Moved, Total;
    var (n, ts, bursts) := (|h.first| - 1, Recorded(insns), Bursts(log));
    NextTotal(insns, log, h);
    forall j | 0 <= j <= |ts| && Total(ts, j) <= Moved(bursts, |bursts|)
      ensures exists k :: 0 <= k <= |bursts| && Moved(bursts, k) == Total(ts, j)
    {
      if j <= n {
        TotalsAtFirst(insns, log, h, j);
      } else {
        TotalGrows(ts, n, j);
        TotalGrows(ts, n + 1, j);
        CopiesAre(insns, h.copies);
        BeyondGroups(insns, log, h);
      }
    }
  }

  /** Behind the last whole group, a total that the bursts reach is the total of all bursts. */
  lemma {:induction false} BeyondGroups(insns: seq<Insn>, log: seq<Line>, h: Reading)
    requires Located(insns, log, h) && Grouped(insns, log, h)
    ensures var (n, ts) := (|h.first| - 1, Recorded(insns));
      && |Bursts(log)| == |h.bursts| && n < |ts|
      && (Total(ts, n + 1) <= Moved(Bursts(log), |h.bursts|) ==> Moved(Bursts(log), |h.bursts|) == Total(ts, n))
  {
    hide Marked, BytesMoved, Lengths, Moves, Bursts;
    NextTotal(insns, log, h);
    CopiesAre(insns, h.copies);
  }

  lemma {:induction false} GroupsAreLive(insns: seq<Insn>, log: seq<Line>, h: Reading)
    requires Located(insns, log, h) && Plausible(log, h) && Grouped(insns, log, h)
    ensures |h.first| - 1 <= Live(Recorded(insns))
  {
    hide Marked, Bytes, BytesMoved, Lengths, Moves, Bursts, Recorded;
    var (n, ts, m) := (|h.first| - 1, Recorded(insns), Live(Recorded(insns)));
    if m < n {
      BurstsAre(log, h.bursts);
      TotalsAtFirst(insns, log, h, m);
      TotalsAtFirst(insns, log, h, m + 1);
      MovedGrows(Bursts(log), h.first[m], h.first[m + 1]);
    }
  }

  /** What the analyser must report for copy `j`. */
  ghost function Expected(insns: seq<Insn>, log: seq<Line>, h: Reading, j: nat): (t: Transfer)
    requires Located(insns, log, h) && Grouped(insns, log, h)
    requires j + 1 < |h.first| && h.first[j + 1] <= |h.responses|
  {
    assert h.first[j] < h.first[j + 1];
    Transfer(log[h.bursts[h.first[j]]].time, log[h.responses[h.first[j + 1] - 1]].time, BytesMoved(insns, h.copies[j]))
  }

  /** `t` reports copy `j`, whose bursts are all answered. */
  ghost predicate IsReport(insns: seq<Insn>, log: seq<Line>, h: Reading, j: nat, t: Transfer)
    requires Located(insns, log, h) && Grouped(insns, log, h)
  {
    j + 1 < |h.first| && h.first[j + 1] <= |h.responses| && t == Expected(insns, log, h, j)
  }

  lemma {:induction false} ReportIsExpected(insns: seq<Insn>, log: seq<Line>, h: Reading, j: nat, t: Transfer)
    requires Located(insns, log, h) && Plausible(log, h) && Grouped(insns, log, h)
    requires Timed(Recorded(insns), Bursts(log), Responses(log), j, t)
    ensures IsReport(insns, log, h, j, t)
  {
    hide Marked, BytesMoved, Lengths, Moves, Moved, Total, Recorded, Bytes, Bursts, Responses;
    var (ts, bursts, responses) := (Recorded(insns), Bursts(log), Responses(log));
    BurstsAre(log, h.bursts);
    ResponsesAre(log, h.responses);
    var k: nat, m: nat :| Covers(ts, bursts, j, k, m) && m < |responses|
                && t.tstart == bursts[k].time && t.tend == responses[m].time;
    ReportIsGrouped(insns, log, h, j, m);
    TotalsAtFirst(insns, log, h, j);
    TotalsAtFirst(insns, log, h, j + 1);
    SameBurst(bursts, k, h.first[j]);
    SameBurst(bursts, m + 1, h.first[j + 1]);
    BytesOfCopy(insns, h.copies, j);
  }

  lemma {:induction false} BytesOfCopy(insns: seq<Insn>, at: seq<nat>, j: nat)
    requires Marked(CopyMarks(insns), at) && j < |at|
    ensures j < |Recorded(insns)| && at[j] < |insns| && insns[at[j]].Copy?
    ensures Bytes(Recorded(insns)[j]) == BytesMoved(insns, at[j])
  {
    hide Marked, Bytes, BytesMoved;
    CopiesAre(insns, at);
  }

  lemma {:induction false} ReportIsGrouped(insns: seq<Insn>, log: seq<Line>, h: Reading, j: nat, m: nat)
    requires Located(insns, log, h) && Plausible(log, h) && Grouped(insns, log, h)
    requires j < |Recorded(insns)| && m < |Bursts(log)| && Bytes(Recorded(insns)[j]) > 0
    requires Moved(Bursts(log), m + 1) == Total(Recorded(insns), j + 1)
    ensures j + 1 < |h.first|
  {
    hide Marked, BytesMoved, Lengths, Moves, Bursts, Recorded;
    var (n, ts, bursts) := (|h.first| - 1, Recorded(insns), Bursts(log));
    if j >= n {
      BurstsAre(log, h.bursts);
      MovedGrows(bursts, m + 1, |bursts|);
      TotalGrows(ts, n + 1, j + 1);
      TotalGrows(ts, n, j);
      BeyondGroups(insns, log, h);
    }
  }

  /**
   The j-th reported transfer is the j-th copy, with the product of its repetitions and its size, from the
   line of its first burst to the line that answers its last; reported are exactly the leading copies
   whose bursts are all answered.
   */
  lemma {:induction false} CopiesAreReported(insns: seq<Insn>, log: seq<Line>, h: Reading)
    requires Located(insns, log, h) && Plausible(log, h) && Grouped(insns, log, h)
    ensures var a := Analysed(Recorded(insns), log);
      && a.Ok? && |a.value.compl| < |h.first|
      && (forall j :: 0 <= j < |a.value.compl| ==> IsReport(insns, log, h, j, a.value.compl[j]))
      && (|a.value.compl| + 1 < |h.first| ==> h.first[|a.value.compl| + 1] > |h.responses|)
  {
    hide Marked, BytesMoved, Lengths, Moves, Recorded, Bytes, Bursts, Responses, Timed, Grouped, Plausible, Located, Expected;
    ReadingIsWellFormed(insns, log, h);
    TransfersMatch(Recorded(insns), log);
    var ts := Analysed(Recorded(insns), log).value.compl;
    forall j | 0 <= j < |ts| ensures IsReport(insns, log, h, j, ts[j]) {
      ReportIsExpected(insns, log, h, j, ts[j]);
    }
    GroupCount(insns, log, h);
    if |ts| > 0 {
      ReportIsExpected(insns, log, h, |ts| - 1, ts[|ts| - 1]);
    }
    EnoughReports(insns, log, h, |ts|);
  }

  lemma {:induction false} GroupCount(insns: seq<Insn>, log: seq<Line>, h: Reading)
    requires Located(insns, log, h) && Grouped(insns, log, h)
    ensures 0 < |h.first| <= |Recorded(insns)|
  {
    hide Marked, Bytes, BytesMoved, Moves;
    CopiesAre(insns, h.copies);
  }

  lemma {:induction false} EnoughReports(insns: seq<Insn>, log: seq<Line>, h: Reading, k: nat)
    requires Located(insns, log, h) && Plausible(log, h) && Grouped(insns, log, h)
    requires k < |Recorded(insns)| && |Responses(log)| <= |Bursts(log)|
    requires k < Live(Recorded(insns)) ==> Total(Recorded(insns), k + 1) > Moved(Bursts(log), |Responses(log)|)
    ensures k + 1 < |h.first| ==> h.first[k + 1] > |h.responses|
  {
    hide Marked, BytesMoved, Lengths, Moves, Recorded, Bytes, Bursts, Responses;
    if k + 1 < |h.first| {
      GroupsAreLive(insns, log, h);
      TotalsAtFirst(insns, log, h, k + 1);
      BurstsAre(log, h.bursts);
      ResponsesAre(log, h.responses);
      if h.first[k + 1] <= |h.responses| {
        MovedGrows(Bursts(log), h.first[k + 1], |h.responses|);
      }
    }
  }

  /** Four repetitions of 8 bytes in one burst of 32 bytes are one transfer. */
  lemma {:induction false} RepeatedExample(log: seq<Line>)
    requires log == [Line(1, true, true, 32, false, false), Line(5, false, false, 0, true, true)]
    ensures var a := Analysed(Recorded([Rep(4), Copy(8, 2)]), log);
      a.Ok? && a.value.compl == [Transfer(1, 5, 32)]
  {
    var insns := [Rep(4), Copy(8, 2)];
    assert insns[..1] == [Rep(4)] && insns[..1][..0] == [];
    assert Copies(insns[..1]) == [] && LastRep(insns[..1]) == 4 && LastRep(insns) == 4;
    var trans := [Trans(4, Some(8)), Trans(4, None)];
    assert Recorded(insns) == trans;
    assert log[..1] == [log[0]] && log[..1][..0] == [];
    assert Analysed(trans, log[..1][..0]) == Ok(Start);
    assert Analysed(trans, log[..1]) == OnLine(trans, Start, log[0]);
  }
}
