/**
 The DMA part of the trace analyser.  While the core trace is read, every DMA instruction
 updates a list of recorded transfers.  The log of the DMA backend knows bursts only, so the
 analyser matches bursts to recorded transfers by counting bytes, and matches responses to
 bursts by counting responses.  From the matched transfers it computes bandwidths.

 The reference is declarative.  Transfer `j` occupies the bytes between the totals of the
 first `j` and the first `j + 1` recorded transfers; it starts at the burst that moves the
 first of these bytes, and ends at the response to the burst that moves the last of them,
 the `k`-th response answering the `k`-th burst.
 */
module DmaMetrics {
  import opened Wrappers

  datatype Result<T> = Ok(value: T) | Err(error: Error)

  /** A recorded transfer index out of range or without a size, no outstanding transfer, a division by zero. */
  datatype Error = NoTransfer | NoOutstanding | ZeroDivision

  // ----- Recording transfers

  datatype Insn = Address | Rep(count: nat) | Copy(bytes: nat, config: nat) | Other

  /** The size is unknown until the copy instruction is seen. */
  datatype Trans = Trans(rep: nat, size: Option<nat>)

  /** The repetition count in force after `insns`. */
  function LastRep(insns: seq<Insn>): (n: nat) {
    if insns == [] then 1
    else
      var last := insns[|insns| - 1];
      if last.Rep? then last.count else LastRep(insns[..|insns| - 1])
  }

  predicate TwoDimensional(config: nat) {
    config / 2 % 2 == 1
  }

  /** One transfer for each copy instruction, a 2D one with the repetition count in force. */
  function Copies(insns: seq<Insn>): (ts: seq<Trans>) {
    if insns == [] then []
    else
      var before := insns[..|insns| - 1];
      match insns[|insns| - 1]
      case Copy(bytes, config) =>
        Copies(before) + [Trans(if TwoDimensional(config) then LastRep(before) else 1, Some(bytes))]
      case _ => Copies(before)
  }

  function Recorded(insns: seq<Insn>): (ts: seq<Trans>) {
    Copies(insns) + [Trans(LastRep(insns), None)]
  }

  class Recorder {
    var trans: seq<Trans>
    ghost var history: seq<Insn>

    ghost predicate Valid()
      reads this
    {
      trans == Recorded(history)
    }

    constructor ()
      ensures Valid() && history == [] && trans == [Trans(1, None)]
    {
      trans := [Trans(1, None)];
      history := [];
    }

    method Update(insn: Insn)
      requires Valid()
      modifies this
      ensures Valid() && history == old(history) + [insn] && |old(trans)| > 0
      ensures insn.Address? || insn.Other? ==> trans == old(trans)
      ensures insn.Rep? ==> trans == old(trans[..|trans| - 1]) + [Trans(insn.count, None)]
      ensures insn.Copy? ==>
        var rep := old(trans[|trans| - 1].rep);
        trans == old(trans[..|trans| - 1])
                 + [Trans(if insn.config / 2 % 2 == 1 then rep else 1, Some(insn.bytes)), Trans(rep, None)]
    {
      hide Recorded;
      ghost var before := history;
      UpdatedIs(before, insn);
      history := history + [insn];
      match insn {
        case Address => return;
        case Other => return;
        case Rep(count) =>
          trans := trans[|trans| - 1 := trans[|trans| - 1].(rep := count)];
        case Copy(bytes, config) =>
          trans := trans + [trans[|trans| - 1]];
          trans := trans[|trans| - 2 := trans[|trans| - 2].(size := Some(bytes))];
          if config / 2 % 2 == 0 {
            trans := trans[|trans| - 2 := trans[|trans| - 2].(rep := 1)];
          }
      }
    }
  }

  /** What one more instruction does to the list. */
  lemma {:induction false} UpdatedIs(insns: seq<Insn>, insn: Insn)
    ensures var ts := Recorded(insns);
      && |ts| > 0 && ts[|ts| - 1].size == None
      && Recorded(insns + [insn]) == match insn
         case Rep(count) => ts[..|ts| - 1] + [Trans(count, None)]
         case Copy(bytes, config) =>
           ts[..|ts| - 1] + [Trans(if config / 2 % 2 == 1 then ts[|ts| - 1].rep else 1, Some(bytes)), ts[|ts| - 1]]
         case _ => ts
  {
    assert (insns + [insn])[..|insns|] == insns;
  }

  // ----- The log

  /** One cycle of the backend: the request channel is served before the response channel. */
  datatype Line = Line(time: nat, reqValid: bool, reqReady: bool, length: nat, rspValid: bool, rspReady: bool)

  predicate Requests(l: Line) {
    l.reqValid && l.reqReady
  }

  predicate Responds(l: Line) {
    l.rspValid && l.rspReady
  }

  /** The lines on which a burst is granted. */
  function Bursts(log: seq<Line>): (ls: seq<Line>) {
    if log == [] then []
    else
      var last := log[|log| - 1];
      Bursts(log[..|log| - 1]) + if Requests(last) then [last] else []
  }

  /** The lines on which a burst completes. */
  function Responses(log: seq<Line>): (ls: seq<Line>) {
    if log == [] then []
    else
      var last := log[|log| - 1];
      Responses(log[..|log| - 1]) + if Responds(last) then [last] else []
  }

  /** The bytes moved by the first `k` bursts. */
  function Moved(bursts: seq<Line>, k: nat): (n: nat)
    requires k <= |bursts|
  {
    if k == 0 then 0 else Moved(bursts, k - 1) + bursts[k - 1].length
  }

  function Bytes(t: Trans): (n: nat) {
    if t.size.None? then 0 else t.rep * t.size.value
  }

  /** The bytes of the first `j` recorded transfers. */
  function Total(trans: seq<Trans>, j: nat): (n: nat)
    requires j <= |trans|
  {
    if j == 0 then 0 else Total(trans, j - 1) + Bytes(trans[j - 1])
  }

  /** How many transfers come before the first that moves no byte. */
  function Live(trans: seq<Trans>): (n: nat)
    ensures n <= |trans|
    ensures forall j :: 0 <= j < n ==> Bytes(trans[j]) > 0
    ensures n < |trans| ==> Bytes(trans[n]) == 0
  {
    if trans == [] then 0
    else
      var m := Live(trans[..|trans| - 1]);
      if m < |trans| - 1 || Bytes(trans[m]) == 0 then m else m + 1
  }

  ghost predicate Ordered(ls: seq<Line>) {
    forall i, j :: 0 <= i <= j < |ls| ==> ls[i].time <= ls[j].time
  }

  /** No burst spans two transfers. */
  ghost predicate Aligned(trans: seq<Trans>, bursts: seq<Line>) {
    forall j {:trigger Total(trans, j)} :: 0 <= j <= |trans| && Total(trans, j) <= Moved(bursts, |bursts|) ==>
      exists k :: 0 <= k <= |bursts| && Moved(bursts, k) == Total(trans, j)
  }

  /** A response never comes before its burst. */
  ghost predicate Answered(log: seq<Line>) {
    forall i :: 0 <= i <= |log| ==> |Responses(log[..i])| <= |Bursts(log[..i])|
  }

  ghost predicate Sized(trans: seq<Trans>) {
    forall j :: 0 <= j < |trans| - 1 ==> trans[j].size.Some?
  }

  /** What the backend guarantees about its log, and the core about its recorded transfers. */
  ghost predicate WellFormed(trans: seq<Trans>, log: seq<Line>) {
    var bursts := Bursts(log);
    && Sized(trans) && Ordered(log) && Answered(log)
    && (forall k :: 0 <= k < |bursts| ==> bursts[k].length > 0)
    && Aligned(trans, bursts)
    && |trans| > 0 && Moved(bursts, |bursts|) <= Total(trans, |trans| - 1)
  }

  lemma {:induction false} RecordedIsSized(insns: seq<Insn>)
    ensures Sized(Recorded(insns))
  {
    if insns != [] {
      RecordedIsSized(insns[..|insns| - 1]);
      var before := insns[..|insns| - 1];
      assert forall j :: 0 <= j < |Copies(before)| ==> Recorded(before)[j] == Copies(before)[j];
    }
  }

  // ----- The reference

  datatype Transfer = Transfer(tstart: nat, tend: nat, bytes: nat)

  /** Bursts `k` to `m` are those of transfer `j`. */
  ghost predicate Covers(trans: seq<Trans>, bursts: seq<Line>, j: nat, k: nat, m: nat) {
    && j < |trans| && k <= m < |bursts|
    && Moved(bursts, k) == Total(trans, j) && Moved(bursts, m + 1) == Total(trans, j + 1)
  }

  /** `t` starts with the first burst of transfer `j` and ends with the response to its last. */
  ghost predicate Timed(trans: seq<Trans>, bursts: seq<Line>, responses: seq<Line>, j: nat, t: Transfer) {
    && j < |trans| && t.bytes == Bytes(trans[j]) > 0
    && exists k: nat, m: nat :: Covers(trans, bursts, j, k, m) && m < |responses|
         && t.tstart == bursts[k].time && t.tend == responses[m].time
  }

  /** `ts` are the transfers whose bytes are all answered, up to the first that moves no byte. */
  ghost predicate Matches(trans: seq<Trans>, log: seq<Line>, ts: seq<Transfer>) {
    var (bursts, responses) := (Bursts(log), Responses(log));
    && |ts| <= Live(trans) && |responses| <= |bursts|
    && (forall j :: 0 <= j < |ts| ==> Timed(trans, bursts, responses, j, ts[j]))
    && (|ts| < Live(trans) ==> Total(trans, |ts| + 1) > Moved(bursts, |responses|))
  }

  // ----- Facts about counts and totals

  lemma {:induction false} Prefixes(log: seq<Line>, i: nat)
    requires i <= |log|
    ensures |Bursts(log[..i])| <= |Bursts(log)| && Bursts(log)[..|Bursts(log[..i])|] == Bursts(log[..i])
    ensures |Responses(log[..i])| <= |Responses(log)|
    ensures Responses(log)[..|Responses(log[..i])|] == Responses(log[..i])
  {
    if i == |log| {
      assert log[..i] == log;
    } else {
      Prefixes(log[..|log| - 1], i);
      assert log[..|log| - 1][..i] == log[..i];
    }
  }

  lemma {:induction false} MovedGrows(bursts: seq<Line>, k: nat, m: nat)
    requires k <= m <= |bursts|
    requires forall i :: 0 <= i < |bursts| ==> bursts[i].length > 0
    ensures Moved(bursts, k) + (m - k) <= Moved(bursts, m)
  {
    if k < m {
      MovedGrows(bursts, k, m - 1);
    }
  }

  lemma {:induction false} TotalGrows(trans: seq<Trans>, j: nat, m: nat)
    requires j <= m <= |trans|
    ensures Total(trans, j) <= Total(trans, m)
  {
    if j < m {
      TotalGrows(trans, j, m - 1);
    }
  }

  /** The burst that begins a transfer does not move past its end. */
  lemma {:induction false} NoOvershoot(trans: seq<Trans>, bursts: seq<Line>, n: nat, j: nat)
    requires n < |bursts| && j <= |trans| && Aligned(trans, bursts)
    requires forall i :: 0 <= i < |bursts| ==> bursts[i].length > 0
    requires Moved(bursts, n) < Total(trans, j)
    ensures Moved(bursts, n + 1) <= Total(trans, j)
  {
    MovedGrows(bursts, n + 1, |bursts|);
    if Moved(bursts, n + 1) > Total(trans, j) {
      var k :| 0 <= k <= |bursts| && Moved(bursts, k) == Total(trans, j);
      if k <= n {
        MovedGrows(bursts, k, n);
      } else {
        MovedGrows(bursts, n + 1, k);
      }
      assert false;
    }
  }

  ghost predicate UpTo(ls: seq<Line>, time: nat) {
    forall k :: 0 <= k < |ls| ==> ls[k].time <= time
  }

  /** Lines keep their order when selected. */
  lemma {:induction false} SelectedInOrder(log: seq<Line>, time: nat)
    requires Ordered(log) && UpTo(log, time)
    ensures Ordered(Bursts(log)) && UpTo(Bursts(log), time)
    ensures Ordered(Responses(log)) && UpTo(Responses(log), time)
  {
    if log != [] {
      SelectedInOrder(log[..|log| - 1], log[|log| - 1].time);
    }
  }

  /** The `k`-th response is not earlier than the `k`-th burst. */
  lemma {:induction false} ResponseAfterBurst(log: seq<Line>, k: nat)
    requires Ordered(log) && Answered(log) && k < |Responses(log)|
    ensures k < |Bursts(log)| && Bursts(log)[k].time <= Responses(log)[k].time
  {
    var front := log[..|log| - 1];
    assert log[..|log|] == log;
    assert |Responses(log[..|log|])| <= |Bursts(log[..|log|])|;
    if k < |Responses(front)| {
      forall i | 0 <= i <= |front| ensures |Responses(front[..i])| <= |Bursts(front[..i])| {
        assert front[..i] == log[..i];
      }
      ResponseAfterBurst(front, k);
    } else {
      SelectedInOrder(log, log[|log| - 1].time);
    }
  }

  // ----- Matching bursts and responses to transfers

  /** A granted transfer; `bursts` is -1 until its last burst is granted. */
  datatype Outstanding = Outstanding(tstart: nat, bytes: nat, bursts: int)

  /** The variables of the loop over the log. */
  datatype Tracker = Tracker(
    compl: seq<Transfer>, outst: seq<Outstanding>,
    idx: nat, expBytes: nat, reqBytes: nat, inTransfer: nat, received: nat)

  /** `o` is transfer `j`, whose bursts are `first[j]` up to `first[j + 1]` once the latter is known. */
  ghost predicate Tracks(trans: seq<Trans>, bursts: seq<Line>, first: seq<nat>, j: nat, o: Outstanding)
    requires j < |trans| && j < |first|
  {
    && first[j] < |bursts| && o.tstart == bursts[first[j]].time && o.bytes == Bytes(trans[j])
    && (j + 1 < |first| ==> first[j] + o.bursts == first[j + 1])
    && (j + 1 == |first| ==> o.bursts == -1)
  }

  /** `first[j]` is the first burst of transfer `j`, for every transfer up to the current one. */
  ghost predicate Boundaries(trans: seq<Trans>, bursts: seq<Line>, first: seq<nat>, n: nat) {
    && 0 < |first| <= Live(trans) + 1 && first[|first| - 1] <= n <= |bursts|
    && (forall j :: 0 <= j < |first| ==> first[j] <= n && Moved(bursts, first[j]) == Total(trans, j))
    && (forall j :: 0 <= j < |first| - 1 ==> first[j] < first[j + 1])
  }

  /** The counters after `n` bursts. */
  ghost predicate Counting(trans: seq<Trans>, bursts: seq<Line>, first: seq<nat>, n: nat, t: Tracker) {
    && Boundaries(trans, bursts, first, n)
    && t.idx == |first| - 1 && t.inTransfer == n - first[t.idx]
    && Moved(bursts, n) == Total(trans, t.idx) + t.reqBytes
    && (t.reqBytes > 0 ==> t.idx < |trans| && t.expBytes == Bytes(trans[t.idx])
                           && (t.reqBytes < t.expBytes || t.expBytes == 0))
  }

  ghost predicate Waiting(trans: seq<Trans>, bursts: seq<Line>, first: seq<nat>, c: nat, outst: seq<Outstanding>) {
    && c + |outst| <= |trans| && c + |outst| <= |first|
    && forall i :: 0 <= i < |outst| ==> Tracks(trans, bursts, first, c + i, outst[i])
  }

  ghost predicate Past(trans: seq<Trans>, bursts: seq<Line>, responses: seq<Line>, compl: seq<Transfer>) {
    forall j :: 0 <= j < |compl| ==> Timed(trans, bursts, responses, j, compl[j])
  }

  /** The completed and outstanding transfers after `p` responses. */
  ghost predicate Queued(trans: seq<Trans>, bursts: seq<Line>, responses: seq<Line>,
                         first: seq<nat>, p: nat, t: Tracker)
  {
    var c := |t.compl|;
    && t.idx == |first| - 1 && c <= t.idx <= Live(trans) && p <= |responses|
    && first[c] <= p && t.received == p - first[c]
    && (c < t.idx ==> p < first[c + 1])
    && |t.outst| == t.idx - c + (if t.reqBytes > 0 then 1 else 0)
    && Waiting(trans, bursts, first, c, t.outst)
    && Past(trans, bursts, responses, t.compl)
  }

  const Start := Tracker([], [], 0, 0, 0, 0, 0)

  /** A granted burst. */
  function Grant(trans: seq<Trans>, t: Tracker, l: Line): (r: Result<Tracker>) {
    if t.reqBytes == 0 && (t.idx >= |trans| || trans[t.idx].size.None?) then Err(NoTransfer)
    else
      var t := if t.reqBytes == 0
        then t.(expBytes := Bytes(trans[t.idx]), outst := t.outst + [Outstanding(l.time, Bytes(trans[t.idx]), -1)])
        else t;
      var t := t.(reqBytes := t.reqBytes + l.length, inTransfer := t.inTransfer + 1);
      if t.reqBytes != t.expBytes then Ok(t)
      else if t.outst == [] then Err(NoOutstanding)
      else
        var last := |t.outst| - 1;
        Ok(t.(outst := t.outst[last := t.outst[last].(bursts := t.inTransfer)],
              reqBytes := 0, inTransfer := 0, idx := t.idx + 1))
  }

  /** A completed burst. */
  function Complete(t: Tracker, l: Line): (r: Result<Tracker>) {
    if t.outst == [] then Err(NoOutstanding)
    else
      var t := t.(received := t.received + 1);
      var o := t.outst[0];
      if t.received == o.bursts then
        Ok(t.(compl := t.compl + [Transfer(o.tstart, l.time, o.bytes)], outst := t.outst[1..], received := 0))
      else Ok(t)
  }

  function OnLine(trans: seq<Trans>, t: Tracker, l: Line): (r: Result<Tracker>) {
    var r := if Requests(l) then Grant(trans, t, l) else Ok(t);
    if r.Ok? && Responds(l) then Complete(r.value, l) else r
  }

  /** The analyser's variables after a whole log, or the first error. */
  function Analysed(trans: seq<Trans>, log: seq<Line>): (r: Result<Tracker>) {
    if log == [] then Ok(Start)
    else
      var r := Analysed(trans, log[..|log| - 1]);
      if r.Ok? then OnLine(trans, r.value, log[|log| - 1]) else r
  }

  /** What the log and the recorded transfers must be like for the counters to be right. */
  ghost predicate Sound(trans: seq<Trans>, bursts: seq<Line>) {
    && Sized(trans) && Aligned(trans, bursts) && |trans| > 0
    && (forall k :: 0 <= k < |bursts| ==> bursts[k].length > 0)
    && Moved(bursts, |bursts|) <= Total(trans, |trans| - 1)
  }

  /** As long as a burst is to come, the current transfer is one of the recorded copies. */
  lemma {:induction false} CurrentIsCopy(trans: seq<Trans>, bursts: seq<Line>, first: seq<nat>, n: nat, t: Tracker)
    requires Sound(trans, bursts) && Counting(trans, bursts, first, n, t) && n < |bursts|
    ensures t.idx < |trans| - 1
  {
    MovedGrows(bursts, n, |bursts|);
    if t.idx >= |trans| - 1 {
      TotalGrows(trans, |trans| - 1, t.idx);
    }
  }

  /** The boundaries after burst `n`. */
  ghost function Extended(trans: seq<Trans>, t: Tracker, first: seq<nat>, n: nat, l: Line): (first': seq<nat>)
    requires Grant(trans, t, l).Ok?
  {
    if Grant(trans, t, l).value.idx == t.idx then first else first + [n + 1]
  }

  lemma {:induction false} GrantCounts(trans: seq<Trans>, t: Tracker, bursts: seq<Line>, first: seq<nat>, n: nat)
    requires Sound(trans, bursts) && n < |bursts| && Counting(trans, bursts, first, n, t)
    requires t.reqBytes > 0 ==> t.outst != []
    ensures Grant(trans, t, bursts[n]).Ok?
    ensures var t' := Grant(trans, t, bursts[n]).value;
      Counting(trans, bursts, Extended(trans, t, first, n, bursts[n]), n + 1, t')
  {
    hide Aligned;
    CurrentIsCopy(trans, bursts, first, n, t);
    assert Total(trans, t.idx + 1) == Total(trans, t.idx) + Bytes(trans[t.idx]);
    if Bytes(trans[t.idx]) > 0 {
      NoOvershoot(trans, bursts, n, t.idx + 1);
    }
  }

  lemma {:induction false} GrantWaits(trans: seq<Trans>, t: Tracker, bursts: seq<Line>, first: seq<nat>, n: nat, c: nat)
    requires n < |bursts| && Counting(trans, bursts, first, n, t) && t.idx < |trans|
    requires forall k :: 0 <= k < |bursts| ==> bursts[k].length > 0
    requires Grant(trans, t, bursts[n]).Ok?
    requires c <= t.idx && |t.outst| == t.idx - c + (if t.reqBytes > 0 then 1 else 0)
    requires Waiting(trans, bursts, first, c, t.outst)
    ensures var t' := Grant(trans, t, bursts[n]).value;
      Waiting(trans, bursts, Extended(trans, t, first, n, bursts[n]), c, t'.outst)
  {
    hide Moved, Total, Bytes;
    var (t', first') := (Grant(trans, t, bursts[n]).value, Extended(trans, t, first, n, bursts[n]));
    assert |t'.outst| == t.idx - c + 1;
    MovedGrows(bursts, first[t.idx], n);
    forall i | 0 <= i < |t'.outst| ensures Tracks(trans, bursts, first', c + i, t'.outst[i]) {
      if i < t.idx - c || t.reqBytes > 0 {
        assert Tracks(trans, bursts, first, c + i, t.outst[i]);
      }
    }
  }

  lemma {:induction false} GrantQueues(trans: seq<Trans>, t: Tracker, bursts: seq<Line>, responses: seq<Line>,
                                       first: seq<nat>, n: nat, p: nat)
    requires Sound(trans, bursts) && n < |bursts| && p <= n
    requires Counting(trans, bursts, first, n, t) && Queued(trans, bursts, responses, first, p, t)
    ensures Grant(trans, t, bursts[n]).Ok?
    ensures var t' := Grant(trans, t, bursts[n]).value;
      Queued(trans, bursts, responses, Extended(trans, t, first, n, bursts[n]), p, t')
  {
    hide Aligned, Moved, Total, Sized, Bytes, Waiting, Past;
    CurrentIsCopy(trans, bursts, first, n, t);
    GrantCounts(trans, t, bursts, first, n);
    GrantWaits(trans, t, bursts, first, n, |t.compl|);
  }

  lemma {:induction false} CompleteQueues(trans: seq<Trans>, t: Tracker, bursts: seq<Line>, responses: seq<Line>,
                                          first: seq<nat>, n: nat, p: nat)
    requires p < n && p < |responses| && Counting(trans, bursts, first, n, t)
    requires forall k :: 0 <= k < |bursts| ==> bursts[k].length > 0
    requires Queued(trans, bursts, responses, first, p, t)
    ensures Complete(t, responses[p]).Ok?
    ensures Counting(trans, bursts, first, n, Complete(t, responses[p]).value)
    ensures Queued(trans, bursts, responses, first, p + 1, Complete(t, responses[p]).value)
  {
    hide Moved, Total, Bytes;
    var c := |t.compl|;
    if t.outst == [] {
      MovedGrows(bursts, first[t.idx], n);
      assert false;
    }
    var o := t.outst[0];
    assert Tracks(trans, bursts, first, c + 0, o);
    var t' := Complete(t, responses[p]).value;
    if t.received + 1 == o.bursts {
      assert Covers(trans, bursts, c, first[c], p);
      assert Bytes(trans[c]) > 0;
      assert Timed(trans, bursts, responses, c, t'.compl[c]);
      forall i | 0 <= i < |t'.outst| ensures Tracks(trans, bursts, first, c + 1 + i, t'.outst[i]) {
        assert Tracks(trans, bursts, first, c + (i + 1), t.outst[i + 1]);
      }
    }
  }

  lemma {:induction false} LineKeepsTrack(trans: seq<Trans>, log: seq<Line>, i: nat, t: Tracker, first: seq<nat>)
    returns (first': seq<nat>)
    requires WellFormed(trans, log) && i < |log|
    requires var (n, p) := (|Bursts(log[..i])|, |Responses(log[..i])|);
      && Counting(trans, Bursts(log), first, n, t)
      && Queued(trans, Bursts(log), Responses(log), first, p, t)
    ensures OnLine(trans, t, log[i]).Ok?
    ensures var (n, p) := (|Bursts(log[..i + 1])|, |Responses(log[..i + 1])|);
      && Counting(trans, Bursts(log), first', n, OnLine(trans, t, log[i]).value)
      && Queued(trans, Bursts(log), Responses(log), first', p, OnLine(trans, t, log[i]).value)
  {
    hide Counting, Queued, Aligned, Ordered, Sized, Grant, Complete, Moved, Total, Live;
    var (bursts, responses) := (Bursts(log), Responses(log));
    var (n, p) := (|Bursts(log[..i])|, |Responses(log[..i])|);
    assert log[..i + 1][..i] == log[..i];
    Prefixes(log, i + 1);
    var t1 := t;
    first' := first;
    if Requests(log[i]) {
      assert bursts[n] == log[i];
      QueueIsOutstanding(trans, t, bursts, responses, first, p);
      GrantCounts(trans, t, bursts, first, n);
      GrantQueues(trans, t, bursts, responses, first, n, p);
      t1 := Grant(trans, t, log[i]).value;
      first' := Extended(trans, t, first, n, log[i]);
    }
    if Responds(log[i]) {
      assert responses[p] == log[i];
      CompleteQueues(trans, t1, bursts, responses, first', |Bursts(log[..i + 1])|, p);
    }
  }

  lemma {:induction false} QueueIsOutstanding(trans: seq<Trans>, t: Tracker, bursts: seq<Line>,
                                              responses: seq<Line>, first: seq<nat>, p: nat)
    requires Queued(trans, bursts, responses, first, p, t)
    ensures t.reqBytes > 0 ==> t.outst != []
  {}

  lemma {:induction false} LogKeepsTrack(trans: seq<Trans>, log: seq<Line>, i: nat)
    returns (first: seq<nat>)
    requires WellFormed(trans, log) && i <= |log|
    ensures Analysed(trans, log[..i]).Ok?
    ensures var (n, p) := (|Bursts(log[..i])|, |Responses(log[..i])|);
      && Counting(trans, Bursts(log), first, n, Analysed(trans, log[..i]).value)
      && Queued(trans, Bursts(log), Responses(log), first, p, Analysed(trans, log[..i]).value)
  {
    if i == 0 {
      first := [0];
    } else {
      hide Counting, Queued, WellFormed, OnLine;
      first := LogKeepsTrack(trans, log, i - 1);
      assert log[..i][..i - 1] == log[..i - 1];
      first := LineKeepsTrack(trans, log, i - 1, Analysed(trans, log[..i - 1]).value, first);
    }
  }

  /** The completed transfers are the reference ones, in the order in which they were recorded. */
  lemma {:induction false} TransfersMatch(trans: seq<Trans>, log: seq<Line>)
    requires WellFormed(trans, log)
    ensures Analysed(trans, log).Ok? && Matches(trans, log, Analysed(trans, log).value.compl)
  {
    hide Aligned, Ordered, Sized, Analysed, Timed, Tracks;
    var first := LogKeepsTrack(trans, log, |log|);
    assert log[..|log|] == log;
    var t := Analysed(trans, log).value;
    var (bursts, c, p) := (Bursts(log), |t.compl|, |Responses(log)|);
    assert |Responses(log[..|log|])| <= |Bursts(log[..|log|])|;
    MovedGrows(bursts, p, |bursts|);
    if c < t.idx {
      MovedGrows(bursts, p, first[c + 1]);
    }
  }

  lemma {:induction false} SameBurst(bursts: seq<Line>, k: nat, m: nat)
    requires k <= |bursts| && m <= |bursts| && Moved(bursts, k) == Moved(bursts, m)
    requires forall i :: 0 <= i < |bursts| ==> bursts[i].length > 0
    ensures k == m
  {
    if k < m {
      MovedGrows(bursts, k, m);
    } else {
      MovedGrows(bursts, m, k);
    }
  }

  lemma {:induction false} TimedUnique(trans: seq<Trans>, bursts: seq<Line>, responses: seq<Line>, j: nat,
                                       t: Transfer, u: Transfer)
    requires forall i :: 0 <= i < |bursts| ==> bursts[i].length > 0
    requires Timed(trans, bursts, responses, j, t) && Timed(trans, bursts, responses, j, u)
    ensures t == u
  {
    hide Moved, Total;
    var k: nat, m: nat :| Covers(trans, bursts, j, k, m) && m < |responses|
                && t.tstart == bursts[k].time && t.tend == responses[m].time;
    var k': nat, m': nat :| Covers(trans, bursts, j, k', m') && m' < |responses|
                  && u.tstart == bursts[k'].time && u.tend == responses[m'].time;
    SameBurst(bursts, k, k');
    SameBurst(bursts, m + 1, m' + 1);
  }

  lemma {:induction false} MatchesNoShorter(trans: seq<Trans>, log: seq<Line>, ts: seq<Transfer>, us: seq<Transfer>)
    requires WellFormed(trans, log) && Matches(trans, log, ts) && Matches(trans, log, us)
    ensures |us| <= |ts|
  {
    hide WellFormed, Moved, Total;
    var (bursts, responses) := (Bursts(log), Responses(log));
    if |ts| < |us| {
      assert Timed(trans, bursts, responses, |ts|, us[|ts|]);
      var k: nat, m: nat :| Covers(trans, bursts, |ts|, k, m) && m < |responses|
                  && us[|ts|].tstart == bursts[k].time && us[|ts|].tend == responses[m].time;
      LengthsPositive(trans, log);
      MovedGrows(bursts, m + 1, |responses|);
    }
  }

  lemma {:induction false} LengthsPositive(trans: seq<Trans>, log: seq<Line>)
    requires WellFormed(trans, log)
    ensures forall k :: 0 <= k < |Bursts(log)| ==> Bursts(log)[k].length > 0
  {}

  /** At most one list of transfers matches a log. */
  lemma {:induction false} MatchesUnique(trans: seq<Trans>, log: seq<Line>, ts: seq<Transfer>, us: seq<Transfer>)
    requires WellFormed(trans, log) && Matches(trans, log, ts) && Matches(trans, log, us)
    ensures ts == us
  {
    MatchesNoShorter(trans, log, ts, us);
    MatchesNoShorter(trans, log, us, ts);
    forall j | 0 <= j < |ts| ensures ts[j] == us[j] {
      TimedUnique(trans, Bursts(log), Responses(log), j, ts[j], us[j]);
    }
  }

  /** A transfer is reported exactly when its bytes are answered and no transfer up to it is empty. */
  lemma {:induction false} ReportedIff(trans: seq<Trans>, log: seq<Line>, ts: seq<Transfer>, j: nat)
    requires WellFormed(trans, log) && Matches(trans, log, ts) && j < |trans|
    ensures j < |ts| <==> j < Live(trans) && Total(trans, j + 1) <= Moved(Bursts(log), |Responses(log)|)
  {
    hide WellFormed, Moved, Total;
    var (bursts, responses) := (Bursts(log), Responses(log));
    LengthsPositive(trans, log);
    if j < |ts| {
      assert Timed(trans, bursts, responses, j, ts[j]);
      var k: nat, m: nat :| Covers(trans, bursts, j, k, m) && m < |responses|
                  && ts[j].tstart == bursts[k].time && ts[j].tend == responses[m].time;
      MovedGrows(bursts, m + 1, |responses|);
    } else if j < Live(trans) {
      TotalGrows(trans, |ts| + 1, j + 1);
    }
  }

  /** After an empty transfer even a fully answered one is not reported. */
  lemma {:induction false} EmptyTransferExample(trans: seq<Trans>, log: seq<Line>)
    requires trans == [Trans(1, Some(0)), Trans(1, Some(8)), Trans(1, None)]
    requires log == [Line(1, true, true, 8, false, false), Line(3, false, false, 0, true, true)]
    ensures Bursts(log) == [log[0]] && Responses(log) == [log[1]] && Total(trans, 2) == log[0].length
    ensures Analysed(trans, log).Ok? && Analysed(trans, log).value.compl == []
  {
    assert Total(trans, 0) == 0 && Total(trans, 1) == 0 && Bytes(trans[1]) == 8;
    assert log[..1] == [log[0]] && log[..1][..0] == [];
    assert Bursts(log[..1]) == [log[0]] && Responses(log[..1]) == [];
    assert Analysed(trans, log[..1][..0]) == Ok(Start);
    assert Analysed(trans, log[..1]) == OnLine(trans, Start, log[0]);
  }

  // ----- Order

  /** Transfers start in order, end in order, and none ends before it starts. */
  ghost predicate InOrder(ts: seq<Transfer>) {
    && (forall i :: 0 <= i < |ts| ==> ts[i].tstart <= ts[i].tend)
    && (forall i, j :: 0 <= i <= j < |ts| ==> ts[i].tstart <= ts[j].tstart && ts[i].tend <= ts[j].tend)
  }

  lemma {:induction false} TimedInOrder(trans: seq<Trans>, log: seq<Line>, i: nat, j: nat, t: Transfer, u: Transfer)
    requires WellFormed(trans, log) && i <= j
    requires Timed(trans, Bursts(log), Responses(log), i, t) && Timed(trans, Bursts(log), Responses(log), j, u)
    ensures t.tstart <= u.tstart && t.tend <= u.tend && t.tstart <= t.tend
  {
    hide Moved, Total, Aligned, Sized;
    var (bursts, responses) := (Bursts(log), Responses(log));
    var k: nat, m: nat :| Covers(trans, bursts, i, k, m) && m < |responses|
                && t.tstart == bursts[k].time && t.tend == responses[m].time;
    var k': nat, m': nat :| Covers(trans, bursts, j, k', m') && m' < |responses|
                  && u.tstart == bursts[k'].time && u.tend == responses[m'].time;
    TotalGrows(trans, i, j);
    TotalGrows(trans, i + 1, j + 1);
    if k' < k {
      MovedGrows(bursts, k', k);
      assert false;
    }
    if m' < m {
      MovedGrows(bursts, m' + 1, m + 1);
      assert false;
    }
    if |log| > 0 {
      SelectedInOrder(log, log[|log| - 1].time);
      ResponseAfterBurst(log, m);
    }
  }

  lemma {:induction false} MatchedInOrder(trans: seq<Trans>, log: seq<Line>, ts: seq<Transfer>)
    requires WellFormed(trans, log) && Matches(trans, log, ts)
    ensures InOrder(ts)
  {
    hide WellFormed, Timed;
    forall i, j | 0 <= i <= j < |ts|
      ensures ts[i].tstart <= ts[j].tstart && ts[i].tend <= ts[j].tend && ts[i].tstart <= ts[i].tend
    {
      TimedInOrder(trans, log, i, j, ts[i], ts[j]);
    }
  }
}
