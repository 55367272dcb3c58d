/** The timestamp filter of the client's main loop and the sampling loop of the server that feeds it. */
module Filtering {
  import opened Bytes
  import opened Reports
  import opened Framing

  function PadReports(items: seq<Item>): seq<MainReport> {
    if items == [] then []
    else
      (if items[0].Ok? && items[0].event.PadDataReceived? then [items[0].event.data] else []) + PadReports(items[1..])
  }

  lemma {:induction false} PadReportsAppend(a: seq<Item>, b: seq<Item>)
    ensures PadReports(a + b) == PadReports(a) + PadReports(b)
  {
    if a == [] {
      assert a + b == b;
    } else {
      assert (a + b)[1..] == a[1..] + b;
      PadReportsAppend(a[1..], b);
    }
  }

  lemma PadReportsOne(item: Item)
    ensures PadReports([item]) == if item.Ok? && item.event.PadDataReceived? then [item.event.data] else []
  {
  }

  // ---------- The filter ----------

  /** The reports that pass, given the last timestamp seen so far. */
  function Forwarded(last: u64, reports: seq<MainReport>): seq<MainReport>
    decreases |reports|
  {
    if reports == [] then []
    else if reports[0].timestamp <= last then Forwarded(last, reports[1..])
    else [reports[0]] + Forwarded(reports[0].timestamp, reports[1..])
  }

  function LastSeen(last: u64, reports: seq<MainReport>): u64
    decreases |reports|
  {
    if reports == [] then last
    else LastSeen(if reports[0].timestamp <= last then last else reports[0].timestamp, reports[1..])
  }

  lemma ForwardedOne(last: u64, r: MainReport)
    ensures Forwarded(last, [r]) == if r.timestamp > last then [r] else []
    ensures LastSeen(last, [r]) == if r.timestamp > last then r.timestamp else last
  {
  }

  lemma {:induction false} ForwardedAppend(last: u64, a: seq<MainReport>, b: seq<MainReport>)
    ensures Forwarded(last, a + b) == Forwarded(last, a) + Forwarded(LastSeen(last, a), b)
    ensures LastSeen(last, a + b) == LastSeen(LastSeen(last, a), b)
    decreases |a|
  {
    if a == [] {
      assert a + b == b;
    } else {
      assert (a + b)[1..] == a[1..] + b;
      ForwardedAppend(if a[0].timestamp <= last then last else a[0].timestamp, a[1..], b);
    }
  }

  // ---------- What the filter means ----------

  /** Report `i` is newer than 0 and than everything that arrived before it. */
  predicate IsRecord(reports: seq<MainReport>, i: nat)
    requires i < |reports|
  {
    reports[i].timestamp > 0 && forall j :: 0 <= j < i ==> reports[j].timestamp < reports[i].timestamp
  }

  /** The records among the first `n` reports, in order. */
  function Records(reports: seq<MainReport>, n: nat): seq<MainReport>
    requires n <= |reports|
  {
    if n == 0 then []
    else Records(reports, n - 1) + if IsRecord(reports, n - 1) then [reports[n - 1]] else []
  }

  lemma {:induction false} SeenIsMaximum(reports: seq<MainReport>, n: nat)
    requires n <= |reports|
    ensures forall j :: 0 <= j < n ==> reports[j].timestamp <= LastSeen(0, reports[..n])
    ensures LastSeen(0, reports[..n]) == 0 ||
            exists j :: 0 <= j < n && reports[j].timestamp == LastSeen(0, reports[..n])
  {
    if n > 0 {
      SeenIsMaximum(reports, n - 1);
      assert reports[..n] == reports[..n - 1] + [reports[n - 1]];
      ForwardedAppend(0, reports[..n - 1], [reports[n - 1]]);
    }
  }

  /** The forwarded reports are exactly the strict left-to-right maxima, starting from 0. */
  lemma {:induction false} ForwardsRecords(reports: seq<MainReport>, n: nat)
    requires n <= |reports|
    ensures Forwarded(0, reports[..n]) == Records(reports, n)
  {
    if n > 0 {
      ForwardsRecords(reports, n - 1);
      SeenIsMaximum(reports, n - 1);
      assert reports[..n] == reports[..n - 1] + [reports[n - 1]];
      ForwardedAppend(0, reports[..n - 1], [reports[n - 1]]);
    }
  }

  /** The first report to arrive among those with the greatest timestamp, if that is not 0. */
  predicate IsNewest(reports: seq<MainReport>, r: MainReport) {
    exists i :: 0 <= i < |reports| && reports[i] == r && IsRecord(reports, i)
                && forall j :: 0 <= j < |reports| ==> reports[j].timestamp <= r.timestamp
  }

  lemma {:induction false} LastForwarded(last: u64, reports: seq<MainReport>)
    ensures Forwarded(last, reports) == [] <==> forall j :: 0 <= j < |reports| ==> reports[j].timestamp <= last
    ensures var f := Forwarded(last, reports); f != [] ==> f[|f| - 1].timestamp == LastSeen(last, reports)
    ensures Forwarded(last, reports) == [] ==> LastSeen(last, reports) == last
    decreases |reports|
  {
    if reports != [] {
      LastForwarded(if reports[0].timestamp <= last then last else reports[0].timestamp, reports[1..]);
      forall j | 0 < j < |reports| ensures reports[j] == reports[1..][j - 1] {}
    }
  }

  lemma ForwardedAround(before: seq<MainReport>, r: MainReport, after: seq<MainReport>)
    requires LastSeen(0, before) < r.timestamp && forall j :: 0 <= j < |after| ==> after[j].timestamp <= r.timestamp
    ensures Forwarded(0, before + [r] + after) == Forwarded(0, before) + [r]
  {
    hide *;
    ForwardedAppend(0, before + [r], after);
    ForwardedAppend(0, before, [r]);
    ForwardedOne(LastSeen(0, before), r);
    LastForwarded(r.timestamp, after);
  }

  /** The last report the filter lets through is the newest one received. */
  lemma NewestIsLast(reports: seq<MainReport>, r: MainReport)
    requires IsNewest(reports, r)
    ensures var f := Forwarded(0, reports); f != [] && f[|f| - 1] == r
  {
    var i :| 0 <= i < |reports| && reports[i] == r && IsRecord(reports, i)
      && forall j :: 0 <= j < |reports| ==> reports[j].timestamp <= r.timestamp;
    hide Forwarded, LastSeen;
    SeenIsMaximum(reports, i);
    assert LastSeen(0, reports[..i]) < r.timestamp;
    assert reports == reports[..i] + [r] + reports[i + 1..];
    ForwardedAround(reports[..i], r, reports[i + 1..]);
  }

  /** On a channel that neither loses nor reorders, reports sampled in increasing time all arrive. */
  lemma {:induction false} LosslessInOrder(last: u64, reports: seq<MainReport>)
    requires forall i :: 0 <= i < |reports| ==> reports[i].timestamp > last
    requires forall i, j :: 0 <= i < j < |reports| ==> reports[i].timestamp < reports[j].timestamp
    ensures Forwarded(last, reports) == reports
    decreases |reports|
  {
    if reports != [] {
      forall i | 0 <= i < |reports[1..]| ensures reports[1..][i].timestamp > reports[0].timestamp {
        assert reports[1..][i] == reports[i + 1];
      }
      LosslessInOrder(reports[0].timestamp, reports[1..]);
    }
  }

  // ---------- The server's sampling loop ----------

  /** `get_ctrl` keeps the timestamp of the last sample in a static variable that starts at 1024. The
      readings of the controller are a stream; a failing first reading leaves everything as it was. */
  class Sampler {
    var lastTimestamp: u64

    constructor ()
      ensures lastTimestamp == 1024
    {
      lastTimestamp := 1024;
    }

    /** Reads from position `from` until a reading is newer than the last sample. */
    method GetCtrl(readings: nat -> u64, from: nat, failed: bool, ghost newer: nat) returns (timestamp: Option<u64>, next: nat)
      requires !failed ==> from <= newer && readings(newer) > lastTimestamp
      modifies this
      ensures failed ==> timestamp == None && lastTimestamp == old(lastTimestamp)
      ensures !failed ==>
                && timestamp == Some(lastTimestamp) && lastTimestamp > old(lastTimestamp)
                && from < next && lastTimestamp == readings(next - 1)
                && forall i :: from <= i < next - 1 ==> readings(i) <= old(lastTimestamp)
    {
      next := from + 1;
      if failed {
        return None, next;
      }
      var pad := readings(from);
      while pad <= lastTimestamp
        invariant from < next <= newer + 1 && pad == readings(next - 1)
        invariant forall i :: from <= i < next - 1 ==> readings(i) <= lastTimestamp
        decreases newer + 1 - next
      {
        pad := readings(next);
        next := next + 1;
      }
      lastTimestamp := pad;
      timestamp := Some(pad);
    }
  }

  /** The timestamps of successful samples, each taken while the last one is `last`. */
  predicate Sampled(last: u64, timestamps: seq<u64>)
    decreases |timestamps|
  {
    timestamps == [] || (timestamps[0] > last && Sampled(timestamps[0], timestamps[1..]))
  }

  lemma {:induction false} SamplesIncrease(last: u64, timestamps: seq<u64>)
    requires Sampled(last, timestamps)
    ensures forall i :: 0 <= i < |timestamps| ==> timestamps[i] > last
    ensures forall i, j :: 0 <= i < j < |timestamps| ==> timestamps[i] < timestamps[j]
    decreases |timestamps|
  {
    if timestamps != [] {
      SamplesIncrease(timestamps[0], timestamps[1..]);
      forall i | 0 < i < |timestamps| ensures timestamps[i] == timestamps[1..][i - 1] {}
    }
  }

  /** With no sampling failure and an in-order lossless channel, every report sent passes the filter. */
  lemma EverySampleIsForwarded(reports: seq<MainReport>)
    requires Sampled(1024, seq(|reports|, i requires 0 <= i < |reports| => reports[i].timestamp))
    ensures Forwarded(0, reports) == reports
  {
    var ts: seq<u64> := seq(|reports|, i requires 0 <= i < |reports| => reports[i].timestamp);
    SamplesIncrease(1024, ts);
    forall i | 0 <= i < |reports| ensures reports[i].timestamp == ts[i] {}
    LosslessInOrder(0, reports);
  }
}
