/** The threshold-and-hysteresis decision of one sampling tick, and its effect
    over a sequence of samples. The monitor's only state is the flag
    `hasReported`: a tick at or above the threshold reports once and latches
    the flag, and only a sample strictly below 80% of the threshold re-arms it. */
module Hysteresis {

  /** One reading of the heap, already converted to megabytes. */
  datatype Sample = Sample(usedMB: real, totalMB: real)

  /** What one tick decides: whether it reports, and the flag it leaves behind. */
  datatype TickResult = TickResult(fires: bool, hasReported: bool)

  /** The samples a run of ticks reported, in order, and the final flag. */
  datatype TraceResult = TraceResult(reports: seq<Sample>, hasReported: bool)

  /** The lower edge of the hysteresis band. */
  function RearmLevel(thresholdMB: real): real {
    thresholdMB * 0.8
  }

  /** One tick: the upward check sets the flag and reports, then, independently,
      the downward check clears the flag below the band. */
  function Tick(thresholdMB: real, hasReported: bool, usedMB: real): (r: TickResult)
    ensures r.fires <==> usedMB >= thresholdMB && !hasReported
    ensures hasReported ==> !r.fires
    ensures !hasReported && r.hasReported ==> r.fires
    ensures hasReported && !r.hasReported <==> hasReported && usedMB < RearmLevel(thresholdMB)
    ensures r.fires ==> (r.hasReported <==> usedMB >= RearmLevel(thresholdMB))
    ensures r.fires && thresholdMB >= 0.0 ==> r.hasReported
  {
    var fires := usedMB >= thresholdMB && !hasReported;
    var raised := if fires then true else hasReported;
    var lowered := if raised && usedMB < RearmLevel(thresholdMB) then false else raised;
    TickResult(fires, lowered)
  }

  /** The flag survives every reporting tick exactly when the threshold is not
      negative; below zero one tick can report and re-arm at once. */
  lemma LatchesIffNonNegative(thresholdMB: real)
    ensures (forall u :: Tick(thresholdMB, false, u).fires ==> Tick(thresholdMB, false, u).hasReported)
            <==> thresholdMB >= 0.0
  {
    if thresholdMB < 0.0 {
      var r := Tick(thresholdMB, false, thresholdMB);
      assert r.fires && !r.hasReported;
    }
  }

  /** Ticks applied to the samples in order, starting from the flag `init`. */
  function Trace(thresholdMB: real, init: bool, s: seq<Sample>): TraceResult
    decreases |s|
  {
    if s == [] then TraceResult([], init)
    else
      var before := Trace(thresholdMB, init, s[..|s| - 1]);
      var x := s[|s| - 1];
      var t := Tick(thresholdMB, before.hasReported, x.usedMB);
      TraceResult(before.reports + (if t.fires then [x] else []), t.hasReported)
  }

  /** One more sample extends the trace by that sample's tick. */
  lemma TraceSnoc(thresholdMB: real, init: bool, s: seq<Sample>, x: Sample)
    ensures var before := Trace(thresholdMB, init, s);
            var t := Tick(thresholdMB, before.hasReported, x.usedMB);
            Trace(thresholdMB, init, s + [x])
            == TraceResult(before.reports + (if t.fires then [x] else []), t.hasReported)
  {
    assert (s + [x])[..|s|] == s;
  }

  /** Each tick reports at most once, and only a sample at or above the
      threshold is ever reported. */
  lemma {:induction false} TraceReportsBounded(thresholdMB: real, init: bool, s: seq<Sample>)
    ensures |Trace(thresholdMB, init, s).reports| <= |s|
    ensures forall i :: 0 <= i < |Trace(thresholdMB, init, s).reports| ==>
              Trace(thresholdMB, init, s).reports[i].usedMB >= thresholdMB
    decreases |s|
  {
    if s != [] {
      TraceReportsBounded(thresholdMB, init, s[..|s| - 1]);
    }
  }

  /** Running two stretches of samples one after the other is running their
      concatenation. */
  lemma {:induction false} TraceConcat(thresholdMB: real, init: bool, a: seq<Sample>, b: seq<Sample>)
    ensures var ra := Trace(thresholdMB, init, a);
            var rb := Trace(thresholdMB, ra.hasReported, b);
            Trace(thresholdMB, init, a + b) == TraceResult(ra.reports + rb.reports, rb.hasReported)
    decreases |b|
  {
    if b == [] {
      assert a + b == a;
    } else {
      var b' := b[..|b| - 1];
      assert (a + b)[..|a + b| - 1] == a + b';
      assert (a + b)[|a + b| - 1] == b[|b| - 1];
      TraceConcat(thresholdMB, init, a, b');
    }
  }

  /** While the flag is set and no sample falls below the band, nothing is
      reported and the flag stays set, whatever the samples are otherwise. */
  lemma {:induction false} StaysLatched(thresholdMB: real, s: seq<Sample>)
    requires forall i :: 0 <= i < |s| ==> s[i].usedMB >= RearmLevel(thresholdMB)
    ensures Trace(thresholdMB, true, s) == TraceResult([], true)
    decreases |s|
  {
    if s != [] {
      StaysLatched(thresholdMB, s[..|s| - 1]);
    }
  }

  /** From the armed state, samples below the threshold report nothing and leave
      the monitor armed. */
  lemma {:induction false} StaysArmed(thresholdMB: real, s: seq<Sample>)
    requires forall i :: 0 <= i < |s| ==> s[i].usedMB < thresholdMB
    ensures Trace(thresholdMB, false, s) == TraceResult([], false)
    decreases |s|
  {
    if s != [] {
      StaysArmed(thresholdMB, s[..|s| - 1]);
    }
  }

  /** Usage that rises from below the threshold to at or above it and stays
      there is reported exactly once, at the first sample at or above it. */
  lemma RiseAndStay(thresholdMB: real, below: seq<Sample>, above: seq<Sample>)
    requires thresholdMB >= 0.0
    requires forall i :: 0 <= i < |below| ==> below[i].usedMB < thresholdMB
    requires |above| > 0
    requires forall i :: 0 <= i < |above| ==> above[i].usedMB >= thresholdMB
    ensures Trace(thresholdMB, false, below + above) == TraceResult([above[0]], true)
  {
    StaysArmed(thresholdMB, below);
    TraceConcat(thresholdMB, false, below, above);
    var first, rest := [above[0]], above[1..];
    assert above == first + rest;
    assert first[..0] == [];
    TraceConcat(thresholdMB, false, first, rest);
    StaysLatched(thresholdMB, rest);
  }

  /** Oscillation inside the band after a report does not report again:
      with threshold 400, [390, 405, 402, 398, 410] reports once, at 405. */
  lemma OscillationReportsOnce(totalMB: real)
    ensures var s := [Sample(390.0, totalMB), Sample(405.0, totalMB), Sample(402.0, totalMB),
                      Sample(398.0, totalMB), Sample(410.0, totalMB)];
            Trace(400.0, false, s) == TraceResult([Sample(405.0, totalMB)], true)
  {
    var a, b := Sample(390.0, totalMB), Sample(405.0, totalMB);
    var c, d, e := Sample(402.0, totalMB), Sample(398.0, totalMB), Sample(410.0, totalMB);
    TraceSnoc(400.0, false, [], a);
    assert [] + [a] == [a];
    TraceSnoc(400.0, false, [a], b);
    assert [a] + [b] == [a, b];
    TraceSnoc(400.0, false, [a, b], c);
    assert [a, b] + [c] == [a, b, c];
    TraceSnoc(400.0, false, [a, b, c], d);
    assert [a, b, c] + [d] == [a, b, c, d];
    TraceSnoc(400.0, false, [a, b, c, d], e);
    assert [a, b, c, d] + [e] == [a, b, c, d, e];
  }

  /** A drop below the band re-arms the monitor, so the next crossing reports
      again: with threshold 400, [405, 300, 410] reports twice. */
  lemma RecoveryReportsAgain(totalMB: real)
    ensures var s := [Sample(405.0, totalMB), Sample(300.0, totalMB), Sample(410.0, totalMB)];
            Trace(400.0, false, s) == TraceResult([Sample(405.0, totalMB), Sample(410.0, totalMB)], true)
  {
    var a, b, c := Sample(405.0, totalMB), Sample(300.0, totalMB), Sample(410.0, totalMB);
    assert [a][..0] == [];
    assert Trace(400.0, false, [a]) == TraceResult([a], true);
    assert [a, b][..1] == [a];
    assert Trace(400.0, false, [a, b]) == TraceResult([a], false);
    assert [a, b, c][..2] == [a, b];
  }

  /** Sample j is at or above the threshold and no later sample of `s` has
      fallen below the band: the flag it latched is still set at the end. */
  ghost predicate LatchedAt(thresholdMB: real, s: seq<Sample>, j: int) {
    0 <= j < |s| && s[j].usedMB >= thresholdMB &&
    forall k :: j < k < |s| ==> s[k].usedMB >= RearmLevel(thresholdMB)
  }

  ghost predicate Latched(thresholdMB: real, s: seq<Sample>) {
    exists j :: LatchedAt(thresholdMB, s, j)
  }

  /** For a non-negative threshold and a monitor that starts armed, the flag is
      set after the samples exactly when some sample reached the threshold and
      nothing since has fallen below the band. */
  lemma {:induction false} FlagIsLatched(thresholdMB: real, s: seq<Sample>)
    requires thresholdMB >= 0.0
    ensures Trace(thresholdMB, false, s).hasReported <==> Latched(thresholdMB, s)
    decreases |s|
  {
    if s == [] {
      assert !LatchedAt(thresholdMB, s, 0);
    } else {
      var p, x := s[..|s| - 1], s[|s| - 1];
      FlagIsLatched(thresholdMB, p);
      var n := |p|;
      if x.usedMB >= thresholdMB {
        assert LatchedAt(thresholdMB, s, n);
      } else if x.usedMB >= RearmLevel(thresholdMB) {
        if Latched(thresholdMB, p) {
          var j :| LatchedAt(thresholdMB, p, j);
          assert LatchedAt(thresholdMB, s, j);
        }
        if Latched(thresholdMB, s) {
          var j :| LatchedAt(thresholdMB, s, j);
          assert j < n;
          assert LatchedAt(thresholdMB, p, j);
        }
      }
    }
  }

  /** Reference definition of the reports: every sample at or above the
      threshold that arrives while nothing is latched, that is, an upward
      crossing made from the re-armed state. */
  ghost function ArmedCrossings(thresholdMB: real, s: seq<Sample>): seq<Sample>
    decreases |s|
  {
    if s == [] then []
    else
      var p, x := s[..|s| - 1], s[|s| - 1];
      ArmedCrossings(thresholdMB, p)
        + (if x.usedMB >= thresholdMB && !Latched(thresholdMB, p) then [x] else [])
  }

  /** The monitor reports exactly the upward crossings made from the re-armed
      state. */
  lemma {:induction false} ReportsAreArmedCrossings(thresholdMB: real, s: seq<Sample>)
    requires thresholdMB >= 0.0
    ensures Trace(thresholdMB, false, s).reports == ArmedCrossings(thresholdMB, s)
    decreases |s|
  {
    if s != [] {
      var p := s[..|s| - 1];
      ReportsAreArmedCrossings(thresholdMB, p);
      FlagIsLatched(thresholdMB, p);
    }
  }
}
