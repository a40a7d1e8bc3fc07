/**
  The scan written as the source writes it: a debounce test, then a loop
  over rows with a nested loop over columns and an early return on the
  first truthy column. It is proved to compute exactly `Keypad.Scan`.
 */
module ScanLoop {
  import opened Keypad

  /** `r` with `prefix` prepended to its pin trace. */
  function After(prefix: seq<PinEvent>, r: ScanResult): ScanResult {
    ScanResult(r.outcome, r.next, prefix + r.trace)
  }

  /** Moving one event from the front of a result's trace onto the prefix. */
  lemma AfterShift(prefix: seq<PinEvent>, e: PinEvent, r: ScanResult)
    ensures After(prefix, ScanResult(r.outcome, r.next, [e] + r.trace)) == After(prefix + [e], r)
  {
  }

  /** `Keyboard.scan` as loops: drive each row on in turn, read its columns in
      order, return the first truthy column's key at once, otherwise drive the
      row off and move on. */
  method ScanKeyboard(kb: Keyboard, captured: int, checked: int, probe: Probe)
    returns (outcome: Outcome, next: Keyboard, trace: seq<PinEvent>)
    ensures ScanResult(outcome, next, trace) == Scan(kb, captured, checked, probe)
    ensures outcome.Key? ==> outcome.symbol in Symbols
    ensures Disciplined(trace, None)
  {
    next := kb;
    trace := [];
    if checked - kb.lastPressTime < kb.debounceTime {
      return NoKey, next, trace;
    }
    ghost var whole := ScanRows(kb, 0, captured, probe);
    var i := 0;
    while i < |kb.rowPins|
      invariant i <= |kb.rowPins|
      invariant next == kb
      invariant whole == After(trace, ScanRows(kb, i, captured, probe))
    {
      AfterShift(trace, RowOn(i), ScanColumns(kb, i, 0, captured, probe));
      trace := trace + [RowOn(i)];
      var j := 0;
      while j < |kb.colPins|
        invariant j <= |kb.colPins|
        invariant next == kb
        invariant whole == After(trace, ScanColumns(kb, i, j, captured, probe))
      {
        if probe(i, j) {
          ghost var hit := ScanResult(Lookup(i, j), kb.(lastPressTime := captured), []);
          assert [ColRead(i, j), RowOff(i)] == [ColRead(i, j)] + ([RowOff(i)] + hit.trace);
          AfterShift(trace, ColRead(i, j), ScanResult(hit.outcome, hit.next, [RowOff(i)] + hit.trace));
          AfterShift(trace + [ColRead(i, j)], RowOff(i), hit);
          trace := trace + [ColRead(i, j)];
          next := kb.(lastPressTime := captured);
          trace := trace + [RowOff(i)];
          outcome := Lookup(i, j);
          return;
        }
        AfterShift(trace, ColRead(i, j), ScanColumns(kb, i, j + 1, captured, probe));
        trace := trace + [ColRead(i, j)];
        j := j + 1;
      }
      AfterShift(trace, RowOff(i), ScanRows(kb, i + 1, captured, probe));
      trace := trace + [RowOff(i)];
      i := i + 1;
    }
    outcome := NoKey;
  }
}
