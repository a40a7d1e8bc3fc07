/**
  Properties of the keypad scanner that relate several calls, or that pin
  down the scan's result completely.
 */
module KeypadProperties {
  import opened Keypad

  /** The probe of a keypad on which only cell `(i, j)` is held down. */
  function OnlyCell(i: nat, j: nat): Probe {
    (a: nat, b: nat) => a == i && b == j
  }

  // ---------------------------------------------------------------------
  // The first press in row-major order exists.
  // ---------------------------------------------------------------------

  /** Any pressed grid cell has a first pressed cell at or before it. */
  lemma {:induction false} FirstPressAtOrBefore(kb: Keyboard, probe: Probe, a: nat, b: nat)
    requires InGrid(kb, a, b) && probe(a, b)
    ensures exists x: nat, y: nat :: IsFirstPress(kb, probe, x, y) && !Precedes(a, b, x, y)
    decreases a, b
  {
    if !IsFirstPress(kb, probe, a, b) {
      var x: nat, y: nat :| InGrid(kb, x, y) && Precedes(x, y, a, b) && probe(x, y);
      FirstPressAtOrBefore(kb, probe, x, y);
    }
  }

  /** Outside the debounce window the scan reports a key exactly when some
      cell is pressed, and then it is the keymap entry of the lowest-row,
      lowest-column pressed cell, with the call's captured time recorded. */
  lemma ScanReportsFirstPress(kb: Keyboard, captured: int, checked: int, probe: Probe)
    requires !Debounced(kb, checked)
    ensures var r := Scan(kb, captured, checked, probe);
      && (!AnyPress(kb, probe) ==> r.outcome == NoKey && r.next == kb)
      && (AnyPress(kb, probe) ==>
            && r.next == kb.(lastPressTime := captured)
            && exists a: nat, b: nat :: IsFirstPress(kb, probe, a, b) && r.outcome == Lookup(a, b))
  {
    if AnyPress(kb, probe) {
      var a: nat, b: nat :| InGrid(kb, a, b) && probe(a, b);
      FirstPressAtOrBefore(kb, probe, a, b);
    }
  }

  // ---------------------------------------------------------------------
  // Debounce across calls.
  // ---------------------------------------------------------------------

  /** After a detection, every scan whose debounce check falls less than the
      window after the recorded time returns `None` and reads nothing, whatever
      the keys read: a held key is reported once per window. */
  lemma RepeatWithinWindowSuppressed(
    kb: Keyboard, captured1: int, checked1: int, probe1: Probe,
    captured2: int, checked2: int, probe2: Probe)
    requires Scan(kb, captured1, checked1, probe1).outcome != NoKey
    requires checked2 - captured1 < kb.debounceTime
    ensures var kb' := Scan(kb, captured1, checked1, probe1).next;
      Scan(kb', captured2, checked2, probe2) == ScanResult(NoKey, kb', [])
  {
  }

  /** A freshly constructed keyboard has a last-press time of 0, so every
      scan whose check time is still below the window returns `None`. */
  lemma FreshKeyboardSuppressedEarly(
    rowPins: seq<int>, colPins: seq<int>, debounceTime: int,
    captured: int, checked: int, probe: Probe)
    requires checked < debounceTime
    ensures var kb := NewKeyboard(rowPins, colPins, debounceTime);
      Scan(kb, captured, checked, probe) == ScanResult(NoKey, kb, [])
  {
  }

  // ---------------------------------------------------------------------
  // The scan does not depend on the history once the window has elapsed.
  // ---------------------------------------------------------------------

  /** Columns `j..` of row `i` give the same key and pin activity whatever the
      last-press time and the captured time. */
  lemma {:induction false} ColumnsIgnoreHistory(
    kb: Keyboard, t: int, i: nat, j: nat, captured1: int, captured2: int, probe: Probe)
    requires i < |kb.rowPins| && j <= |kb.colPins|
    ensures var r1 := ScanColumns(kb, i, j, captured1, probe);
      var r2 := ScanColumns(kb.(lastPressTime := t), i, j, captured2, probe);
      r1.outcome == r2.outcome && r1.trace == r2.trace
    decreases |kb.rowPins| - i, |kb.colPins| - j
  {
    if j == |kb.colPins| {
      RowsIgnoreHistory(kb, t, i + 1, captured1, captured2, probe);
    } else if !probe(i, j) {
      ColumnsIgnoreHistory(kb, t, i, j + 1, captured1, captured2, probe);
    }
  }

  /** Rows `i..` give the same key and pin activity whatever the last-press
      time and the captured time. */
  lemma {:induction false} RowsIgnoreHistory(
    kb: Keyboard, t: int, i: nat, captured1: int, captured2: int, probe: Probe)
    requires i <= |kb.rowPins|
    ensures var r1 := ScanRows(kb, i, captured1, probe);
      var r2 := ScanRows(kb.(lastPressTime := t), i, captured2, probe);
      r1.outcome == r2.outcome && r1.trace == r2.trace
    decreases |kb.rowPins| - i, |kb.colPins| + 1
  {
    if i < |kb.rowPins| {
      ColumnsIgnoreHistory(kb, t, i, 0, captured1, captured2, probe);
    }
  }

  /** Scanning the same key pattern again once the window has elapsed gives
      the same key and the same pin activity. */
  lemma RescanSamePatternStable(
    kb: Keyboard, captured1: int, checked1: int,
    captured2: int, checked2: int, probe: Probe)
    requires !Debounced(kb, checked1)
    requires !Debounced(Scan(kb, captured1, checked1, probe).next, checked2)
    ensures var r1 := Scan(kb, captured1, checked1, probe);
      var r2 := Scan(r1.next, captured2, checked2, probe);
      r2.outcome == r1.outcome && r2.trace == r1.trace
  {
    var r1 := Scan(kb, captured1, checked1, probe);
    RowsIgnoreHistory(kb, r1.next.lastPressTime, 0, captured1, captured2, probe);
  }

  /** The column at which `s` first appears in `row`. */
  function ColumnOf(row: seq<string>, s: string): (j: nat)
    requires s in row
    ensures j < |row| && row[j] == s
  {
    if row[0] == s then 0 else 1 + ColumnOf(row[1..], s)
  }

  /** A keymap cell holding symbol `s`. */
  function CellOf(s: string): (c: (nat, nat))
    requires s in Symbols
    ensures c.0 < 4 && c.1 < 4 && KeyMap[c.0][c.1] == s
  {
    if s in KeyMap[0] then (0, ColumnOf(KeyMap[0], s))
    else if s in KeyMap[1] then (1, ColumnOf(KeyMap[1], s))
    else if s in KeyMap[2] then (2, ColumnOf(KeyMap[2], s))
    else (3, ColumnOf(KeyMap[3], s))
  }

  // ---------------------------------------------------------------------
  // Single presses and the keymap's bounds.
  // ---------------------------------------------------------------------

  /** Holding exactly one cell of the 4x4 table down yields that cell's symbol. */
  lemma SingleCellPress(kb: Keyboard, i: nat, j: nat, captured: int, checked: int)
    requires InGrid(kb, i, j) && i < 4 && j < 4
    requires !Debounced(kb, checked)
    ensures Scan(kb, captured, checked, OnlyCell(i, j)).outcome == Key(KeyMap[i][j])
  {
    assert IsFirstPress(kb, OnlyCell(i, j), i, j);
  }

  /** With at most four row pins and four column pins the scan never raises. */
  lemma FourByFourNeverRaises(kb: Keyboard, captured: int, checked: int, probe: Probe)
    requires |kb.rowPins| <= 4 && |kb.colPins| <= 4
    ensures !Scan(kb, captured, checked, probe).outcome.KeymapIndexError?
  {
    if !Debounced(kb, checked) {
      ScanReportsFirstPress(kb, captured, checked, probe);
    }
  }

  /** `Keyboard()` with no arguments has four row and four column pins, so its
      scan never raises. */
  lemma DefaultKeyboardNeverRaises(captured: int, checked: int, probe: Probe)
    ensures |NewDefaultKeyboard().rowPins| == 4 && |NewDefaultKeyboard().colPins| == 4
    ensures !Scan(NewDefaultKeyboard(), captured, checked, probe).outcome.KeymapIndexError?
  {
    FourByFourNeverRaises(NewDefaultKeyboard(), captured, checked, probe);
  }

  /** With more row pins than keymap rows, a press on a fifth-row cell raises
      `IndexError`, yet the press time has already been recorded and the row
      driven off. */
  lemma FifthRowRaisesAfterRecording(kb: Keyboard, j: nat, captured: int, checked: int)
    requires InGrid(kb, 4, j)
    requires !Debounced(kb, checked)
    ensures var r := Scan(kb, captured, checked, OnlyCell(4, j));
      && r.outcome == KeymapIndexError
      && r.next == kb.(lastPressTime := captured)
      && Disciplined(r.trace, None)
  {
    assert IsFirstPress(kb, OnlyCell(4, j), 4, j);
  }

  /** Every one of the sixteen symbols is produced by pressing some single cell. */
  lemma EverySymbolReachable(kb: Keyboard, s: string, captured: int, checked: int)
    requires |kb.rowPins| == 4 && |kb.colPins| == 4
    requires !Debounced(kb, checked)
    requires s in Symbols
    ensures exists i: nat, j: nat :: i < 4 && j < 4 && Scan(kb, captured, checked, OnlyCell(i, j)).outcome == Key(s)
  {
    var (i, j) := CellOf(s);
    SingleCellPress(kb, i, j, captured, checked);
  }
}
