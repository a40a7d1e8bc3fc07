/**
  A model of the debounced 4x4 matrix-keypad scanner (`Keyboard` in
  component.py and src/component.py).

  The scanner drives one row pin at a time and reads the column pins; the
  first column that reads truthy, in row-major then column-minor order,
  selects the key. Hardware is abstracted away:
  - a `Probe` answers "does column `j` read truthy while row `i` is driven?";
  - the clock is two integer readings taken by the caller: `captured` (the
    value stored on a successful detection) and `checked` (the value used by
    the debounce test), because the source reads the clock twice;
  - the pins' activity is returned as a trace of `PinEvent`s.
 */
module Keypad {

  /** The fixed symbol table: `KeyMap[i][j]` is the key at row `i`, column `j`. */
  const KeyMap: seq<seq<string>> := [
    ["1", "2", "3", "A"],
    ["4", "5", "6", "B"],
    ["7", "8", "9", "C"],
    ["*", "0", "#", "D"]
  ]

  /** The sixteen symbols that appear in `KeyMap`. */
  const Symbols: set<string> :=
    {"1", "2", "3", "A", "4", "5", "6", "B", "7", "8", "9", "C", "*", "0", "#", "D"}

  /** Debounce window hard-coded by the fixed-debounce variant, in milliseconds. */
  const DefaultDebounceTime: int := 20

  /** Default row and column pin numbers of the fixed-debounce variant. */
  const DefaultRowPins: seq<int> := [16, 17, 18, 19]
  const DefaultColPins: seq<int> := [20, 21, 22, 26]

  /** `pressed(i, j)`: column pin `j` reads truthy while row pin `i` is driven on. */
  type Probe = (nat, nat) -> bool

  datatype Option<T> = None | Some(value: T)

  /** The scanner's state: its pins, its debounce window and the time of the last detection. */
  datatype Keyboard = Keyboard(
    rowPins: seq<int>,
    colPins: seq<int>,
    debounceTime: int,
    lastPressTime: int)

  /** What a scan call produces: a key, Python's `None`, or the `IndexError`
      raised when the pressed cell lies outside the 4x4 keymap. */
  datatype Outcome = NoKey | Key(symbol: string) | KeymapIndexError

  /** Observable pin activity during a scan. */
  datatype PinEvent =
    | RowOn(row: nat)
    | ColRead(row: nat, col: nat)
    | RowOff(row: nat)

  /** A scan's outcome, the keyboard state after it, and the pin activity it caused. */
  datatype ScanResult = ScanResult(outcome: Outcome, next: Keyboard, trace: seq<PinEvent>)

  /** Constructor of the parameterised variant: stores the given debounce window. */
  function NewKeyboard(rowPins: seq<int>, colPins: seq<int>, debounceTime: int): (kb: Keyboard)
    ensures kb.rowPins == rowPins && kb.colPins == colPins
    ensures kb.debounceTime == debounceTime && kb.lastPressTime == 0
    ensures forall t :: Debounced(kb, t) <==> t < debounceTime
  {
    Keyboard(rowPins, colPins, debounceTime, 0)
  }

  /** Constructor of the fixed-debounce variant: the window is always 20 ms,
      and the pins default to four rows and four columns. */
  function NewDefaultKeyboard(rowPins: seq<int> := DefaultRowPins, colPins: seq<int> := DefaultColPins): (kb: Keyboard)
    ensures kb.rowPins == rowPins && kb.colPins == colPins
    ensures kb.debounceTime == 20 && kb.lastPressTime == 0
    ensures forall t :: Debounced(kb, t) <==> t < 20
  {
    NewKeyboard(rowPins, colPins, DefaultDebounceTime)
  }

  /** The debounce test: too little time has passed since the last detection. */
  predicate Debounced(kb: Keyboard, checked: int) {
    checked - kb.lastPressTime < kb.debounceTime
  }

  /** `keymap[i][j]`, or the `IndexError` Python raises outside the table. */
  function Lookup(i: nat, j: nat): (r: Outcome)
    ensures r.Key? <==> i < 4 && j < 4
    ensures r.Key? ==> r.symbol in Symbols && |r.symbol| == 1
    ensures !r.NoKey?
  {
    if i < |KeyMap| && j < |KeyMap[i]| then Key(KeyMap[i][j]) else KeymapIndexError
  }

  // ---------------------------------------------------------------------
  // Declarative description of which cell the scan must pick.
  // ---------------------------------------------------------------------

  /** Cell `(i, j)` is one of the keyboard's row/column crossings. */
  predicate InGrid(kb: Keyboard, i: nat, j: nat) {
    i < |kb.rowPins| && j < |kb.colPins|
  }

  /** Cell `(i, j)` comes strictly before cell `(a, b)` in row-major order. */
  predicate Precedes(i: nat, j: nat, a: nat, b: nat) {
    i < a || (i == a && j < b)
  }

  /** No grid cell at or after `(i, j)` reads pressed. */
  ghost predicate NoPressFrom(kb: Keyboard, probe: Probe, i: nat, j: nat) {
    forall a: nat, b: nat :: InGrid(kb, a, b) && !Precedes(a, b, i, j) ==> !probe(a, b)
  }

  /** `(a, b)` is the first pressed grid cell at or after `(i, j)` in row-major order. */
  ghost predicate IsFirstPressFrom(kb: Keyboard, probe: Probe, i: nat, j: nat, a: nat, b: nat) {
    && InGrid(kb, a, b)
    && !Precedes(a, b, i, j)
    && probe(a, b)
    && forall x: nat, y: nat ::
         InGrid(kb, x, y) && !Precedes(x, y, i, j) && Precedes(x, y, a, b) ==> !probe(x, y)
  }

  /** Some grid cell reads pressed. */
  ghost predicate AnyPress(kb: Keyboard, probe: Probe) {
    !NoPressFrom(kb, probe, 0, 0)
  }

  /** `(a, b)` is the lowest-row, then lowest-column, pressed cell of the grid. */
  ghost predicate IsFirstPress(kb: Keyboard, probe: Probe, a: nat, b: nat) {
    IsFirstPressFrom(kb, probe, 0, 0, a, b)
  }

  // ---------------------------------------------------------------------
  // Row-off discipline on the pin trace.
  // ---------------------------------------------------------------------

  /** Reading `t` with row `active` (or none) currently driven: a row is driven
      on only when no row is on, a column is read only while its row is on,
      only the row that is on is driven off, and no row is left on at the end. */
  predicate Disciplined(t: seq<PinEvent>, active: Option<nat>)
    decreases |t|
  {
    if t == [] then active == None
    else match t[0]
      case RowOn(i) => active == None && Disciplined(t[1..], Some(i))
      case ColRead(i, _) => active == Some(i) && Disciplined(t[1..], active)
      case RowOff(i) => active == Some(i) && Disciplined(t[1..], None)
  }

  // ---------------------------------------------------------------------
  // The scan, step by step as the source performs it.
  // ---------------------------------------------------------------------

  /** Row `i` is driven on and columns `j..` remain to be read. On the first
      truthy column the time is recorded, the row driven off and the keymap
      consulted; past the last column the row is driven off and the next row
      is tried. */
  function ScanColumns(kb: Keyboard, i: nat, j: nat, captured: int, probe: Probe): (r: ScanResult)
    requires i < |kb.rowPins| && j <= |kb.colPins|
    ensures r.outcome.NoKey? <==> NoPressFrom(kb, probe, i, j)
    ensures forall a: nat, b: nat :: IsFirstPressFrom(kb, probe, i, j, a, b) ==> r.outcome == Lookup(a, b)
    ensures r.next == if r.outcome.NoKey? then kb else kb.(lastPressTime := captured)
    ensures r.outcome.Key? ==> r.outcome.symbol in Symbols
    ensures Disciplined(r.trace, Some(i))
    // The next column to be read is read first.
    ensures j < |kb.colPins| ==> |r.trace| > 0 && r.trace[0] == ColRead(i, j)
    decreases |kb.rowPins| - i, |kb.colPins| - j
  {
    if j == |kb.colPins| then
      var rest := ScanRows(kb, i + 1, captured, probe);
      ScanResult(rest.outcome, rest.next, [RowOff(i)] + rest.trace)
    else if probe(i, j) then
      ScanResult(Lookup(i, j), kb.(lastPressTime := captured), [ColRead(i, j), RowOff(i)])
    else
      var rest := ScanColumns(kb, i, j + 1, captured, probe);
      ScanResult(rest.outcome, rest.next, [ColRead(i, j)] + rest.trace)
  }

  /** Rows `i..` remain to be scanned, none is driven on. */
  function ScanRows(kb: Keyboard, i: nat, captured: int, probe: Probe): (r: ScanResult)
    requires i <= |kb.rowPins|
    ensures r.outcome.NoKey? <==> NoPressFrom(kb, probe, i, 0)
    ensures forall a: nat, b: nat :: IsFirstPressFrom(kb, probe, i, 0, a, b) ==> r.outcome == Lookup(a, b)
    ensures r.next == if r.outcome.NoKey? then kb else kb.(lastPressTime := captured)
    ensures r.outcome.Key? ==> r.outcome.symbol in Symbols
    ensures Disciplined(r.trace, None)
    // Row `i`, if it exists, is the first one driven on.
    ensures i < |kb.rowPins| ==> |r.trace| > 0 && r.trace[0] == RowOn(i)
    decreases |kb.rowPins| - i, |kb.colPins| + 1
  {
    if i == |kb.rowPins| then
      ScanResult(NoKey, kb, [])
    else
      var rest := ScanColumns(kb, i, 0, captured, probe);
      ScanResult(rest.outcome, rest.next, [RowOn(i)] + rest.trace)
  }

  /** `Keyboard.scan`: the debounce early exit, then the grid scan. */
  function Scan(kb: Keyboard, captured: int, checked: int, probe: Probe): (r: ScanResult)
    // Inside the debounce window nothing is read and nothing changes.
    ensures Debounced(kb, checked) ==> r.outcome.NoKey? && r.next == kb && r.trace == []
    // Otherwise a key is reported exactly when some cell is pressed ...
    ensures !Debounced(kb, checked) ==> (r.outcome.NoKey? <==> !AnyPress(kb, probe))
    // ... and it is the key of the first pressed cell in row-major order.
    ensures !Debounced(kb, checked) ==>
              forall a: nat, b: nat :: IsFirstPress(kb, probe, a, b) ==> r.outcome == Lookup(a, b)
    // Only a detection changes the state, and only its last-press time.
    ensures r.next == if r.outcome.NoKey? then kb else kb.(lastPressTime := captured)
    ensures r.outcome.Key? ==> r.outcome.symbol in Symbols
    ensures Disciplined(r.trace, None)
    // Outside the window the pins are scanned, starting with row 0 and column 0.
    ensures !Debounced(kb, checked) && |kb.rowPins| > 0 ==>
              |r.trace| > 0 && r.trace[0] == RowOn(0)
    ensures !Debounced(kb, checked) && |kb.rowPins| > 0 && |kb.colPins| > 0 ==>
              |r.trace| > 1 && r.trace[1] == ColRead(0, 0)
  {
    if Debounced(kb, checked) then ScanResult(NoKey, kb, [])
    else ScanRows(kb, 0, captured, probe)
  }

  /** Python truthiness of a string: only `""` is falsy. */
  predicate Truthy(s: string) {
    |s| > 0
  }

  /** `Keyboard.get_key`: returns the scanned key when truthy, else `None`;
      an `IndexError` from `scan` propagates without any truthiness test. */
  function GetKey(kb: Keyboard, captured: int, checked: int, probe: Probe): (r: ScanResult)
    ensures r == Scan(kb, captured, checked, probe)
  {
    var s := Scan(kb, captured, checked, probe);
    match s.outcome
    case Key(k) => if Truthy(k) then s else ScanResult(NoKey, s.next, s.trace)
    case _ => s
  }
}
