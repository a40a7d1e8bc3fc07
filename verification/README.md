# Debounced matrix-keypad scanner

A Dafny model of the `Keyboard` class of a small MicroPython program that
drives LEDs and reads a 4x4 matrix keypad. `scan` drives each row pin in
turn, reads the column pins, and returns the symbol of the first column that reads
truthy, subject to a debounce window. The class exists twice, in
`src/component.py` (debounce window hard-coded to 20 ms, default pins
16-19 / 20, 21, 22, 26) and in `component.py` (pins and window passed to the
constructor). Both copies share one `Keyboard` datatype whose
`debounceTime` is a field; they differ only in their constructors,
`NewDefaultKeyboard` (whose pin lists default to the source's, as
`Keyboard()` does) and `NewKeyboard`.

How the hardware is represented:

- `Probe` is a total function `(i, j) -> bool`: column pin `j` reads truthy
  while row pin `i` is driven on, exactly as `col.value()` is consumed.
- The clock is two integers supplied by the caller. `captured` is the
  reading taken on entry and stored on a detection (`src/component.py:37`).
  `checked` is the second reading used by the debounce test
  (`src/component.py:40`). No order between them is assumed.
- Pin activity is returned as a trace of `RowOn`, `ColRead` and `RowOff`
  events. The predicate `Disciplined` states the row-off discipline: a row
  is driven on only when no row is on, a column is read only while its row
  is on, and no row is left on at the end.
- The outcome is `Key(symbol)`, `NoKey` (Python's `None`), or
  `KeymapIndexError`. The last is the `IndexError` that `keymap[i][j]`
  raises when the constructor was given more than four row or column pins
  and a press lands outside the 4x4 table. By that point the source has
  already stored the press time and driven the row off, and the model
  records both.

Files:

- `keypad.dfy` (module `Keypad`): data model, constructors, the recursive
  scan `ScanRows`/`ScanColumns`, `Scan` and `GetKey`. The result is specified
  against a declarative description: the lowest-row, then lowest-column,
  pressed cell (`IsFirstPress`).
- `scan_loop.dfy` (module `ScanLoop`): `ScanKeyboard`, the same scan written
  with the source's nested loops and early return. It is proved equal to
  `Scan`.
- `keypad_properties.dfy` (module `KeypadProperties`): lemmas relating
  several calls, and the full characterisation of the scan's result.

The columns are configured `PULL_UP` and any truthy read counts as a press;
the model keeps exactly that test, as the abstract `Probe`.

## Model

| member | source | states |
|---|---|---|
| Keypad.NewKeyboard | component.py:14-28 | the constructor stores the given pins and debounce window and starts with last-press time 0, so a check time is inside the window exactly when it is below the window |
| Keypad.NewDefaultKeyboard | src/component.py:17-33 | the fixed variant stores the given pins, by default rows 16-19 and columns 20, 21, 22, 26; its window is 20 and its last-press time 0, so a check time is inside the window exactly when it is below 20 |
| Keypad.Lookup | src/component.py:24-29 | a keymap lookup yields a key exactly for cells inside the 4x4 table; the key is one of the sixteen symbols 0-9, A-D, `*`, `#` and is a one-character (truthy) string; any other cell raises |
| Keypad.ScanColumns | src/component.py:46-53 | with row i driven on and columns j.. left to read: no key exactly when no grid cell at or after (i, j) is pressed; otherwise the key of the first such pressed cell; the state changes only by recording the captured time on a detection; the pin trace keeps row i on until it is driven off and leaves every row off |
| Keypad.ScanRows | src/component.py:44-53 | the same facts for rows i.. scanned from column 0 with no row on |
| Keypad.Scan | src/component.py:35-53 | inside the debounce window: `None`, no pin touched, state unchanged; otherwise the pins are scanned starting with row 0 driven on and column 0 read, and a key is reported exactly when some cell is pressed, namely the first pressed cell in row-major, column-minor order; only a detection changes the state, and only its last-press time, to the captured time; every row driven on is driven off; a key is always a keymap symbol |
| Keypad.GetKey | src/component.py:55-59 | `get_key` returns exactly what `scan` returns, including its pin activity and new state, because no keymap symbol is falsy |
| ScanLoop.ScanKeyboard | component.py:30-48 | the nested-loop scan with its early return computes exactly `Scan`: same outcome, same new state, same pin trace |
| KeypadProperties.FirstPressAtOrBefore | src/component.py:44-51 | every pressed grid cell has a first pressed cell, in row-major order, at or before it, so the scan's first match is well defined |
| KeypadProperties.ScanReportsFirstPress | component.py:39-48 | outside the window: with no press, `None` and the state unchanged; with a press, the captured time is recorded and the key is the keymap entry of the first pressed cell, which exists |
| KeypadProperties.RepeatWithinWindowSuppressed | src/component.py:37-48 | after a detection, any later scan whose check time is less than the window past the recorded time returns `None` and reads no pin, whatever is pressed: a held key is reported once per window |
| KeypadProperties.FreshKeyboardSuppressedEarly | component.py:27-36 | a freshly built keyboard returns `None` without reading any pin for every check time below its window, because its last-press time starts at 0 |
| KeypadProperties.ColumnsIgnoreHistory | src/component.py:46-51 | scanning from (i, j) yields the same key and pin activity whatever the last-press time and captured time |
| KeypadProperties.RowsIgnoreHistory | src/component.py:44-53 | scanning rows i.. yields the same key and pin activity whatever the last-press time and captured time |
| KeypadProperties.RescanSamePatternStable | component.py:35-46 | once the window has passed, scanning the same key pattern again gives the same key and the same pin activity |
| KeypadProperties.SingleCellPress | src/component.py:44-51 | holding exactly one cell (i, j) of the 4x4 table yields `keymap[i][j]` |
| KeypadProperties.FourByFourNeverRaises | component.py:16-45 | with at most four row pins and four column pins the scan never raises `IndexError` |
| KeypadProperties.DefaultKeyboardNeverRaises | src/component.py:17-50 | `Keyboard()` with no arguments has four row and four column pins, so its scan never raises `IndexError` |
| KeypadProperties.FifthRowRaisesAfterRecording | component.py:39-46 | with a fifth row pin, pressing a cell in that row raises `IndexError`, yet the press time has already been stored and the row driven off |
| KeypadProperties.EverySymbolReachable | src/component.py:24-29 | on a 4x4 keyboard, every one of the sixteen symbols is produced by pressing some single cell |

## Left out

- `LED` class (`src/component.py:6-14`, `component.py:3-11`): a wrapper around a pin with no logic.
- `src/blink.py` and `main.py`: non-terminating hardware loops and bootstrap. Only the keyboard they build is modelled.
- `config.py`: pin numbers only. `DEBOUNCE_TIME = 20` matches the fixed variant's constant.
- Electrical pin behaviour: pull-up polarity and how `Pin` levels arise. Reads are an abstract `Probe`. The model also treats each read as fixed for the whole call, so a level changing mid-scan is not modelled.
- `utime.ticks_ms` wrap-around: time is an unbounded integer. The source subtracts with plain `-` rather than `ticks_diff`, so after the counter wraps the real debounce test misbehaves. The model does not capture that.
- The two clock readings are independent parameters. The model does not require the second to be at least the first, so it also covers a clock that goes backwards.
- The source consists only of the `Keyboard` and `LED` classes, the pin constants and the two loops above; nothing else is modelled.
