# SymbolPicker core, modelled in Dafny

SymbolPicker is an Android (Jetpack Compose) emoji and symbol picker. Its
logic sits inside the `Picker` composable: a page of symbols that is
either `columns * columns` consecutive Unicode code points from an offset
(browse mode) or the recently picked symbols (recents mode), navigation
intents that move the offset, and a most-recently-used list of symbols that
a double tap updates in place, dropping its last entry once the list passes
49. Beside it are `getUnicodeInfo`,
which labels the selected symbol as `U+%04X` with its Unicode name, and
`UserGrid`, an immutable grid of tiles for a chat feature.

The model has five files:

- `wrappers.dfy`: `Option` (Kotlin's nullable values) and `Result`
  (a value, or the exception the source would throw instead).
- `symbols.dfy`: a symbol is a string taken as its sequence of code points,
  so `Character.toString(cp)` is `[cp]` and `""` is `[]`. It also has
  Kotlin's `isBlank`.
- `picker.dfy` (module `Picker`): the page functions and the recents list
  as values (`RemoveFirst`, `Recorded`) with their lemmas. The class
  `PickerState` holds the remembered state (`offset`, `symbols`,
  `recents`, `recentsMode`, `isPicked`, `selected`) and has one method
  per intent. Each method states its whole new state, and
  `Bump` does the in-place list update with a search loop.
- `bottom_bar.dfy` (module `BottomBar`): `getUnicodeInfo`. It has a hex
  formatter, a parser that reads a label back, and the round trip between them.
- `user_grid.dfy` (module `GridModel`): `Tile` and `UserGrid`. `get`
  and `set` return a `Result`, and `putSampleData` is a nested loop.

Three behaviours of the code are easy to misread:

- After a double tap the list loses only ONE entry when it is longer than 49,
  because the code calls `removeLast()` once (Picker.kt lines 184-186). It
  does not cut the list to 49. The two differ only for a list that was
  already longer than 49 (for example, one loaded from storage).
- Jump-to-emoji shows the browse page at U+1F600 but does not reset the
  recents flag (Picker.kt lines 158-160). The top bar enables the button
  only in browse mode anyway.
- The navigation steps are the literals 25 and 250 whatever `columns` is
  (Picker.kt lines 125, 128 and 147-156). They are not `columns * columns`
  and ten times that.

## Model

| member | source | states |
|---|---|---|
| Picker.RecentsPage | app/src/main/java/org/swirlsea/symbolpicker/views/picker/Picker.kt:75 | a recents page has exactly `total` cells: cell i is recents[i] while i is below the length of the list, and `""` after that |
| Picker.BackIsClampedDifference | app/src/main/java/org/swirlsea/symbolpicker/views/picker/Picker.kt:146-151 | a backward step gives max(offset - step, 0): never negative, never above the old offset |
| Picker.RemoveFirst | app/src/main/java/org/swirlsea/symbolpicker/views/picker/Picker.kt:182 | `remove` shortens the list by one when the symbol is present, leaves it as it was when absent, and adds nothing |
| Picker.RemoveFirstMultiset | app/src/main/java/org/swirlsea/symbolpicker/views/picker/Picker.kt:182 | `remove` takes away exactly one copy of the symbol, or none if it is absent |
| Picker.RemoveFirstSplit | app/src/main/java/org/swirlsea/symbolpicker/views/picker/Picker.kt:182 | the occurrence removed is the first one, and the other entries keep their order |
| Picker.RemoveFirstNoDuplicates | app/src/main/java/org/swirlsea/symbolpicker/views/picker/Picker.kt:182 | on a duplicate-free list, `remove` leaves no copy of the symbol and keeps the list duplicate-free |
| Picker.FirstIndexOf | app/src/main/java/org/swirlsea/symbolpicker/views/picker/Picker.kt:182 | the search finds the first index holding the symbol, or the length when there is none |
| Picker.RecordedShape | app/src/main/java/org/swirlsea/symbolpicker/views/picker/Picker.kt:181-186 | after a commit the symbol is at the head, followed by the old list minus its first occurrence, in order; the length grows by one only if the symbol was absent, then drops by one past 49; nothing new appears |
| Picker.RecordedFresh | app/src/main/java/org/swirlsea/symbolpicker/views/picker/Picker.kt:182-186 | a symbol not yet in a list within capacity goes in front and pushes the rest along, capped at 49 |
| Picker.RecordedKeepsInvariant | app/src/main/java/org/swirlsea/symbolpicker/views/picker/Picker.kt:181-186 | a duplicate-free list of at most 49 entries stays duplicate-free and at most 49 after a commit |
| Picker.RecordedIdempotent | app/src/main/java/org/swirlsea/symbolpicker/views/picker/Picker.kt:181-186 | on a list of at most 49 entries, committing the same symbol twice in a row gives the same list as committing it once |
| Picker.RecordedEvictsOldest | app/src/main/java/org/swirlsea/symbolpicker/views/picker/Picker.kt:183-186 | a new symbol on a full list of 49 evicts the last (oldest) entry |
| Picker.RecordedAllDistinct | app/src/main/java/org/swirlsea/symbolpicker/views/picker/Picker.kt:181-186 | on a list of at most 49 entries, committing distinct new symbols one by one gives them newest first, then the old entries, cut to 49 |
| Picker.FiftyDistinctPicks | app/src/main/java/org/swirlsea/symbolpicker/views/picker/Picker.kt:181-186 | 50 distinct commits from an empty list leave 49 entries: the 50th first and the first one evicted |
| Picker.RepeatedPick | app/src/main/java/org/swirlsea/symbolpicker/views/picker/Picker.kt:181-186 | committing a smiley, a laughing face and the smiley again gives [smiley, laughing face] |
| Picker.PickerState.constructor | app/src/main/java/org/swirlsea/symbolpicker/views/picker/Picker.kt:60-68 | the start state: offset 0x1F97F, empty page and list, browse mode, not picked, selection " " |
| Picker.PickerState.FillPicker | app/src/main/java/org/swirlsea/symbolpicker/views/picker/Picker.kt:70-77 | `offset` becomes the new offset in both modes; browse page cell i is code point newOffset + i; in recents mode the page is the recents page; nothing else changes |
| Picker.PickerState.Load | app/src/main/java/org/swirlsea/symbolpicker/views/picker/Picker.kt:98-102 | the list becomes the stored one (empty when none is stored), and the page is refilled at the same offset and mode |
| Picker.PickerState.FastBack | app/src/main/java/org/swirlsea/symbolpicker/views/picker/Picker.kt:146-148 | offset becomes max(offset - 250, 0), and the browse page there is shown |
| Picker.PickerState.Left | app/src/main/java/org/swirlsea/symbolpicker/views/picker/Picker.kt:149-151 | offset becomes max(offset - 25, 0), and the browse page there is shown |
| Picker.PickerState.Right | app/src/main/java/org/swirlsea/symbolpicker/views/picker/Picker.kt:152-154 | offset grows by exactly 25 (no upper clamp), and the browse page there is shown |
| Picker.PickerState.FastForward | app/src/main/java/org/swirlsea/symbolpicker/views/picker/Picker.kt:155-157 | offset grows by exactly 250 (no upper clamp), and the browse page there is shown |
| Picker.PickerState.EndDrag | app/src/main/java/org/swirlsea/symbolpicker/views/picker/Picker.kt:120-133 | in browse mode a drag past the threshold steps back or forward by 25; in recents mode, or below the threshold, nothing changes |
| Picker.PickerState.JumpToEmoji | app/src/main/java/org/swirlsea/symbolpicker/views/picker/Picker.kt:158-160 | offset becomes 0x1F600 and its browse page is shown; the recents flag is untouched |
| Picker.PickerState.ToggleRecents | app/src/main/java/org/swirlsea/symbolpicker/views/picker/Picker.kt:161-164 | the mode flips, the offset stays, and the page matches the new mode |
| Picker.PickerState.Unpick | app/src/main/java/org/swirlsea/symbolpicker/views/picker/Picker.kt:142-145 | the symbol is no longer picked; nothing else changes |
| Picker.PickerState.TapSymbol | app/src/main/java/org/swirlsea/symbolpicker/views/picker/Picker.kt:194-197 | a single tap unpicks; nothing else changes |
| Picker.PickerState.Bump | app/src/main/java/org/swirlsea/symbolpicker/views/picker/Picker.kt:181-186 | the in-place remove, add-at-front and remove-last leave exactly the list `Recorded` describes |
| Picker.PickerState.DoubleTap | app/src/main/java/org/swirlsea/symbolpicker/views/picker/Picker.kt:174-193 | a blank symbol changes nothing. Otherwise the symbol is picked and selected, and the list is recorded only if the tap was in browse mode. Then browse mode is on and the browse page at the same offset is shown. A duplicate-free list of at most 49 stays so |
| Picker.PickerState.ClearRecents | app/src/main/java/org/swirlsea/symbolpicker/views/picker/Picker.kt:205-209 | the list becomes empty and the page is refilled at the same offset and mode; in recents mode every cell is `""` |
| BottomBar.Hex | app/src/main/java/org/swirlsea/symbolpicker/views/picker/BottomBar.kt:17 | hex digits are uppercase, at least one, with a leading zero only for the value zero |
| BottomBar.HexRoundTrip | app/src/main/java/org/swirlsea/symbolpicker/views/picker/BottomBar.kt:17 | reading the hex digits back gives the number |
| BottomBar.LeadingZeros | app/src/main/java/org/swirlsea/symbolpicker/views/picker/BottomBar.kt:17 | zero padding does not change the value |
| BottomBar.LabelShape | app/src/main/java/org/swirlsea/symbolpicker/views/picker/BottomBar.kt:17 | the label is "U+" then hex digits: zero-padded to four, longer when needed, never truncated, no leading zero past four digits |
| BottomBar.LabelRoundTrip | app/src/main/java/org/swirlsea/symbolpicker/views/picker/BottomBar.kt:17 | the digits after "U+" decode to the code point |
| BottomBar.LabelInjective | app/src/main/java/org/swirlsea/symbolpicker/views/picker/BottomBar.kt:17 | different code points get different labels |
| BottomBar.LabelExamples | app/src/main/java/org/swirlsea/symbolpicker/views/picker/BottomBar.kt:17 | 0x20 gives "U+0020" and 0x1F600 gives "U+1F600" |
| BottomBar.DefaultIsSpace | app/src/main/java/org/swirlsea/symbolpicker/views/picker/BottomBar.kt:16-17 | a null or empty symbol is described as code point 0x20, label "U+0020" |
| BottomBar.OnlyFirstCodePoint | app/src/main/java/org/swirlsea/symbolpicker/views/picker/BottomBar.kt:16-17 | code points after the first are ignored, and the label decodes to the first one |
| BottomBar.NameFallback | app/src/main/java/org/swirlsea/symbolpicker/views/picker/BottomBar.kt:18-22 | the name is the looked-up one; it is "UNKNOWN" when the lookup gives null or throws |
| BottomBar.BrowseCellLabel | app/src/main/java/org/swirlsea/symbolpicker/views/picker/BottomBar.kt:16-17 | the label of the browse cell built from offset + i (Picker.kt line 73) decodes to exactly offset + i |
| GridModel.Get | app/src/main/java/domain/model/UserGrid.kt:20-25 | out-of-bounds coordinates fail with those coordinates; on a well-formed grid, a read succeeds exactly within bounds and returns tiles[y][x] (row y first) |
| GridModel.Set | app/src/main/java/domain/model/UserGrid.kt:27-36 | the same bounds failure as `get`; success exactly when the cell exists |
| GridModel.DefaultGridIsBlank | app/src/main/java/domain/model/UserGrid.kt:12-18 | the default grid is well formed, 5 by 5, and every cell is ("⬜", 0, false, false, "") |
| GridModel.SetSucceedsInBounds | app/src/main/java/domain/model/UserGrid.kt:27-30 | on a well-formed grid, a write succeeds exactly within bounds |
| GridModel.ReadAfterWrite | app/src/main/java/domain/model/UserGrid.kt:32-35 | reading back the written cell gives the written tile |
| GridModel.WriteChangesOneCell | app/src/main/java/domain/model/UserGrid.kt:32-35 | a write keeps the size, the row count and each row's length, every other tile is the same, and every read at another coordinate gives what it gave before |
| GridModel.WriteKeepsWellFormed | app/src/main/java/domain/model/UserGrid.kt:32-35 | a write within bounds on a well-formed grid succeeds and gives a well-formed grid |
| GridModel.ReadPastEdge | app/src/main/java/domain/model/UserGrid.kt:20-23 | reading (5, 0) from the default grid fails as out of bounds |
| GridModel.PutSampleData | app/src/main/java/domain/model/UserGrid.kt:41-61 | completes exactly when all 25 writes of the 5 by 5 loop succeed; for a well-formed grid, exactly when its size is at least 5, and a smaller well-formed grid fails at (size, 0). Otherwise the error returned is that of a failing write all of whose row-major predecessors succeed, i.e. the first failure. The argument is a value and is never changed |

## Left out

- Rendering, layout, icons, alpha, scale, the pulsing border and the
  font and size arithmetic (Picker.kt lines 79-95, TopBar.kt, PickerGrid.kt,
  SymbolCard.kt, MainActivity.kt, DemoParent.kt). This is UI toolkit code
  with floating-point sizes.
- The drag itself: the `Animatable` offset and the 80 dp threshold
  (Picker.kt lines 93-95 and 112-118). `EndDrag` takes the outcome as
  `DraggedRight`, `DraggedLeft` or `BelowThreshold`.
- Saving the list (`saveRecentSymbols`, SharedPreferences and Gson) and
  the timing of the `LaunchedEffect` blocks. This is I/O through foreign
  libraries. `Load` takes the stored list as an `Option` and uses the
  empty list when none is stored.
- Picker.PickerState.Load: a stored value that Gson cannot parse makes the
  source throw. The model has no such input.
- `Character.getName` is foreign (the Unicode character database).
  `GetUnicodeInfo` takes it as the parameter `lookup`. That parameter
  yields a name, `Unnamed` (null) or `Rejected` (IllegalArgumentException).
- Picker.PickerState.Right: `Character.toString` throws for code points past
  U+10FFFF, and forward navigation has no upper clamp. So `Right`,
  `FastForward` and `EndDrag` require the next browse page to stay within
  U+10FFFF. `Valid()` keeps the current page there, and the constructor
  requires the first page to fit.
- Picker.PickerState.FastForward: the same bound as `Right`, for a step of 250.
- Picker.PickerState.EndDrag: the same bound as `Right`, for a drag to the left in browse mode.
- Picker.PickerState.constructor: the column count is a natural number. A
  negative `columns` and a `columns * columns` that overflows a Kotlin
  `Int` are not modelled. No offset comes near the 32-bit limit.
- The top bar's enabling conditions are preconditions. Arrows and
  jump-to-emoji need `!recentsMode && !isPicked` (TopBar.kt lines 77, 87,
  100, 153, 163), and the toggle needs `!isPicked` (TopBar.kt line 110).
  The clear button is shown only in recents mode (BottomBar.kt line 50), but
  `ClearRecents` is modelled for both modes.
- The host callbacks `onWasPicked`, `onSymbolSelected` and
  `onWasUnpicked` are not modelled.
- The random emoji and message in `putSampleData` are the parameter `sample`.
- Picker.PickerState.TapSymbol: models the grid's single-tap handler as
  Picker.kt writes it. Whether the card's gesture setup ever delivers a
  single tap is a matter of SymbolCard.kt, which is not part of this model.
- A `Symbol` is a sequence of code points. A Kotlin `String` holding a
  surrogate pair and one holding the code point it encodes are equal, but
  `[0xD83D, 0xDE00]` and `[0x1F600]` are different symbols here, so
  `RemoveFirst` and `NoDuplicates` can tell apart two strings that
  `String.equals` does not, and `FirstCodePoint` (so `GetUnicodeInfo`)
  describes `[0xD83D, 0xDE00]` as U+D83D where `codePoints()` gives U+1F600.
  Symbols built by the picker are single code points, so such values can
  arrive only through `Load`.
- `IsBlank` uses a fixed list of whitespace and space-separator code points.
  It follows the current Unicode tables, not a particular JDK's copy.
