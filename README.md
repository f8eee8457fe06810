# passmenu search and selection, modelled in Dafny

passmenu is a terminal picker for `pass` entries. The user types a query, the
entries that fuzzily match it are listed best match first, the user moves a
cursor through that list, and Enter hands the selected entry to `pass -c`.
This project models the part that holds the state: the `State` object of
`src/state.rs` and the key dispatch of one turn of the loop in `run`
(`src/main.rs`). It proves what that state machine guarantees.

- `wrappers.dfy`, module `Wrappers`: `Option`.
- `stable_sort.dfy`, module `StableSort`: a stable sort by an integer key, ascending, in place of `sort_by_cached_key`. Its specification is "sorted, a permutation, and equal keys keep their order", and `SortedStablyUnique` proves that this specification has exactly one answer.
- `ranking.dfy`, module `Ranking`: the filter-and-rank pipeline of `State::filter`. The fuzzy matcher is a function parameter, `Scorer = (string, string) -> Option<int>`.
- `cursor.dfy`, module `Cursor`: `Dir` and the index arithmetic of `move_index`.
- `query.dfy`, module `Query`: the query edits. It writes out the UTF-8 byte length that `delete_char` mixes with a character count.
- `state.dfy`, module `Search`: the class `State` with the fields `input`, `keys`, `filteredKeys` and `selected`. `selected` stands for `list_state.selected()`. The class also has a `const score` (the matcher). Each method updates the fields in place and keeps `Valid()`. `Valid()` says that `filteredKeys` is the ranking of `keys` for `input`, and that `selected` fits the list.
- `main.dfy`, module `App`: key events, `Dispatch` (the ordered `match key.code`) and `Step`, one turn of the loop. `Step` calls the `State` methods and returns `Continue`, `Chosen(key)`, `Cancelled` or `IndexPanic`.

Where the code and its evident intent disagree, the model follows the code:

- In the state and key-dispatch layer, Enter on an empty list indexes past its end and panics, unless the list widget's render has already cleared the selection, which this model does not include. An empty list should select nothing and the loop go on.
- The code's `delete_char` removes the last character only from an ASCII query. Backspace is meant to remove one character.
- Showing every key in its original order for the empty query depends on the matcher. It is stated with that as a condition (`Ranking.RankedUniformScoreKeepsOrder`), not proved outright.

Both code faults are listed under "## Findings".

## Model

| member | source | states |
|---|---|---|
| StableSort.SortByKey | src/state.rs:55-56 | the result is sorted by ascending key, is a permutation of the input, and for every key value lists the elements with that key in their input order (stability) |
| StableSort.SortedStablyUnique | src/state.rs:55-56 | two sequences that are both sorted and have the same elements per key value in the same order are equal, so any stable sort gives the same result |
| Ranking.Matches | src/state.rs:49-54 | every kept key matches the query, and each key occurs exactly as often as in `keys` if it matches, and not at all otherwise |
| Ranking.Ranked | src/state.rs:49-56 | the new `filtered_keys`: a permutation of the matching keys, sorted by ascending cached key `-score`; its full promise is proved in Ranking.RankedSpec and Ranking.RankedUnique |
| Ranking.RankedSpec | src/state.rs:49-56 | `filtered_keys` keeps exactly the matching keys with their multiplicities, is a permutation of the filtered subsequence, has non-increasing scores, and lists the keys of each score in their order in `keys` |
| Ranking.RankedStable | src/state.rs:55-56 | for every score value, the ranked keys with that score are the keys of `keys` with that score, in the same order |
| Ranking.RankedUnique | src/state.rs:49-56 | any list that has the three properties of RankedSpec equals the ranking |
| Ranking.RankedAllMatchKeepsAll | src/state.rs:49-54 | when every key matches, the ranking is a permutation of all keys |
| Ranking.RankedUniformScoreKeepsOrder | src/state.rs:49-56 | when every key gets the same score (the matcher's behaviour assumed for the empty query), the ranking is `keys` in its original order |
| Cursor.Move | src/state.rs:72-105 | an empty list gives 0 whatever the direction; with n > 0, no selection gives 0; from i < n, Down gives (i+1) mod n and Up gives (i+n-1) mod n; Same clamps to n-1 when i >= n and otherwise keeps i; the result is in range whenever the start was |
| Cursor.Clamp | src/state.rs:100 | the result lies between the bounds; an index within them is kept, one below gives the lower bound and one above the upper bound |
| Cursor.DownThenUp | src/state.rs:79-98 | Up after Down returns to the start index |
| Cursor.UpThenDown | src/state.rs:79-98 | Down after Up returns to the start index |
| Cursor.MoveFits | src/state.rs:72-105 | every move keeps a cursor that fits the list fitting, and Same makes any cursor fit |
| Query.TakeChars | src/state.rs:67 | `chars().take(n)` gives a prefix of length min(n, length) |
| Query.Utf8Width | src/state.rs:67 | a character takes 1 to 4 bytes, and exactly 1 when it is ASCII |
| Query.ByteLen | src/state.rs:67 | `String::len`: between one and four bytes per character; the exact ASCII case is Query.ByteLenBounds |
| Query.TrimAsWritten | src/state.rs:67 | `delete_char` as written: a prefix of the query at most one character shorter; which of the two it is, is Query.TrimAsWrittenCases |
| Query.ByteLenBounds | src/state.rs:67 | the byte length is at least the character length, with equality exactly for ASCII strings |
| Query.TrimAsWrittenCases | src/state.rs:65-70 | on a non-empty ASCII query `delete_char` removes exactly the last character, and on any other non-empty query it leaves the query as it was |
| Query.TrimAsWrittenKeepsWideChar | src/state.rs:67 | the one-character query "é" is not shortened by `delete_char` |
| Query.TrimLast | src/state.rs:65-70 | the intended edit: the result is one shorter and, with the last character appended back, gives the input |
| Search.State.constructor | src/state.rs:19-26 | a new state has an empty query, no keys, an empty list, no selection, and satisfies the invariant |
| Search.State.LoadKeys | src/state.rs:42-43 | the loaded keys replace `keys`, the list is re-ranked and the cursor reconciled with Same |
| Search.State.Filter | src/state.rs:46-58 | `filteredKeys` becomes the ranking of `keys` for `input`, and `selected` becomes the Same-reconciled index; `input` and `keys` do not change |
| Search.State.EnterChar | src/state.rs:60-63 | the query becomes the old query plus `c`, `keys` does not change, and the list is re-ranked for the new query and the cursor reconciled |
| Search.State.DeleteChar | src/state.rs:65-70 | on an empty query nothing changes; otherwise the query becomes the code's trimmed query (the old one minus its last character when ASCII), the list is re-ranked and the cursor reconciled; `keys` never changes |
| Search.State.MoveIndex | src/state.rs:72-105 | `selected` becomes `Some` of the moved index for the current list length, nothing else changes, and the invariant is kept |
| App.Dispatch | src/main.rs:64-93 | only key presses act; Down or CONTROL-j moves down and Up or CONTROL-k moves up; any other character, including j and k without CONTROL, is inserted; Backspace deletes, Enter confirms, Esc cancels, and everything else is ignored |
| App.ConfirmAsWritten | src/main.rs:85-89 | no selection keeps the loop going; an index inside the list returns that key; an index outside it panics |
| App.ConfirmPanicsOnEmptyList | src/main.rs:85-89 | under the cursor invariant, Enter panics exactly when an index is selected and the list is empty |
| App.ConfirmGuarded | src/main.rs:85-89 | the intended Enter never panics, returns the selected key exactly when the index is inside the list, and does nothing on an empty list |
| App.ConfirmGuardedAgrees | src/main.rs:85-89 | the guarded Enter agrees with the written one wherever that one does not panic, and keeps the loop going where it does |
| App.Step | src/main.rs:64-95 | each event runs its `State` operation with the state described by that operation's contract, or ends the turn with Chosen, Cancelled or IndexPanic; Enter, Esc and ignored events leave the state unchanged; the invariant holds and `keys` is unchanged after every turn |
| App.EnterOnEmptyListPanics | src/main.rs:85-89 | after one key is loaded, a query that matches nothing and Enter, the turn ends in IndexPanic |

## Left out

- The directory walk of `load_keys` (src/state.rs:28-41) reads `HOME` and the file system, so it is left out. `Search.State.LoadKeys` takes the list it would find as a parameter.
- The SkimMatcherV2 scoring algorithm is a foreign library, so it is the parameter `score`. The class stores it as a constant because the source builds the same default matcher on every call.
- `sort_by_cached_key` is modelled by a stable insertion sort. `StableSort.SortedStablyUnique` shows that every stable sort gives the same list.
- The sort key `-score` is an `i64` in the source and can overflow for `i64::MIN`. The model's integers are unbounded, so this overflow is not modelled.
- `selected` is a `usize` in the source and a `nat` here. The only increment, `i + 1`, happens when `i < n - 1`, so it cannot overflow.
- Rendering in `src/ui.rs` is not part of this model. That includes any change ratatui makes to `ListState` while drawing and the cursor position, which is computed from the byte length. Because the render runs before each event is read (src/main.rs:62), a ratatui version that clears the selection of an empty list would keep Enter from panicking; see the first row of "## Findings".
- Terminal setup and restore, `terminal.draw`, `event::read`, their I/O errors (`?`) and spawning `pass -c <key>` are I/O and are left out.
- The endless `loop` of `run` is left out. A single turn is `App.Step`; a session is any sequence of calls to it.
- Modifiers other than CONTROL are left out because no arm consults them.

## Findings

| source | as written | input that shows it | evidently intended | confidence | as-written member | corrected member |
|---|---|---|---|---|---|---|
| src/main.rs:85-89 | Enter returns `filtered_keys[i]` for the selected `i`. When nothing matches, `move_index` has selected `Some(0)` (src/state.rs:75-76), so the index is out of bounds and indexing panics, unless the list widget's render (src/ui.rs:47, not modelled) has already cleared the selection | keys `["apple/login"]`, a query that matches nothing, then Enter | Enter on an empty list selects nothing and the loop goes on | not executed | App.EnterOnEmptyListPanics | App.ConfirmGuarded |
| src/state.rs:67 | `chars().take(len() - 1)` where `len()` counts bytes, so a query with any non-ASCII character keeps all its characters | query `"é"` (2 bytes), then Backspace | Backspace removes the last character | not executed | Query.TrimAsWrittenKeepsWideChar | Query.TrimLast |

For both findings, `Search.State.DeleteChar` and `App.Step` keep the behaviour as written, so the model still describes the program as it is. Next to them, `App.ConfirmGuardedAgrees` and `Query.TrimAsWrittenCases` prove where the written behaviour and the corrected one agree.
