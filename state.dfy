/** `State` of src/state.rs: the query buffer, the full key list, the
    filtered and ranked key list, and the selected index of the list widget.
    Every operation updates the object in place. */
module Search {
  import opened Wrappers
  import Ranking
  import Cursor
  import Query

  class State {
    /** The query typed so far. */
    var input: seq<char>
    /** All candidate keys, in the order they were loaded. */
    var keys: seq<string>
    /** The keys matching `input`, best score first. */
    var filteredKeys: seq<string>
    /** `list_state.selected()`. */
    var selected: Option<nat>
    /** The fuzzy matcher; the source builds the same default matcher on every call. */
    const score: Ranking.Scorer

    /** The filtered list is always the ranking of `keys` for `input`, and
        the cursor either is unset, points into the filtered list, or is the
        placeholder 0 of an empty list. */
    ghost predicate Valid()
      reads this
    {
      filteredKeys == Ranking.Ranked(score, keys, input) &&
      Cursor.Fits(selected, |filteredKeys|)
    }

    /** `State::new`: empty query, no keys, nothing selected. */
    constructor (score: Ranking.Scorer)
      ensures Valid()
      ensures this.score == score
      ensures input == [] && keys == [] && filteredKeys == [] && selected == None
    {
      this.score := score;
      input := [];
      keys := [];
      filteredKeys := [];
      selected := None;
    }

    /** The end of `load_keys`: store the keys found and filter them. */
    method LoadKeys(found: seq<string>)
      modifies this
      ensures Valid()
      ensures keys == found && input == old(input)
      ensures filteredKeys == Ranking.Ranked(score, keys, input)
      ensures selected == Some(Cursor.Move(old(selected), |filteredKeys|, Cursor.Same))
    {
      keys := found;
      Filter();
    }

    /** `filter`: recompute the ranked list, then reconcile the cursor. */
    method Filter()
      modifies this
      ensures Valid()
      ensures input == old(input) && keys == old(keys)
      ensures filteredKeys == Ranking.Ranked(score, keys, input)
      ensures selected == Some(Cursor.Move(old(selected), |filteredKeys|, Cursor.Same))
    {
      filteredKeys := Ranking.Ranked(score, keys, input);
      MoveIndex(Cursor.Same);
    }

    /** `enter_char`: append `c` to the query and filter again. */
    method EnterChar(c: char)
      requires Valid()
      modifies this
      ensures Valid()
      ensures input == old(input) + [c] && keys == old(keys)
      ensures filteredKeys == Ranking.Ranked(score, keys, input)
      ensures selected == Some(Cursor.Move(old(selected), |filteredKeys|, Cursor.Same))
    {
      input := input + [c];
      Filter();
    }

    /** `delete_char`: on a non-empty query, keep `len() - 1` characters
        (bytes counted, characters kept) and filter again; on an empty query
        do nothing at all. */
    method DeleteChar()
      requires Valid()
      modifies this
      ensures Valid()
      ensures keys == old(keys)
      ensures old(input) == [] ==> unchanged(this)
      ensures old(input) != [] ==>
                input == Query.TrimAsWritten(old(input)) &&
                filteredKeys == Ranking.Ranked(score, keys, input) &&
                selected == Some(Cursor.Move(old(selected), |filteredKeys|, Cursor.Same))
      ensures old(input) != [] && Query.IsAscii(old(input)) ==> input == old(input)[..|old(input)| - 1]
    {
      if input != [] {
        ghost var before := input;
        input := Query.TakeChars(input, Query.ByteLen(input) - 1);
        Query.TrimAsWrittenCases(before);
        Filter();
      }
    }

    /** `move_index(dir)`: select the index Cursor.Move computes for the
        current length of the filtered list. */
    method MoveIndex(dir: Cursor.Dir)
      modifies this`selected
      ensures selected == Some(Cursor.Move(old(selected), |filteredKeys|, dir))
      ensures filteredKeys == Ranking.Ranked(score, keys, input) && (dir == Cursor.Same || Cursor.Fits(old(selected), |filteredKeys|)) ==> Valid()
    {
      selected := Some(Cursor.Move(selected, |filteredKeys|, dir));
    }
  }
}
