/** One turn of the event loop in `run` (src/main.rs:64-95): a key press is
    mapped to a `State` operation or ends the session. Drawing, reading the
    terminal and launching `pass` are left to the caller. */
module App {
  import opened Wrappers
  import Ranking
  import Cursor
  import Query
  import Search

  /** The key codes the loop tells apart; every other code is OtherKey. */
  datatype KeyCode = Char(c: char) | Up | Down | Backspace | Enter | Esc | OtherKey

  datatype KeyEventKind = Press | Repeat | Release

  /** A key event; of the modifiers only CONTROL is ever consulted. */
  datatype KeyEvent = KeyEvent(code: KeyCode, control: bool, kind: KeyEventKind)

  /** A terminal event: a key event, or anything else (mouse, resize, focus, paste). */
  datatype Event = Key(key: KeyEvent) | OtherEvent

  /** What the loop does with an event. */
  datatype Action = MoveUp | MoveDown | Insert(ch: char) | Delete | Confirm | Cancel | Ignore

  /** How a turn of the loop ends: the loop goes on, `run` returns
      `Some(key)` or `None`, or indexing `filtered_keys` panics. */
  datatype Outcome = Continue | Chosen(key: string) | Cancelled | IndexPanic

  predicate IsPress(ev: Event) {
    ev.Key? && ev.key.kind == Press
  }

  /** The `match key.code` of `run`, arms tried in order: CONTROL-j and
      CONTROL-k come before the arm for every other character. */
  function Dispatch(ev: Event): (a: Action)
    ensures !IsPress(ev) ==> a == Ignore
    ensures a == MoveDown <==> IsPress(ev) && (ev.key.code == Down || (ev.key.code == Char('j') && ev.key.control))
    ensures a == MoveUp <==> IsPress(ev) && (ev.key.code == Up || (ev.key.code == Char('k') && ev.key.control))
    ensures a.Insert? <==> IsPress(ev) && ev.key.code.Char? && !(ev.key.control && ev.key.code.c in {'j', 'k'})
    ensures a.Insert? ==> a.ch == ev.key.code.c
    ensures a == Delete <==> IsPress(ev) && ev.key.code == Backspace
    ensures a == Confirm <==> IsPress(ev) && ev.key.code == Enter
    ensures a == Cancel <==> IsPress(ev) && ev.key.code == Esc
  {
    match ev
    case OtherEvent => Ignore
    case Key(k) =>
      if k.kind != Press then Ignore
      else
        match k.code
        case Char(c) =>
          if c == 'j' && k.control then MoveDown
          else if c == 'k' && k.control then MoveUp
          else Insert(c)
        case Up => MoveUp
        case Down => MoveDown
        case Backspace => Delete
        case Enter => Confirm
        case Esc => Cancel
        case OtherKey => Ignore
  }

  /** The Enter arm as written: with `Some(i)` selected, return
      `filtered_keys[i]`, which panics when `i` is out of bounds. */
  function ConfirmAsWritten(filtered: seq<string>, sel: Option<nat>): (r: Outcome)
    ensures r == Continue <==> sel.None?
    ensures r.Chosen? <==> sel.Some? && sel.value < |filtered|
    ensures r.Chosen? ==> r.key == filtered[sel.value]
    ensures r == IndexPanic <==> sel.Some? && sel.value >= |filtered|
  {
    match sel
    case None => Continue
    case Some(i) => if i < |filtered| then Chosen(filtered[i]) else IndexPanic
  }

  /** With the cursor invariant, Enter panics exactly when an index is
      selected and the filtered list is empty. */
  lemma ConfirmPanicsOnEmptyList(filtered: seq<string>, sel: Option<nat>)
    requires Cursor.Fits(sel, |filtered|)
    ensures ConfirmAsWritten(filtered, sel) == IndexPanic <==> sel.Some? && filtered == []
  {
  }

  /** Enter as intended: an empty filtered list gives no selection. */
  function ConfirmGuarded(filtered: seq<string>, sel: Option<nat>): (r: Outcome)
    ensures r == Continue || r.Chosen?
    ensures r.Chosen? <==> sel.Some? && sel.value < |filtered|
    ensures r.Chosen? ==> r.key == filtered[sel.value]
    ensures filtered == [] ==> r == Continue
  {
    match sel
    case Some(i) => if i < |filtered| then Chosen(filtered[i]) else Continue
    case None => Continue
  }

  /** The guarded Enter differs from the written one only where that one panics. */
  lemma ConfirmGuardedAgrees(filtered: seq<string>, sel: Option<nat>)
    ensures ConfirmAsWritten(filtered, sel) != IndexPanic ==> ConfirmGuarded(filtered, sel) == ConfirmAsWritten(filtered, sel)
    ensures ConfirmAsWritten(filtered, sel) == IndexPanic ==> ConfirmGuarded(filtered, sel) == Continue
  {
  }

  /** One iteration of the loop of `run` on the event `ev`. */
  method Step(s: Search.State, ev: Event) returns (out: Outcome)
    requires s.Valid()
    modifies s
    ensures s.Valid() && s.keys == old(s.keys)
    ensures Dispatch(ev) == MoveUp ==>
              out == Continue && s.input == old(s.input) && s.filteredKeys == old(s.filteredKeys) &&
              s.selected == Some(Cursor.Move(old(s.selected), |s.filteredKeys|, Cursor.Up))
    ensures Dispatch(ev) == MoveDown ==>
              out == Continue && s.input == old(s.input) && s.filteredKeys == old(s.filteredKeys) &&
              s.selected == Some(Cursor.Move(old(s.selected), |s.filteredKeys|, Cursor.Down))
    ensures Dispatch(ev).Insert? ==>
              out == Continue && s.input == old(s.input) + [Dispatch(ev).ch] &&
              s.filteredKeys == Ranking.Ranked(s.score, s.keys, s.input) &&
              s.selected == Some(Cursor.Move(old(s.selected), |s.filteredKeys|, Cursor.Same))
    ensures Dispatch(ev) == Delete && old(s.input) == [] ==> out == Continue && unchanged(s)
    ensures Dispatch(ev) == Delete && old(s.input) != [] ==>
              out == Continue && s.input == Query.TrimAsWritten(old(s.input)) &&
              s.filteredKeys == Ranking.Ranked(s.score, s.keys, s.input) &&
              s.selected == Some(Cursor.Move(old(s.selected), |s.filteredKeys|, Cursor.Same))
    ensures Dispatch(ev) == Confirm ==> out == ConfirmAsWritten(s.filteredKeys, s.selected) && unchanged(s)
    ensures Dispatch(ev) == Cancel ==> out == Cancelled && unchanged(s)
    ensures Dispatch(ev) == Ignore ==> out == Continue && unchanged(s)
  {
    var action := Dispatch(ev);
    match action
    case MoveUp =>
      s.MoveIndex(Cursor.Up);
      out := Continue;
    case MoveDown =>
      s.MoveIndex(Cursor.Down);
      out := Continue;
    case Insert(c) =>
      s.EnterChar(c);
      out := Continue;
    case Delete =>
      s.DeleteChar();
      out := Continue;
    case Confirm =>
      out := ConfirmAsWritten(s.filteredKeys, s.selected);
    case Cancel =>
      out := Cancelled;
    case Ignore =>
      out := Continue;
  }

  /** A session that reaches the panic: one key, a matcher that only matches
      the empty query, the user types `z` and presses Enter. */
  method EnterOnEmptyListPanics() returns (out: Outcome)
    ensures out == IndexPanic
  {
    var s := new Search.State((k: string, q: string) => if q == [] then Some(0) else None);
    s.LoadKeys(["apple/login"]);
    var typed := Step(s, Key(KeyEvent(Char('z'), false, Press)));
    assert s.filteredKeys == [] by {
      assert Ranking.Matches(s.score, s.keys, s.input) == [];
    }
    out := Step(s, Key(KeyEvent(Enter, false, Press)));
  }
}
