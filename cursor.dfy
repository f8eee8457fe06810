/** The selection cursor of `State::move_index` (src/state.rs:5-9, 72-105):
    an optional index into the filtered list, moved with wraparound by Up
    and Down and clamped by Same. */
module Cursor {
  import opened Wrappers

  datatype Dir = Up | Down | Same

  /** The index `move_index(dir)` selects when the filtered list has `n`
      entries and `sel` was selected. */
  function Move(sel: Option<nat>, n: nat, dir: Dir): (r: nat)
    ensures n == 0 ==> r == 0
    ensures n > 0 && sel.None? ==> r == 0
    ensures n > 0 && dir == Down && sel.Some? && sel.value < n ==> r == (sel.value + 1) % n
    ensures n > 0 && dir == Up && sel.Some? && sel.value < n ==> r == (sel.value + n - 1) % n
    ensures n > 0 && dir == Same && sel.Some? ==> r == if sel.value >= n then n - 1 else sel.value
    ensures n > 0 && (dir != Up || sel.None? || sel.value <= n) ==> r < n
  {
    if n == 0 then 0
    else
      match dir
      case Down =>
        (match sel
         case Some(i) => DownWraps(i, n); if i >= n - 1 then 0 else i + 1
         case None => 0)
      case Up =>
        (match sel
         case Some(i) => UpWraps(i, n); if i == 0 then n - 1 else i - 1
         case None => 0)
      case Same =>
        (match sel
         case Some(i) => Clamp(i, 0, n - 1)
         case None => 0)
  }

  /** The Down step of the source is a successor modulo `n`. */
  lemma DownWraps(i: nat, n: nat)
    ensures 0 < n && i < n ==> (if i >= n - 1 then 0 else i + 1) == (i + 1) % n
  {
    if 0 < n && i < n {
      if i < n - 1 { ModSmall(i + 1, n); } else { assert i + 1 == 0 + n; ModShift(0, n); }
    }
  }

  /** The Up step of the source is a predecessor modulo `n`. */
  lemma UpWraps(i: nat, n: nat)
    ensures 0 < n && i < n ==> (if i == 0 then n - 1 else i - 1) == (i + n - 1) % n
  {
    if 0 < n && i < n {
      if i == 0 { ModSmall(n - 1, n); } else { ModShift(i - 1, n); }
    }
  }

  lemma ModSmall(x: int, n: int)
    requires 0 <= x < n
    ensures x % n == x
  {
  }

  lemma ModShift(x: int, n: int)
    requires 0 <= x < n
    ensures (x + n) % n == x
  {
  }

  /** Rust's `Ord::clamp`. */
  function Clamp(i: nat, lo: nat, hi: nat): (r: nat)
    requires lo <= hi
    ensures lo <= r <= hi
    ensures lo <= i <= hi ==> r == i
    ensures i < lo ==> r == lo
    ensures i > hi ==> r == hi
  {
    if i < lo then lo else if i > hi then hi else i
  }

  /** The cursor invariant the source keeps: an index inside the list, or
      the placeholder index 0 when the list is empty. */
  predicate Fits(sel: Option<nat>, n: nat) {
    match sel
    case None => true
    case Some(i) => i < n || (n == 0 && i == 0)
  }

  /** Up undoes Down. */
  lemma DownThenUp(i: nat, n: nat)
    requires i < n
    ensures Move(Some(Move(Some(i), n, Down)), n, Up) == i
  {
    if i == n - 1 {
      assert Move(Some(i), n, Down) == 0;
    } else {
      assert Move(Some(i), n, Down) == i + 1;
    }
  }

  /** Down undoes Up. */
  lemma UpThenDown(i: nat, n: nat)
    requires i < n
    ensures Move(Some(Move(Some(i), n, Up)), n, Down) == i
  {
    if i == 0 {
      assert Move(Some(i), n, Up) == n - 1;
    } else {
      assert Move(Some(i), n, Up) == i - 1;
    }
  }

  /** Every move keeps a fitting cursor fitting; Same makes any cursor fit. */
  lemma MoveFits(sel: Option<nat>, n: nat, dir: Dir)
    requires Fits(sel, n) || dir == Same
    ensures Fits(Some(Move(sel, n, dir)), n)
  {
  }
}
