/** The query buffer edits of `State::enter_char` and `State::delete_char`
    (src/state.rs:60-70). Rust strings are UTF-8, and `delete_char` mixes a
    byte count (`len`) with a character count (`chars().take`); the model
    makes both counts explicit. */
module Query {

  /** The number of bytes UTF-8 uses for `c`. */
  function Utf8Width(c: char): (w: nat)
    ensures 1 <= w <= 4
    ensures w == 1 <==> c as int < 0x80
  {
    if c as int < 0x80 then 1
    else if c as int < 0x800 then 2
    else if c as int < 0x1_0000 then 3
    else 4
  }

  /** `String::len`: the length of `s` in bytes. */
  function ByteLen(s: string): (n: nat)
    ensures |s| <= n <= 4 * |s|
  {
    if s == [] then 0 else Utf8Width(s[0]) + ByteLen(s[1..])
  }

  predicate IsAscii(s: string) {
    forall i :: 0 <= i < |s| ==> s[i] as int < 0x80
  }

  /** A string has at least as many bytes as characters, and exactly as
      many when it is ASCII. */
  lemma {:induction false} ByteLenBounds(s: string)
    ensures ByteLen(s) >= |s|
    ensures ByteLen(s) == |s| <==> IsAscii(s)
  {
    if s != [] {
      ByteLenBounds(s[1..]);
      assert IsAscii(s) <==> s[0] as int < 0x80 && IsAscii(s[1..]) by {
        if IsAscii(s) {
          forall i | 0 <= i < |s[1..]| ensures s[1..][i] as int < 0x80 {
            assert s[1..][i] == s[i + 1];
          }
        }
        if s[0] as int < 0x80 && IsAscii(s[1..]) {
          forall i | 0 <= i < |s| ensures s[i] as int < 0x80 {
            if i > 0 { assert s[i] == s[1..][i - 1]; }
          }
        }
      }
    }
  }

  /** `chars().take(n).collect()`: the first `n` characters, or all of them. */
  function TakeChars(s: string, n: nat): (r: string)
    ensures |r| == if n < |s| then n else |s|
    ensures r <= s
  {
    if n < |s| then s[..n] else s
  }

  /** The buffer after `delete_char` on a non-empty `s`, as the source writes
      it: keep `len() - 1` characters, where `len()` counts bytes. */
  function TrimAsWritten(s: string): (r: string)
    requires s != []
    ensures r <= s && |s| - 1 <= |r|
  {
    TakeChars(s, ByteLen(s) - 1)
  }

  /** The intended edit: remove exactly the last character. */
  function TrimLast(s: string): (r: string)
    requires s != []
    ensures |r| == |s| - 1
    ensures r + [s[|s| - 1]] == s
  {
    s[..|s| - 1]
  }

  /** The source removes the last character exactly when the buffer is
      ASCII; with any wider character it removes nothing. */
  lemma TrimAsWrittenCases(s: string)
    requires s != []
    ensures IsAscii(s) ==> TrimAsWritten(s) == TrimLast(s)
    ensures !IsAscii(s) ==> TrimAsWritten(s) == s
  {
    ByteLenBounds(s);
  }

  /** A concrete buffer the source fails to shorten: "é" is two bytes long,
      so `take(1)` keeps its one character. */
  lemma TrimAsWrittenKeepsWideChar()
    ensures TrimAsWritten("é") == "é" != TrimLast("é")
  {
    assert ByteLen("é") == 2 by {
      assert "é"[1..] == [];
    }
  }
}
