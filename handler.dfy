/**
 * The text-splice rules for key presses inside one cell: backspace (which
 * deletes a `\r\n` pair as one), character input and Enter (which inserts
 * `\r\n`). Each takes the cell text and the caret offset and returns the new
 * text and offset. Offsets are byte offsets; text is ASCII.
 */
module Handler {
  import opened Strings

  /**
   * `handle_backspace_no_selection`. The caret may sit inside a `\r\n` pair
   * or just after one; both delete the whole pair. At offset 0 nothing changes.
   * Otherwise one block of at most two characters is cut out of the text at
   * the new caret, and everything before and after that block is kept.
   */
  function Backspace(text: string, pos: nat): (r: (string, nat))
    requires pos <= |text|
    ensures r.1 <= pos && r.1 <= |r.0| <= |text| && |text| - |r.0| <= 2
    ensures r.0 == text[..r.1] + text[r.1 + (|text| - |r.0|)..]
    ensures pos == 0 ==> r == (text, pos)
    ensures pos > 0 ==> |r.0| < |text|
  {
    if pos > 0 && pos < |text| && text[pos - 1..pos + 1] == "\r\n" then
      Cut(text, pos - 1, 2);
      (text[..pos - 1] + text[pos + 1..], pos - 1)
    else if pos >= 2 && text[pos - 2..pos] == "\r\n" then
      Cut(text, pos - 2, 2);
      (text[..pos - 2] + text[pos..], pos - 2)
    else if pos > 0 then
      Cut(text, pos - 1, 1);
      (text[..pos - 1] + text[pos..], pos - 1)
    else
      assert text == text[..0] + text[0..];
      (text, pos)
  }

  /** Cutting `n` characters at `at` out of a text keeps what is before and after them. */
  lemma Cut(text: string, at: nat, n: nat)
    requires at + n <= |text|
    ensures var c := text[..at] + text[at + n..];
      |c| == |text| - n && at <= |c| && c == text[..at] + text[at + (|text| - |c|)..]
  {
  }

  /**
   * `handle_character_input`: the typed text goes in at the caret and the
   * caret moves past it. A space typed after a space is inserted as the same
   * plain space.
   */
  function CharacterInput(text: string, pos: nat, ch: string): (r: (string, nat))
    requires pos <= |text|
    ensures |r.0| == |text| + |ch| && r.1 == pos + |ch|
    ensures r.0[..pos] == text[..pos] && r.0[pos..r.1] == ch && r.0[r.1..] == text[pos..]
  {
    var left := text[..pos];
    var right := text[pos..];
    var newChar := if ch == " " && |left| > 0 && left[|left| - 1] == ' ' then " " else ch;
    var newText := left + newChar + right;
    assert newText[pos + |newChar|..] == right;
    (newText, pos + |newChar|)
  }

  /** The text left of the caret without one trailing `'\r'`, which is stripped exactly when it is there. */
  function LeftTrimmed(text: string, pos: nat): (l: string)
    requires pos <= |text|
    ensures pos > 0 && text[pos - 1] == '\r' ==> l + "\r" == text[..pos]
    ensures !(pos > 0 && text[pos - 1] == '\r') ==> l == text[..pos]
  {
    var left := text[..pos];
    if |left| > 0 && left[|left| - 1] == '\r' then
      assert left[..|left| - 1] + "\r" == left;
      left[..|left| - 1]
    else left
  }

  /** The text right of the caret without one leading `'\n'`, which is stripped exactly when it is there. */
  function RightTrimmed(text: string, pos: nat): (r: string)
    requires pos <= |text|
    ensures pos < |text| && text[pos] == '\n' ==> "\n" + r == text[pos..]
    ensures !(pos < |text| && text[pos] == '\n') ==> r == text[pos..]
  {
    var right := text[pos..];
    if |right| > 0 && right[0] == '\n' then
      assert "\n" + right[1..] == right;
      right[1..]
    else right
  }

  /**
   * `handle_enter_key`: a `\r\n` line break goes in at the caret, absorbing a
   * `'\r'` just before it and a `'\n'` just after it, and the caret lands
   * after the break. Whether the previous key was also Enter makes no
   * difference.
   */
  function EnterKey(text: string, pos: nat, lastKeyWasEnter: bool): (r: (string, nat))
    requires pos <= |text|
    ensures 2 <= r.1 && pos + 1 <= r.1 <= pos + 2 && r.1 <= |r.0| <= |text| + 2
    ensures r.0[r.1 - 2..r.1] == "\r\n"
    ensures r.0[..r.1 - 2] == LeftTrimmed(text, pos) && r.0[r.1..] == RightTrimmed(text, pos)
  {
    var leftTrimmed := LeftTrimmed(text, pos);
    var rightTrimmed := RightTrimmed(text, pos);
    var newText := if lastKeyWasEnter then leftTrimmed + "\r\n" + rightTrimmed
                   else leftTrimmed + "\r\n" + rightTrimmed;
    var updatedPos := |leftTrimmed| + if lastKeyWasEnter then 2 else 2;
    assert newText[..updatedPos - 2] == leftTrimmed;
    assert newText[updatedPos..] == rightTrimmed;
    (newText, updatedPos)
  }

  /**
   * Backspace anywhere but at, inside or right after a `\r\n` pair removes
   * exactly the character before the caret and moves the caret back by one.
   */
  lemma BackspaceSingle(text: string, pos: nat)
    requires 0 < pos <= |text|
    requires !(pos < |text| && text[pos - 1] == '\r' && text[pos] == '\n')
    requires !(pos >= 2 && text[pos - 2] == '\r' && text[pos - 1] == '\n')
    ensures Backspace(text, pos) == (text[..pos - 1] + text[pos..], pos - 1)
  {
    if pos < |text| {
      NoPairInside(text, pos);
    }
    if pos >= 2 {
      NoPairBefore(text, pos);
    }
    BackspaceOrdinary(text, pos);
  }

  /** No `\r\n` pair around the caret, by characters, means no `\r\n` slice there. */
  lemma NoPairInside(text: string, pos: nat)
    requires 0 < pos < |text|
    requires !(text[pos - 1] == '\r' && text[pos] == '\n')
    ensures text[pos - 1..pos + 1] != "\r\n"
  {
    var pair := text[pos - 1..pos + 1];
    assert pair[0] == text[pos - 1] && pair[1] == text[pos];
  }

  /** No `\r\n` pair right before the caret, by characters, means no `\r\n` slice there. */
  lemma NoPairBefore(text: string, pos: nat)
    requires 2 <= pos <= |text|
    requires !(text[pos - 2] == '\r' && text[pos - 1] == '\n')
    ensures text[pos - 2..pos] != "\r\n"
  {
    var pair := text[pos - 2..pos];
    assert pair[0] == text[pos - 2] && pair[1] == text[pos - 1];
  }

  /** With neither `\r\n` slice present, backspace takes its single-character branch. */
  lemma BackspaceOrdinary(text: string, pos: nat)
    requires 0 < pos <= |text|
    requires !(pos < |text| && text[pos - 1..pos + 1] == "\r\n")
    requires !(pos >= 2 && text[pos - 2..pos] == "\r\n")
    ensures Backspace(text, pos) == (text[..pos - 1] + text[pos..], pos - 1)
  {
  }

  /** Typing one character other than a line-break character and then pressing backspace restores the text and caret. */
  lemma InputThenBackspace(text: string, pos: nat, ch: string)
    requires pos <= |text| && |ch| == 1 && ch != "\r" && ch != "\n"
    ensures var (t, p) := CharacterInput(text, pos, ch); Backspace(t, p) == (text, pos)
  {
    var (t, p) := CharacterInput(text, pos, ch);
    assert t[pos] == ch[0];
    assert t[..pos] + t[p..] == text;
  }

  /** Backspace right after Enter removes the inserted break and nothing else but the absorbed `'\r'`/`'\n'`. */
  lemma EnterThenBackspace(text: string, pos: nat, lastKeyWasEnter: bool)
    requires pos <= |text|
    ensures var (t, p) := EnterKey(text, pos, lastKeyWasEnter);
      var l := LeftTrimmed(text, pos);
      Backspace(t, p) == (l + RightTrimmed(text, pos), |l|)
  {
    var (t, p) := EnterKey(text, pos, lastKeyWasEnter);
    var pair := t[p - 2..p];
    assert pair[0] == t[p - 2] && pair[1] == t[p - 1];
    BackspaceAfterPair(t, p);
  }

  /** Enter does the same whether or not the previous key was Enter. */
  lemma EnterIgnoresRepeat(text: string, pos: nat)
    requires pos <= |text|
    ensures EnterKey(text, pos, true) == EnterKey(text, pos, false)
  {
  }

  /** Backspace on a caret inside or after a `\r\n` pair removes the pair. */
  lemma BackspacePair(text: string, pos: nat)
    requires pos <= |text|
    ensures 0 < pos < |text| && text[pos - 1] == '\r' && text[pos] == '\n' ==>
      Backspace(text, pos) == (text[..pos - 1] + text[pos + 1..], pos - 1)
    ensures pos >= 2 && text[pos - 2] == '\r' && text[pos - 1] == '\n' ==>
      Backspace(text, pos) == (text[..pos - 2] + text[pos..], pos - 2)
  {
    if 0 < pos < |text| && text[pos - 1] == '\r' && text[pos] == '\n' {
      BackspaceInsidePair(text, pos);
    }
    if pos >= 2 && text[pos - 2] == '\r' && text[pos - 1] == '\n' {
      BackspaceAfterPair(text, pos);
    }
  }

  /** A caret between `'\r'` and `'\n'`: backspace takes its first branch. */
  lemma BackspaceInsidePair(text: string, pos: nat)
    requires 0 < pos < |text| && text[pos - 1] == '\r' && text[pos] == '\n'
    ensures Backspace(text, pos) == (text[..pos - 1] + text[pos + 1..], pos - 1)
  {
    var pair := text[pos - 1..pos + 1];
    assert pair[0] == text[pos - 1] && pair[1] == text[pos];
    assert pair == "\r\n";
  }

  /** A caret right after `\r\n`: no pair straddles it, so backspace takes its second branch. */
  lemma BackspaceAfterPair(text: string, pos: nat)
    requires 2 <= pos <= |text| && text[pos - 2] == '\r' && text[pos - 1] == '\n'
    ensures Backspace(text, pos) == (text[..pos - 2] + text[pos..], pos - 2)
  {
    if pos < |text| {
      NoPairInside(text, pos);
    }
    var pair := text[pos - 2..pos];
    assert pair[0] == text[pos - 2] && pair[1] == text[pos - 1];
    assert pair == "\r\n";
  }
}
