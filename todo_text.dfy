/**
 * The to-do convention: a to-do block has no separate "done" field; its
 * state is the first character of its text, '☑' (checked) or '☐'
 * (unchecked), followed by a space and the label.
 */
module TodoText {

  const CheckedMark: char := '☑'
  const UncheckedMark: char := '☐'

  /** The two characters written in front of a label for the given state. */
  function Prefix(checked: bool): (r: string)
    ensures |r| == 2 && r[1] == ' '
    ensures IsChecked(r) == checked
  {
    [if checked then CheckedMark else UncheckedMark] + " "
  }

  /** `text.startsWith('☑')`: the checkbox state shown for a to-do. */
  predicate IsChecked(text: string)
    ensures HasMarker(text) ==> (IsChecked(text) <==> text[..2] == [CheckedMark, ' '])
    ensures IsChecked(text) ==> !(|text| > 0 && text[0] == UncheckedMark)
  {
    |text| > 0 && text[0] == CheckedMark
  }

  /** Text that starts with one of the two full prefixes "☐ " or "☑ " (the `/^☐ |^☑ /` test). */
  predicate HasMarker(text: string)
    ensures HasMarker(text) <==> |text| >= 2 && text[..2] in {[CheckedMark, ' '], [UncheckedMark, ' ']}
  {
    assert |text| >= 2 ==> text[..2] == [text[0], text[1]];
    |text| >= 2 && text[1] == ' ' && (text[0] == CheckedMark || text[0] == UncheckedMark)
  }

  /** `text.replace(/^☐ |^☑ /, '')`: the label, with one leading marker and its space removed. */
  function Label(text: string): (r: string)
    ensures HasMarker(text) ==> text == text[..2] + r
    ensures !HasMarker(text) ==> r == text
  {
    if HasMarker(text) then text[2..] else text
  }

  /** A label written behind the prefix of a state: the state and the label read back unchanged. */
  function WithMarker(checked: bool, caption: string): (r: string)
    ensures HasMarker(r)
    ensures IsChecked(r) == checked
    ensures Label(r) == caption
  {
    Prefix(checked) + caption
  }

  /** The checkbox handler: the state the checkbox now shows, in front of the current label. */
  function Toggled(text: string, checked: bool): (r: string)
    ensures IsChecked(r) == checked
    ensures Label(r) == Label(text)
  {
    WithMarker(checked, Label(text))
  }

  /** The label editor's blur handler: the edited label behind the current state's prefix. */
  function Relabelled(text: string, caption: string): (r: string)
    ensures IsChecked(r) == IsChecked(text)
    ensures Label(r) == caption
  {
    WithMarker(IsChecked(text), caption)
  }

  /** A marked text is determined by its state and its label. */
  lemma MarkerRoundTrip(text: string)
    requires HasMarker(text)
    ensures WithMarker(IsChecked(text), Label(text)) == text
  {
  }

  /** Clicking the checkbox of a marked to-do twice restores its text. */
  lemma ToggleTwice(text: string)
    requires HasMarker(text)
    ensures Toggled(Toggled(text, !IsChecked(text)), IsChecked(text)) == text
  {
  }

  /**
   * Without a full marker the round trip fails: a text that is just '☑'
   * shows as checked, and two clicks yield "☑ ☑".
   */
  lemma ToggleTwiceNeedsMarker()
    ensures Toggled(Toggled("☑", false), true) == "☑ ☑"
  {
  }

  /** Committing the label the editor displays leaves a marked to-do as it was. */
  lemma RelabelWithShownLabel(text: string)
    requires HasMarker(text)
    ensures Relabelled(text, Label(text)) == text
  {
  }
}
