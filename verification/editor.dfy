/**
  The editor's own edit: a Tab keydown replaces the selection with two spaces and puts the caret
  after them.
*/
module TextEditor {

  /** The text area's value and selection. */
  datatype EditorState = EditorState(value: string, selStart: nat, selEnd: nat)

  /** A text area's selection always lies inside its value, start before end. */
  predicate Valid(e: EditorState) {
    e.selStart <= e.selEnd <= |e.value|
  }

  const Indent: string := "  "

  /** Tab: `value.substring(0, start) + "  " + value.substring(end)`, caret at `start + 2`. */
  function InsertTab(e: EditorState): (e': EditorState)
    requires Valid(e)
    ensures Valid(e')
    ensures |e'.value| == |e.value| - (e.selEnd - e.selStart) + 2
    ensures e'.value[..e.selStart] == e.value[..e.selStart]
    ensures e'.value[e.selStart..e.selStart + 2] == Indent
    ensures e'.value[e.selStart + 2..] == e.value[e.selEnd..]
    ensures e'.selStart == e.selStart + 2 && e'.selEnd == e.selStart + 2
  {
    EditorState(e.value[..e.selStart] + Indent + e.value[e.selEnd..], e.selStart + 2, e.selStart + 2)
  }

  /** Removes the two characters before the caret: the inverse of a Tab typed at a bare caret. */
  function Backspace2(e: EditorState): EditorState
    requires Valid(e) && e.selStart == e.selEnd && e.selStart >= 2
  {
    EditorState(e.value[..e.selStart - 2] + e.value[e.selStart..], e.selStart - 2, e.selStart - 2)
  }

  /** With no text selected, a Tab only inserts, and deleting the two spaces restores the editor. */
  lemma TabAtCaretIsUndone(e: EditorState)
    requires Valid(e) && e.selStart == e.selEnd
    ensures Backspace2(InsertTab(e)) == e
  {
    var t := InsertTab(e);
    assert t.value[..e.selStart] + t.value[e.selStart + 2..] == e.value[..e.selStart] + e.value[e.selStart..];
    assert e.value[..e.selStart] + e.value[e.selStart..] == e.value;
  }

  /** A Tab over a selection discards exactly the selected text. */
  lemma TabReplacesSelection(e: EditorState)
    requires Valid(e)
    ensures multiset(InsertTab(e).value) + multiset(e.value[e.selStart..e.selEnd]) == multiset(e.value) + multiset(Indent)
  {
    var v := e.value;
    assert v == v[..e.selStart] + v[e.selStart..e.selEnd] + v[e.selEnd..];
  }
}
