/** The value of one `ProgramModel` (profiTools/wind/WinWinget.xaml.cs,
    lines 155-160) and the rule the check-box handler applies to its flags. */
module Records {

  /** A listed program: its name and whether it is marked for removal
      ("Удалить") or for upgrade ("Обновить"). */
  datatype ProgramRecord = ProgramRecord(name: string, remove: bool, update: bool)

  /** The captions of the two check boxes of a row. */
  const RemoveLabel: string := "Удалить"
  const UpdateLabel: string := "Обновить"

  /** A record as the listing creates it: no action chosen yet. */
  function Unmarked(name: string): (r: ProgramRecord)
    ensures r.name == name && !r.remove && !r.update
  {
    ProgramRecord(name, false, false)
  }

  /** At most one of the two actions is chosen. */
  predicate Exclusive(r: ProgramRecord)
  {
    !(r.remove && r.update)
  }

  /** The flags after the check box with the text `caption` has been ticked:
      ticking "remove" clears "update" and ticking "update" clears
      "remove"; the ticked flag itself is left as it is, and a check box
      with any other caption changes nothing. */
  function Checked(r: ProgramRecord, caption: string): (r': ProgramRecord)
    ensures r'.name == r.name
    ensures caption == RemoveLabel ==> r'.remove == r.remove && !r'.update
    ensures caption == UpdateLabel ==> r'.update == r.update && !r'.remove
    ensures caption != RemoveLabel && caption != UpdateLabel ==> r' == r
    ensures caption == RemoveLabel || caption == UpdateLabel ==> Exclusive(r')
  {
    if caption == RemoveLabel then r.(update := false)
    else if caption == UpdateLabel then r.(remove := false)
    else r
  }

  /** When the event fires, the binding has already set the flag the check
      box stands for; the handler then leaves exactly that action chosen. */
  lemma CheckedLeavesOnlyTicked(r: ProgramRecord, caption: string)
    requires caption == RemoveLabel ==> r.remove
    requires caption == UpdateLabel ==> r.update
    requires caption == RemoveLabel || caption == UpdateLabel
    ensures Checked(r, caption).remove <==> caption == RemoveLabel
    ensures Checked(r, caption).update <==> caption == UpdateLabel
  {
    assert RemoveLabel != UpdateLabel by {
      assert RemoveLabel[0] != UpdateLabel[0];
    }
  }

  /** Handling the same event twice changes nothing more. */
  lemma CheckedIdempotent(r: ProgramRecord, caption: string)
    ensures Checked(Checked(r, caption), caption) == Checked(r, caption)
  {
  }
}
