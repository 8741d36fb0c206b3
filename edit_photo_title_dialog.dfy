/** The dialog that renames a photo. */
module EditTitleDialog {
  import opened Wrappers
  import opened Text

  class Dialog {
    var open: bool
    var title: string
    /** The `initialTitle` prop: the current title of what is renamed. */
    var initialTitle: string

    constructor (open: bool, initialTitle: string)
      ensures this.open == open && this.initialTitle == initialTitle && title == initialTitle
    {
      this.open := open;
      this.initialTitle := initialTitle;
      title := initialTitle;
    }

    /** The effect on `open` and `initialTitle`: opening resets the field to the current title. */
    method OpenEffect()
      modifies this
      ensures open ==> title == initialTitle
      ensures !open ==> title == old(title)
      ensures open == old(open) && initialTitle == old(initialTitle)
    {
      if open {
        title := initialTitle;
      }
    }

    /** The save button is disabled when the trimmed title is empty or equals the current one. */
    predicate SaveDisabled()
      reads this
    {
      Trim(title) == [] || Trim(title) == initialTitle
    }

    /**
     * `handleSave` (the button, or Enter, which does not consult
     * `SaveDisabled`): a blank title saves nothing and the dialog stays open;
     * otherwise `onSave` gets the trimmed title and the dialog closes.
     */
    method HandleSave() returns (saved: Option<string>)
      modifies this
      ensures saved == NonBlank(old(title))
      ensures title == old(title) && initialTitle == old(initialTitle)
      ensures saved.None? <==> IsBlank(title)
      ensures saved.None? ==> open == old(open)
      ensures saved.Some? ==> saved.value == Trim(title) && !open
    {
      saved := NonBlank(title);
      if saved.Some? {
        open := false;
      }
    }
  }

  /**
   * For a stored title (non-blank, already trimmed) left as it is, the
   * button is disabled, yet Enter saves it unchanged.
   */
  lemma EnterSavesUnchanged(d: Dialog)
    requires d.title == d.initialTitle && d.initialTitle != [] && Trim(d.initialTitle) == d.initialTitle
    ensures d.SaveDisabled()
    ensures NonBlank(d.title) == Some(d.initialTitle)
  {
  }
}
