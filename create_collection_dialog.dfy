/** The dialog that names a new collection. */
module CreateDialog {
  import opened Wrappers
  import opened Text

  class Dialog {
    var open: bool
    var title: string

    constructor (open: bool)
      ensures this.open == open && title == []
    {
      this.open := open;
      title := [];
    }

    /** The create button is disabled exactly while the title is blank. */
    predicate CreateDisabled()
      reads this
    {
      Trim(title) == []
    }

    /**
     * `handleCreate` (the button, or Enter): a blank title does nothing;
     * otherwise `onCreate` gets the trimmed title, the field is cleared and
     * the dialog closes.
     */
    method HandleCreate() returns (created: Option<string>)
      modifies this
      ensures created == NonBlank(old(title))
      ensures created.None? <==> IsBlank(old(title))
      ensures created.None? ==> title == old(title) && open == old(open)
      ensures created.Some? ==> created.value == Trim(old(title)) && title == [] && !open
    {
      var typed := title;
      created := NonBlank(typed);
      assert created.None? <==> IsBlank(typed);
      if created.Some? {
        title := [];
        open := false;
      }
    }
  }

  /** The button is enabled exactly when a create would go through. */
  lemma DisabledIffBlank(title: string)
    ensures (Trim(title) == []) <==> NonBlank(title).None?
  {
  }
}
