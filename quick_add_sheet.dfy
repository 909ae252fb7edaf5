/**
 * The quick-add sheet as a component with state: whether it is open, and
 * the fields of its form, which a successful submit partly clears.
 */
module QuickAddState {
  import opened Ledger
  import opened QuickAdd

  /** The state of the sheet: open or closed, the date, the description and the other form fields. */
  class QuickAddSheet {
    var isOpen: bool
    var date: string
    var description: string
    var form: Form

    /** A closed sheet with an empty income form dated `today`. */
    constructor (today: string)
      ensures !isOpen && date == today && description == ""
      ensures form == Form(Income, "", "", "", "", "")
    {
      isOpen := false;
      date := today;
      description := "";
      form := Form(Income, "", "", "", "", "");
    }

    /**
     * `handleSubmit` up to the insert: with no accounts, or when no lines are
     * built, nothing is sent; otherwise the transaction built from the form.
     * Reading the form changes nothing.
     */
    method Request(monthId: string, accounts: seq<Account>, nextRowOrder: int)
      returns (request: Option<NewTransaction>)
      ensures request == RequestFor(form, date, description, monthId, accounts, nextRowOrder)
    {
      request := Prepare(form, date, description, monthId, accounts, nextRowOrder);
    }

    /**
     * `handleSubmit` once the insert succeeded: the sheet closes and the
     * description and both amounts are cleared; the date, the type and the
     * chosen accounts are kept.
     */
    method Saved()
      modifies this
      ensures !isOpen && description == "" && date == old(date)
      ensures form == old(form).(amount := "", transferAmount := "")
    {
      isOpen := false;
      description := "";
      form := form.(amount := "", transferAmount := "");
    }
  }
}
