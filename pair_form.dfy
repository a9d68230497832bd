/**
 * The rule the two-field add dialogs of src/components/AddEnvDialog.jsx and
 * src/components/AddPasskeyDialog.jsx share: `if (!a.trim() || !b.trim())`
 * refuses, otherwise `onAdd` receives both values trimmed.
 */
module PairForm {
  import opened Wrappers
  import opened Text

  /** The values handed to `onAdd`, or `None` where the form is refused. */
  function Submitted(first: string, second: string): (r: Option<(string, string)>)
    ensures r.Some? <==> Trim(first) != "" && Trim(second) != ""
    ensures r.Some? ==> r.value == (Trim(first), Trim(second))
  {
    if Trim(first) == "" || Trim(second) == "" then None else Some((Trim(first), Trim(second)))
  }

  /** A form is refused exactly when one of its fields is blank: empty or whitespace only. */
  lemma RefusedIffBlank(first: string, second: string)
    ensures Submitted(first, second).None? <==> AllSpace(first) || AllSpace(second)
  {
    TrimEmpty(first);
    TrimEmpty(second);
  }

  /** Submitting the trimmed values gives the same verdict and the same values: trimming is done once and for all. */
  lemma SubmittedStable(first: string, second: string)
    ensures Submitted(Trim(first), Trim(second)) == Submitted(first, second)
  {
    TrimIdempotent(first);
    TrimIdempotent(second);
  }
}
