/**
 * The submit handler of src/components/AddEnvDialog.jsx. The `onAdd`
 * callback is modelled by the `submitted` field: the pairs handed to it.
 */
module EnvDialog {
  import opened Wrappers
  import opened PairForm
  import Text

  class AddEnvDialog {
    var open: bool
    var projectName: string
    var content: string
    /** The `{ projectName, content }` values passed to `onAdd` so far. */
    var submitted: seq<(string, string)>

    constructor ()
      ensures !open && projectName == "" && content == "" && submitted == []
    {
      open := false;
      projectName, content := "", "";
      submitted := [];
    }

    /** `handleSubmit`: the trimmed pair is added, the dialog closes and both fields reset; a blank field changes nothing. */
    method HandleSubmit() returns (accepted: bool)
      modifies this
      ensures accepted <==> Submitted(old(projectName), old(content)).Some?
      ensures accepted ==>
        && submitted == old(submitted) + [Submitted(old(projectName), old(content)).value]
        && !open && projectName == "" && content == ""
      ensures !accepted ==> unchanged(this)
    {
      var name := projectName;
      var text := content;
      if Text.Trim(name) == "" || Text.Trim(text) == "" {
        return false;
      }
      submitted := submitted + [(Text.Trim(name), Text.Trim(text))];
      open := false;
      projectName := "";
      content := "";
      return true;
    }
  }
}
