/**
 * The submit handler of src/components/AddPasskeyDialog.jsx. The `onAdd`
 * callback is modelled by the `submitted` field: the pairs handed to it.
 */
module PasskeyDialog {
  import opened Wrappers
  import opened PairForm
  import Text

  class AddPasskeyDialog {
    var open: bool
    var passkeyLabel: string
    var secret: string
    /** The `{ label, secret }` values passed to `onAdd` so far. */
    var submitted: seq<(string, string)>

    constructor ()
      ensures !open && passkeyLabel == "" && secret == "" && submitted == []
    {
      open := false;
      passkeyLabel, secret := "", "";
      submitted := [];
    }

    /** `handleSubmit`: the trimmed pair is added, the dialog closes and both fields reset; a blank field changes nothing. */
    method HandleSubmit() returns (accepted: bool)
      modifies this
      ensures accepted <==> Submitted(old(passkeyLabel), old(secret)).Some?
      ensures accepted ==>
        && submitted == old(submitted) + [Submitted(old(passkeyLabel), old(secret)).value]
        && !open && passkeyLabel == "" && secret == ""
      ensures !accepted ==> unchanged(this)
    {
      var name := passkeyLabel;
      var text := secret;
      if Text.Trim(name) == "" || Text.Trim(text) == "" {
        return false;
      }
      submitted := submitted + [(Text.Trim(name), Text.Trim(text))];
      open := false;
      passkeyLabel := "";
      secret := "";
      return true;
    }
  }
}
