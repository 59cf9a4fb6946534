/** The new-folder dialog: its name field, error line and loading flag, and
    what it asks of the page (call `onCreate`, close). */
module CreateFolderDialog {
  import opened Wrappers
  import opened Text

  const FolderNameRequired: string := "Folder name is required"
  const CreateFailed: string := "Failed to create folder"

  /** `isLoading || !name.trim()`: when the Create button is disabled. */
  function SubmitDisabled(isLoading: bool, name: string): (r: bool)
    ensures r <==> isLoading || IsBlank(name)
  {
    isLoading || Trim(name) == []
  }

  datatype Request = Request(createWith: Option<string>, close: bool)

  class FolderForm {
    var name: string
    var isLoading: bool
    var error: string

    constructor ()
      ensures name == "" && !isLoading && error == ""
    {
      name, isLoading, error := "", false, "";
    }

    /** onChange: a new value clears the error. */
    method Edit(value: string)
      modifies this
      ensures name == value && error == "" && isLoading == old(isLoading)
    {
      name := value;
      error := "";
    }

    /** handleSubmit; `createSucceeds` is the outcome of the awaited `onCreate`. */
    method HandleSubmit(createSucceeds: bool) returns (req: Request)
      modifies this
      ensures IsBlank(old(name)) ==>
        req == Request(None, false) && error == FolderNameRequired && name == old(name) && isLoading == old(isLoading)
      ensures !IsBlank(old(name)) ==>
        && req.createWith == Some(Trim(old(name))) && req.close == createSucceeds && !isLoading
        && (createSucceeds ==> name == "" && error == "")
        && (!createSucceeds ==> name == old(name) && error == CreateFailed)
    {
      var trimmed := Trim(name);
      if trimmed == [] {
        error := FolderNameRequired;
        return Request(None, false);
      }
      isLoading := true;
      error := "";
      if createSucceeds {
        name := "";
        req := Request(Some(trimmed), true);
      } else {
        error := CreateFailed;
        req := Request(Some(trimmed), false);
      }
      isLoading := false;
    }

    /** handleOpenChange: closing resets the name and the error; the new open state is passed on. */
    method HandleOpenChange(newOpen: bool) returns (forwarded: bool)
      modifies this
      ensures forwarded == newOpen && isLoading == old(isLoading)
      ensures !newOpen ==> name == "" && error == ""
      ensures newOpen ==> name == old(name) && error == old(error)
    {
      if !newOpen {
        name := "";
        error := "";
      }
      forwarded := newOpen;
    }
  }

  /** An enabled Create button means the blank-name error cannot fire. */
  lemma EnabledNeverBlank(isLoading: bool, name: string)
    requires !SubmitDisabled(isLoading, name)
    ensures !IsBlank(name) && !isLoading
  {
  }
}
