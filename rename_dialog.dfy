/** The rename dialog: its name field, error line and loading flag, and what
    it asks of the page (call `onRename`, close). */
module RenameDialog {
  import opened Wrappers
  import opened Text

  const NameRequired: string := "Name is required"
  const RenameFailed: string := "Failed to rename"

  /** `isLoading || !name.trim()`: when the Rename button is disabled. */
  function SubmitDisabled(isLoading: bool, name: string): (r: bool)
    ensures r <==> isLoading || IsBlank(name)
  {
    isLoading || Trim(name) == []
  }

  /** The input's selection on focus as `[start, end)`: the name without its
      extension for a file whose last dot is not the first character, else everything. */
  function FocusSelection(value: string, isFolder: bool): (r: (int, int))
    ensures r.0 == 0 && 0 <= r.1 <= |value|
    ensures r.1 < |value| ==>
      && !isFolder && r.1 > 0 && value[r.1] == '.'
      && forall k :: r.1 < k < |value| ==> value[k] != '.'
    ensures r.1 == |value| ==> isFolder || (forall k :: 0 < k < |value| ==> value[k] != '.')
  {
    var dotIndex := LastIndexOf(value, '.');
    if dotIndex > 0 && !isFolder then (0, dotIndex) else (0, |value|)
  }

  /** What handleSubmit asks of the page. */
  datatype Request = Request(renameTo: Option<string>, close: bool)

  class RenameForm {
    var name: string
    var isLoading: bool
    var error: string

    constructor ()
      ensures name == "" && !isLoading && error == ""
    {
      name, isLoading, error := "", false, "";
    }

    /** The effect that copies the file's name into the field when the dialog opens. */
    method Opened(fileName: string)
      modifies this
      ensures name == fileName && isLoading == old(isLoading) && error == old(error)
    {
      name := fileName;
    }

    /** onChange: a new value clears the error. */
    method Edit(value: string)
      modifies this
      ensures name == value && error == "" && isLoading == old(isLoading)
    {
      name := value;
      error := "";
    }

    /** handleSubmit. `currentName` is the file's name (`None` without a file) and
        `renameSucceeds` the outcome of the awaited `onRename`. */
    method HandleSubmit(currentName: Option<string>, renameSucceeds: bool) returns (req: Request)
      modifies this
      ensures name == old(name)
      ensures IsBlank(old(name)) ==>
        req == Request(None, false) && error == NameRequired && isLoading == old(isLoading)
      ensures !IsBlank(old(name)) && currentName == Some(Trim(old(name))) ==>
        req == Request(None, true) && error == old(error) && isLoading == old(isLoading)
      ensures !IsBlank(old(name)) && currentName != Some(Trim(old(name))) ==>
        && req.renameTo == Some(Trim(old(name))) && req.close == renameSucceeds
        && error == (if renameSucceeds then "" else RenameFailed) && !isLoading
    {
      var trimmed := Trim(name);
      if trimmed == [] {
        error := NameRequired;
        return Request(None, false);
      }
      if currentName == Some(trimmed) {
        return Request(None, true);
      }
      isLoading := true;
      error := "";
      if renameSucceeds {
        req := Request(Some(trimmed), true);
      } else {
        error := RenameFailed;
        req := Request(Some(trimmed), false);
      }
      isLoading := false;
    }

    /** handleOpenChange: closing clears the error but keeps the typed name;
        the new open state is passed on. */
    method HandleOpenChange(newOpen: bool) returns (forwarded: bool)
      modifies this
      ensures forwarded == newOpen
      ensures name == old(name) && isLoading == old(isLoading)
      ensures error == (if newOpen then old(error) else "")
    {
      if !newOpen {
        error := "";
      }
      forwarded := newOpen;
    }
  }

  /** The rename sent is never blank and is already trimmed. */
  lemma RenameIsTrimmed(name: string)
    requires !IsBlank(name)
    ensures Trim(name) != [] && Trim(Trim(name)) == Trim(name)
  {
    TrimIdempotent(name);
  }

  /** An enabled Rename button means the blank-name error cannot fire. */
  lemma EnabledNeverBlank(isLoading: bool, name: string)
    requires !SubmitDisabled(isLoading, name)
    ensures !IsBlank(name) && !isLoading
  {
  }
}
