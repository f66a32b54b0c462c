// The input validation of ui/validation_widgets.py: the filename rules of
// the export dialog and the line edit that applies them.
module Validation {
  import opened Strings

  /** `ValidationState`. */
  datatype ValidationState = Valid | Warning | Error | Neutral

  /** The characters of the `[<>:"/\\|?*]` class. */
  const INVALID_CHARS: seq<char> := ['<', '>', ':', '"', '/', '\\', '|', '?', '*']

  /** The Windows device names no file may take. */
  const RESERVED_NAMES: seq<string> := [
    "CON", "PRN", "AUX", "NUL",
    "COM1", "COM2", "COM3", "COM4", "COM5", "COM6", "COM7", "COM8", "COM9",
    "LPT1", "LPT2", "LPT3", "LPT4", "LPT5", "LPT6", "LPT7", "LPT8", "LPT9"]

  const MAX_FILENAME_LENGTH := 200

  predicate HasInvalidChar(s: string)
  {
    exists i :: 0 <= i < |s| && s[i] in INVALID_CHARS
  }

  /** The reserved-name test, made case-insensitive by upper-casing first. */
  predicate IsReserved(s: string)
  {
    Upper(s) in RESERVED_NAMES
  }

  /**
   * `SmartFilenameEdit._validate_filename`: blank is neutral; a forbidden
   * character, a reserved name or more than 200 characters is an error; a
   * name with white space at either end draws a warning; anything else is
   * valid.
   */
  function ValidateFilename(filename: string): (r: (ValidationState, string))
    ensures r.0 == Neutral <==> AllSpace(filename)
    ensures r.0 == Error <==>
      !AllSpace(filename) && (HasInvalidChar(filename) || IsReserved(filename) || |filename| > MAX_FILENAME_LENGTH)
    ensures r.0 == Warning <==>
      !AllSpace(filename) && !HasInvalidChar(filename) && !IsReserved(filename) &&
      |filename| <= MAX_FILENAME_LENGTH && filename != Strip(filename)
    ensures r.0 == Valid <==>
      !AllSpace(filename) && !HasInvalidChar(filename) && !IsReserved(filename) &&
      |filename| <= MAX_FILENAME_LENGTH && filename == Strip(filename)
    ensures r.0 != Neutral ==> r.1 != ""
  {
    BlankIffAllSpace(filename);
    if Strip(filename) == "" then (Neutral, "")
    else if HasInvalidChar(filename) then
      (Error, "Filename contains invalid characters: < > : \" / \\ | ? *")
    else if IsReserved(filename) then (Error, "'" + filename + "' is a reserved system name")
    else if |filename| > MAX_FILENAME_LENGTH then (Error, "Filename is too long")
    else if filename != Strip(filename) then (Warning, "Filename has leading or trailing spaces")
    else (Valid, "Filename is valid")
  }

  /** Each reserved name is refused whatever its letter case. */
  lemma ReservedInAnyCase(filename: string, i: nat)
    requires i < |RESERVED_NAMES| && Upper(filename) == RESERVED_NAMES[i]
    ensures ValidateFilename(filename).0 == Error
  {
    ReservedStartWithLetter();
    var u := RESERVED_NAMES[i];
    assert Upper(filename)[0] == u[0];
    assert !IsSpace(filename[0]);
    assert !AllSpace(filename);
    assert IsReserved(filename);
  }

  /** Every reserved name begins with a capital letter. */
  lemma ReservedStartWithLetter()
    ensures forall j :: 0 <= j < |RESERVED_NAMES| ==> |RESERVED_NAMES[j]| > 0 && 'A' <= RESERVED_NAMES[j][0] <= 'Z'
  {
  }

  /** A filename the edit has stripped is never given the white-space warning. */
  lemma StrippedNeverWarns(text: string)
    ensures ValidateFilename(Strip(text)).0 != Warning
  {
    StripIdempotent(text);
  }

  /**
   * `ValidatedLineEdit` with `SmartFilenameEdit`'s validator when
   * `checksFilenames` is set, and no validator otherwise.
   */
  class ValidatedLineEdit {
    var text: string
    var currentState: ValidationState
    var toolTip: string
    const checksFilenames: bool

    constructor(checksFilenames: bool)
      ensures text == "" && currentState == Neutral && toolTip == ""
      ensures this.checksFilenames == checksFilenames
    {
      text := "";
      currentState := Neutral;
      toolTip := "";
      this.checksFilenames := checksFilenames;
    }

    /** `set_validation_state`: the state and its message, shown as the tool tip. */
    method SetValidationState(state: ValidationState, message: string)
      modifies this
      ensures currentState == state && toolTip == message && text == old(text)
    {
      currentState := state;
      toolTip := message;
    }

    /**
     * `_on_text_changed` after an edit: the state drops back to neutral at
     * once; validation waits for the debounce timer (`ValidateInput`).
     */
    method OnTextChanged(newText: string)
      modifies this
      ensures text == newText && currentState == Neutral
      ensures toolTip == if old(currentState) != Neutral then "" else old(toolTip)
    {
      text := newText;
      if currentState != Neutral {
        SetValidationState(Neutral, "");
      }
    }

    /**
     * `_validate_input`: the stripped text is validated; without a
     * validator nothing changes. A filename edit so never shows the
     * white-space warning, and then accepts its text exactly when it is
     * not in error.
     */
    method ValidateInput()
      modifies this
      ensures text == old(text)
      ensures !checksFilenames ==> currentState == old(currentState) && toolTip == old(toolTip)
      ensures checksFilenames ==> (currentState, toolTip) == ValidateFilename(Strip(text))
      ensures checksFilenames ==> currentState != Warning && (IsValid() <==> currentState != Error)
    {
      if !checksFilenames {
        return;
      }
      var stripped := Strip(text);
      var result := ValidateFilename(stripped);
      StrippedNeverWarns(text);
      SetValidationState(result.0, result.1);
    }

    /** `is_valid`: valid or neutral. */
    predicate IsValid()
      reads this
    {
      currentState == Valid || currentState == Neutral
    }
  }

  /** `SmartDirectorySelector.is_valid`: anything but an error, a warning included. */
  predicate DirectoryAccepts(state: ValidationState)
  {
    state == Valid || state == Neutral || state == Warning
  }

  /** The directory selector accepts every state a line edit accepts, and warnings besides; never an error. */
  lemma DirectoryAcceptsMore(state: ValidationState)
    ensures DirectoryAccepts(state) <==> state != Error
    ensures DirectoryAccepts(state) <==> (state == Valid || state == Neutral) || state == Warning
  {
  }
}
