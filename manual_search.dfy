/**
 * The e-mail search panel of src/components/scanner/ManualSearch.tsx: its two fields, the
 * controlled input, the close button, and the guard of `handleSubmit`.
 */
module ManualSearch {
  import opened Wrappers
  import opened Strings

  /** What one submit event forwards to `onSearch`: the trimmed input, unless it is blank or a search is running. */
  function Submission(email: string, isSearching: bool): (submitted: Option<string>)
    ensures submitted.Some? <==> !AllSpace(email) && !isSearching
    ensures submitted.Some? ==> submitted.value == Trim(email)
    ensures submitted.Some? ==> submitted.value != "" && !IsSpace(submitted.value[0]) && !IsSpace(submitted.value[|submitted.value| - 1])
  {
    TrimEmptyIffBlank(email);
    var trimmed := Trim(email);
    if trimmed != "" && !isSearching then Some(trimmed) else None
  }

  /** The submit button is disabled exactly when a submit event would forward nothing. */
  predicate SubmitDisabled(email: string, isSearching: bool) {
    Trim(email) == "" || isSearching
  }

  lemma SubmitDisabledIffNothingForwarded(email: string, isSearching: bool)
    ensures SubmitDisabled(email, isSearching) <==> Submission(email, isSearching).None?
  {
  }

  /** Forwarding is idempotent: resubmitting what was forwarded forwards the same text. */
  lemma SubmissionStable(email: string)
    requires Submission(email, false).Some?
    ensures Submission(Submission(email, false).value, false) == Submission(email, false)
  {
    TrimIdempotent(email);
  }

  class SearchPanel {
    var email: string
    var isExpanded: bool

    constructor ()
      ensures email == "" && !isExpanded
    {
      email := "";
      isExpanded := false;
    }

    /** The "Recherche manuelle par email" button. */
    method Expand()
      modifies this
      ensures isExpanded && email == old(email)
    {
      isExpanded := true;
    }

    /** `onChange` of the input, which is rendered only while the panel is expanded. */
    method Edit(value: string)
      requires isExpanded
      modifies this
      ensures email == value && isExpanded
    {
      email := value;
    }

    /** `handleSubmit`: reads the state and changes none of it. */
    method Submit(isSearching: bool) returns (submitted: Option<string>)
      requires isExpanded
      ensures submitted == Submission(email, isSearching)
    {
      var trimmed := Trim(email);
      if trimmed != "" && !isSearching {
        submitted := Some(trimmed);
      } else {
        submitted := None;
      }
    }

    /** The "Fermer" button. */
    method Close()
      modifies this
      ensures !isExpanded && email == ""
    {
      isExpanded := false;
      email := "";
    }
  }
}
