/** The add/edit form of the prompt saver
    (src/app/features/promptSaver/components/PromptForm.tsx): the form's local
    state, its reset when the prompt being edited changes, the submit
    handler's validation, auto-title and choice of action, and the tag list
    handlers. Each handler is a function from the state it reads to the
    values it hands to the React setters and to the store. */
module PromptForm {
  import opened Wrappers
  import opened Strings
  import opened Seqs
  import PromptSlice

  datatype FieldErrors = FieldErrors(title: bool, content: bool)

  /** The component's local state. */
  datatype FormState = FormState(title: string, content: string, tags: seq<string>, tagInput: string,
                                 errors: FieldErrors)

  /** The reset effect: the fields of the prompt being edited, or empty ones;
      the tag input and both error flags cleared. */
  function ResetForm(editing: Option<PromptSlice.Prompt>): (f: FormState)
    ensures editing.Some? ==> f.title == editing.value.title && f.content == editing.value.content
                              && f.tags == editing.value.tags
    ensures editing.None? ==> f.title == "" && f.content == "" && f.tags == []
    ensures f.tagInput == "" && f.errors == FieldErrors(false, false)
  {
    match editing
    case Some(p) => FormState(p.title, p.content, p.tags, "", FieldErrors(false, false))
    case None => FormState("", "", [], "", FieldErrors(false, false))
  }

  function Min(x: nat, y: nat): nat {
    if x <= y then x else y
  }

  /** `content.split('\n')[0]`: everything before the first line break
      (`FirstLineIsFirstPart` ties it to `split`). */
  function FirstLine(content: string): (line: string)
    ensures line <= content && '\n' !in line
    ensures |line| == |content| || content[|line|] == '\n'
  {
    var i := IndexOfChar(content, '\n');
    if i == -1 then content else content[..i]
  }

  /** The first line is the first part `split` on line breaks gives. */
  lemma FirstLineIsFirstPart(content: string)
    ensures FirstLine(content) == Split(content, '\n')[0]
  {
  }

  /** `title.trim() || content.split('\n')[0].substring(0, 30)`: the trimmed
      title when there is one; otherwise the start of the first line of the
      content, stopping at 30 characters, at the first line break or at the
      end of the content, whichever comes first. */
  function FinalTitle(title: string, content: string): (t: string)
    ensures Trim(title) != [] ==> t == Trim(title)
    ensures Trim(title) == [] ==>
              t <= content && |t| <= 30 && '\n' !in t &&
              (|t| == 30 || |t| == |content| || content[|t|] == '\n')
  {
    var trimmed := Trim(title);
    if trimmed != [] then trimmed
    else
      var line := FirstLine(content);
      var t := line[..Min(30, |line|)];
      assert '\n' !in t by {
        forall i | 0 <= i < |t| ensures t[i] == line[i] { }
      }
      t
  }

  /** What submitting the form does with the store. */
  datatype SubmitAction =
    | ShowErrors(errors: FieldErrors)
    | Create(title: string, content: string, tags: seq<string>)
    | Update(promptId: string, title: string, content: string, tags: seq<string>)

  /** `handleSubmit` up to the dispatch: content that is blank after trimming
      only flags the content field; otherwise the trimmed content, the final
      title and the tags go to an update of the prompt being edited, or to a
      creation when none is. */
  function Submit(form: FormState, editing: Option<PromptSlice.Prompt>): (a: SubmitAction)
    ensures a.ShowErrors? <==> Trim(form.content) == []
    ensures a.ShowErrors? ==> a.errors == FieldErrors(false, true)
    ensures !a.ShowErrors? ==>
              a.title == FinalTitle(form.title, form.content) && a.content == Trim(form.content) && a.tags == form.tags
    ensures a.Update? <==> !a.ShowErrors? && editing.Some?
    ensures a.Update? ==> a.promptId == editing.value.id
  {
    if Trim(form.content) == [] then ShowErrors(FieldErrors(false, true))
    else
      var finalTitle := FinalTitle(form.title, form.content);
      match editing
      case Some(p) => Update(p.id, finalTitle, Trim(form.content), form.tags)
      case None => Create(finalTitle, Trim(form.content), form.tags)
  }

  /** Whether `handleSubmit` closes the modal after a dispatch, as written:
      it reads `error` from the render the handler was created in, so the
      outcome of the request it has just awaited plays no part. */
  predicate ClosesAfterSubmit(errorAtRender: Option<string>, errorAfterRequest: Option<string>) {
    errorAtRender.None?
  }

  /** The evident intent, "only close if there was no error": close exactly
      when the request just made left no error in the store. */
  predicate ClosesAfterSubmitIntended(errorAtRender: Option<string>, errorAfterRequest: Option<string>) {
    errorAfterRequest.None?
  }

  /** The form as written closes on a failed save when the previous render
      had no error, and stays open after a successful one when it had. */
  lemma StaleErrorCloses()
    ensures ClosesAfterSubmit(None, Some("Failed to create prompt"))
    ensures !ClosesAfterSubmit(Some("Failed to create prompt"), None)
    ensures !ClosesAfterSubmitIntended(None, Some("Failed to create prompt"))
    ensures ClosesAfterSubmitIntended(Some("Failed to create prompt"), None)
  {
  }

  /** How the request a submission dispatches ends: the prompt the server
      saved, or the message the thunk rejects with. */
  datatype RequestResult = Answered(payload: PromptSlice.PromptResponse) | Refused(message: string)

  /** `handleSubmit` from the dispatch on, against the store: nothing is
      dispatched for blank content; otherwise the thunk's pending case runs,
      then its fulfilled or rejected case, and the form decides whether to
      close, both as written (reading the error of the render) and as
      intended (reading the store's error after the request). Only the
      intended decision follows the outcome of the request. */
  method SubmitThroughStore(store: PromptSlice.PromptStore, action: SubmitAction, result: RequestResult,
                            errorAtRender: Option<string>)
    returns (closesAsWritten: bool, closesIntended: bool)
    modifies store`loading, store`error, store`prompts
    ensures action.ShowErrors? ==> !closesAsWritten && !closesIntended && unchanged(store)
    ensures !action.ShowErrors? ==> (closesIntended <==> result.Answered?)
    ensures !action.ShowErrors? ==> (closesAsWritten <==> errorAtRender.None?)
    ensures !action.ShowErrors? ==> store.error == if result.Answered? then None else Some(result.message)
    ensures !action.ShowErrors? && result.Refused? ==> store.prompts == old(store.prompts)
    ensures action.Create? && result.Answered? ==>
              store.prompts == old(store.prompts) + [PromptSlice.MapPromptFromResponse(result.payload)]
    ensures action.Update? && result.Answered? ==>
              store.prompts == ReplaceFirstWhere(old(store.prompts), PromptSlice.HasId(result.payload.promptId),
                                                 PromptSlice.MapPromptFromResponse(result.payload))
    ensures !store.loading || action.ShowErrors?
  {
    if action.ShowErrors? {
      return false, false;
    }
    store.Pending();
    match result {
      case Answered(payload) =>
        if action.Create? {
          store.CreateFulfilled(payload);
        } else {
          store.UpdateFulfilled(payload);
        }
      case Refused(message) =>
        store.Rejected(message);
    }
    closesAsWritten := ClosesAfterSubmit(errorAtRender, store.error);
    closesIntended := ClosesAfterSubmitIntended(errorAtRender, store.error);
  }

  /** `handleAddTag`'s result: the new tag list and tag input. */
  datatype TagEdit = TagEdit(tags: seq<string>, tagInput: string)

  /** `handleAddTag`: the trimmed input is appended, and the input cleared,
      only when it is non-empty and not yet in the list; otherwise nothing
      changes. */
  function AddTag(tags: seq<string>, tagInput: string): (r: TagEdit)
    ensures var t := Trim(tagInput);
            if t != [] && t !in tags then r.tags == tags + [t] && r.tagInput == ""
            else r == TagEdit(tags, tagInput)
  {
    var trimmed := Trim(tagInput);
    if trimmed != [] && trimmed !in tags then TagEdit(tags + [trimmed], "") else TagEdit(tags, tagInput)
  }

  /** Adding a tag keeps the list free of duplicates and of empty tags. */
  lemma AddTagKeepsTagsDistinct(tags: seq<string>, tagInput: string)
    requires NoDuplicates(tags) && forall i :: 0 <= i < |tags| ==> tags[i] != ""
    ensures var r := AddTag(tags, tagInput).tags;
            NoDuplicates(r) && forall i :: 0 <= i < |r| ==> r[i] != ""
  {
    var t := Trim(tagInput);
    if t != [] && t !in tags {
      var r := tags + [t];
      forall i, j | 0 <= i < j < |r|
        ensures r[i] != r[j]
      {
        if j == |tags| {
          assert r[i] == tags[i];
        }
      }
    }
  }

  /** `handleRemoveTag`: every occurrence of the tag goes, the rest keep
      their order. */
  function RemoveTag(tags: seq<string>, tag: string): (r: seq<string>)
    ensures tag !in r
    ensures forall x :: x in r <==> x in tags && x != tag
    ensures IsSubsequence(r, tags)
  {
    Filter(tags, (x: string) => x != tag)
  }

  /** Removing a tag shortens the list by the number of its occurrences. */
  lemma {:induction false} RemoveTagLength(tags: seq<string>, tag: string)
    ensures |RemoveTag(tags, tag)| == |tags| - multiset(tags)[tag]
    decreases |tags|
  {
    if tags != [] {
      assert tags == [tags[0]] + tags[1..];
      RemoveTagLength(tags[1..], tag);
    }
  }

  /** Removing a tag keeps the list free of duplicates, and removes exactly
      the one occurrence a duplicate-free list can hold. */
  lemma RemoveTagKeepsTagsDistinct(tags: seq<string>, tag: string)
    requires NoDuplicates(tags)
    ensures NoDuplicates(RemoveTag(tags, tag))
    ensures |RemoveTag(tags, tag)| == if tag in tags then |tags| - 1 else |tags|
  {
    FilterKeepsNoDuplicates(tags, (x: string) => x != tag);
    RemoveTagLength(tags, tag);
    if tag in tags {
      DistinctCount(tags, tag);
    }
  }
}
