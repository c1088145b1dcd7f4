/** The prompt-saver store (src/app/features/promptSaver/promptSlice.ts): a
    list of saved prompts with a search term, the add/edit modal flags and
    the loading and error flags of the four asynchronous operations (fetch,
    create, update, delete). Each operation is modelled only through its
    pending, fulfilled and rejected cases, the payload being a parameter. */
module PromptSlice {
  import opened Wrappers
  import opened Strings
  import opened Seqs
  import opened FuzzyMatch

  /** A saved prompt; timestamps are milliseconds since the epoch. */
  datatype Prompt = Prompt(id: string, title: string, content: string, tags: seq<string>,
                           createdAt: int, updatedAt: int)

  /** A prompt as the server returns it (src/types/prompt.types.ts). */
  datatype PromptResponse = PromptResponse(promptId: string, title: string, content: string, userId: string,
                                           tags: seq<string>, createdAt: int, updatedAt: int)

  /** `mapPromptFromResponse`: the server's `promptId` becomes `id`; the owner
      is dropped. */
  function MapPromptFromResponse(dto: PromptResponse): (p: Prompt)
    ensures p.id == dto.promptId
    ensures p.title == dto.title && p.content == dto.content && p.tags == dto.tags
    ensures p.createdAt == dto.createdAt && p.updatedAt == dto.updatedAt
  {
    Prompt(dto.promptId, dto.title, dto.content, dto.tags, dto.createdAt, dto.updatedAt)
  }

  /** The mapping loses exactly the owner: two responses map to the same
      prompt if and only if they agree on everything but `userId`. */
  lemma MapPromptForgetsOnlyOwner(a: PromptResponse, b: PromptResponse)
    ensures MapPromptFromResponse(a) == MapPromptFromResponse(b) <==> a.(userId := b.userId) == b
  {
  }

  /** `payload.map(mapPromptFromResponse)`. */
  function MapAll(payload: seq<PromptResponse>): (r: seq<Prompt>)
    ensures |r| == |payload|
    ensures forall i :: 0 <= i < |r| ==> r[i] == MapPromptFromResponse(payload[i])
  {
    seq(|payload|, i requires 0 <= i < |payload| => MapPromptFromResponse(payload[i]))
  }

  /** The test `prompt.id === id`, named so that the list operations and their
      specifications use one and the same function. */
  function HasId(id: string): Prompt -> bool {
    (p: Prompt) => p.id == id
  }

  /** The test `prompt.id !== id`. */
  function LacksId(id: string): Prompt -> bool {
    (p: Prompt) => p.id != id
  }

  /** The prompts whose title, content or one of whose tags, lower-cased,
      fuzzy-matches the (already lower-cased) search term. */
  predicate MatchesTerm(p: Prompt, term: string) {
    || IsFuzzyMatch(ToLower(p.title), term, DefaultThreshold)
    || IsFuzzyMatch(ToLower(p.content), term, DefaultThreshold)
    || exists i :: 0 <= i < |p.tags| && IsFuzzyMatch(ToLower(p.tags[i]), term, DefaultThreshold)
  }

  /** `selectFilteredPrompts`: with an empty search term every prompt; otherwise
      exactly the prompts that match the lower-cased term, in list order. */
  function SelectFilteredPrompts(prompts: seq<Prompt>, searchTerm: string): (r: seq<Prompt>)
    ensures searchTerm == [] ==> r == prompts
    ensures searchTerm != [] ==> forall p :: p in r <==> p in prompts && MatchesTerm(p, ToLower(searchTerm))
    ensures IsSubsequence(r, prompts)
  {
    var term := ToLower(searchTerm);
    if term == [] then
      assert IsSubsequence(prompts, prompts) by { SubsequenceRefl(prompts); }
      prompts
    else Filter(prompts, (p: Prompt) => MatchesTerm(p, term))
  }

  lemma {:induction false} SubsequenceRefl<T>(s: seq<T>)
    ensures IsSubsequence(s, s)
    decreases |s|
  {
    if s != [] {
      SubsequenceRefl(s[1..]);
    }
  }

  /** A prompt whose lower-cased title contains the lower-cased term is
      always listed: containment alone makes the fuzzy test succeed. */
  lemma TitleContainingTermIsListed(prompts: seq<Prompt>, searchTerm: string, p: Prompt)
    requires p in prompts
    requires Contains(ToLower(p.title), ToLower(searchTerm))
    ensures p in SelectFilteredPrompts(prompts, searchTerm)
  {
    var term := ToLower(searchTerm);
    if term != [] {
      ContainsShorter(ToLower(p.title), term);
      assert IsFuzzyMatch(ToLower(p.title), term, DefaultThreshold);
    }
  }

  class PromptStore {
    var prompts: seq<Prompt>
    var searchTerm: string
    var isAddModalOpen: bool
    var editingPrompt: Option<Prompt>
    var loading: bool
    var error: Option<string>

    /** `initialState`. */
    constructor ()
      ensures prompts == [] && searchTerm == "" && !isAddModalOpen && editingPrompt == None
      ensures !loading && error == None
    {
      prompts := [];
      searchTerm := "";
      isAddModalOpen := false;
      editingPrompt := None;
      loading := false;
      error := None;
    }

    /** `setSearchTerm`. */
    method SetSearchTerm(term: string)
      modifies this`searchTerm
      ensures searchTerm == term
    {
      searchTerm := term;
    }

    /** `setAddModalOpen`: closing the modal also drops the prompt being
        edited; opening it keeps it. */
    method SetAddModalOpen(open: bool)
      modifies this`isAddModalOpen, this`editingPrompt
      ensures isAddModalOpen == open
      ensures editingPrompt == if open then old(editingPrompt) else None
    {
      isAddModalOpen := open;
      if !open {
        editingPrompt := None;
      }
    }

    /** `setEditingPrompt`: the modal is open exactly when there is a prompt
        to edit. */
    method SetEditingPrompt(p: Option<Prompt>)
      modifies this`editingPrompt, this`isAddModalOpen
      ensures editingPrompt == p
      ensures isAddModalOpen <==> p.Some?
    {
      editingPrompt := p;
      isAddModalOpen := p != None;
    }

    /** The pending case of each of the four operations: loading, error
        cleared. */
    method Pending()
      modifies this`loading, this`error
      ensures loading && error == None
    {
      loading := true;
      error := None;
    }

    /** The rejected case of each of the four operations: the message of
        `rejectWithValue` becomes the error; the list is not touched. */
    method Rejected(message: string)
      modifies this`loading, this`error
      ensures !loading && error == Some(message)
    {
      loading := false;
      error := Some(message);
    }

    /** `fetchPrompts.fulfilled`: the list becomes the mapped payload. */
    method FetchFulfilled(payload: seq<PromptResponse>)
      modifies this`loading, this`prompts
      ensures !loading && prompts == MapAll(payload)
    {
      loading := false;
      prompts := MapAll(payload);
    }

    /** `createPrompt.fulfilled`: the new prompt is appended at the end. */
    method CreateFulfilled(payload: PromptResponse)
      modifies this`loading, this`prompts
      ensures !loading && prompts == old(prompts) + [MapPromptFromResponse(payload)]
    {
      loading := false;
      prompts := prompts + [MapPromptFromResponse(payload)];
    }

    /** `updatePromptAsync.fulfilled`: the first prompt with the payload's id
        is replaced; every other prompt stays where it was; no prompt with that
        id means no change. */
    method UpdateFulfilled(payload: PromptResponse)
      modifies this`loading, this`prompts
      ensures !loading
      ensures prompts == ReplaceFirstWhere(old(prompts), HasId(payload.promptId), MapPromptFromResponse(payload))
    {
      loading := false;
      var updated := MapPromptFromResponse(payload);
      var index := FindIndex(prompts, HasId(updated.id));
      if index != -1 {
        prompts := prompts[index := updated];
      }
    }

    /** `deletePromptAsync.fulfilled`: every prompt with the id is removed, the
        rest keep their order. */
    method DeleteFulfilled(id: string)
      modifies this`loading, this`prompts
      ensures !loading && prompts == Filter(old(prompts), LacksId(id))
    {
      loading := false;
      prompts := Filter(prompts, LacksId(id));
    }
  }

  /** An update keeps the length and, when some prompt has the id, puts the
      new prompt in place of the first of them. */
  lemma UpdateReplacesFirst(prompts: seq<Prompt>, updated: Prompt)
    ensures var r := ReplaceFirstWhere(prompts, HasId(updated.id), updated);
            |r| == |prompts| &&
            ((exists i :: 0 <= i < |prompts| && prompts[i].id == updated.id) ==> updated in r) &&
            ((forall i :: 0 <= i < |prompts| ==> prompts[i].id != updated.id) ==> r == prompts)
  {
    var k := FindIndex(prompts, HasId(updated.id));
    if k != -1 {
      assert ReplaceFirstWhere(prompts, HasId(updated.id), updated)[k] == updated;
    }
  }
}
