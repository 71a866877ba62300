/**
 * The `suggestCommitMessage` command: obtain the API key, pick the staged or
 * the unstaged diff, build the prompt, describe the completion request, turn
 * the returned choices into quick-pick items, and write the accepted item
 * into the source-control input box.
 */
module Extension {
  import opened Wrappers
  import opened Text
  import opened Prompt
  import opened ApiKey

  const NothingToSuggestMessage := "No changes to commit. Nothing to suggest"

  // ---------------------------------------------------------------------------
  // Choosing the diff

  /** The staged diff when it is not blank after trimming, otherwise the
      unstaged diff; nothing when that one is blank too. */
  function SelectDiff(staged: string, unstaged: string): (r: Option<string>)
    ensures !IsBlank(staged) ==> r == Some(staged)
    ensures IsBlank(staged) && !IsBlank(unstaged) ==> r == Some(unstaged)
    ensures r == None <==> IsBlank(staged) && IsBlank(unstaged)
    ensures r.Some? ==> !IsBlank(r.value) && Trim(r.value) != []
  {
    var diff := if Trim(staged) == [] then unstaged else staged;
    if Trim(diff) == [] then None else Some(diff)
  }

  // ---------------------------------------------------------------------------
  // The completion request

  const CompletionsUrl := "https://api.openai.com/v1/engines/davinci-codex/completions"
  const MaxTokens := 32
  const ChoiceCount := 10
  const Temperature := 0.5

  /** The POST request sent to the completions endpoint. */
  datatype CompletionRequest = CompletionRequest(
    url: string,
    prompt: string,
    maxTokens: nat,
    n: nat,
    stop: seq<string>,
    temperature: real,
    authorization: string)

  /** The request for a prompt, authorised with the bearer token `apiKey`. */
  function MakeRequest(prompt: string, apiKey: string): (req: CompletionRequest)
    ensures req.url == CompletionsUrl
    ensures req.prompt == prompt
    ensures |req.authorization| == 7 + |apiKey|
    ensures req.authorization[..7] == "Bearer " && req.authorization[7..] == apiKey
    ensures req.stop == ["\n"] && req.maxTokens == 32 && req.n == 10 && req.temperature == 0.5
  {
    CompletionRequest(CompletionsUrl, prompt, MaxTokens, ChoiceCount, ["\n"], Temperature, "Bearer " + apiKey)
  }

  // ---------------------------------------------------------------------------
  // Quick-pick items

  /** One completion returned by the endpoint. */
  datatype Choice = Choice(text: string)

  /** One entry of the selection list. */
  datatype QuickPickItem = QuickPickItem(labelText: string)

  /** `createQuickPickItems`: one item per choice, in order, labelled with the
      prefix followed by the choice's text. */
  function CreateQuickPickItems(prefix: string, choices: seq<Choice>): (items: seq<QuickPickItem>)
    ensures |items| == |choices|
    ensures forall i :: 0 <= i < |choices| ==> items[i].labelText == prefix + choices[i].text
  {
    if choices == [] then []
    else [QuickPickItem(prefix + choices[0].text)] + CreateQuickPickItems(prefix, choices[1..])
  }

  /** The items of a concatenation are the items of each part, in order. */
  lemma CreateQuickPickItemsAppend(prefix: string, a: seq<Choice>, b: seq<Choice>)
    ensures CreateQuickPickItems(prefix, a + b) == CreateQuickPickItems(prefix, a) + CreateQuickPickItems(prefix, b)
  {
  }

  /** Two items coincide exactly when their choices do: duplicates are kept
      and no two different choices are merged. */
  lemma SameDuplicates(prefix: string, choices: seq<Choice>, i: nat, j: nat)
    requires i < |choices| && j < |choices|
    ensures var items := CreateQuickPickItems(prefix, choices);
      items[i] == items[j] <==> choices[i] == choices[j]
  {
    var items := CreateQuickPickItems(prefix, choices);
    assert items[i].labelText[|prefix|..] == choices[i].text;
    assert items[j].labelText[|prefix|..] == choices[j].text;
  }

  /** Each label starts with the prefix, and what follows is the choice's text. */
  lemma LabelsSplitIntoPrefixAndText(prefix: string, choices: seq<Choice>, i: nat)
    requires i < |choices|
    ensures var lbl := CreateQuickPickItems(prefix, choices)[i].labelText;
      && |lbl| == |prefix| + |choices[i].text|
      && lbl[..|prefix|] == prefix
      && lbl[|prefix|..] == choices[i].text
  {
  }

  // ---------------------------------------------------------------------------
  // The source-control repository

  /** The part of the repository the command touches: its commit-message
      input box. */
  class Repository {
    var inputBoxValue: string

    constructor (value: string)
      ensures inputBoxValue == value
    {
      inputBoxValue := value;
    }

    /** The `onDidAccept` handler: the label of the first selected item
        replaces the input box text. With nothing selected the handler fails
        before writing, and the text stays. */
    method AcceptSelection(selectedItems: seq<QuickPickItem>) returns (written: bool)
      modifies this
      ensures written == (|selectedItems| > 0)
      ensures inputBoxValue == if written then selectedItems[0].labelText else old(inputBoxValue)
    {
      if |selectedItems| == 0 {
        written := false;
      } else {
        inputBoxValue := selectedItems[0].labelText;
        written := true;
      }
    }
  }

  // ---------------------------------------------------------------------------
  // The command

  /** How one run of the command ends before the network call. */
  datatype Outcome =
    | NoApiKey
    | NothingToSuggest
    | Requested(request: CompletionRequest, prefix: string)
  {
    /** The information message shown when there is nothing to send; the key
        errors are shown by the key flow itself. */
    function Message(): Option<string> {
      if NothingToSuggest? then Some(NothingToSuggestMessage) else None
    }
  }

  /** The key the command works with, given the stored value and the answer
      the user would type if asked. */
  function KeyFor(stored: Option<string>, input: Option<string>): (key: Option<string>)
    ensures stored.Some? && stored.value != [] ==> key == stored
    ensures !(stored.Some? && stored.value != []) ==>
      (key.Some? <==> input.Some? && ValidKey(input.value)) && (key.Some? ==> key == input)
  {
    if stored.Some? && stored.value != [] then stored
    else match CheckInput(input)
      case Accepted(k) => Some(k)
      case _ => None
  }

  /** The outcome of the command as a function of its inputs. */
  function CommandOutcome(stored: Option<string>, input: Option<string>,
                          staged: string, unstaged: string, prefix: string): Outcome
  {
    match KeyFor(stored, input)
    case None => NoApiKey
    case Some(key) =>
      match SelectDiff(staged, unstaged)
      case None => NothingToSuggest
      case Some(diff) => Requested(MakeRequest(BuildPrompt(diff, prefix), key), prefix)
  }

  /** The three ways the command ends: without a key, without a non-blank
      diff, or with a request for the selected diff and the box's prefix. */
  lemma CommandOutcomeCases(stored: Option<string>, input: Option<string>,
                            staged: string, unstaged: string, prefix: string)
    ensures var o := CommandOutcome(stored, input, staged, unstaged, prefix);
      var key := KeyFor(stored, input);
      var diff := SelectDiff(staged, unstaged);
      && (o.NoApiKey? <==> key.None?)
      && (o.NothingToSuggest? <==> key.Some? && IsBlank(staged) && IsBlank(unstaged))
      && (o.Message().Some? <==> o.NothingToSuggest?)
      && (o.Message().Some? ==> o.Message().value == NothingToSuggestMessage)
      && (o.Requested? ==>
            && key.Some? && diff.Some? && !IsBlank(diff.value) && o.prefix == prefix
            && o.request == MakeRequest(BuildPrompt(diff.value, prefix), key.value))
  {
  }

  /** A request opens its prompt with the whole diff, ends it with the open
      commit command and the prefix, and is authorised with the key. */
  lemma RequestCarriesDiffAndKey(diff: string, prefix: string, key: string)
    ensures var req := MakeRequest(BuildPrompt(diff, prefix), key);
      && req.authorization == "Bearer " + key
      && StartsWith(req.prompt, Header + diff + "\n")
      && EndsWith(req.prompt, CommitCommand + prefix)
  {
    PromptBeginsWithDiff(diff, prefix);
    PromptEndsWithOpenCommit(diff, prefix);
  }

  /** The command handler up to the network call. `keyInput` is what the user
      types if asked for a key; `stagedDiff` and `unstagedDiff` are what the
      repository reports for the staged and the unstaged changes. */
  method SuggestCommitMessage(store: KeyStore, repo: Repository, keyInput: Option<string>,
                              stagedDiff: string, unstagedDiff: string)
    returns (outcome: Outcome)
    modifies store
    ensures outcome == CommandOutcome(old(store.apiKey), keyInput, stagedDiff, unstagedDiff, repo.inputBoxValue)
    ensures store.apiKey == match KeyFor(old(store.apiKey), keyInput)
                            case Some(k) => Some(k)
                            case None => old(store.apiKey)
  {
    var apiKey, _ := store.GetApiKey(keyInput);
    if apiKey == None || apiKey.value == [] {
      return NoApiKey;
    }
    var diff := stagedDiff;
    if Trim(diff) == [] {
      diff := unstagedDiff;
    }
    if Trim(diff) == [] {
      return NothingToSuggest;
    }
    var prefix := repo.inputBoxValue;
    var prompt := BuildPrompt(diff, prefix);
    outcome := Requested(MakeRequest(prompt, apiKey.value), prefix);
  }
}
