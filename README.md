# Suggest commit message — a Dafny model

This project models the logic inside the VS Code extension that suggests a
commit message with the OpenAI completion API (`src/extension.ts`). The
command does five things, and the model keeps each one:

- It gets the API key. A non-empty stored key is used as it is. Otherwise the
  user is asked, and the answer is kept only if it is non-empty and matches
  `/^sk-\S+$/` (`ApiKey`).
- It picks the diff. The staged diff is used when it is not blank after
  `trim()`, otherwise the unstaged diff. When both are blank nothing is sent
  (`Extension.SelectDiff`).
- It builds the prompt. The prompt is a fake shell session:
  `$ git add --all`, then `$ git diff --cached` with the diff, then the
  `grep '^[+-]'` command with only the lines that start with `+` or `-` (the
  added and removed lines, and the `---`/`+++` file headers), then an open
  `$ git commit -m "` followed by the current text of the commit box
  (`Prompt`).
- It describes the completion request: endpoint, prompt, 32 tokens, 10
  choices, stop at a newline, temperature 0.5, and a bearer token
  (`Extension.MakeRequest`).
- It turns the returned choices into quick-pick items labelled
  `prefix + text`. The label of an accepted item is written into the commit
  box (`Extension.CreateQuickPickItems`, `Extension.Repository.AcceptSelection`).

JavaScript's string primitives are written out on `seq<char>` in `Text`:
`trim()`, `split('\n')`, `join('\n')`, and the whitespace class that `\s` and
`trim()` share. `Wrappers` gives `Option`, which stands for `T | undefined`.

Three behaviours follow directly from the code:

- The prompt embeds the whole diff; nothing is cut (`Prompt.PromptBeginsWithDiff`).
- `createQuickPickItems` is a plain map: same length, same order, duplicates
  kept, no quote stripping or ranking (`Extension.SameDuplicates`).
- The key store is the editor's global state (`ApiKey.KeyStore`).

## Model

| member | source | states |
|---|---|---|
| `Text.Trim` | src/extension.ts:49-52 | `trim()` returns a slice of the input with only whitespace before and after it, and no whitespace at either of its own ends; the result is empty exactly when every character of the input is whitespace |
| `Text.Split` | src/extension.ts:67-68 | `split(sep)` always yields at least one piece, and no piece contains the separator |
| `Text.Join` | src/extension.ts:70 | `join(sep)` has no contract of its own; `Text.JoinSplit` and `Text.SplitJoin` prove it is the inverse of `Split` |
| `Text.JoinSplit` | src/extension.ts:67-70 | joining the pieces of a split with the same separator gives back the original text |
| `Text.SplitJoin` | src/extension.ts:67-70 | splitting a join of one or more separator-free pieces gives back exactly those pieces |
| `Prompt.FilterChangedLines` | src/extension.ts:67-70 | the filtered view of the diff, with no contract of its own; `Prompt.FilteredSectionLines`, `Prompt.FilterIdempotent` and `Prompt.FilterExample` state what it yields |
| `Prompt.ChangedLines` | src/extension.ts:69 | the filter never lengthens the list, and every line it keeps starts with `+` or `-` |
| `Prompt.ChangedLinesMembers` | src/extension.ts:69 | a line survives the filter if and only if it occurs in the input and starts with `+` or `-` |
| `Prompt.ChangedLinesCount` | src/extension.ts:69 | each changed line keeps its number of occurrences; every other line (context or empty) occurs zero times |
| `Prompt.ChangedLinesAppend` | src/extension.ts:69 | filtering a concatenation is the concatenation of the filtered parts, so the original relative order is kept |
| `Prompt.ChangedLinesKeepsAll` | src/extension.ts:69 | a list made only of changed lines passes through the filter unchanged |
| `Prompt.FilteredSectionLines` | src/extension.ts:67-70 | the filtered section is "" exactly when no line of the diff starts with `+` or `-`; otherwise its newline-separated lines are exactly the diff's changed lines, in order |
| `Prompt.FilterIdempotent` | src/extension.ts:67-70 | filtering the filtered text gives the same text |
| `Prompt.FilterKeepsFileHeaders` | src/extension.ts:69 | the `---` and `+++` file header lines pass the filter with the changed lines, and the `@@` hunk header is dropped |
| `Prompt.FilterExample` | src/extension.ts:67-70 | the diff `+foo\n-bar\n context` filters to `+foo\n-bar` |
| `Prompt.PromptLines` | src/extension.ts:60-72 | the nine template lines, with no contract of its own; `Prompt.Layout` states how they join |
| `Prompt.BuildPrompt` | src/extension.ts:60-73 | the prompt, with no contract of its own; `Prompt.Layout`, `Prompt.PromptBeginsWithDiff`, `Prompt.PromptEndsWithOpenCommit` and `Prompt.PromptHoldsFilteredSection` state its shape |
| `Prompt.Layout` | src/extension.ts:60-73 | the joined nine-line template is the header, the diff, the filter command, the filtered view, a blank line and the open commit command with the prefix, in that order |
| `Prompt.PromptBeginsWithDiff` | src/extension.ts:60-64 | the prompt starts with `$ git add --all\n\n$ git diff --cached\n`, then the whole diff unaltered, then a newline |
| `Prompt.PromptEndsWithOpenCommit` | src/extension.ts:72-73 | the prompt ends with `$ git commit -m "` and the prefix; nothing follows, so there is no closing quote and no trailing newline |
| `Prompt.PromptHoldsFilteredSection` | src/extension.ts:66-71 | between the filter command line and the final blank line the prompt holds exactly the filtered view |
| `ApiKey.ValidKey` | src/extension.ts:26-27 | the declarative reading of `/^sk-\S+$/`, with no contract of its own; `ApiKey.MatchesKeyRegExp` and `ApiKey.CheckInput` are stated in its terms |
| `ApiKey.MatchesKeyRegExp` | src/extension.ts:26-27 | `apiKeyRegExp.test` holds if and only if the text is a valid key |
| `ApiKey.KeyRegExpIsValidKey` | src/extension.ts:26-27 | the left-to-right matcher for `/^sk-\S+$/` accepts a text if and only if it starts with `sk-`, has at least one more character, and has no whitespace after the prefix |
| `ApiKey.CheckInput` | src/extension.ts:22-30 | a dismissed box or an empty answer is "required"; an answer is accepted, as typed, if and only if it is a valid key; anything else is "invalid"; the error shown is "OpenAI API key is required" or "Invalid OpenAI API key" exactly in those two cases, and none on acceptance |
| `ApiKey.RejectsMissingInput` | src/extension.ts:22-25 | no answer and the empty answer are both rejected as "required" |
| `ApiKey.RejectsBarePrefix` | src/extension.ts:26-30 | `sk-`, `sk- x` and `sk- ` are rejected as invalid |
| `ApiKey.RejectsForeignPrefix` | src/extension.ts:26-30 | `abc` and `abc-123` are rejected as invalid |
| `ApiKey.AcceptsWellFormedKey` | src/extension.ts:26-32 | `sk-abc123` is accepted unchanged |
| `ApiKey.KeyStore.SetApiKey` | src/extension.ts:18-33 | the verdict is the check of the answer; the store is written only on acceptance, and then it holds exactly the typed key; a rejected answer leaves the store as it was |
| `ApiKey.KeyStore.GetApiKey` | src/extension.ts:10-16 | a stored non-empty key is returned unchanged, with no prompt and no check; otherwise the prompt's verdict decides, and a returned key is non-empty and is what the store now holds |
| `Extension.SelectDiff` | src/extension.ts:48-57 | the staged diff when it is not blank, else the unstaged diff when that is not blank, else nothing; nothing exactly when both are blank, and a selected diff is never blank |
| `Extension.MakeRequest` | src/extension.ts:84-101 | the request goes to the completions endpoint and carries the prompt unchanged, the authorization `Bearer ` followed by the key, `max_tokens` 32, `n` 10, stop at a newline, temperature 0.5 |
| `Extension.CreateQuickPickItems` | src/extension.ts:115-122 | one item per choice, same length, and item `i` is labelled with the prefix followed by the text of choice `i` |
| `Extension.CreateQuickPickItemsAppend` | src/extension.ts:119-121 | the items for a concatenation of choices are the items of each part, in order |
| `Extension.SameDuplicates` | src/extension.ts:119-121 | two items are equal if and only if their choices are equal: duplicates are kept and distinct choices stay distinct |
| `Extension.LabelsSplitIntoPrefixAndText` | src/extension.ts:119-121 | each label is the prefix followed by the choice's text, so stripping the prefix gives the text back |
| `Extension.Repository.AcceptSelection` | src/extension.ts:78-81 | when an item is selected, the commit box now holds the label of the first selected item; with no selection the box is unchanged |
| `Extension.KeyFor` | src/extension.ts:10-42 | the key the command works with: the stored non-empty key, else the typed answer if and only if it is a valid key |
| `Extension.CommandOutcome` | src/extension.ts:39-101 | how the command ends, with no contract of its own; `Extension.CommandOutcomeCases` states its cases and `Extension.SuggestCommitMessage` is proved to end as it says |
| `Extension.CommandOutcomeCases` | src/extension.ts:39-57 | the command stops without a key if and only if none is obtained; it stops with nothing to suggest if and only if there is a key and both diffs are blank, and only then shows "No changes to commit. Nothing to suggest"; otherwise it sends the request built from the selected diff and the box's prefix |
| `Extension.RequestCarriesDiffAndKey` | src/extension.ts:60-98 | a sent request's prompt starts with the header and the whole diff, ends with the open commit command and the prefix, and is authorised with the key |
| `Extension.SuggestCommitMessage` | src/extension.ts:37-101 | the handler up to the request, with its `let diff` fallback, ends exactly as `CommandOutcome` says, and the store afterwards holds the key that was used, or its old value if no key was obtained |

## Left out

- The VS Code host: `activate`, command registration, `context.subscriptions`, the output channel, `showInputBox`, `showErrorMessage` and `showInformationMessage`. The user's answer to the input box becomes the parameter `input`. The messages are kept as constants (`KeyVerdict.Message`, `Outcome.Message`).
- The POST to the completions endpoint is a network call. Only the request it sends is modelled (`MakeRequest`). The response's `choices` become the parameter of `CreateQuickPickItems`. A response without a `choices` array makes the source throw. A choice without a string `text` gets a label built from JavaScript's string conversion of that value. Neither path is modelled.
- The git extension lookup and the two `repository.diff` calls are foreign calls. Their results are the string parameters `stagedDiff` and `unstagedDiff`. The model does not capture that the unstaged diff is only fetched when the staged one is blank.
- The quick-pick lifecycle (`createQuickPick`, `show`, `items`) and the race between `onDidAccept` and the response in flight are asynchronous UI coordination. Only the accept handler's effect on the commit box is modelled.
- The `try`/`catch` around the command only reports errors. It is not modelled.
- `deactivate` is empty.
- Strings are sequences of Unicode scalar values, whereas JavaScript strings are UTF-16 code units. Every character the logic looks at (newline, `+`, `-`, `s`, `k`, `-`, the whitespace set) is in the basic plane, so the two readings agree on what is kept, split, trimmed and accepted. `temperature` is the exact real 0.5.
- Whitespace is the ECMAScript WhiteSpace and LineTerminator set that `\s` and `trim()` share (`Text.IsWhitespace`).
- `ApiKey.KeyStore` models the global state only through its `apiKey` entry. The store's persistence across sessions is outside the model.
