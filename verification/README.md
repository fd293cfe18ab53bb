# chat_ui prompt templates and chat flow, modelled in Dafny

This project models the core of the chat_ui web application. The centre of
it is the prompt-template placeholder engine:

- `parsePlaceholders` scans a template for markers `{{key}}` and `{{key:type}}`;
- `fillTemplate` substitutes a value for every marker of a key;
- the built-in template table `defaultTemplates`;
- the placeholder dialog collects, validates and substitutes the values;
- the template store holds the built-ins and the stored templates;
- the template dialog selects, applies, saves and deletes templates.

Around it sit the parts of the chat flow that decide something:

- the grouping of the message list into runs of one sender;
- the send handler of the chat page, which chooses the backend, builds the
  turns and checks the answer;
- the model clients' role normalisation and error message;
- the sidebar's guards for creating a chat and its rule for deleting one;
- the route guard of the middleware.

Every reply of the database, the session lookup, the model backends and the
file reader is a parameter of the operation that awaits it.

The modules follow the source files. `Wrappers` and `Text` are shared
helpers, `TemplateLaws` holds the proofs about parsing and filling, and
src/utils/promptTemplates.js is split into two modules, the engine and the
built-in table:

- `Wrappers`: `Option`, `Reply` (the data of a reply, or its error message)
  and `Outcome` (a reply, or a throw).
- `Text`: the `\w` class, the white space `String.prototype.trim` strips,
  `Trim` and `StartsWith`.
- `PromptTemplates` and `BuiltInTemplates` (src/utils/promptTemplates.js):
  - the templates, the marker scanner and `Parse`, and the method `ParsePlaceholders` with its `exec` loop;
  - the per-key global replacement `FillKey`, including the `$` patterns of
    `String.prototype.replace`, and the method `FillTemplate`.
- `TemplateLaws`: templates described as lists of literal text and markers
  (`Render`), and the round trips of parsing and filling.
- `PlaceholderFill` (PlaceholderFillModal.jsx): the class `FillDialog` over
  the field map, the error map and the validity flag.
- `PromptTemplateStore` (promptTemplateStore.js): the class `Store`.
- `PromptTemplateModal` (PromptTemplateModal.jsx): the class `TemplateModal`.
- `ChatMessages` (ChatMessages.jsx): the grouping loop and the bubble text.
- `ModelClients` (modelClients.jsx) and `ChatPage` (chat/page.jsx, the class `Page`).
- `SidebarHandlers` (sidebarHandlers.jsx, the class `Sidebar`) and `AuthMiddleware` (middleware/auth.jsx).

How the code treats repeats and types, and where the model assumes:

- The parser pushes one entry per marker occurrence, repeats included, and
  an undeclared type is `text` whatever the key, `file_reference` included.
  `RepeatedKeyRepeated` and `FileReferenceIsText` state both.
- The field map of the placeholder dialog is keyed by placeholder key. The
  dialog imports `parsePlaceholders` from a module that does not export it,
  and the parser returns a list, not a map. The model therefore opens the
  dialog with one empty field per key, typed by the key's first marker, in
  order of first appearance. This is an assumption, not code.

Two facts that follow from the code are worth knowing:

- Removing a template by id also drops a built-in with that id (`RemoveReachesBuiltIns`).
- The chat page sends the typed text to the model twice, as the last two
  turns (`TextSentTwice`).

## Model

| member | source | states |
|---|---|---|
| Text.Trim | src/components/sidebar/promptTemplates/PlaceholderFillModal.jsx:23 | `trim()` is empty exactly for all-white-space text, and otherwise starts and ends with a non-space character that is the middle slice of the input |
| Text.TrimIdempotent | src/utils/sidebarHandlers.jsx:19 | trimming twice is trimming once |
| PromptTemplates.WordPrefix | src/utils/promptTemplates.js:131 | the greedy `\w+` consumes word characters and stops at the first non-word character |
| PromptTemplates.MarkerTail | src/utils/promptTemplates.js:131 | the optional `:type` and the closing braces are matched exactly as written, and the type is a `\w+` word |
| PromptTemplates.MarkerPrefix | src/utils/promptTemplates.js:131 | a match at a position is a well-formed marker whose text is exactly the matched prefix |
| PromptTemplates.Parse | src/utils/promptTemplates.js:130-141 | every entry has a `\w+` key and a `\w+` type, and each entry takes at least five characters of the text |
| PromptTemplates.ParsePlaceholders | src/utils/promptTemplates.js:130-141 | the `exec` loop returns exactly the left-to-right scan `Parse` |
| PromptTemplates.KeyMarkerPrefix | src/utils/promptTemplates.js:146 | the filler's pattern for a key matches only text that starts with `{{key` and runs at least to the closing braces |
| PromptTemplates.FillTemplate | src/utils/promptTemplates.js:143-150 | the entries loop equals replacing the keys one after the other in entry order; with no values the text is unchanged |
| BuiltInTemplates.DefaultTemplateIds | src/utils/promptTemplates.js:1-127 | eight built-ins with ids 1 to 8 in order and pairwise distinct; templates 4 and 5 share a name; only template 4 has a category |
| TemplateLaws.SubstKey | src/utils/promptTemplates.js:146-147 | substitution works segment by segment and keeps the number of segments |
| TemplateLaws.Without | src/utils/promptTemplates.js:132-140 | an entry remains exactly when its key is not the removed key |
| TemplateLaws.WordPrefixOfWord | src/utils/promptTemplates.js:131 | `\w+` run over a word followed by a non-word character takes exactly the word |
| TemplateLaws.MarkerTailOfTail | src/utils/promptTemplates.js:131 | a well-formed marker ending is matched in full |
| TemplateLaws.MarkerPrefixOfMarker | src/utils/promptTemplates.js:131-138 | a well-formed marker at a position is found with its own key, type and length |
| TemplateLaws.KeyMatchesMarker | src/utils/promptTemplates.js:131-146 | the filler's pattern for a `\w+` key matches at a position exactly when the parser finds a marker of that key there, with the same length |
| TemplateLaws.KeyMatchImpliesMarker | src/utils/promptTemplates.js:131-146 | a match of the filler's pattern is a marker the parser finds, of the same key and length |
| TemplateLaws.MarkerImpliesKeyMatch | src/utils/promptTemplates.js:131-146 | a marker the parser finds is matched by the filler's pattern for its key |
| TemplateLaws.ParseNoBrace | src/utils/promptTemplates.js:134 | text without `{` contributes no entry |
| TemplateLaws.ParseRendered | src/utils/promptTemplates.js:130-141 | parsing a well-formed template gives one entry per marker occurrence, in order, repeats included, type `text` when undeclared |
| TemplateLaws.ParseEmptyIff | src/utils/promptTemplates.js:134-140 | the parse is empty exactly when no position of the text starts a marker |
| TemplateLaws.ExpandPlain | src/utils/promptTemplates.js:147 | a replacement without `$` is inserted verbatim |
| TemplateLaws.ReplaceNoBrace | src/utils/promptTemplates.js:147 | text without `{` is copied unchanged by the replacement |
| TemplateLaws.ReplaceOwnMarker | src/utils/promptTemplates.js:146-147 | a marker of the key, typed or not, is replaced by the value |
| TemplateLaws.ReplaceOtherMarker | src/utils/promptTemplates.js:146-147 | a marker of another key is copied unchanged |
| TemplateLaws.FillKeyRendered | src/utils/promptTemplates.js:146-147 | replacing a key in a well-formed template replaces exactly the markers of that key by the value and copies everything else |
| TemplateLaws.EntriesSubstKey | src/utils/promptTemplates.js:146-147 | after substituting a key, the remaining markers are the old ones without that key |
| TemplateLaws.FillRemovesExactlyKey | src/utils/promptTemplates.js:130-150 | round trip: parsing a template after filling one key gives the old entries minus exactly that key's |
| TemplateLaws.FillOrderIrrelevant | src/utils/promptTemplates.js:145-148 | in a well-formed template, with values free of `{` and `$`, filling two different keys gives the same text in either order |
| TemplateLaws.FillAllRendered | src/utils/promptTemplates.js:143-150 | filling a well-formed template substitutes every listed key's markers, and parsing the result finds exactly the unlisted keys' entries |
| TemplateLaws.WithoutAllMembers | src/utils/promptTemplates.js:145 | an entry survives filling exactly when no listed key is its key |
| TemplateLaws.FillEveryKeyLeavesNone | src/utils/promptTemplates.js:143-150 | filling every key the template uses leaves no marker |
| TemplateLaws.EmptyTypeIgnored | src/utils/promptTemplates.js:131 | `{{a:}}` is not a marker |
| TemplateLaws.UnclosedIgnored | src/utils/promptTemplates.js:131 | `{{a` is not a marker |
| TemplateLaws.SpacedIgnored | src/utils/promptTemplates.js:131 | `{{ a }}` is not a marker |
| TemplateLaws.RepeatedKeyRepeated | src/utils/promptTemplates.js:134-138 | a repeated key gives one entry per occurrence, each with its own type |
| TemplateLaws.FileReferenceIsText | src/utils/promptTemplates.js:137 | `file_reference` without a declared type has type `text` |
| TemplateLaws.PrefixKeyUntouched | src/utils/promptTemplates.js:146 | filling `approach_1` leaves `{{approach_10}}` alone |
| TemplateLaws.StrayBraceCopied | src/utils/promptTemplates.js:147 | a lone `{` followed by brace-free text is copied |
| TemplateLaws.OffByOneBrace | src/utils/promptTemplates.js:146 | the pattern for a `\w+` key does not match where a third `{` follows the opening two |
| TemplateLaws.StrayBracesFill | src/utils/promptTemplates.js:146-147 | for all `\w+` keys, filling `key` with the empty value in `{{{key}}{other}}` gives `{{other}}` |
| TemplateLaws.StrayBracesUntouched | src/utils/promptTemplates.js:146-147 | filling `other` in `{{{key}}{other}}`, for a different key, changes nothing |
| TemplateLaws.StrayBracesReformMarker | src/utils/promptTemplates.js:130-150 | outside well-formed templates a fill can create a marker: the result of that fill parses to the one entry `(key, 'text')` |
| TemplateLaws.FillOrderMatters | src/utils/promptTemplates.js:145-148 | outside well-formed templates the fill order matters: in `{{{a}}{b}}`, filling `a` with the empty value and then `b` with a value `v` without `$` gives `v`, and the other order gives `{{b}}` |
| TemplateLaws.BraceValueReformsMarker | src/utils/promptTemplates.js:146-147 | filling `key` with a value `v` without `$` in `{{key}}{{key}}key}}` gives `v` twice followed by `key}}`, so the value `{` leaves the marker `{{key}}` |
| PlaceholderFill.RequiredErrors | src/components/sidebar/promptTemplates/PlaceholderFillModal.jsx:65-77 | the errors hold the fixed message for exactly the blank fields |
| PlaceholderFill.FirstOccurrences | src/components/sidebar/promptTemplates/PlaceholderFillModal.jsx:16-19 | one entry per key, keys distinct, taken from the parse, covering every key |
| PlaceholderFill.FirstAt | src/components/sidebar/promptTemplates/PlaceholderFillModal.jsx:16-19 | the position of a key's first entry, or the length when the key is absent |
| PlaceholderFill.FirstAtBefore | src/components/sidebar/promptTemplates/PlaceholderFillModal.jsx:16-19 | no entry before that position has the key |
| PlaceholderFill.FirstOccurrencesFirst | src/components/sidebar/promptTemplates/PlaceholderFillModal.jsx:16-19 | every kept entry is its key's first entry in the parse, and the kept entries are in the order of the parse |
| PlaceholderFill.Initial | src/components/sidebar/promptTemplates/PlaceholderFillModal.jsx:16-19 | a field for exactly the parsed keys, each with an empty value and no file text, typed by the key's last entry in the list it is given |
| PlaceholderFill.FieldTypesFromFirstEntry | src/components/sidebar/promptTemplates/PlaceholderFillModal.jsx:16-19 | opening the dialog on a parse gives each field the type of its key's first marker |
| PlaceholderFill.RepeatedKeyTypedByFirst | src/components/sidebar/promptTemplates/PlaceholderFillModal.jsx:16-19 | in `{{x:file}} {{x}}` the field `x` has type `file` |
| PlaceholderFill.ApplyPairs | src/components/sidebar/promptTemplates/PlaceholderFillModal.jsx:86-92 | each field in order is paired with its apply text: file text if non-empty, else `[File: name]`, else the value untrimmed |
| PlaceholderFill.PreviewPairs | src/components/sidebar/promptTemplates/PlaceholderFillModal.jsx:102-108 | each field in order is paired with its preview text: `[File: name]` for files, else the value or `[key]` when empty |
| PlaceholderFill.InitialFields | src/components/sidebar/promptTemplates/PlaceholderFillModal.jsx:16-19 | the loop builds the first-occurrence keys and the initial fields |
| PlaceholderFill.FillDialog.CheckInputs | src/components/sidebar/promptTemplates/PlaceholderFillModal.jsx:65-73 | the loop over the fields yields exactly the blank fields' errors, and success exactly when every field is filled |
| PlaceholderFill.FillDialog.constructor | src/components/sidebar/promptTemplates/PlaceholderFillModal.jsx:16-19 | a fresh dialog has one empty field per parsed key in order of first appearance, every field flagged as required, and is valid only when there is no placeholder |
| PlaceholderFill.FillDialog.ValidateInputs | src/components/sidebar/promptTemplates/PlaceholderFillModal.jsx:65-81 | the errors are recomputed exactly and the validity flag is "every field filled"; fields untouched |
| PlaceholderFill.FillDialog.HandleInputChange | src/components/sidebar/promptTemplates/PlaceholderFillModal.jsx:21-32 | only the key's value changes, its type and file text are kept, and only the key's error is set or cleared, by whether the trimmed value is empty |
| PlaceholderFill.FillDialog.HandleFileUpload | src/components/sidebar/promptTemplates/PlaceholderFillModal.jsx:34-63 | no file or a type outside the seven allowed changes nothing; an accepted file sets the value to the file name and the file text to what was read |
| PlaceholderFill.FillDialog.FilledText | src/components/sidebar/promptTemplates/PlaceholderFillModal.jsx:85-93 | the substitution loop equals filling the template with the apply pairs |
| PlaceholderFill.FillDialog.HandleApply | src/components/sidebar/promptTemplates/PlaceholderFillModal.jsx:83-98 | text is produced exactly when every field is filled, and it is the template filled with the apply pairs; the errors are recomputed |
| PlaceholderFill.FillDialog.GetPreview | src/components/sidebar/promptTemplates/PlaceholderFillModal.jsx:100-111 | the preview is always produced and equals the template filled with the preview pairs |
| PlaceholderFill.EditKeepsErrorsExact | src/components/sidebar/promptTemplates/PlaceholderFillModal.jsx:21-77 | the error update of an edit agrees with a full validation |
| PlaceholderFill.PreviewMatchesApplyWhenFilled | src/components/sidebar/promptTemplates/PlaceholderFillModal.jsx:86-108 | with every field filled and no file field, preview and apply substitute the same texts |
| PlaceholderFill.PreviewAgainstApply | src/components/sidebar/promptTemplates/PlaceholderFillModal.jsx:86-108 | field by field, preview and apply pair the same key; the preview text is never empty, showing `[key]` where apply inserts an empty text, and a read file is only named by the preview while apply inserts its text |
| PlaceholderFill.ApplyLeavesNoPlaceholder | src/components/sidebar/promptTemplates/PlaceholderFillModal.jsx:83-94 | applying a dialog whose fields cover the template's keys leaves no marker |
| PlaceholderFill.InitialFieldsCoverMarkers | src/components/sidebar/promptTemplates/PlaceholderFillModal.jsx:16-19 | a fresh dialog has a field for exactly the keys the template's markers use |
| PromptTemplateStore.Merge | src/store/promptTemplateStore.js:68 | the reply's fields (id, name, content, category) override the template's, and absent fields keep the template's own |
| PromptTemplateStore.WithoutId | src/store/promptTemplateStore.js:51 | a template remains exactly when its id differs |
| PromptTemplateStore.UpdateById | src/store/promptTemplateStore.js:67-69 | same length; a template with that id is merged with the reply and the others are unchanged |
| PromptTemplateStore.Store.constructor | src/store/promptTemplateStore.js:6-8 | the store starts with the built-ins, not loading, with no error |
| PromptTemplateStore.Store.BeginFetch | src/store/promptTemplateStore.js:11 | only the loading flag is raised |
| PromptTemplateStore.Store.FinishFetch | src/store/promptTemplateStore.js:13-25 | success gives the built-ins followed by the rows; failure keeps the list and records the message; loading ends |
| PromptTemplateStore.Store.FetchTemplates | src/store/promptTemplateStore.js:10-26 | the whole fetch: the same outcome as FinishFetch, with loading ended |
| PromptTemplateStore.Store.AddTemplate | src/store/promptTemplateStore.js:28-39 | success prepends the returned row; failure keeps the list and records the message |
| PromptTemplateStore.Store.RemoveTemplate | src/store/promptTemplateStore.js:41-54 | success drops every template with that id; failure keeps the list and records the message |
| PromptTemplateStore.Store.UpdateTemplate | src/store/promptTemplateStore.js:56-72 | success merges the reply into the templates with that id; failure keeps the list and records the message |
| PromptTemplateStore.WithoutIdAppend | src/store/promptTemplateStore.js:21-51 | removal distributes over the built-ins and the fetched rows |
| PromptTemplateStore.WithoutIdIdempotent | src/store/promptTemplateStore.js:51 | removing an id twice is removing it once |
| PromptTemplateStore.WithoutAbsentId | src/store/promptTemplateStore.js:51 | removing an id nobody has changes nothing |
| PromptTemplateStore.UpdateByIdStable | src/store/promptTemplateStore.js:67-69 | a reply without an id keeps every id, and applying it twice is applying it once |
| PromptTemplateStore.RemoveReachesBuiltIns | src/store/promptTemplateStore.js:21-51 | removing id 3 after a fetch drops the built-in "Generate Code" and keeps the others |
| PromptTemplateModal.DecideSave | src/components/sidebar/promptTemplates/PromptTemplateModal.jsx:40-51 | a blank trimmed name or content is refused; otherwise a truthy id means update that id, and no id means add |
| PromptTemplateModal.SelectionAfterDelete | src/components/sidebar/promptTemplates/PromptTemplateModal.jsx:67-69 | the selection is cleared exactly when it is the deleted template |
| PromptTemplateModal.VisibleTemplates | src/components/sidebar/promptTemplates/PromptTemplateModal.jsx:81-83 | the list shows exactly the templates with a truthy id |
| PromptTemplateModal.TemplateModal.constructor | src/components/sidebar/promptTemplates/PromptTemplateModal.jsx:17-20 | nothing selected, not editing, an empty edited template, no placeholder dialog |
| PromptTemplateModal.TemplateModal.Select | src/components/sidebar/promptTemplates/PromptTemplateModal.jsx:149 | picking a template selects it and changes nothing else |
| PromptTemplateModal.TemplateModal.HandleApplyTemplate | src/components/sidebar/promptTemplates/PromptTemplateModal.jsx:22-26 | the placeholder dialog opens only when a template is selected |
| PromptTemplateModal.TemplateModal.HandlePlaceholdersFilled | src/components/sidebar/promptTemplates/PromptTemplateModal.jsx:28-32 | the filled text goes out with the selected template's name, and both dialogs close |
| PromptTemplateModal.TemplateModal.HandleEditTemplate | src/components/sidebar/promptTemplates/PromptTemplateModal.jsx:34-37 | the template is copied into the editor and edit mode starts |
| PromptTemplateModal.TemplateModal.HandleSaveTemplate | src/components/sidebar/promptTemplates/PromptTemplateModal.jsx:39-61 | a refused save or a thrown store call changes nothing, the store's list, error and loading flag included; a completed one leaves edit mode, empties the editor, clears the selection and refetches: a successful refetch gives the built-ins and the rows and leaves the error the save left (a success never clears it), a failed refetch keeps the list the save left and records its message; loading ends |
| PromptTemplateModal.TemplateModal.HandleDeleteTemplate | src/components/sidebar/promptTemplates/PromptTemplateModal.jsx:63-76 | unconfirmed or thrown does nothing; confirmed clears the selection exactly when it is the deleted template; the store's error is kept on success and is the message on failure; the loading flag is untouched |
| PromptTemplateModal.VisibleAppend | src/components/sidebar/promptTemplates/PromptTemplateModal.jsx:81-83 | the list's filter distributes over built-ins and fetched rows |
| PromptTemplateModal.BuiltInsAllVisible | src/components/sidebar/promptTemplates/PromptTemplateModal.jsx:83 | every built-in template is listed |
| PromptTemplateModal.VisibleAll | src/components/sidebar/promptTemplates/PromptTemplateModal.jsx:83 | a list whose ids are all truthy is shown in full |
| PromptTemplateModal.NoIdMeansAdd | src/components/sidebar/promptTemplates/PromptTemplateModal.jsx:46-51 | a template without an id, or with id 0, is added, never updated |
| ChatMessages.GroupMessages | src/components/ChatMessages.jsx:13-30 | the groups concatenate to the messages, none is empty, each has one sender, neighbours differ, and there is one group more than sender changes |
| ChatMessages.RunGroupingUnique | src/components/ChatMessages.jsx:13-30 | there is only one grouping into runs, so the loop's result is determined |
| ChatMessages.ProcessedContentShape | src/components/ChatMessages.jsx:95-100 | the bubble text ends with the message text; with a file it starts `File: <name>`, without one it is the message text |
| ModelClients.FormatMessages | src/utils/modelClients.jsx:4-10 | same length and order, contents kept, role `user` exactly for input role `user`, every role `user` or `assistant` |
| ModelClients.FormatNormalised | src/utils/modelClients.jsx:4-10 | turns already using `user` and `assistant` are left unchanged |
| ModelClients.FormatIdempotent | src/utils/modelClients.jsx:7 | formatting twice is formatting once |
| ModelClients.FormatAppend | src/utils/modelClients.jsx:6 | formatting distributes over concatenation |
| ModelClients.RequestFor | src/utils/modelClients.jsx:16-54 | the request goes to the backend's own route with normalised turns of the same number and the given model |
| ModelClients.ErrorMessage | src/utils/modelClients.jsx:28-61 | the server's message when it is a non-empty string, the backend's default otherwise; never empty |
| ModelClients.Generate | src/utils/modelClients.jsx:28-65 | an ok reply returns its content whatever its type; any other fails with the chosen message |
| ModelClients.BackendsAgree | src/utils/modelClients.jsx:28-65 | the two clients give the same result exactly unless the reply fails without a message of its own |
| ChatPage.SelectBackend | src/app/chat/page.jsx:79-83 | OpenAI exactly when the model id starts with `gpt`, Mistral otherwise |
| ChatPage.TurnsOf | src/app/chat/page.jsx:88-91 | one turn per message, in order, mapped by sender |
| ChatPage.TurnsForShape | src/app/chat/page.jsx:88-97 | the turns are the earlier messages in order with contents kept and role `user` exactly for user messages, then two user turns carrying the typed text; the client's formatting leaves them unchanged |
| ChatPage.Answer | src/app/chat/page.jsx:99-116 | only a string content is accepted; a non-string is refused as an invalid format, and a failure keeps the client's message |
| ChatPage.Page.constructor | src/app/chat/page.jsx:19-24 | the page starts with the store's chat, model and messages, nothing sent, no flag raised |
| ChatPage.Page.HandleSendMessage | src/app/chat/page.jsx:61-121 | without a chat nothing happens; otherwise the user's message is sent, the request goes to the chosen backend with the built turns, a string answer is sent as the assistant's message and anything else gives a notice, and both flags end down |
| ChatPage.AssistantStoredIff | src/app/chat/page.jsx:99-112 | an assistant message is stored exactly when the reply is ok with a string content, and it carries that string |
| ChatPage.TextSentTwice | src/app/chat/page.jsx:88-97 | the last two turns of the request are both the typed text as a user turn |
| SidebarHandlers.CreateGuards | src/utils/sidebarHandlers.jsx:7-30 | the guards stop at a blank name, then at a missing session or user, then at a name in use; only then is the trimmed name inserted for the user |
| SidebarHandlers.InsertedNameFresh | src/utils/sidebarHandlers.jsx:19-30 | an inserted name is non-empty, already trimmed and not the name of an existing chat |
| SidebarHandlers.CurrentAfterDelete | src/utils/sidebarHandlers.jsx:57-60 | the current chat is cleared exactly when it is the deleted one |
| SidebarHandlers.Sidebar.constructor | src/utils/sidebarHandlers.jsx:6 | the sidebar starts with the given chats, no current chat, the dialog closed and no name |
| SidebarHandlers.Sidebar.HandleCreateChat | src/utils/sidebarHandlers.jsx:6-48 | a stopping guard changes nothing and inserts nothing; past the guards the dialog closes, and a returned row is added, becomes current and clears the name; an error or empty reply only gives a notice |
| SidebarHandlers.Sidebar.HandleDeleteChat | src/utils/sidebarHandlers.jsx:50-67 | a failed delete changes nothing; a thrown delete or refetch changes nothing and gives the generic error; a successful one takes the refetched list and clears the current chat and its messages exactly when it is the deleted one |
| SidebarHandlers.DeleteNeverKeepsDeleted | src/utils/sidebarHandlers.jsx:57-60 | after a delete the deleted chat is never current, and another current chat survives |
| SidebarHandlers.GuardsSeeTrimmedName | src/utils/sidebarHandlers.jsx:7-29 | the guards depend only on the trimmed name |
| AuthMiddleware.Route | src/middleware/auth.jsx:16-28 | no session on a `/chat` path goes to `/login`; a session on `/login` or `/signup` goes to `/chat`; everything else passes |
| AuthMiddleware.NoWrongRedirect | src/middleware/auth.jsx:16-25 | a signed-in user is never sent to `/login`, a signed-out visitor never to `/chat` |
| AuthMiddleware.RedirectSettles | src/middleware/auth.jsx:16-28 | following a redirect never redirects again |

## Left out

- Supabase queries, the auth session lookup, `fetch`, the `FileReader`, `window.confirm` and `onApplyTemplate`/`onClose` are not modelled as calls. Their replies are parameters (`Reply`, `Outcome`, `HttpReply`, `readText`, `confirmed`) or outputs (`applied`, `request`, `inserted`, `clearedMessages`).
- Toasts, console logging, rendering, animation, `created_at` timestamps and the second `.js` copies of the files are not modelled. A toast whose text the handler decides is returned as a `notice` in the chat page and the sidebar.
- JSON parsing errors of a reply body, and a thrown `fetch`, are not modelled: a non-ok reply always has an `error` field that is a string or absent.
- PromptTemplates.FillTemplate: requires every key to be free of regular-expression syntax characters, so that `new RegExp` matches the key literally. Every key the dialog passes comes from the parser and is a `\w+` word.
- TemplateLaws.FillOrderIrrelevant: holds only for well-formed templates and values without `{` and `$`. In `{{{a}}{b}}` the order matters (`FillOrderMatters`), and a value `{` turns `{{k}}{{k}}k}}` into a new marker (`BraceValueReformsMarker`).
- TemplateLaws.FillEveryKeyLeavesNone: holds only for well-formed templates and values without `{` and `$`. Stray braces can form a new marker (`StrayBracesReformMarker`), and `$` patterns insert text of the template.
- `Object.entries` lists integer-like keys (such as `1`) before the others; the dialog's field order is modelled as insertion order.
- PlaceholderFill.FillDialog.constructor: models the field map the dialog evidently expects. The import of `parsePlaceholders` at src/components/sidebar/promptTemplates/PlaceholderFillModal.jsx:5 names a module that does not export it.
- PlaceholderFill.FillDialog.HandleInputChange: keeps `isValid`; the re-validation effect that follows every change of the fields is `ValidateInputs`, run as a separate step.
- The database reply of an insert or update without `.select()` can be `null`. The model has the store receive the row (or patch) itself. A fetch with `null` data, which would throw inside the `try`, is not distinguished from an error reply.
- PromptTemplateModal.TemplateModal.HandleSaveTemplate: the patch sent to the database and the `updateTemplate` argument are not modelled, only the reply the store merges.
- The chat store (src/store/chatStore.jsx) is not part of this model. `sendMessage` is recorded as the list `sent` of messages handed to it, unawaited. The store's own wrapping of that argument is not followed.
- SidebarHandlers.Sidebar.HandleCreateChat: `addChat` is modelled as appending the new row to the chat list. The chat store shown defines no `addChat`, and a call to it would throw and end in the generic error toast. Exceptions thrown by the session lookup or the insert are not modelled.
- `handleLogout` in src/utils/sidebarHandlers.jsx:69-82 is a sign-out call followed by a page redirect. It is not part of this model.
- The middleware's `matcher` configuration only restricts which paths reach it; `Route` is stated for every path.
