# Survey website core, modelled in Dafny

A model of the data handling underneath the survey website's React screens,
with proofs of what each piece promises:

- **The answer store.** A respondent's answers map each question id to a
  string, a list of strings or a list of string lists. The model covers the
  edits the question widgets make: setting a scalar, toggling a checkbox,
  the province/district/ward cascade, and adding, deleting and editing the
  instances of a repeating group. Group edits go through lodash `_.set` on
  the paths `[qid]`, `[qid, n]` and `[qid, i, j]`. Choice widgets record
  an option by its position as a decimal string. The model proves that such
  a string reads back as the option's label (`Decimal`, `SurveyTypes`,
  `ChoiceView`, `CheckBoxView`, `UnitView`, `GroupView`, `AnswerStore`).
- **The survey-taking page** (`SurveyView.SurveyViewPage`). Its answer
  map, error map and sent flag are fields that its handlers update.
- **The results page's spreadsheet export** (`SurveyResult`). The header
  loop and the row-flattening loops are methods proved against the folds
  that specify them. Lemmas cover column placement, row counts, label
  resolution and the failure on an answer without a question.
- **The response detail dialog** (`ResponseDetail`): the per-type text of
  each answer. It agrees with the export.
- **The survey editor's question list** (`SurveyEdit`).
- **The client caches** (`SurveyStore.Store`, `UserStore.Store`). Each
  action raises `handling`, awaits a remote call, and then updates the cache.
  The model splits it into `Begin` and a `...Done` method, which takes the
  remote call's result as a parameter. In the user cache a rejected remote
  call is not caught: the action stops after `Begin`, leaving `handling`
  true and the cache unchanged, and no `...Done` runs.
- **The user management page and the user editor** (`UsersPage`,
  `UserEditor`).
- **The HTTP client's problem classification** (`Api`).
- **The utilities** (`Utils`): `generateID` and `objectId2Date`.

JavaScript objects are ordered entry lists (`Objects.Obj`), because their
insertion order is observable here: in header order, in detail order and in
the user list. Assignment keeps an existing key in place and appends a new
one. `delete` removes the key. Reducing a list into `{}` is `FromPairs`.

Quirks of the program are kept as written:

- `createSurvey` caches the survey under whatever id the remote call
  returned, which is `''` when creation failed.
- `updateSurvey` caches under `data.id`, not under its `id` argument.
- `deleteSurvey` on an absent cache leaves an empty one.
- On group rows after the first, the export leaves the non-group columns
  empty.
- The detail dialog shows nothing for textarea and unit answers.
- The detail dialog fails on a group cell beyond the question's
  sub-questions.

## Model

| member | source | states |
|---|---|---|
| QuestionView.Dispatch | src/features/surveys/components/questions/view/index.tsx:19-37 | a widget is picked exactly for the seven known tags, and the widget picked is the one whose tag was given; any other tag renders nothing |
| QuestionView.DispatchInverse | src/features/surveys/components/questions/view/index.tsx:20-36 | each widget is reached from its own tag and from no other, so the switch is one-to-one |
| CheckBoxView.Toggled | src/features/surveys/components/questions/view/CheckBox.tsx:45-49 | checking appends the option's index to the old list (`[]` when absent) and shows it checked; unchecking removes every occurrence, keeps an absent list absent, and leaves every other option's checked state unchanged |
| CheckBoxView.OnCheckedChange | src/features/surveys/components/questions/view/CheckBox.tsx:46-50 | the click writes the toggled list (or `undefined`) at `[questionId]` |
| CheckBoxView.FirstCheck | src/features/surveys/components/questions/view/CheckBox.tsx:47-48 | the first check of an unanswered question records exactly that option's index |
| ChoiceView.PickOption | src/features/surveys/components/questions/view/Radio.tsx:42-49 | picking option i records i's decimal string at the question, leaves every other answer unchanged, and the stored value resolves back to option i's label |
| ChoiceView.Header | src/features/surveys/components/questions/view/Select.tsx:25-36 | the `*` marker is shown iff the question is required, and the alert is shown iff there is an error message |
| UnitView.LevelsOf | src/features/surveys/components/questions/view/Unit.tsx:27 | an absent value has no level chosen |
| UnitView.EntryOptions | src/features/surveys/components/questions/view/Unit.tsx:74-77 | one option per table entry, in the table's order, valued by the entry's key |
| UnitView.EntryOptionSelects | src/features/surveys/components/questions/view/Unit.tsx:33-37 | every option's value is a key of the table, and its label is that entry's name |
| UnitView.DistrictOptions | src/features/surveys/components/questions/view/Unit.tsx:29-39 | no districts are offered until a province is chosen; after that the offered list is the chosen province's district entries, in table order, and every district offered lies in that province |
| UnitView.WardOptions | src/features/surveys/components/questions/view/Unit.tsx:41-51 | no wards are offered until a district is chosen; after that the offered list is the chosen district's ward entries, in table order, and every ward offered lies in that district of the chosen province |
| UnitView.EveryDistrictOffered | src/features/surveys/components/questions/view/Unit.tsx:29-39 | every district of the chosen province is offered, so a value is offered iff it is one of that province's districts |
| UnitView.EveryWardOffered | src/features/surveys/components/questions/view/Unit.tsx:41-51 | every ward of the chosen district is offered, so a value is offered iff it is one of that district's wards |
| UnitView.ProvinceClearsBelow | src/features/surveys/components/questions/view/Unit.tsx:78-80 | choosing a province clears the district and the ward |
| UnitView.DistrictClearsWard | src/features/surveys/components/questions/view/Unit.tsx:91-93 | choosing a district keeps the province and clears the ward |
| UnitView.WardSetsAll | src/features/surveys/components/questions/view/Unit.tsx:104-106 | choosing a ward keeps the province and the district |
| UnitView.CascadeKeepsConsistent | src/features/surveys/components/questions/view/Unit.tsx:29-106 | a choice from the offered lists never yields a district outside its province or a ward outside its district |
| GroupView.Shown | src/features/surveys/components/questions/view/QuestionGroup.tsx:59 | at least one instance is drawn, and exactly the recorded number when there are any |
| GroupView.AddAppends | src/features/surveys/components/questions/view/QuestionGroup.tsx:42-44 | "add answer" appends one empty instance and changes no other answer |
| GroupView.DeleteOfferedExists | src/features/surveys/components/questions/view/QuestionGroup.tsx:69-81 | delete is offered only on a recorded instance other than the first |
| GroupView.Spliced | src/features/surveys/components/questions/view/QuestionGroup.tsx:74-75 | the instances before k are kept and those after k move down by one |
| GroupView.DeleteRemovesOne | src/features/surveys/components/questions/view/QuestionGroup.tsx:73-77 | deleting instance k removes exactly that instance and changes no other answer |
| GroupView.CellShown | src/features/surveys/components/questions/view/QuestionGroup.tsx:96 | a field shows the recorded text when it exists and `''` otherwise |
| GroupView.EditCellShows | src/features/surveys/components/questions/view/QuestionGroup.tsx:97-107 | typing into a field shows the typed text there and changes no other filled field |
| Labels.Join | src/pages/SurveyResult/index.tsx:113 | joining nothing gives `''`, and joining one part gives that part |
| Labels.ResolveAll | src/pages/SurveyResult/index.tsx:111-112 | one label per recorded value, in order, each the value resolved against the options |
| Labels.CheckboxTextOfIndices | src/pages/SurveyResult/index.tsx:107-116 | a checkbox answer recorded as option indices exports as those options' labels joined with `", "`, in the order they were checked |
| Labels.UnitTextEmpty | src/pages/SurveyResult/index.tsx:117-131 | an empty unit path exports as three empty names, `" -  - "` |
| Labels.UnitTextProvince | src/pages/SurveyResult/index.tsx:118-131 | a path holding only a listed province exports as its name followed by two empty levels |
| SurveyResult.ColumnInjective | src/pages/SurveyResult/index.tsx:75 | two sub-questions of one question share a column key only when they are the same sub-question |
| SurveyResult.SubColumns | src/pages/SurveyResult/index.tsx:74-76 | a question with sub-questions contributes exactly one column per sub-question |
| SurveyResult.SubColumnAt | src/pages/SurveyResult/index.tsx:74-76 | sub-question i's column is `"<key>-<i>"` and is titled `"<text> - <content>"` |
| SurveyResult.ColumnsListed | src/pages/SurveyResult/index.tsx:72-80 | every question's columns appear in the column list: one per sub-question, or the question id titled with the question text |
| SurveyResult.AddSubColumns | src/pages/SurveyResult/index.tsx:74-76 | the inner loop assigns the question's sub-question columns into the header in order |
| SurveyResult.BuildHeader | src/pages/SurveyResult/index.tsx:71-80 | the header assigns every question's columns in order; each column takes the last title written to it, and without repeated keys the header is the column list itself |
| SurveyResult.SetCell | src/pages/SurveyResult/index.tsx:91 | `_.set` writes the cell at row k and column col, creates the row when the rows stop short of it, leaves holes before it, and keeps every other row |
| SurveyResult.SetCellKeeps | src/pages/SurveyResult/index.tsx:91 | setting one cell leaves every other cell as it was |
| SurveyResult.WriteCells | src/pages/SurveyResult/index.tsx:101-103 | writing one group instance touches only its own row, and adds that row only when the instance has fields |
| SurveyResult.WriteCellsPlaces | src/pages/SurveyResult/index.tsx:101-103 | field kk of the instance ends up in column `"<key>-<kk>"` of its row, and no later field overwrites it |
| SurveyResult.GroupSpan | src/pages/SurveyResult/index.tsx:100-104 | the rows a group answer needs: up to its last instance that has a field, with only empty instances after that |
| SurveyResult.WriteGroup | src/pages/SurveyResult/index.tsx:100-104 | a group answer grows the rows to cover its last non-empty instance and leaves rows past its instances unchanged |
| SurveyResult.WriteGroupPlaces | src/pages/SurveyResult/index.tsx:100-104 | field kk of instance k ends up in row k under column `"<key>-<kk>"` |
| SurveyResult.WriteAnswer | src/pages/SurveyResult/index.tsx:88-136 | a non-group answer writes only row 0: its cell text when its type has one, and nothing otherwise; a group answer spans its instances |
| SurveyResult.FirstUnknown | src/pages/SurveyResult/index.tsx:86-88 | no answer is reported iff every answer's question exists; a reported key has no question |
| SurveyResult.FirstUnknownAt | src/pages/SurveyResult/index.tsx:86-88 | the export fails at the first answer without a question, whatever follows it |
| SurveyResult.WriteAllLength | src/pages/SurveyResult/index.tsx:84-137 | a response contributes as many rows as its widest answer needs |
| SurveyResult.ResponseRowsShape | src/pages/SurveyResult/index.tsx:84-138 | a response fails iff some answer's question is missing; otherwise it yields as many rows as its widest answer needs |
| SurveyResult.WriteCellsKeeps | src/pages/SurveyResult/index.tsx:101-103 | writing a group instance leaves every column outside `"<key>-<kk>"` unchanged, in every row |
| SurveyResult.WriteGroupKeeps | src/pages/SurveyResult/index.tsx:99-106 | writing a group answer leaves every column outside `"<key>-<kk>"` unchanged, in every row |
| SurveyResult.WriteAnswerKeeps | src/pages/SurveyResult/index.tsx:88-136 | an answer leaves every cell outside its own columns unchanged: a non-group answer touches only column `key`, a group only the columns `"<key>-<kk>"` |
| SurveyResult.WriteEntryKeeps | src/pages/SurveyResult/index.tsx:86-136 | an answer that does not write a column leaves that column unchanged in every row, and so does an answer without a question |
| SurveyResult.WriteAllKeeps | src/pages/SurveyResult/index.tsx:84-137 | answers after position i that do not write a column leave it as the first i answers left it |
| SurveyResult.GroupAnswerPlaced | src/pages/SurveyResult/index.tsx:99-106 | a group answer at any position puts instance k's field kk in the response's row k under `"<key>-<kk>"`, unless a later answer writes that column |
| SurveyResult.CellAnswerPlaced | src/pages/SurveyResult/index.tsx:88-98 | a non-group answer at any position leaves its text in row 0 under its id, unless a later answer writes that column; inputs and textareas are copied verbatim |
| SurveyResult.ExportRowsLength | src/pages/SurveyResult/index.tsx:83-139 | a successful export has exactly as many rows as all responses need together |
| SurveyResult.ExportFailsOnUnknown | src/pages/SurveyResult/index.tsx:83-139 | an answer to a missing question, in any response, aborts the whole export |
| SurveyResult.ExportSucceedsWhenKnown | src/pages/SurveyResult/index.tsx:83-139 | when every answer's question exists, the export succeeds |
| SurveyResult.WriteCellsLoop | src/pages/SurveyResult/index.tsx:101-103 | the inner loop produces exactly the rows of the instance's writes |
| SurveyResult.WriteGroupLoop | src/pages/SurveyResult/index.tsx:100-104 | the outer loop produces exactly the rows of the group answer's writes |
| SurveyResult.WriteAnswerStep | src/pages/SurveyResult/index.tsx:88-136 | the `switch` produces exactly the rows of the answer's writes |
| SurveyResult.ResponseRowsLoop | src/pages/SurveyResult/index.tsx:84-137 | one response's loop yields its rows, or fails at its first answer without a question |
| SurveyResult.ExportExcel | src/pages/SurveyResult/index.tsx:70-147 | the export succeeds iff every response does; on success the sheet is the header plus every response's rows in order, and otherwise the first failure is reported |
| SurveyResult.ExportFailureSticks | src/pages/SurveyResult/index.tsx:83-139 | once a response has failed, later responses do not change the outcome |
| SurveyResult.ChoiceExportsLabel | src/pages/SurveyResult/index.tsx:94-98 | a radio or select answer recorded as option i's index exports as option i's label |
| SurveyResult.CheckboxExportsLabels | src/pages/SurveyResult/index.tsx:107-116 | a checkbox answer recorded as option indices exports as the checked labels joined with `", "` |
| SurveyResult.AnswerCount | src/pages/SurveyResult/index.tsx:210 | the answered-question count is the number of distinct question ids answered |
| SurveyResult.DistinctCount | src/pages/SurveyResult/index.tsx:210 | an answer object with distinct keys has exactly as many entries as answered ids |
| ResponseDetail.Fields | src/features/responses/components/ResponeDetail/index.tsx:49-54 | an instance's cells render iff the question has no sub-question list or the list covers every cell; one field per cell |
| ResponseDetail.FieldShown | src/features/responses/components/ResponeDetail/index.tsx:49-54 | cell kk shows its text under sub-question kk's content |
| ResponseDetail.Instances | src/features/responses/components/ResponeDetail/index.tsx:46-56 | a group answer renders iff no instance has more cells than there are sub-questions; one block per instance |
| ResponseDetail.InstanceShown | src/features/responses/components/ResponeDetail/index.tsx:46-48 | instance k is the block numbered k + 1 and shows instance k's cells |
| ResponseDetail.TextResponse | src/features/responses/components/ResponeDetail/index.tsx:14-62 | rendering fails only for a group cell past the sub-question list; textarea, unit and unknown types show nothing; a group shows one block per instance |
| ResponseDetail.DetailAgreesWithExport | src/features/responses/components/ResponeDetail/index.tsx:16-41 | input, radio, select and checkbox answers show the same text as their export cell |
| ResponseDetail.ChoiceShowsLabel | src/features/responses/components/ResponeDetail/index.tsx:23-30 | a radio or select answer recorded as option i's index shows option i's label |
| ResponseDetail.GroupCellShown | src/features/responses/components/ResponeDetail/index.tsx:42-58 | group cell (k, kk) shows its text in block k + 1, under sub-question kk's content |
| ResponseDetail.EntryShown | src/features/responses/components/ResponeDetail/index.tsx:81-84 | an answer whose question the survey lacks fails to render |
| ResponseDetail.Entries | src/features/responses/components/ResponeDetail/index.tsx:78-87 | the dialog fails iff some answer fails to render; otherwise it shows one entry per answer |
| ResponseDetail.EntryAt | src/features/responses/components/ResponeDetail/index.tsx:78-87 | on success, entry i of the dialog is answer i's rendering |
| ResponseDetail.FirstFailureWins | src/features/responses/components/ResponeDetail/index.tsx:78-87 | the dialog reports the first answer that fails to render, whatever follows it |
| ResponseDetail.Detail | src/features/responses/components/ResponeDetail/index.tsx:78 | a missing answers string shows an empty dialog; otherwise the dialog shows one entry per answer |
| SurveyEdit.AddQuestion | src/pages/SurveyEdit/index.tsx:40-42 | the list keeps its questions and gains, at its end, a blank `text` question whose id is the clock reading |
| SurveyEdit.UpdateQuestion | src/pages/SurveyEdit/index.tsx:44-48 | every question with the id has the field set to the value and keeps its other fields; other questions, the length and the order are unchanged |
| SurveyEdit.UpdateQuestionIdempotent | src/pages/SurveyEdit/index.tsx:44-48 | writing the same value twice is the same as writing it once |
| SurveyEdit.AddOption | src/pages/SurveyEdit/index.tsx:50-56 | each matching question gains one blank option after its existing ones (`['']` when it had none) and changes nothing else; other questions are unchanged |
| SurveyEdit.ReplaceAt | src/pages/SurveyEdit/index.tsx:64 | option `index` becomes the value, every other option is kept, and the length is unchanged |
| SurveyEdit.UpdateOption | src/pages/SurveyEdit/index.tsx:58-69 | only the matching questions' options change, lengths are kept, and absent options stay absent |
| SurveyEdit.UpdateOptionAt | src/pages/SurveyEdit/index.tsx:58-69 | the edited position reads back the written value and every other position keeps its option |
| SurveyEdit.RemoveQuestion | src/pages/SurveyEdit/index.tsx:71-73 | the result holds exactly the questions whose id differs |
| SurveyEdit.RemoveQuestionConcat | src/pages/SurveyEdit/index.tsx:71-73 | removal keeps the order of the remaining questions |
| SurveyEdit.RemoveAbsent | src/pages/SurveyEdit/index.tsx:71-73 | removing an id that no question carries changes nothing |
| SurveyEdit.AddThenRemove | src/pages/SurveyEdit/index.tsx:40-73 | adding a question under a fresh id and then removing it restores the list |
| SurveyEdit.NewQuestionHasNoOptions | src/pages/SurveyEdit/index.tsx:157-158 | a new question shows no option editor until its type becomes `checkbox` |
| SurveyStore.ById | src/features/surveys/hooks.ts:63-66 | the pairs the reduce assigns: each listed survey under its own id, in list order |
| SurveyStore.QueryKeepsLast | src/features/surveys/hooks.ts:63-66 | after a query each listed survey is cached under its id, the later one winning when two share an id |
| SurveyStore.QueryDropsUnlisted | src/features/surveys/hooks.ts:63-66 | after a query no survey outside the fetched list is cached |
| SurveyStore.Store.Cached | src/features/surveys/hooks.ts:34 | an absent cache spreads as empty, and the cache never lists an id twice |
| SurveyStore.Store.constructor | src/features/surveys/hooks.ts:13-15 | the store starts not handling, with nothing cached |
| SurveyStore.Store.Begin | src/features/surveys/hooks.ts:21-27 | every action first raises `handling` and leaves the cache alone |
| SurveyStore.Store.GetSurveysDone | src/features/surveys/hooks.ts:28-49 | a found survey is cached under the requested id and every other entry is kept; when nothing is found the cache is unchanged; `handling` drops either way |
| SurveyStore.Store.QuerySurveysDone | src/features/surveys/hooks.ts:59-70 | the cache is replaced by the fetched list keyed by id, each id holding its last survey |
| SurveyStore.Store.CreateSurveyDone | src/features/surveys/hooks.ts:80-91 | the data is cached under the id the remote call returned |
| SurveyStore.Store.UpdateSurveyDone | src/features/surveys/hooks.ts:101-112 | the data is cached under its own `data.id` |
| SurveyStore.Store.DeleteSurveyDone | src/features/surveys/hooks.ts:122-134 | the id is no longer cached and every other entry is kept |
| UserStore.OrEmpty | src/features/user/hooks.ts:61 | a present field reads as itself and a missing one as `''` |
| UserStore.Record | src/features/user/hooks.ts:60-66 | the cached record carries the keyed email, and every other field comes from the partial record or is `''` |
| UserStore.RecordOfComplete | src/features/user/hooks.ts:60-66 | a complete record passed in is cached unchanged under its own email |
| UserStore.ByEmail | src/features/user/hooks.ts:140-143 | the pairs the reduce assigns: each fetched user under its own email, in list order |
| UserStore.FetchKeepsLast | src/features/user/hooks.ts:140-143 | after a fetch each user is cached under its email, the later one winning when two share an email |
| UserStore.Store.constructor | src/features/user/hooks.ts:9-12 | the store starts not handling, with nobody signed in and an empty cache |
| UserStore.Store.LoginBegin | src/features/user/hooks.ts:18-25 | login raises `handling` and clears the signed-in record |
| UserStore.Store.LoginDone | src/features/user/hooks.ts:26-34 | the signed-in record becomes the login result |
| UserStore.Store.Begin | src/features/user/hooks.ts:37-39 | the other actions first raise `handling` and change nothing else |
| UserStore.Store.LogoutDone | src/features/user/hooks.ts:40-43 | after sign-out nobody is signed in |
| UserStore.Store.PutUserDone | src/features/user/hooks.ts:54-74 | the built record is cached under the email and no other entry changes |
| UserStore.Store.DeleteUserDone | src/features/user/hooks.ts:114-126 | the email leaves the cache and no other entry changes |
| UserStore.Store.GetUsersDone | src/features/user/hooks.ts:136-147 | the cache is replaced by the fetched list keyed by email, each email holding its last user |
| UsersPage.Filtered | src/pages/Users/index.tsx:73-75 | the filter never lists more users than the cache holds |
| UsersPage.FilteredMembers | src/pages/Users/index.tsx:72-78 | a user is listed iff it is cached and belongs to the chosen unit, or no unit is chosen |
| UsersPage.FilterNothing | src/pages/Users/index.tsx:74 | with no unit chosen, every cached user is listed, in cache order |
| UsersPage.FilteredConcat | src/pages/Users/index.tsx:73-75 | filtering keeps cache order |
| UsersPage.InitialFetch | src/pages/Users/index.tsx:51-66 | the admin unit fetches every user; anyone else fetches their own unit, and `''` when nobody is signed in |
| UsersPage.ConfirmedRecordCached | src/pages/Users/index.tsx:86-91 | the store caches exactly the record the editor confirmed, under its email |
| UsersPage.NoSelfDelete | src/pages/Users/index.tsx:162-171 | nobody is offered the delete button on their own row |
| UsersPage.Page.constructor | src/pages/Users/index.tsx:47-49 | the page starts with nothing listed, no dialog, and the dropdown closed |
| UsersPage.Page.CacheChanged | src/pages/Users/index.tsx:68-70 | a cache change lists every cached user and touches nothing else |
| UsersPage.Page.HandleFilter | src/pages/Users/index.tsx:72-78 | the list becomes the filtered cache and the dropdown closes |
| UsersPage.Page.ToggleFilter | src/pages/Users/index.tsx:118 | the filter button flips the dropdown and touches nothing else |
| UsersPage.Page.OpenAdd | src/pages/Users/index.tsx:97-108 | the admin unit's "add user" opens the editor on a blank record |
| UsersPage.Page.OpenEdit | src/pages/Users/index.tsx:153-161 | the admin unit's edit button opens the editor on that row's user |
| UsersPage.Page.OnConfirm | src/pages/Users/index.tsx:86-93 | a record with a uid is updated and one without is added, both under its email; the dialog closes either way |
| UsersPage.Page.OnClose | src/pages/Users/index.tsx:94 | closing the editor clears the dialog and touches nothing else |
| UserEditor.SaveOutcome | src/features/user/components/UserEditor/index.tsx:114-124 | a record is handed on iff it has an email and a unit, and then unchanged; otherwise the alert shows |
| UserEditor.UnitChoicesNonEmpty | src/features/user/components/UserEditor/index.tsx:92-96 | every unit the select offers passes the unit half of the save guard |
| UserEditor.Editor.constructor | src/features/user/components/UserEditor/index.tsx:27 | editing starts from the user passed in |
| UserEditor.Editor.EditName | src/features/user/components/UserEditor/index.tsx:46-55 | the name input, enabled only without a uid, changes only the display name |
| UserEditor.Editor.EditEmail | src/features/user/components/UserEditor/index.tsx:64-73 | the email input, enabled only without a uid, changes only the email |
| UserEditor.Editor.ChooseUnit | src/features/user/components/UserEditor/index.tsx:82-85 | the unit select changes only the unit |
| UserEditor.Editor.Save | src/features/user/components/UserEditor/index.tsx:113-124 | the save guard's outcome; a confirmed record keeps the original uid, and a user with a uid keeps its email and name |
| UserEditor.Editor.Cancel | src/features/user/components/UserEditor/index.tsx:107-109 | cancel closes the dialog and hands nothing on |
| Api.KindOf | src/services/api/index.ts:12-45 | each problem code maps to its kind, a client error by its status (401, 403, 404, anything else), and every other code, or none, to `unknown` |
| Api.GetApiProblem | src/services/api/index.ts:10-52 | the problem's kind is the code's kind, it is temporary exactly for connection and timeout problems, and it carries the original error whenever the response had one |
| Api.Wrap | src/services/api/index.ts:64-88 | an ok response is handed on with its body and is never classified; any other response is classified |
| Api.GraphqlField | src/services/api/index.ts:152 | the definition's field is returned iff the body, its `data` and the field all exist |
| Api.Graphql | src/services/api/index.ts:141-155 | an ok response carries the definition's field; any other response is classified |
| Utils.GenerateId | src/lib/utils.ts:9-17 | the id returned is never one of the taken ids; it is the prefixed first draw when that is free, otherwise a later unprefixed draw; nothing is returned only when every draw is taken or there are none |
| Utils.RetryFindsFirstFree | src/lib/utils.ts:14-15 | after a clash, the retries return the first later draw that is free, without the prefix |
| Utils.DefaultsTakeFirstDraw | src/lib/utils.ts:10-12 | with the defaults (no taken ids, size 5, no prefix) the first five-character draw is the id |
| Utils.HexValueBound | src/lib/utils.ts:20 | n hex digits hold a value below 16^n |
| Utils.HexPrefix | src/lib/utils.ts:20 | `parseInt` reads the longest run of hex digits at the front of the text |
| Utils.TrimStart | src/lib/utils.ts:20 | `parseInt` skips leading whitespace: what remains is a suffix of the input and does not start with whitespace |
| Utils.ParseHexDigits | src/lib/utils.ts:20 | a nonempty run of hex digits parses, in base 16, to its value |
| Utils.Head8 | src/lib/utils.ts:20 | `substring(0, 8)` keeps eight characters, or the whole of a shorter id |
| Utils.ObjectIdDateRange | src/lib/utils.ts:19-20 | an id whose first eight characters are hex digits dates to a whole second between 0 and 0xFFFFFFFF seconds, namely its leading hex value times 1000 |
| Objects.Get | src/pages/SurveyView/index.tsx:83 | a key reads a value iff the object has it |
| Objects.GetFound | src/pages/SurveyView/index.tsx:83 | a value read at a key is stored under that key |
| Objects.GetAt | src/pages/SurveyView/index.tsx:158 | in an object with distinct keys, each listed entry's key reads that entry's value |
| Objects.Put | src/pages/SurveyView/index.tsx:68 | after the assignment the key reads the value and every other key reads as before; an existing key keeps its place, a new one is appended, and keys stay distinct |
| Objects.Delete | src/features/user/hooks.ts:117-118 | after `delete` on a copy the key reads `undefined`, every other key reads as before, and keys stay distinct |
| Objects.FromPairs | src/features/surveys/hooks.ts:63-66 | the object a reduce builds never lists a key twice |
| Objects.FromPairsGet | src/features/surveys/hooks.ts:63-66 | each key of the built object reads the last value paired with it |
| Objects.LastValueAt | src/features/user/hooks.ts:140-143 | a pair with no later pair of the same key is the one that wins |
| Objects.LastValueAbsent | src/features/user/hooks.ts:140-143 | a key no pair carries is not in the built object |
| Objects.FromDistinctPairs | src/features/surveys/hooks.ts:63-66 | pairs with distinct keys build an object that lists exactly them, in order |
| Objects.AppendFresh | src/pages/SurveyView/index.tsx:68 | assigning a key the object lacks appends it at the end |
| Objects.Collect | src/features/surveys/hooks.ts:63-66 | the reduce loop builds exactly the object of the pairs, each key holding its last value |
| Decimal.DigitChar | src/features/surveys/components/questions/view/Radio.tsx:49 | each digit is written as the character that reads back as that digit |
| Decimal.IndexString | src/features/surveys/components/questions/view/Radio.tsx:49 | `index.toString()` is a canonical numeral, which starts with `0` only for index 0 |
| Decimal.ParseIndex | src/pages/SurveyResult/index.tsx:96 | a key denotes an array index iff it is a canonical numeral |
| Decimal.ParseIndexString | src/features/surveys/components/questions/view/Radio.tsx:46-49 | printing an index and reading it back gives the index |
| Decimal.IndexStringParse | src/pages/SurveyResult/index.tsx:96 | reading an index key and printing it back gives the key |
| Decimal.IndexStringInjective | src/features/surveys/components/questions/view/CheckBox.tsx:45 | different options are recorded as different strings |
| SurveyTypes.ParseTag | src/features/surveys/type.ts:8-15 | a tag string is read as the tag of that name, and as an unknown tag exactly when it is none of the seven |
| SurveyTypes.TagRoundTrip | src/features/surveys/type.ts:8-15 | each tag read back from its name is the same tag |
| SurveyTypes.ChoiceOptions | src/features/surveys/components/questions/view/Select.tsx:40-45 | one option per label, and none without a label list |
| SurveyTypes.ResolveLabel | src/pages/SurveyResult/index.tsx:96 | the key `length` gives the option count; for any other key a non-empty result is one of the question's labels |
| SurveyTypes.ChoiceOptionResolves | src/pages/SurveyResult/index.tsx:96 | every option's recorded value resolves back to that option's label |
| SurveyTypes.NonIndexResolvesEmpty | src/pages/SurveyResult/index.tsx:96 | a key that is neither a decimal index nor a property name of arrays, such as an ordinary option label, resolves to `''` |
| AnswerStore.SetAt | src/pages/SurveyView/index.tsx:103 | writing index i puts the value there, keeps every other element, and fills any gap past the end |
| AnswerStore.Apply | src/pages/SurveyView/index.tsx:101-105 | only the answer at the edit's question id changes, and the written path reads back the written value; an instance or cell write keeps every other instance or filled cell |
| AnswerStore.AddInstance | src/pages/SurveyView/index.tsx:181-186 | "add answer" appends one empty instance |
| AnswerStore.AddInstanceWrites | src/pages/SurveyView/index.tsx:182-186 | the button's path write, at index = the instance count, is exactly that append |
| AnswerStore.AddInstancesStep | src/pages/SurveyView/index.tsx:181-186 | each press adds one empty instance after the others |
| AnswerStore.Empties | src/pages/SurveyView/index.tsx:185 | n instances, all empty |
| AnswerStore.AddInstancesFromEmpty | src/pages/SurveyView/index.tsx:181-186 | n presses on an unanswered group give n empty instances |
| AnswerStore.Without | src/pages/SurveyView/index.tsx:89 | the filter removes every occurrence of the value and keeps every other value |
| AnswerStore.WithoutConcat | src/pages/SurveyView/index.tsx:89 | the filter keeps the order of what it keeps |
| AnswerStore.WithoutAbsent | src/pages/SurveyView/index.tsx:89 | removing a value that is not in the list changes nothing |
| AnswerStore.CheckThenUncheck | src/pages/SurveyView/index.tsx:84-90 | checking then unchecking an option gives what unchecking alone gives, and the starting list when the option was not there |
| SurveyView.CheckboxList | src/pages/SurveyView/index.tsx:82-92 | a check appends the option; an uncheck removes it and keeps the presence of every other option |
| SurveyView.CheckboxUndo | src/pages/SurveyView/index.tsx:82-92 | checking and then unchecking an option that was not there restores the list |
| SurveyView.InlineChoiceResolution | src/pages/SurveyView/index.tsx:201-310 | on this page a select answer resolves to its label, while a radio or checkbox answer, recorded as its label, resolves to `''` when the label is neither a numeral nor a property name of arrays, and to the option count when it is `length` |
| SurveyView.SurveyViewPage.constructor | src/pages/SurveyView/index.tsx:30-36 | the page opens with no answers, no errors, and nothing sent |
| SurveyView.SurveyViewPage.HandleTextChange | src/pages/SurveyView/index.tsx:67-70 | the answer becomes the typed text and the question's error is cleared |
| SurveyView.SurveyViewPage.HandleMultipleChoiceChange | src/pages/SurveyView/index.tsx:72-75 | the answer becomes the picked value and the question's error is cleared |
| SurveyView.SurveyViewPage.HandleCheckboxChange | src/pages/SurveyView/index.tsx:77-94 | the list (`[]` when absent) gains the value on check or loses every occurrence on uncheck, and the error is cleared |
| SurveyView.SurveyViewPage.HandleGroupChange | src/pages/SurveyView/index.tsx:96-106 | the path write on a clone of the answers; the errors are untouched |
| SurveyView.SurveyViewPage.AddGroupAnswer | src/pages/SurveyView/index.tsx:179-187 | one empty instance is appended, every other answer is kept, and the errors are untouched |
| SurveyView.SurveyViewPage.InstancesShown | src/pages/SurveyView/index.tsx:247-249 | at least one instance is drawn, and exactly the recorded number when there are any |
| SurveyView.SurveyViewPage.Submit | src/pages/SurveyView/index.tsx:108-134 | the page posts the survey id with the answers as they stand, and is marked sent only on an `ok` result |

## Left out

- Remote calls: Firebase, Firestore, the login flow and the survey, user
  and response services are not part of this model. Their results are
  parameters of the `...Done` methods and of `Api.Wrap`.
- The awaited calls run one action at a time in the model. Stale or late
  fetches and `window.location.reload` are not modelled.
- `JSON.parse` of a stored response is not modelled. Readers receive the
  decoded answer map.
- `XLSX` sheet and file writing is not modelled. `SurveyResult.ExportExcel`
  returns the header and rows it would hand to `json_to_sheet`.
- The geography table `cities.json` is not shown. It is a parameter of
  every member that reads it.
- `nanoid` randomness is given as the sequence of ids it would draw.
- Utils.GenerateId: returns `None` when the given draws run out, where the
  source keeps drawing for as long as it takes. Its termination is not
  claimed.
- Utils.TrimStart: skips only ASCII whitespace. `parseInt` also skips
  Unicode spaces and line terminators.
- AnswerStore.Apply: a write past the end of an instance list or of an
  instance fills the gap with `[]` or `''`. JavaScript leaves holes there,
  which read back as `undefined` and show as `''`.
- CheckBoxView.OnCheckedChange: writing `undefined` is modelled as removing
  the answer. In JavaScript the key stays, holding `undefined`.
- SurveyTypes.ResolveLabel: `_.get` also reads a key that names a member
  arrays inherit (`map`, `constructor`, `__proto__` and the rest of
  `SurveyTypes.ArrayMembers`). It returns that function or object, and
  the export writes it into the cell. The model gives `''` for these keys,
  since a function has no text. The key `length` gives the option count.
  The source writes it as a number; the model writes its decimal string.
- UnitView.DistrictOptions: requires that a chosen province be in the
  table. The source throws when reading `districts` of a missing province.
- SurveyView.SurveyViewPage.HandleCheckboxChange: requires that the
  question's current answer be a list. The same holds for
  `SurveyResult.WriteAnswer` and `ResponseDetail.TextResponse`: each
  requires that an answer have the shape its question's widget records.
  The source casts without checking, so a misshaped answer is outside the
  model.
- Integer-like keys: JavaScript lists these before all other keys. The
  model keeps plain insertion order, except in the unit table of
  `UserEditor.UnitChoices`, which is written in JavaScript's order.
- The summary card is not modelled: `responses.length`, the date
  formatting, and `survey?.questions.length`, which is `undefined` for an
  id-keyed object.
- The editor's title and description inputs, its settings switches and
  its navigation are plain state setters or rendering.
- The API client's `upload` and `callSignServer` fill a `FormData` from
  their parameters. That part is not modelled. Their result handling is
  `Api.Wrap`.
- Not modelled: `SearchableSelect`, the dropzone, the users filter form,
  the textarea widget (it only forwards text to `[questionId]`), layout,
  routing, HTML parsing, toasts and other rendering.

## Findings

| source | as written | input that shows it | evidently intended | confidence | as-written member | corrected member |
|---|---|---|---|---|---|---|
| src/pages/SurveyView/index.tsx:211 | the page's radio buttons record the option's label, but the export and the detail dialog read a radio answer as an option index | params `["Yes", "No"]`, pick "Yes": the answer is `"Yes"`, and `_.get(params, ["Yes"], '')` exports `''` | record the option's index string, as the radio widget does, so the answer resolves to its label | medium, not executed | SurveyView.InlineChoiceResolution | ChoiceView.PickOption |
| src/pages/SurveyView/index.tsx:233 | the page's checkboxes record option labels, but the export joins them as option indices | params `["A", "B"]`, check both: the answer is `["A", "B"]`, exported as `", "` | record index strings, as the checkbox widget does, so the export lists the checked labels | medium, not executed | SurveyView.InlineChoiceResolution | SurveyResult.CheckboxExportsLabels |
