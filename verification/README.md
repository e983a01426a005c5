# ClearChoice AI: tab history, tab repository and editor rules in Dafny

This project models the pure rules under the ClearChoice AI product page:

- **History grouping** (`createTimeTabList`): a user's tabs are split into
  Today, Yesterday, Last Week, Last Month and Older, stably, and emitted as
  sidebar groups in that fixed order with empty groups dropped.
- **Sidebar selection** (`handleSelect`): the clicked history item becomes
  active and every item with a different id, in every group, is reset.
- **Tab repository and save route**: slug ids, the existence queries, listing,
  reads, the patch-style update, and the create-or-update decision of
  `POST /api/tab/save` with its duplicate-title guard.
- **Question editor**: validation of name, type, choices and range, the shape
  of the submitted `Question`, and the choice-list edits.
- **Question list editor**: a small state machine over
  `(items, dialogOpen, editingIndex, formKey)`.
- **Tab form**: the per-mode resolver (and the older product page's copy), and
  the mapping between form values and the saved `Tab`.

Modelling choices:

- Time is explicit. `Clock(now, weekAgo, monthAgo)` holds the one current
  instant and the instants a week and a calendar month earlier. A `day`
  function maps an instant to its local calendar day. Yesterday means
  `day(d) == day(now) - 1`.
- The database is a `map<string, Row>` from id to row. The JSON `data` column
  is a `Body` of four optional fields. A field is absent exactly when
  `JSON.stringify` would omit it.
- An exception is a `Failure` carrying an `Error`:
  - `InvalidTabData`: the request lacks a title or a user id.
  - `DuplicateTitle`: the user already has a tab with that title.
  - `IdTaken`: the database's primary key refused a create.
  - `NotFound`: an update named a missing row.
  Every failing request leaves the store unchanged.
- The duplicate-title guard is per user, so one might expect another user to be
  able to reuse a title. The code does not allow this: ids are slugs shared by
  all users, so a second user's create of a title someone has already created
  fails (`CreatedTitleBlocksOtherUsers`).
- Optional JavaScript fields are `Option`s. `Question.type` is named
  `questionType`, because `type` is a Dafny keyword.
- `handleSelect` is modelled by the position `(group, child)` of the clicked
  child. The sidebar only ever passes a rendered child, and `handleSelect`'s
  mutation of `item` is a mutation of that child.
- Question-editor errors are constructors, not message strings.
  `ChoiceNeedsLetter(p)` records the 1-based position, among the non-blank
  choices, of the last choice without a letter. `forEach` overwrites earlier
  failures.

## Model

| member | source | states |
|---|---|---|
| Text.BlankIffAllWhitespace | src/app/product/components/QuestionForm.tsx:108-121 | `s.trim()` is empty exactly when every character of `s` is JavaScript whitespace |
| Text.LetterSetNonEmptyIff | src/app/product/components/QuestionForm.tsx:105-112 | the set of distinct lower-cased letters of `s` is non-empty exactly when `s` contains a character of `[a-zA-Z]` |
| Text.LinkPatternIff | src/app/product/components/TabForm.tsx:70 | `^https?:\/\/.+` accepts exactly `http://` or `https://` followed by a character other than a line terminator |
| Seqs.RemoveAtSpec | src/app/product/components/QuestionList.tsx:28-30 | filtering out index `i` removes exactly entry `i` and keeps the rest in order; an index out of range changes nothing |
| Seqs.DistinctIffElementCount | src/app/product/components/QuestionForm.tsx:138-141 | a list's set has as many elements as the list exactly when no entry repeats |
| AppSidebar.HandleSelect | src/app/product/components/app-sidebar.tsx:37-47 | the clicked child is active; every child with a different id is inactive; other children with the same id keep their flag; group entries, child fields and counts are unchanged; `onSelect`, when given, is called once with the updated child |
| AppSidebar.SelectLeavesOneActive | src/app/product/components/app-sidebar.tsx:37-47 | when child ids are unique, the clicked child is the only active child afterwards |
| TabUtils.ClassifyIsFirstAdmitting | src/lib/tabUtils.ts:9-54 | a tab lands in a bucket exactly when that bucket's test admits its date and no earlier bucket's test does |
| TabUtils.NeverUpdatedIsToday | src/lib/tabUtils.ts:37 | a tab without `updatedAt` is classified as now, so it is in Today |
| TabUtils.FutureDayIsLastWeek | src/lib/tabUtils.ts:22-26 | a date on a later day than now that is on or after the week threshold is in Last Week |
| TabUtils.OrganizeIsStablePartition | src/lib/tabUtils.ts:36-56 | the reducer gives each bucket exactly the input tabs classified into it, in input order |
| TabUtils.InBucketMembers | src/lib/tabUtils.ts:36-56 | a tab is in a bucket exactly when it is an input tab classified into that bucket |
| TabUtils.BucketsPartitionInput | src/lib/tabUtils.ts:36-56 | the five buckets together hold the input tabs with multiplicity, so their sizes sum to the input length |
| TabUtils.CreateTimeTabListSpec | src/lib/tabUtils.ts:4-132 | each group is one non-empty bucket with url "#" and one inactive item per tab in input order, whose url is `?id=` in Today and `/product?id=` elsewhere; groups follow Today, Yesterday, Last Week, Last Month, Older; a bucket has a group exactly when it has a tab; empty input gives no groups; `selectedId` changes nothing |
| TabUtils.HistoryStartsInactive | src/lib/tabUtils.ts:59-128 | every item of a freshly built history is inactive |
| TabService.Slug | src/services/tabService.ts:19 | the id has the title's length; every U+0020 space becomes `-` and every `A`-`Z` its lower-case letter, so the id contains no space |
| TabService.SlugIdempotent | src/services/tabService.ts:19 | slugging an id derived from a title leaves it unchanged |
| TabService.SlugKeepsOtherCharacters | src/services/tabService.ts:19 | every character of the title other than U+0020 and `A`-`Z` is kept in place in the id, so a tab character survives |
| TabService.SlugCollides | src/services/tabService.ts:19 | the distinct titles "My Tab" and "my-tab" derive the same id |
| TabService.CreateTab | src/services/tabService.ts:8-32 | the row has the slug id, the given title, description and user, and a body of exactly the four body fields; an id already stored makes the create fail and leaves the store as it was |
| TabService.GetTabs | src/services/tabService.ts:34-42 | a row is listed exactly when it is stored and belongs to the user |
| TabService.TitleQueryMatchesListing | src/services/tabService.ts:34-63 | the title query holds exactly when one of the user's listed rows has that title |
| TabService.TabExistsIffReadable | src/services/tabService.ts:43-73 | `tabExists(id)` holds exactly when `getTabById(id)` finds a row, and that row carries the id |
| TabService.GetTabById | src/services/tabService.ts:65-73 | the read returns the stored row when the id exists, and null otherwise |
| TabService.UpdateTab | src/services/tabService.ts:75-99 | id and owner never change; title and description change only when given; the body becomes exactly the resent fields when at least one is resent, else it is kept; a missing id fails |
| TabService.CreateIsVisible | src/services/tabService.ts:8-63 | after a successful create, the title query and the id query hold, and the user's listing gains exactly the new row |
| TabService.CreateLeavesOtherUsers | src/services/tabService.ts:8-42 | a create leaves every other user's listing unchanged |
| TabService.CreateThenGet | src/services/tabService.ts:8-73 | a created row reads back with exactly the questions, text, url and file inputs it was given |
| TabService.UpdateWithoutBodyKeepsBody | src/services/tabService.ts:79-96 | a patch of only id and title keeps the stored body |
| TabService.UpdateDropsUnsentBodyFields | src/services/tabService.ts:79-94 | resending only the text input drops the stored questions and url input |
| TabService.UpdateIsIdempotent | src/services/tabService.ts:75-99 | applying the same patch twice gives the same store and response as applying it once |
| TabService.WritesKeepWellKeyed | src/services/tabService.ts:21-29 | create and update keep every row stored under its own id |
| SaveRoute.Post | src/app/api/tab/save/route.ts:10-29 | a missing or empty title or user id fails; with no id, an existing title for the user fails and otherwise the tab is created; with an id, the row is updated with no title or owner check; every failure leaves the store unchanged |
| SaveRoute.Get | src/app/api/tab/save/route.ts:31-37 | returns the raw stored row for the id, with its body as stored, or null |
| SaveRoute.CreatePreservesUniqueTitles | src/app/api/tab/save/route.ts:17-25 | the create branch keeps titles unique per user |
| SaveRoute.UpdateCanDuplicateTitle | src/app/api/tab/save/route.ts:27-28 | an update can rename a tab to a title the same user already has |
| SaveRoute.UpdateIgnoresRequester | src/app/api/tab/save/route.ts:27-28 | another user's request updates a row, and the row keeps its owner |
| SaveRoute.CreateCanCollideOnId | src/app/api/tab/save/route.ts:17-25 | a title no tab has can still fail to create, because its slug is already an id |
| SaveRoute.OtherUserTitleIsNoDuplicate | src/app/api/tab/save/route.ts:17-25 | a title none of the requester's rows has is no duplicate: when its slug is free, the create succeeds |
| SaveRoute.CreatedTitleBlocksOtherUsers | src/app/api/tab/save/route.ts:17-25 | after one user creates a tab, another user's create of the same title fails, with `IdTaken` unless that user already holds a row of that title |
| QuestionForm.LastLetterless | src/app/product/components/QuestionForm.tsx:126-135 | finds the last choice without a letter, or reports that every choice has one |
| QuestionForm.NonBlankEntries | src/app/product/components/QuestionForm.tsx:121 | every kept choice is non-blank |
| QuestionForm.NonBlankMembers | src/app/product/components/QuestionForm.tsx:121 | a choice is kept exactly when it is in the list and not all whitespace |
| QuestionForm.NonBlankIdempotent | src/app/product/components/QuestionForm.tsx:162 | filtering the filtered choices again changes nothing |
| QuestionForm.ChoicesError | src/app/product/components/QuestionForm.tsx:120-145 | no choice error exactly when there are two or more non-blank choices, each with a letter, distinct after lower-casing; fewer than two is "too few"; a repeat is the duplicate error even beside a letter failure; two or more distinct choices with a letterless one give the letter error, naming the last failing choice |
| QuestionForm.Load | src/app/product/components/QuestionForm.tsx:54-74 | a given question fills the form, with `""`, `[""]`, `false` and `{0, 100}` for an absent description, choices, flags and range; no question resets every field to those defaults |
| QuestionForm.ResetFormNeedsNameAndType | src/app/product/components/QuestionForm.tsx:63-117 | a reset form reports name and type as required and so submits nothing |
| QuestionForm.NameCheck | src/app/product/components/QuestionForm.tsx:104-112 | the name passes exactly when it is not blank and holds an ASCII letter; "required" exactly when it is all whitespace |
| QuestionForm.TypeCheck | src/app/product/components/QuestionForm.tsx:114-117 | the type passes exactly when it is not blank |
| QuestionForm.Validate | src/app/product/components/QuestionForm.tsx:95-158 | the name passes exactly when not blank and with a letter; the type passes exactly when not blank; choices are checked only for multichoice, with too-few, duplicate and letter errors as in `ChoicesError`; the range fails exactly for number with range on and `min >= max` |
| QuestionForm.Submit | src/app/product/components/QuestionForm.tsx:160-176 | a question is submitted exactly when no error is recorded; it carries name, type and description, plus non-blank choices and `isSingleChoice` only for multichoice, `range` only for number with range on, and `useRange` only for number |
| QuestionForm.SubmittedIsWellFormed | src/app/product/components/QuestionForm.tsx:95-176 | every submitted question has a usable name and type, two or more distinct lettered choices when multichoice, and `min < max` when it has a range |
| QuestionForm.EditRoundTrip | src/app/product/components/QuestionForm.tsx:54-176 | loading a submitted question into the form and submitting it unchanged gives back the same question |
| QuestionForm.ChoiceChange | src/app/product/components/QuestionForm.tsx:76-84 | entry `i` becomes the value, other entries stay, the list grows by at most one, and it always holds a blank choice |
| QuestionForm.AddChoice | src/app/product/components/QuestionForm.tsx:86-88 | the list gains one blank slot at the end |
| QuestionForm.RemoveChoice | src/app/product/components/QuestionForm.tsx:90-93 | exactly entry `i` is removed, the rest keep their order, and an emptied list becomes `[""]` |
| QuestionList.AddItem | src/app/product/components/QuestionList.tsx:16-19 | the question is appended, earlier items are unchanged, and the dialog closes |
| QuestionList.EditItem | src/app/product/components/QuestionList.tsx:21-26 | only entry `i` is replaced, the length stays, and the dialog closes |
| QuestionList.DeleteItem | src/app/product/components/QuestionList.tsx:28-30 | exactly entry `i` is removed, the rest keep their order |
| QuestionList.OpenAddDialog | src/app/product/components/QuestionList.tsx:32-36 | nothing is being edited, the form key strictly increases, and the dialog opens |
| QuestionList.OpenEditDialog | src/app/product/components/QuestionList.tsx:38-41 | entry `i` is being edited and the dialog opens; items are untouched |
| QuestionList.HandleDelete | src/app/product/components/QuestionList.tsx:43-49 | with nothing being edited nothing changes; otherwise the edited entry is deleted, the selection cleared, and the dialog closed |
| QuestionList.DialogQuestion | src/app/product/components/QuestionList.tsx:58 | the form is given exactly the edited entry when an in-range entry is being edited, and no question when none is |
| QuestionList.SubmitQuestion | src/app/product/components/QuestionList.tsx:59-61 | a submit edits the entry being edited, and appends otherwise |
| QuestionList.AddFlow | src/app/product/components/QuestionList.tsx:32-61 | opening the add dialog and submitting appends the question and closes the dialog |
| QuestionList.EditFlow | src/app/product/components/QuestionList.tsx:38-61 | opening entry `i` and submitting replaces exactly that entry |
| QuestionList.DeleteFlow | src/app/product/components/QuestionList.tsx:38-49 | opening entry `i` and deleting removes exactly that entry |
| QuestionList.FormKeyCountsAddDialogs | src/app/product/components/QuestionList.tsx:32-36 | over any run of events the form key grows by the number of add dialogs opened |
| QuestionList.StepChangesOneItem | src/app/product/components/QuestionList.tsx:16-49 | every event adds or removes at most one question |
| ProductPage.InputErrors | src/app/product/page.tsx:38-54 | text mode needs a text input; link mode needs a link, and then a valid one; pdf mode needs a chosen file; webhook mode checks nothing |
| ProductPage.Resolve | src/app/product/page.tsx:38-56 | the older resolver returns the values unchanged and only the selected mode's input errors; it never checks a title |
| ProductPage.LinkExamples | src/app/product/page.tsx:47 | sample links accepted and refused by the link pattern |
| TabForm.Resolve | src/app/product/components/TabForm.tsx:61-84 | an empty title always gives `TitleRequired`; only the selected mode's input is checked, as in the older resolver, with `TextRequired`, `LinkRequired`/`LinkInvalid` or `PdfRequired`; the other inputs carry no error; the values return unchanged |
| TabForm.ResolverExtendsPageResolver | src/app/product/components/TabForm.tsx:61-83 | the tab form's input errors are exactly the older page resolver's |
| TabForm.BuildTab | src/app/product/components/TabForm.tsx:152-161 | the id is the current tab's or ""; the description and the text input are both the text input; the url input is the link input; the file input is the PDF input |
| TabForm.HandleSave | src/app/product/components/TabForm.tsx:145-164 | nothing is saved unless the form is dirty; then the built tab is saved |
| TabForm.HandleSubmit | src/app/product/components/TabForm.tsx:166-180 | `onSubmit`, then `onSave`, receive the same built tab |
| TabForm.SetFormData | src/app/product/components/TabForm.tsx:96-104 | the form is reset to the tab's fields, with "" and [] when there is no tab |
| TabForm.DefaultValues | src/app/product/components/TabForm.tsx:53-59 | the initial values are the tab's fields, all undefined when there is no tab |
| TabForm.ReloadThenBuild | src/app/product/components/TabForm.tsx:96-161 | saving a tab's form unchanged sends back every field of the tab, except that the description becomes the text input |
| TabForm.SaveRouting | src/app/product/components/TabForm.tsx:152-153 | a form opened on no tab saves with id "", which the save route creates; one opened on a tab with an id updates that tab |

## Left out

- The HTTP layer, Prisma and JSON text are left out. Request parsing, the response body and serialisation are outside the model. A null request body and explicit JSON `null` fields are not modelled.
- Database-managed `createdAt`/`updatedAt` columns are not stored in a row. The history builder takes them from its input tabs.
- The check-then-create race in the save route is a concurrency matter. The model is sequential.
- Real dates are abstracted. `toDateString` depends on the time zone. `setDate`/`setMonth` do calendar arithmetic. Each helper reads the clock on its own. All of this becomes one `now`, a `day` function and two given thresholds. Unparseable `updatedAt` strings ("Invalid Date") are not modelled. An empty `updatedAt` string is modelled as absent.
- Case mapping covers ASCII only. Slugs, letter checks and case-insensitive choice comparison use ASCII `toLowerCase`.
- Range bounds are integers. JavaScript numbers, NaN and fractional bounds are not modelled.
- QuestionList.EditItem: requires an index inside the list. JavaScript would grow a sparse array for a larger index, which the modal dialog never produces.
- The browser client in `src/lib/api/tabService.ts` and the list route are left out. The client is a fetch wrapper whose decoding re-joins header and body fields, and the `Body` record already keeps those fields structured. The list route calls `getTabs` and passes the result on.
- Authentication, sign-up and user storage are wrappers over bcrypt, Prisma and next-auth, so they are left out.
- `handleSave`/`handleSubmit` read `user.id` from the session. The user id is a parameter here. The crash when no user is signed in is not modelled.
- The keyboard and `beforeunload` listeners of the tab form are browser plumbing. `removeSaveListeners` removes freshly made lambdas, so it has no effect.
- The form's `onClose` (`CloseDialog`) only closes the dialog. Its state change is in the event model, with no separate contract.
- Rendering components and marketing pages are left out.
- SaveRoute.Get: takes the id as a parameter. The handler reads `params.id`, but the save route has no `[id]` path segment, so in the application `getTabById` would receive `undefined`; that wiring is not modelled.
- TabService.GetTabs: returns a set. `findMany` returns an array in database order, which the history keeps within each bucket; the model promises no order for the listing.
- TabForm.SetFormData: takes a `Tab` whose body fields are all present. A tab decoded from a pruned body, with an undefined field that `?? ""` would replace field by field, cannot be represented.
- TabForm.DefaultValues: takes a `Tab` whose body fields are all present, so a tab decoded from a pruned body, whose `tab?.textInput` and the like would be undefined, cannot be represented.
