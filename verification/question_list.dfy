/**
  The question list editor (`ItemList`): the questions, whether the dialog is
  open, which entry the dialog edits (`None` for a new question), and the key
  that forces a fresh form for each new question.
*/
module QuestionList {
  import opened Wrappers
  import opened Seqs
  import opened Types

  datatype ListState = ListState(items: seq<Question>, dialogOpen: bool, editingIndex: Option<nat>, formKey: int)

  const Initial: ListState := ListState([], false, None, 0)

  /** `addItem(q)`: append and close the dialog. */
  function AddItem(s: ListState, q: Question): (r: ListState)
    ensures |r.items| == |s.items| + 1 && r.items[..|s.items|] == s.items && r.items[|s.items|] == q
    ensures !r.dialogOpen && r.editingIndex == s.editingIndex && r.formKey == s.formKey
  {
    s.(items := s.items + [q], dialogOpen := false)
  }

  /** `editItem(i, q)`: replace entry `i` only, and close the dialog. */
  function EditItem(s: ListState, i: nat, q: Question): (r: ListState)
    requires i < |s.items|
    ensures |r.items| == |s.items| && r.items[i] == q
    ensures forall k | 0 <= k < |s.items| && k != i :: r.items[k] == s.items[k]
    ensures !r.dialogOpen && r.editingIndex == s.editingIndex && r.formKey == s.formKey
  {
    s.(items := s.items[i := q], dialogOpen := false)
  }

  /** `deleteItem(i)`: drop entry `i`, keeping the others in order; nothing else changes. */
  function DeleteItem(s: ListState, i: int): (r: ListState)
    ensures 0 <= i < |s.items| ==> r.items == s.items[..i] + s.items[i + 1..]
    ensures !(0 <= i < |s.items|) ==> r.items == s.items
    ensures r.dialogOpen == s.dialogOpen && r.editingIndex == s.editingIndex && r.formKey == s.formKey
  {
    RemoveAtSpec(s.items, i);
    s.(items := RemoveAt(s.items, i))
  }

  /** `openAddDialog()`: a new question, with a fresh form key. */
  function OpenAddDialog(s: ListState): (r: ListState)
    ensures r.items == s.items && r.editingIndex.None? && r.formKey > s.formKey && r.dialogOpen
  {
    s.(editingIndex := None, formKey := s.formKey + 1, dialogOpen := true)
  }

  /** `openEditDialog(i)` */
  function OpenEditDialog(s: ListState, i: nat): (r: ListState)
    ensures r.items == s.items && r.editingIndex == Some(i) && r.dialogOpen && r.formKey == s.formKey
  {
    s.(editingIndex := Some(i), dialogOpen := true)
  }

  /** `handleDelete()`: delete the edited entry and close; with nothing being edited, do nothing. */
  function HandleDelete(s: ListState): (r: ListState)
    ensures s.editingIndex.None? ==> r == s
    ensures s.editingIndex.Some? ==>
      && r.items == RemoveAt(s.items, s.editingIndex.value)
      && r.editingIndex.None? && !r.dialogOpen && r.formKey == s.formKey
  {
    match s.editingIndex
    case None => s
    case Some(i) => DeleteItem(s, i).(editingIndex := None, dialogOpen := false)
  }

  /** `onClose`: the dialog closes and nothing else changes. */
  function CloseDialog(s: ListState): ListState {
    s.(dialogOpen := false)
  }

  /** The question the dialog's form is given: the edited entry, or none for a new question. */
  function DialogQuestion(s: ListState): (r: Option<Question>)
    ensures r.Some? ==> s.editingIndex.Some? && s.editingIndex.value < |s.items| && r.value == s.items[s.editingIndex.value]
    ensures EditingInRange(s) && s.editingIndex.Some? ==> r == Some(s.items[s.editingIndex.value])
    ensures s.editingIndex.None? ==> r.None?
  {
    match s.editingIndex
    case Some(i) => if i < |s.items| then Some(s.items[i]) else None
    case None => None
  }

  predicate EditingInRange(s: ListState) {
    s.editingIndex.Some? ==> s.editingIndex.value < |s.items|
  }

  /** The form's `onSubmit`: edit the entry being edited, else append. */
  function SubmitQuestion(s: ListState, q: Question): (r: ListState)
    requires EditingInRange(s)
    ensures s.editingIndex.Some? ==> r == EditItem(s, s.editingIndex.value, q)
    ensures s.editingIndex.None? ==> r == AddItem(s, q)
  {
    match s.editingIndex
    case Some(i) => EditItem(s, i, q)
    case None => AddItem(s, q)
  }

  /** Opening the add dialog and submitting appends the question at the end and closes the dialog. */
  lemma AddFlow(s: ListState, q: Question)
    ensures var r := SubmitQuestion(OpenAddDialog(s), q);
      r.items == s.items + [q] && !r.dialogOpen && r.formKey == s.formKey + 1
  {
  }

  /** Opening entry `i` for editing and submitting replaces exactly that entry. */
  lemma EditFlow(s: ListState, i: nat, q: Question)
    requires i < |s.items|
    ensures var r := SubmitQuestion(OpenEditDialog(s, i), q);
      r.items == s.items[i := q] && !r.dialogOpen
  {
  }

  /** Opening entry `i` for editing and deleting removes exactly that entry and clears the selection. */
  lemma DeleteFlow(s: ListState, i: nat)
    requires i < |s.items|
    ensures var r := HandleDelete(OpenEditDialog(s, i));
      r.items == s.items[..i] + s.items[i + 1..] && r.editingIndex.None? && !r.dialogOpen
  {
    RemoveAtSpec(s.items, i);
  }

  /** The user actions the list reacts to. */
  datatype Event =
    | OpenAdd
    | OpenEdit(index: nat)
    | Submit(question: Question)
    | DeleteEdited
    | DeleteCard(index: nat)
    | EditCard(index: nat, question: Question)
    | Close

  predicate Enabled(s: ListState, e: Event) {
    match e
    case Submit(_) => EditingInRange(s)
    case EditCard(i, _) => i < |s.items|
    case _ => true
  }

  function Step(s: ListState, e: Event): ListState
    requires Enabled(s, e)
  {
    match e
    case OpenAdd => OpenAddDialog(s)
    case OpenEdit(i) => OpenEditDialog(s, i)
    case Submit(q) => SubmitQuestion(s, q)
    case DeleteEdited => HandleDelete(s)
    case DeleteCard(i) => DeleteItem(s, i)
    case EditCard(i, q) => EditItem(s, i, q)
    case Close => CloseDialog(s)
  }

  /** Runs a sequence of events; `None` when one of them is not enabled where it occurs. */
  function Run(s: ListState, es: seq<Event>): Option<ListState>
    decreases |es|
  {
    if es == [] then Some(s)
    else if Enabled(s, es[0]) then Run(Step(s, es[0]), es[1..])
    else None
  }

  function CountOpenAdds(es: seq<Event>): nat
    decreases |es|
  {
    if es == [] then 0 else (if es[0].OpenAdd? then 1 else 0) + CountOpenAdds(es[1..])
  }

  /** The form key counts the add dialogs opened, so every new-question form gets a key not used before. */
  lemma {:induction false} FormKeyCountsAddDialogs(s: ListState, es: seq<Event>)
    requires Run(s, es).Some?
    ensures Run(s, es).value.formKey == s.formKey + CountOpenAdds(es)
    decreases |es|
  {
    if es != [] {
      FormKeyCountsAddDialogs(Step(s, es[0]), es[1..]);
    }
  }

  /** Each event adds or removes at most one question. */
  lemma StepChangesOneItem(s: ListState, e: Event)
    requires Enabled(s, e)
    ensures var n := |Step(s, e).items|; |s.items| - 1 <= n <= |s.items| + 1
  {
    match e
    case DeleteEdited =>
      if s.editingIndex.Some? { RemoveAtSpec(s.items, s.editingIndex.value); }
    case _ =>
  }
}
