/** The template dialog: selecting a template, filling its placeholders,
    and editing, saving and deleting templates through the store. */
module PromptTemplateModal {
  import opened Wrappers
  import opened Text
  import opened PromptTemplates
  import opened BuiltInTemplates
  import opened PromptTemplateStore

  /** What saving does with the template being edited. */
  datatype SaveDecision = Rejected | UpdateExisting(id: int) | AddNew

  /** A JavaScript-truthy id: present and not 0. */
  predicate HasId(t: Template) {
    t.id.Some? && t.id.value != 0
  }

  /** The save rule: a blank name or blank content is refused; otherwise a
      template with an id updates that id and one without is added. */
  function DecideSave(edited: Template): (d: SaveDecision)
    ensures d.Rejected? <==> IsBlank(edited.name) || IsBlank(edited.content)
    ensures d.UpdateExisting? <==> !d.Rejected? && HasId(edited)
    ensures d.UpdateExisting? ==> Some(d.id) == edited.id
    ensures d.AddNew? <==> !d.Rejected? && !HasId(edited)
  {
    if Trim(edited.name) == [] || Trim(edited.content) == [] then Rejected
    else if HasId(edited) then UpdateExisting(edited.id.value)
    else AddNew
  }

  /** The selection after deleting `templateId`: cleared exactly when it is
      the deleted template, kept otherwise. */
  function SelectionAfterDelete(selected: Option<Template>, templateId: int): (r: Option<Template>)
    ensures r.None? <==> selected.None? || selected.value.id == Some(templateId)
    ensures r.Some? ==> r == selected
  {
    if selected.Some? && selected.value.id == Some(templateId) then None else selected
  }

  /** The templates the list shows: those with a truthy id, in order. */
  function VisibleTemplates(templates: seq<Template>): (r: seq<Template>)
    ensures forall t :: t in r <==> t in templates && HasId(t)
    ensures |r| <= |templates|
    decreases |templates|
  {
    if templates == [] then []
    else (if HasId(templates[0]) then [templates[0]] else []) + VisibleTemplates(templates[1..])
  }

  /** The list after an awaited update: merged on success, kept on failure. */
  function ListAfterUpdate(templates: seq<Template>, id: int, reply: Reply<Patch>): seq<Template> {
    if reply.Ok? then UpdateById(templates, id, reply.data) else templates
  }

  /** The list after an awaited add: the row in front on success, kept on
      failure. */
  function ListAfterAdd(templates: seq<Template>, reply: Reply<Template>): seq<Template> {
    if reply.Ok? then [reply.data] + templates else templates
  }

  /** The store's error after an awaited action: its message on failure,
      the previous error otherwise — a success never clears it. */
  function ErrorAfter<T>(error: Option<string>, reply: Reply<T>): Option<string> {
    if reply.Err? then Some(reply.message) else error
  }

  /** The empty template the editor is reset to. */
  const EmptyTemplate: Template := Template(None, "", "", None)

  class TemplateModal {
    var selected: Option<Template>
    var editMode: bool
    var edited: Template
    var showPlaceholderModal: bool
    /** Whether the dialog is open; the parent closes it through `onClose`. */
    var isOpen: bool

    constructor()
      ensures selected.None? && !editMode && edited == EmptyTemplate && !showPlaceholderModal && isOpen
    {
      selected := None;
      editMode := false;
      edited := EmptyTemplate;
      showPlaceholderModal := false;
      isOpen := true;
    }

    /** Picking a template in the list. */
    method Select(t: Template)
      modifies this
      ensures selected == Some(t)
      ensures editMode == old(editMode) && edited == old(edited)
      ensures showPlaceholderModal == old(showPlaceholderModal) && isOpen == old(isOpen)
    {
      selected := Some(t);
    }

    /** `handleApplyTemplate`: the placeholder dialog opens only when a
        template is selected. */
    method HandleApplyTemplate()
      modifies this
      ensures showPlaceholderModal == (old(showPlaceholderModal) || selected.Some?)
      ensures selected == old(selected) && editMode == old(editMode) && edited == old(edited) && isOpen == old(isOpen)
    {
      if selected.Some? {
        showPlaceholderModal := true;
      }
    }

    /** `handlePlaceholdersFilled`: the filled text goes out with the
        selected template's name, and both dialogs close. The placeholder
        dialog is only shown while a template is selected. */
    method HandlePlaceholdersFilled(filledTemplate: string) returns (applied: (string, string))
      requires selected.Some?
      modifies this
      ensures selected == old(selected) && editMode == old(editMode) && edited == old(edited)
      ensures applied == (filledTemplate, selected.value.name)
      ensures !showPlaceholderModal && !isOpen
    {
      applied := (filledTemplate, selected.value.name);
      showPlaceholderModal := false;
      isOpen := false;
    }

    /** `handleEditTemplate`: the template is copied into the editor. */
    method HandleEditTemplate(t: Template)
      modifies this
      ensures edited == t && editMode
      ensures selected == old(selected) && showPlaceholderModal == old(showPlaceholderModal) && isOpen == old(isOpen)
    {
      edited := t;
      editMode := true;
    }

    /** `handleSaveTemplate`. A rejected save touches neither the store nor
        the editor. Otherwise the update (for a template with an id) or the
        add is awaited; if it throws, only the store may have changed; if it
        completes, the editor is left and emptied, the selection is set to
        the action's result — which is nothing, as the store's actions
        return nothing — and the list is fetched again. */
    method HandleSaveTemplate(store: Store, update: Outcome<Patch>, add: Outcome<Template>, fetchReply: Reply<seq<Template>>)
      modifies this, store
      ensures DecideSave(old(edited)).Rejected? ==>
        selected == old(selected) && editMode == old(editMode) && edited == old(edited)
        && store.templates == old(store.templates) && store.error == old(store.error)
        && store.isLoading == old(store.isLoading)
      ensures var d := DecideSave(old(edited));
        (d.UpdateExisting? && update.Threw?) || (d.AddNew? && add.Threw?) ==>
        selected == old(selected) && editMode == old(editMode) && edited == old(edited)
        && store.templates == old(store.templates) && store.error == old(store.error)
        && store.isLoading == old(store.isLoading)
      ensures var d := DecideSave(old(edited));
        (d.UpdateExisting? && update.Completed?) || (d.AddNew? && add.Completed?) ==>
        !editMode && edited == EmptyTemplate && selected.None? && !store.isLoading
        && (fetchReply.Ok? ==> store.templates == DefaultTemplates + fetchReply.data)
        && (fetchReply.Err? ==> store.error == Some(fetchReply.message))
      ensures var d := DecideSave(old(edited));
        d.UpdateExisting? && update.Completed? ==>
        (fetchReply.Err? ==> store.templates == ListAfterUpdate(old(store.templates), d.id, update.reply))
        && (fetchReply.Ok? ==> store.error == ErrorAfter(old(store.error), update.reply))
      ensures var d := DecideSave(old(edited));
        d.AddNew? && add.Completed? ==>
        (fetchReply.Err? ==> store.templates == ListAfterAdd(old(store.templates), add.reply))
        && (fetchReply.Ok? ==> store.error == ErrorAfter(old(store.error), add.reply))
      ensures showPlaceholderModal == old(showPlaceholderModal) && isOpen == old(isOpen)
    {
      var decision := DecideSave(edited);
      if decision.Rejected? {
        return;
      } else if decision.UpdateExisting? {
        if update.Threw? {
          return;
        }
        store.UpdateTemplate(decision.id, update.reply);
      } else {
        if add.Threw? {
          return;
        }
        store.AddTemplate(add.reply);
      }
      editMode := false;
      edited := EmptyTemplate;
      selected := None;
      store.FetchTemplates(fetchReply);
    }

    /** `handleDeleteTemplate`. Without confirmation nothing happens. A
        confirmed delete awaits the store; unless that throws, the selection
        is cleared when it is the deleted template — even when the database
        refused the delete, since the store reports that only in its error
        field. */
    method HandleDeleteTemplate(store: Store, templateId: int, confirmed: bool, remove: Outcome<()>)
      modifies this, store
      ensures !confirmed || remove.Threw? ==>
        selected == old(selected) && store.templates == old(store.templates) && store.error == old(store.error)
      ensures confirmed && remove.Completed? ==> selected == SelectionAfterDelete(old(selected), templateId)
      ensures confirmed && remove.Completed? && remove.reply.Ok? ==>
        store.templates == WithoutId(old(store.templates), templateId) && store.error == old(store.error)
      ensures confirmed && remove.Completed? && remove.reply.Err? ==>
        store.templates == old(store.templates) && store.error == Some(remove.reply.message)
      ensures store.isLoading == old(store.isLoading)
      ensures editMode == old(editMode) && edited == old(edited)
      ensures showPlaceholderModal == old(showPlaceholderModal) && isOpen == old(isOpen)
    {
      if !confirmed || remove.Threw? {
        return;
      }
      store.RemoveTemplate(templateId, remove.reply);
      selected := SelectionAfterDelete(selected, templateId);
    }
  }

  /** The list keeps the order of the store: it distributes over the
      built-ins and the fetched rows. */
  lemma {:induction false} VisibleAppend(a: seq<Template>, b: seq<Template>)
    ensures VisibleTemplates(a + b) == VisibleTemplates(a) + VisibleTemplates(b)
    decreases |a|
  {
    if a != [] {
      assert (a + b)[1..] == a[1..] + b;
      VisibleAppend(a[1..], b);
    } else {
      assert a + b == b;
    }
  }

  /** All eight built-in templates are listed. */
  lemma BuiltInsAllVisible()
    ensures VisibleTemplates(DefaultTemplates) == DefaultTemplates
  {
    var d := DefaultTemplates;
    forall i | 0 <= i < |d| ensures HasId(d[i]) { }
    VisibleAll(d);
  }

  lemma {:induction false} VisibleAll(templates: seq<Template>)
    requires forall i :: 0 <= i < |templates| ==> HasId(templates[i])
    ensures VisibleTemplates(templates) == templates
    decreases |templates|
  {
    if templates != [] {
      VisibleAll(templates[1..]);
    }
  }

  /** A template being saved for the first time (no id) is added, never
      sent as an update; nor is one whose id is 0. */
  lemma NoIdMeansAdd(edited: Template)
    requires !IsBlank(edited.name) && !IsBlank(edited.content)
    requires edited.id.None? || edited.id == Some(0)
    ensures DecideSave(edited) == AddNew
  {
  }
}
