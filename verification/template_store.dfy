/** The template list store: the built-in templates followed by the rows of
    the `prompt_templates` table, with a loading flag and the last error
    message. Each reply of the database is a parameter. */
module PromptTemplateStore {
  import opened Wrappers
  import opened PromptTemplates
  import opened BuiltInTemplates

  /** The fields a database reply carries for an updated row; an absent
      field (`None`) leaves the template's own value in place. */
  datatype Patch = Patch(id: Option<Option<int>>, name: Option<string>, content: Option<string>, category: Option<Option<string>>)

  /** `{ ...t, ...data }`: the reply's fields over the template's. */
  function Merge(t: Template, p: Patch): (r: Template)
    ensures p == Patch(None, None, None, None) ==> r == t
    ensures p.name.Some? ==> r.name == p.name.value
    ensures p.name.None? ==> r.name == t.name
    ensures p.content.Some? ==> r.content == p.content.value
    ensures p.content.None? ==> r.content == t.content
    ensures p.category.Some? ==> r.category == p.category.value
    ensures p.category.None? ==> r.category == t.category
    ensures r.id == p.id.GetOr(t.id)
  {
    Template(p.id.GetOr(t.id), p.name.GetOr(t.name), p.content.GetOr(t.content), p.category.GetOr(t.category))
  }

  /** `templates.filter(t => t.id !== id)`. */
  function WithoutId(templates: seq<Template>, id: int): (r: seq<Template>)
    ensures forall t :: t in r <==> t in templates && t.id != Some(id)
    ensures |r| <= |templates|
    decreases |templates|
  {
    if templates == [] then []
    else (if templates[0].id == Some(id) then [] else [templates[0]]) + WithoutId(templates[1..], id)
  }

  /** `templates.map(t => t.id === id ? { ...t, ...data } : t)`. */
  function UpdateById(templates: seq<Template>, id: int, p: Patch): (r: seq<Template>)
    ensures |r| == |templates|
    ensures forall i :: 0 <= i < |templates| ==> r[i] == if templates[i].id == Some(id) then Merge(templates[i], p) else templates[i]
    decreases |templates|
  {
    if templates == [] then []
    else [if templates[0].id == Some(id) then Merge(templates[0], p) else templates[0]] + UpdateById(templates[1..], id, p)
  }

  class Store {
    var templates: seq<Template>
    var isLoading: bool
    var error: Option<string>

    /** The store starts with the built-in templates, not loading and with
        no error. */
    constructor()
      ensures templates == DefaultTemplates && !isLoading && error.None?
    {
      templates := DefaultTemplates;
      isLoading := false;
      error := None;
    }

    /** The start of `fetchTemplates`: only the loading flag is raised. */
    method BeginFetch()
      modifies this
      ensures isLoading && templates == old(templates) && error == old(error)
    {
      isLoading := true;
    }

    /** The end of `fetchTemplates` given the query's reply (rows newest
        first): on success the list is the built-ins followed by the rows;
        on failure the list is kept and the message recorded. The loading
        flag is lowered either way. */
    method FinishFetch(reply: Reply<seq<Template>>)
      modifies this
      ensures !isLoading
      ensures reply.Ok? ==> templates == DefaultTemplates + reply.data && error == old(error)
      ensures reply.Err? ==> templates == old(templates) && error == Some(reply.message)
    {
      match reply
      case Ok(rows) =>
        templates := DefaultTemplates + rows;
        isLoading := false;
      case Err(message) =>
        error := Some(message);
        isLoading := false;
    }

    /** `fetchTemplates` as a whole. */
    method FetchTemplates(reply: Reply<seq<Template>>)
      modifies this
      ensures !isLoading
      ensures reply.Ok? ==> templates == DefaultTemplates + reply.data && error == old(error)
      ensures reply.Err? ==> templates == old(templates) && error == Some(reply.message)
    {
      BeginFetch();
      FinishFetch(reply);
    }

    /** `addTemplate` given the insert's reply: the returned row is put in
        front; a failure only records the message. */
    method AddTemplate(reply: Reply<Template>)
      modifies this
      ensures isLoading == old(isLoading)
      ensures reply.Ok? ==> templates == [reply.data] + old(templates) && error == old(error)
      ensures reply.Err? ==> templates == old(templates) && error == Some(reply.message)
    {
      match reply
      case Ok(row) => templates := [row] + templates;
      case Err(message) => error := Some(message);
    }

    /** `removeTemplate` given the delete's reply: every template with that
        id goes, built-in or not; a failure only records the message. */
    method RemoveTemplate(templateId: int, reply: Reply<()>)
      modifies this
      ensures isLoading == old(isLoading)
      ensures reply.Ok? ==> templates == WithoutId(old(templates), templateId) && error == old(error)
      ensures reply.Err? ==> templates == old(templates) && error == Some(reply.message)
    {
      match reply
      case Ok(_) => templates := WithoutId(templates, templateId);
      case Err(message) => error := Some(message);
    }

    /** `updateTemplate` given the update's reply: the templates with that id
        take the returned fields; a failure only records the message. */
    method UpdateTemplate(templateId: int, reply: Reply<Patch>)
      modifies this
      ensures isLoading == old(isLoading)
      ensures reply.Ok? ==> templates == UpdateById(old(templates), templateId, reply.data) && error == old(error)
      ensures reply.Err? ==> templates == old(templates) && error == Some(reply.message)
    {
      match reply
      case Ok(p) => templates := UpdateById(templates, templateId, p);
      case Err(message) => error := Some(message);
    }
  }

  // ---------------------------------------------------------------------
  // Laws of the list effects

  /** Removing by id keeps the order of what stays: it distributes over
      the built-ins and the fetched rows. */
  lemma {:induction false} WithoutIdAppend(a: seq<Template>, b: seq<Template>, id: int)
    ensures WithoutId(a + b, id) == WithoutId(a, id) + WithoutId(b, id)
    decreases |a|
  {
    if a != [] {
      assert (a + b)[1..] == a[1..] + b;
      WithoutIdAppend(a[1..], b, id);
    } else {
      assert a + b == b;
    }
  }

  /** Removing the same id twice is removing it once. */
  lemma {:induction false} WithoutIdIdempotent(templates: seq<Template>, id: int)
    ensures WithoutId(WithoutId(templates, id), id) == WithoutId(templates, id)
    decreases |templates|
  {
    if templates != [] {
      WithoutIdIdempotent(templates[1..], id);
      var head := if templates[0].id == Some(id) then [] else [templates[0]];
      WithoutIdAppend(head, WithoutId(templates[1..], id), id);
    }
  }

  /** A list without that id is left as it is. */
  lemma {:induction false} WithoutAbsentId(templates: seq<Template>, id: int)
    requires forall i :: 0 <= i < |templates| ==> templates[i].id != Some(id)
    ensures WithoutId(templates, id) == templates
    decreases |templates|
  {
    if templates != [] {
      WithoutAbsentId(templates[1..], id);
    }
  }

  /** Updating keeps every id when the reply carries none, and updating
      twice with the same reply is updating once. */
  lemma UpdateByIdStable(templates: seq<Template>, id: int, p: Patch)
    requires p.id.None?
    ensures forall i :: 0 <= i < |templates| ==> UpdateById(templates, id, p)[i].id == templates[i].id
    ensures UpdateById(UpdateById(templates, id, p), id, p) == UpdateById(templates, id, p)
  {
    var once := UpdateById(templates, id, p);
    var twice := UpdateById(once, id, p);
    forall i | 0 <= i < |templates| ensures twice[i] == once[i] {
      if templates[i].id == Some(id) {
        var m := Merge(templates[i], p);
        assert Merge(m, p) == m;
      }
    }
  }

  /** A removal after a successful fetch reaches the built-in with that id
      too: removing id 3 drops the built-in "Generate Code". */
  lemma RemoveReachesBuiltIns(rows: seq<Template>)
    ensures DefaultTemplates[2] !in WithoutId(DefaultTemplates + rows, 3)
    ensures DefaultTemplates[0] in WithoutId(DefaultTemplates + rows, 3)
  {
    DefaultTemplateIds();
    RemoveFromFront(DefaultTemplates, rows, 3, 2);
    RemoveFromFront(DefaultTemplates, rows, 3, 0);
  }

  /** Removal looks at every template of the list alike, the leading ones
      included: one is dropped exactly when it carries the id. */
  lemma RemoveFromFront(front: seq<Template>, rows: seq<Template>, id: int, i: nat)
    requires i < |front|
    ensures front[i] in WithoutId(front + rows, id) <==> front[i].id != Some(id)
  {
    assert (front + rows)[i] == front[i];
  }
}
