/** The placeholder dialog: one field per placeholder key of a template, a
    map of error messages beside it, and two ways of substituting the
    fields into the template text — the fail-closed apply and the preview
    that never fails. */
module PlaceholderFill {
  import opened Wrappers
  import opened Text
  import opened PromptTemplates
  import opened TemplateLaws

  const RequiredMessage: string := "This field is required"

  /** The state of one field: what the user typed (or the file name), the
      placeholder type, and the text of an attached file once it is read. */
  datatype Entry = Entry(value: string, typ: string, fileContent: Option<string>)

  /** The seven text-based MIME types a file field accepts. */
  const AllowedTypes: seq<string> :=
    ["text/plain", "text/html", "text/css", "text/javascript", "application/json", "application/xml", "text/markdown"]

  /** A file picked in a file field: its name and its MIME type. */
  datatype PickedFile = PickedFile(name: string, mime: string)

  predicate Filled(e: Entry) {
    !IsBlank(e.value)
  }

  predicate AllFilled(placeholders: map<string, Entry>) {
    forall k :: k in placeholders ==> Filled(placeholders[k])
  }

  /** The errors validation reports: the fixed message for every blank field
      and nothing for the others. */
  function RequiredErrors(placeholders: map<string, Entry>): (r: map<string, string>)
    ensures forall k :: k in r <==> k in placeholders && !Filled(placeholders[k])
    ensures forall k :: k in r ==> r[k] == RequiredMessage
  {
    map k | k in placeholders && !Filled(placeholders[k]) :: RequiredMessage
  }

  /** A map with the fixed message for exactly the blank fields is the
      map validation reports. */
  lemma ErrorsMatch(placeholders: map<string, Entry>, errors: map<string, string>)
    requires forall k :: k in errors <==> k in placeholders && !Filled(placeholders[k])
    requires forall k :: k in errors ==> errors[k] == RequiredMessage
    ensures errors == RequiredErrors(placeholders)
  {
  }

  function KeysOf(es: seq<Placeholder>): (r: seq<string>)
    ensures |r| == |es| && forall i :: 0 <= i < |es| ==> r[i] == es[i].key
  {
    seq(|es|, i requires 0 <= i < |es| => es[i].key)
  }

  lemma KeysOfSnoc(d: seq<Placeholder>, x: Placeholder)
    ensures KeysOf(d + [x]) == KeysOf(d) + [x.key]
  {
  }

  lemma KeysOfFront(es: seq<Placeholder>)
    requires es != []
    ensures KeysOf(es) == KeysOf(es[..|es| - 1]) + [es[|es| - 1].key]
  {
  }

  /** The first entry of every key, in order of first appearance. */
  function FirstOccurrences(es: seq<Placeholder>): (r: seq<Placeholder>)
    ensures forall i, j :: 0 <= i < j < |r| ==> r[i].key != r[j].key
    ensures forall i :: 0 <= i < |r| ==> r[i] in es
    ensures forall i :: 0 <= i < |es| ==> es[i].key in KeysOf(r)
    decreases |es|
  {
    if es == [] then []
    else
      var front := es[..|es| - 1];
      var last := es[|es| - 1];
      var d := FirstOccurrences(front);
      KeysOfFront(es);
      assert forall i :: 0 <= i < |front| ==> es[i] == front[i];
      if last.key in KeysOf(d) then d
      else
        KeysOfSnoc(d, last);
        d + [last]
  }

  /** The position of the first entry with key `k`, or `|es|` when there is
      none. */
  function FirstAt(es: seq<Placeholder>, k: string): (n: nat)
    ensures n <= |es|
    ensures n < |es| ==> es[n].key == k
    decreases |es|
  {
    if es == [] then 0
    else if es[0].key == k then 0
    else 1 + FirstAt(es[1..], k)
  }

  /** No entry before `FirstAt` has the key. */
  lemma {:induction false} FirstAtBefore(es: seq<Placeholder>, k: string, j: nat)
    requires j < FirstAt(es, k)
    ensures es[j].key != k
    decreases |es|
  {
    if j > 0 {
      FirstAtBefore(es[1..], k, j - 1);
    }
  }

  /** `FirstAt` is the only position with its two properties. */
  lemma FirstAtUnique(es: seq<Placeholder>, k: string, m: nat)
    requires m <= |es| && (m < |es| ==> es[m].key == k)
    requires forall j :: 0 <= j < m ==> es[j].key != k
    ensures FirstAt(es, k) == m
  {
    var n := FirstAt(es, k);
    if m < n {
      FirstAtBefore(es, k, m);
    }
  }

  /** Each kept entry is its key's first entry, and the kept entries follow
      the order in which their keys first appear: with the key coverage of
      `FirstOccurrences`, this pins the list down. */
  lemma {:induction false} FirstOccurrencesFirst(es: seq<Placeholder>)
    ensures FirstPositions(es, FirstOccurrences(es))
    decreases |es|
  {
    if es != [] {
      var front := es[..|es| - 1];
      var last := es[|es| - 1];
      var d := FirstOccurrences(front);
      FirstOccurrencesFirst(front);
      FirstOccurrencesUnfold(es);
      FirstPositionsGrow(es, d);
      if last.key !in KeysOf(d) {
        NewKeyFirstAt(es, d);
        FirstPositionsSnoc(es, d);
      }
    }
  }

  lemma FirstOccurrencesUnfold(es: seq<Placeholder>)
    requires es != []
    ensures var d := FirstOccurrences(es[..|es| - 1]);
      FirstOccurrences(es) == if es[|es| - 1].key in KeysOf(d) then d else d + [es[|es| - 1]]
  {
  }

  /** A key no earlier entry has is first seen in the last entry. */
  lemma NewKeyFirstAt(es: seq<Placeholder>, d: seq<Placeholder>)
    requires es != [] && d == FirstOccurrences(es[..|es| - 1]) && es[|es| - 1].key !in KeysOf(d)
    ensures FirstAt(es, es[|es| - 1].key) == |es| - 1
  {
    var front := es[..|es| - 1];
    forall j | 0 <= j < |front| ensures es[j].key != es[|es| - 1].key {
      assert es[j] == front[j];
      assert front[j].key in KeysOf(d);
    }
    FirstAtUnique(es, es[|es| - 1].key, |front|);
  }

  /** `r` lists first entries of `es`, at increasing positions. */
  predicate FirstPositions(es: seq<Placeholder>, r: seq<Placeholder>) {
    (forall i :: 0 <= i < |r| ==> FirstAt(es, r[i].key) < |es| && es[FirstAt(es, r[i].key)] == r[i])
    && (forall i, j :: 0 <= i < j < |r| ==> FirstAt(es, r[i].key) < FirstAt(es, r[j].key))
  }

  /** First entries of all but the last entry stay first entries, at the
      same positions, once the last entry is added. */
  lemma FirstPositionsGrow(es: seq<Placeholder>, d: seq<Placeholder>)
    requires es != [] && FirstPositions(es[..|es| - 1], d)
    ensures FirstPositions(es, d)
    ensures forall i :: 0 <= i < |d| ==> FirstAt(es, d[i].key) < |es| - 1
  {
    var front := es[..|es| - 1];
    forall i | 0 <= i < |d|
      ensures FirstAt(es, d[i].key) == FirstAt(front, d[i].key) < |front|
      ensures es[FirstAt(es, d[i].key)] == d[i]
    {
      var m := FirstAt(front, d[i].key);
      assert es[m] == front[m];
      forall j | 0 <= j < m ensures es[j].key != d[i].key {
        FirstAtBefore(front, d[i].key, j);
        assert es[j] == front[j];
      }
      FirstAtUnique(es, d[i].key, m);
    }
  }

  /** A key first seen in the last entry extends the first entries. */
  lemma FirstPositionsSnoc(es: seq<Placeholder>, d: seq<Placeholder>)
    requires es != [] && FirstPositions(es, d)
    requires forall i :: 0 <= i < |d| ==> FirstAt(es, d[i].key) < |es| - 1
    requires FirstAt(es, es[|es| - 1].key) == |es| - 1
    ensures FirstPositions(es, d + [es[|es| - 1]])
  {
    var x := es[|es| - 1];
    var r := d + [x];
    forall i | 0 <= i < |r|
      ensures FirstAt(es, r[i].key) < |es| && es[FirstAt(es, r[i].key)] == r[i]
    {
      if i < |d| {
        assert r[i] == d[i];
      } else {
        assert r[i] == x;
      }
    }
    forall i, j | 0 <= i < j < |r|
      ensures FirstAt(es, r[i].key) < FirstAt(es, r[j].key)
    {
      assert r[i] == d[i];
      if j < |d| {
        assert r[j] == d[j];
      } else {
        assert r[j] == x;
      }
    }
  }

  /** The fields a fresh dialog starts with: one per entry, empty, typed by
      the entry; for a repeated key the last entry's type is the one kept. */
  function Initial(es: seq<Placeholder>): (r: map<string, Entry>)
    ensures forall k :: k in r <==> k in KeysOf(es)
    ensures forall k :: k in r ==> r[k].value == [] && r[k].fileContent == None
    ensures forall i :: 0 <= i < |es| && (forall j :: i < j < |es| ==> es[j].key != es[i].key) ==>
      r[es[i].key].typ == es[i].typ
    decreases |es|
  {
    if es == [] then map[]
    else
      var front := es[..|es| - 1];
      var last := es[|es| - 1];
      KeysOfFront(es);
      assert forall i :: 0 <= i < |front| ==> front[i] == es[i];
      Initial(front)[last.key := Entry([], last.typ, None)]
  }

  /** The fields of a fresh dialog are typed by each key's first entry. */
  lemma FieldTypesFromFirstEntry(es: seq<Placeholder>)
    ensures var fields := Initial(FirstOccurrences(es));
      forall k :: k in fields ==> FirstAt(es, k) < |es| && fields[k].typ == es[FirstAt(es, k)].typ
  {
    var r := FirstOccurrences(es);
    FirstOccurrencesFirst(es);
    forall k | k in Initial(r) ensures FirstAt(es, k) < |es| && Initial(r)[k].typ == es[FirstAt(es, k)].typ {
      var i :| 0 <= i < |r| && KeysOf(r)[i] == k;
      assert forall j :: i < j < |r| ==> r[j].key != r[i].key;
      assert Initial(r)[r[i].key].typ == r[i].typ;
    }
  }

  /** The text `handleApply` puts in place of a field's markers: for a file
      field the file's text when it is non-empty, `[File: <name>]`
      otherwise; for any other field its value, untrimmed. */
  function ApplyValue(e: Entry): string {
    if e.typ == "file" then
      if e.fileContent.Some? && e.fileContent.value != [] then e.fileContent.value else "[File: " + e.value + "]"
    else e.value
  }

  /** The text `getPreview` shows in place of a field's markers: for a file
      field always `[File: <name>]`; for any other field its value, or
      `[<key>]` while the value is empty. */
  function PreviewValue(key: string, e: Entry): string {
    if e.typ == "file" then "[File: " + e.value + "]"
    else if e.value == [] then "[" + key + "]"
    else e.value
  }

  /** The (key, text) pairs `handleApply` substitutes, in field order. */
  function ApplyPairs(keys: seq<string>, placeholders: map<string, Entry>): (r: seq<(string, string)>)
    requires forall i :: 0 <= i < |keys| ==> keys[i] in placeholders
    ensures |r| == |keys|
    ensures forall i :: 0 <= i < |keys| ==> r[i] == (keys[i], ApplyValue(placeholders[keys[i]]))
    decreases |keys|
  {
    if keys == [] then [] else [(keys[0], ApplyValue(placeholders[keys[0]]))] + ApplyPairs(keys[1..], placeholders)
  }

  /** The (key, text) pairs `getPreview` substitutes, in field order. */
  function PreviewPairs(keys: seq<string>, placeholders: map<string, Entry>): (r: seq<(string, string)>)
    requires forall i :: 0 <= i < |keys| ==> keys[i] in placeholders
    ensures |r| == |keys|
    ensures forall i :: 0 <= i < |keys| ==> r[i] == (keys[i], PreviewValue(keys[i], placeholders[keys[i]]))
    decreases |keys|
  {
    if keys == [] then [] else [(keys[0], PreviewValue(keys[0], placeholders[keys[0]]))] + PreviewPairs(keys[1..], placeholders)
  }

  /** The field map built from the parsed entries: a key's first entry
      gives its field, later entries of the same key are skipped. */
  method InitialFields(parsed: seq<Placeholder>) returns (keys: seq<string>, fields: map<string, Entry>)
    ensures keys == KeysOf(FirstOccurrences(parsed))
    ensures fields == Initial(FirstOccurrences(parsed))
  {
    keys := [];
    fields := map[];
    for i := 0 to |parsed|
      invariant keys == KeysOf(FirstOccurrences(parsed[..i]))
      invariant fields == Initial(FirstOccurrences(parsed[..i]))
    {
      var p := parsed[i];
      FirstOccurrencesStep(parsed, i);
      if p.key !in keys {
        InitialSnoc(FirstOccurrences(parsed[..i]), p);
        keys := keys + [p.key];
        fields := fields[p.key := Entry([], p.typ, None)];
      }
    }
    assert parsed[..|parsed|] == parsed;
  }

  lemma FirstOccurrencesStep(es: seq<Placeholder>, i: nat)
    requires i < |es|
    ensures var d := FirstOccurrences(es[..i]);
      FirstOccurrences(es[..i + 1]) == if es[i].key in KeysOf(d) then d else d + [es[i]]
  {
    assert es[..i + 1][..i] == es[..i];
  }

  lemma InitialSnoc(d: seq<Placeholder>, p: Placeholder)
    ensures KeysOf(d + [p]) == KeysOf(d) + [p.key]
    ensures Initial(d + [p]) == Initial(d)[p.key := Entry([], p.typ, None)]
  {
    assert (d + [p])[..|d|] == d;
    KeysOfSnoc(d, p);
  }

  /** The dialog for one template. `keys` is the order in which the fields
      are listed and substituted (the insertion order of the field map). */
  class FillDialog {
    const content: string
    var keys: seq<string>
    var placeholders: map<string, Entry>
    var errors: map<string, string>
    var isValid: bool

    /** One field per key, keys distinct and `\w+`, as the parser delivers
        them. */
    ghost predicate Valid()
      reads this
    {
      (forall i, j :: 0 <= i < j < |keys| ==> keys[i] != keys[j])
      && (forall k :: k in placeholders <==> k in keys)
      && (forall i :: 0 <= i < |keys| ==> IsWord(keys[i]))
    }

    /** Opening the dialog on a template: one empty field per placeholder
        key, typed by the key's first marker, in order of first appearance;
        then the validation that runs whenever the fields change, so a fresh
        dialog is valid only when the template has no placeholder. */
    constructor(content: string)
      ensures this.content == content && Valid()
      ensures keys == KeysOf(FirstOccurrences(Parse(content)))
      ensures placeholders == Initial(FirstOccurrences(Parse(content)))
      ensures errors == RequiredErrors(placeholders)
      ensures isValid <==> keys == []
    {
      this.content := content;
      var parsed := ParsePlaceholders(content);
      var ks, fields := InitialFields(parsed);
      keys := ks;
      placeholders := fields;
      errors := map[];
      isValid := false;
      new;
      ghost var fo := FirstOccurrences(parsed);
      forall i | 0 <= i < |keys| ensures IsWord(keys[i]) {
        assert fo[i] in parsed;
      }
      var ok := ValidateInputs();
      if keys != [] {
        assert keys[0] in placeholders && placeholders[keys[0]].value == [];
      }
    }

    /** The check `validateInputs` makes, over the fields in order: `ok`
        holds exactly when no field is blank, and `newErrors` holds the fixed
        message for exactly the blank fields. */
    method CheckInputs() returns (newErrors: map<string, string>, ok: bool)
      requires Valid()
      ensures newErrors == RequiredErrors(placeholders)
      ensures ok <==> AllFilled(placeholders)
    {
      newErrors := map[];
      ok := true;
      for i := 0 to |keys|
        invariant forall k :: k in newErrors <==> k in keys[..i] && !Filled(placeholders[k])
        invariant forall k :: k in newErrors ==> newErrors[k] == RequiredMessage
        invariant ok <==> forall j :: 0 <= j < i ==> Filled(placeholders[keys[j]])
      {
        var key := keys[i];
        assert keys[..i + 1] == keys[..i] + [key];
        if Trim(placeholders[key].value) == [] {
          newErrors := newErrors[key := RequiredMessage];
          ok := false;
        }
      }
      assert keys[..|keys|] == keys;
      ErrorsMatch(placeholders, newErrors);
      if !ok {
        var j :| 0 <= j < |keys| && !Filled(placeholders[keys[j]]);
      }
    }

    /** `validateInputs`: the check, recorded in `errors` and `isValid`. */
    method ValidateInputs() returns (ok: bool)
      requires Valid()
      modifies this
      ensures Valid() && keys == old(keys) && placeholders == old(placeholders)
      ensures errors == RequiredErrors(placeholders)
      ensures isValid == ok && (ok <==> AllFilled(placeholders))
    {
      var newErrors;
      newErrors, ok := CheckInputs();
      errors := newErrors;
      isValid := ok;
    }

    /** `handleInputChange`: the field's value is replaced (its type and
        file text are kept, every other field is untouched); the field's
        error is set when the new value is blank and removed otherwise, and
        no other error changes. */
    method HandleInputChange(key: string, value: string)
      requires Valid() && key in placeholders
      modifies this
      ensures Valid() && keys == old(keys) && isValid == old(isValid)
      ensures placeholders == old(placeholders)[key := old(placeholders)[key].(value := value)]
      ensures errors == if IsBlank(value) then old(errors)[key := RequiredMessage] else old(errors) - {key}
    {
      placeholders := placeholders[key := placeholders[key].(value := value)];
      if Trim(value) != [] {
        errors := errors - {key};
      } else {
        errors := errors[key := RequiredMessage];
      }
    }

    /** `handleFileUpload` with the file's text `readText` standing for what
        the reader delivers: without a file, or with a type outside the seven
        allowed ones, nothing changes; otherwise, once read, the field's
        value is the file name (with the error rule of an edit) and its file
        text is `readText`. */
    method HandleFileUpload(key: string, file: Option<PickedFile>, readText: string)
      requires Valid() && key in placeholders
      modifies this
      ensures Valid() && keys == old(keys) && isValid == old(isValid)
      ensures file.None? || file.value.mime !in AllowedTypes ==>
        placeholders == old(placeholders) && errors == old(errors)
      ensures file.Some? && file.value.mime in AllowedTypes ==>
        placeholders == old(placeholders)[key := old(placeholders)[key].(value := file.value.name, fileContent := Some(readText))]
        && errors == if IsBlank(file.value.name) then old(errors)[key := RequiredMessage] else old(errors) - {key}
    {
      if file.None? {
        return;
      }
      if file.value.mime !in AllowedTypes {
        return;
      }
      HandleInputChange(key, file.value.name);
      placeholders := placeholders[key := placeholders[key].(fileContent := Some(readText))];
    }

    /** The substitution loop of `handleApply`: each field's markers, in
        field order, replaced by its apply text. */
    method FilledText() returns (filled: string)
      requires Valid()
      ensures filled == FillAll(content, ApplyPairs(keys, placeholders))
    {
      ghost var pairs := ApplyPairs(keys, placeholders);
      filled := content;
      for i := 0 to |keys|
        invariant FillAll(filled, pairs[i..]) == FillAll(content, pairs)
      {
        assert pairs[i..][1..] == pairs[i + 1..];
        var key := keys[i];
        filled := FillKey(filled, key, ApplyValue(placeholders[key]));
      }
    }

    /** `handleApply`: validation first; only when every field is filled is
        the substituted text produced (and handed on); otherwise nothing is
        produced. */
    method HandleApply() returns (filled: Option<string>)
      requires Valid()
      modifies this
      ensures Valid() && keys == old(keys) && placeholders == old(placeholders)
      ensures errors == RequiredErrors(placeholders) && (isValid <==> AllFilled(placeholders))
      ensures filled.Some? <==> AllFilled(placeholders)
      ensures filled.Some? ==> filled.value == FillAll(content, ApplyPairs(keys, placeholders))
    {
      var ok := ValidateInputs();
      if ok {
        var text := FilledText();
        filled := Some(text);
      } else {
        filled := None;
      }
    }

    /** `getPreview`: each field's markers, in field order, replaced by its
        preview text; it produces a text whatever the fields hold. */
    method GetPreview() returns (preview: string)
      requires Valid()
      ensures preview == FillAll(content, PreviewPairs(keys, placeholders))
    {
      ghost var pairs := PreviewPairs(keys, placeholders);
      preview := content;
      for i := 0 to |keys|
        invariant FillAll(preview, pairs[i..]) == FillAll(content, pairs)
      {
        assert pairs[i..][1..] == pairs[i + 1..];
        var key := keys[i];
        preview := FillKey(preview, key, PreviewValue(key, placeholders[key]));
      }
    }
  }

  // ---------------------------------------------------------------------
  // Laws

  /** The error update of an edit agrees with a full validation: if the
      errors matched the fields before the edit, they match them after. */
  lemma EditKeepsErrorsExact(errors: map<string, string>, placeholders: map<string, Entry>, key: string, value: string)
    requires key in placeholders && errors == RequiredErrors(placeholders)
    ensures (if IsBlank(value) then errors[key := RequiredMessage] else errors - {key})
      == RequiredErrors(placeholders[key := placeholders[key].(value := value)])
  {
    var after := placeholders[key := placeholders[key].(value := value)];
    var e := if IsBlank(value) then errors[key := RequiredMessage] else errors - {key};
    assert forall k :: k in e <==> k in RequiredErrors(after);
  }

  /** When every field holds non-blank text and none is a file field, the
      preview substitutes exactly what apply substitutes. */
  lemma PreviewMatchesApplyWhenFilled(keys: seq<string>, placeholders: map<string, Entry>)
    requires forall i :: 0 <= i < |keys| ==> keys[i] in placeholders
    requires AllFilled(placeholders)
    requires forall k :: k in placeholders ==> placeholders[k].typ != "file"
    ensures PreviewPairs(keys, placeholders) == ApplyPairs(keys, placeholders)
  {
    forall i | 0 <= i < |keys| ensures PreviewValue(keys[i], placeholders[keys[i]]) == ApplyValue(placeholders[keys[i]]) {
      var e := placeholders[keys[i]];
      assert Filled(e);
    }
  }

  /** What the preview shows against what apply inserts, field by field:
      the preview never substitutes an empty text (an empty text field shows
      `[key]`), and a file field whose text was read is only named by the
      preview while apply inserts the file's text. */
  lemma PreviewAgainstApply(keys: seq<string>, placeholders: map<string, Entry>)
    requires forall i :: 0 <= i < |keys| ==> keys[i] in placeholders
    ensures var preview, apply := PreviewPairs(keys, placeholders), ApplyPairs(keys, placeholders);
      forall i :: 0 <= i < |keys| ==>
        preview[i].0 == apply[i].0 == keys[i] && preview[i].1 != []
        && (placeholders[keys[i]].typ != "file" && placeholders[keys[i]].value == [] ==>
              preview[i].1 == "[" + keys[i] + "]" && apply[i].1 == [])
        && (placeholders[keys[i]].typ == "file" && placeholders[keys[i]].fileContent.Some? && placeholders[keys[i]].fileContent.value != [] ==>
              preview[i].1 == "[File: " + placeholders[keys[i]].value + "]" && apply[i].1 == placeholders[keys[i]].fileContent.value)
  {
  }

  /** Applying a filled dialog on a well-formed template whose markers are
      all fields of the dialog, with texts free of `{` and `$`, leaves no
      placeholder in the result. */
  lemma ApplyLeavesNoPlaceholder(parts: seq<Segment>, keys: seq<string>, placeholders: map<string, Entry>)
    requires WellFormed(parts)
    requires forall i :: 0 <= i < |keys| ==> keys[i] in placeholders && IsWord(keys[i])
    requires forall e :: e in Entries(parts) ==> e.key in keys
    requires forall k :: k in placeholders ==> '{' !in ApplyValue(placeholders[k]) && '$' !in ApplyValue(placeholders[k])
    ensures Parse(FillAll(Render(parts), ApplyPairs(keys, placeholders))) == []
  {
    var pairs := ApplyPairs(keys, placeholders);
    forall e | e in Entries(parts) ensures exists i :: 0 <= i < |pairs| && pairs[i].0 == e.key {
      var i :| 0 <= i < |keys| && keys[i] == e.key;
      assert pairs[i].0 == e.key;
    }
    FillEveryKeyLeavesNone(parts, pairs);
  }

  /** A dialog opened on a well-formed template has a field for exactly the
      keys its markers use. */
  lemma InitialFieldsCoverMarkers(parts: seq<Segment>)
    requires WellFormed(parts)
    ensures forall k :: k in Initial(FirstOccurrences(Parse(Render(parts)))) <==> exists e :: e in Entries(parts) && e.key == k
  {
    ParseRendered(parts);
    InitialKeys(Entries(parts));
  }

  /** The dialog has a field for exactly the keys of the entries. */
  lemma InitialKeys(es: seq<Placeholder>)
    ensures forall k :: k in Initial(FirstOccurrences(es)) <==> exists e :: e in es && e.key == k
  {
    var fo := FirstOccurrences(es);
    forall k ensures k in Initial(fo) <==> exists e :: e in es && e.key == k {
      if k in Initial(fo) {
        var i :| 0 <= i < |fo| && KeysOf(fo)[i] == k;
        assert fo[i] in es;
      }
      if exists e :: e in es && e.key == k {
        var e :| e in es && e.key == k;
        var j :| 0 <= j < |es| && es[j] == e;
        assert es[j].key in KeysOf(fo);
      }
    }
  }

  /** The first marker of a key types its field: in `{{x:file}} {{x}}` the
      field `x` is a file field, although the second marker declares no
      type. */
  lemma RepeatedKeyTypedByFirst()
    ensures var fields := Initial(FirstOccurrences(Parse("{{x:file}} {{x}}")));
      "x" in fields && fields["x"].typ == "file"
  {
    RepeatedKeyRepeated();
    var es := [Placeholder("x", "file"), Placeholder("x", "text")];
    FieldTypesFromFirstEntry(es);
    assert es[0].key in KeysOf(FirstOccurrences(es));
    assert FirstAt(es, "x") == 0;
  }
}
