/** The prompt-template placeholder engine of src/utils/promptTemplates.js:
    the scanner behind `parsePlaceholders`
    (the global regular expression `{{(\w+)(?::(\w+))?}}`), and the global
    per-key replacement behind `fillTemplate`, including the `$` patterns
    that `String.prototype.replace` expands in a replacement string. The
    built-in template table is the module `BuiltInTemplates`. */
module PromptTemplates {
  import opened Wrappers
  import opened Text

  /** A prompt template. `id` is absent for a template not yet stored;
      `category` is absent when the record has no such property. */
  datatype Template = Template(id: Option<int>, name: string, content: string, category: Option<string>)

  /** One entry of the list `parsePlaceholders` returns. */
  datatype Placeholder = Placeholder(key: string, typ: string)

  // ---------------------------------------------------------------------
  // Marker syntax

  /** The text of a marker: `{{key}}`, or `{{key:type}}` when a type is declared. */
  function MarkerText(key: string, declared: Option<string>): string {
    "{{" + key + TailText(declared) + "}}"
  }

  /** What follows the key inside a marker, before the closing braces. */
  function TailText(declared: Option<string>): string {
    if declared.Some? then ":" + declared.value else ""
  }

  /** A marker the regular expression can match: a `\w+` key and, if declared,
      a `\w+` type. */
  predicate WellFormedMarker(key: string, declared: Option<string>) {
    IsWord(key) && (declared.Some? ==> IsWord(declared.value))
  }

  /** The length of the longest run of `\w` characters `s` starts with
      (what the greedy `\w+` consumes, when it is not zero). */
  function WordPrefix(s: string): (n: nat)
    ensures n <= |s|
    ensures forall i :: 0 <= i < n ==> IsWordChar(s[i])
    ensures n == |s| || !IsWordChar(s[n])
  {
    if |s| > 0 && IsWordChar(s[0]) then
      var m := WordPrefix(s[1..]);
      assert forall i :: 1 <= i < 1 + m ==> s[i] == s[1..][i - 1];
      1 + m
    else 0
  }

  /** The end of a marker after its key: the declared type, if any, and the
      number of characters consumed, closing braces included. */
  datatype Tail = Tail(declared: Option<string>, len: nat)

  /** Matches `(?::(\w+))?}}` at the start of `s`. Backtracking cannot help
      this pattern: a shorter `\w+` would leave a word character where `}`
      is needed, and skipping the optional group after a `:` leaves the `:`
      where `}` is needed; so the first choice is the only one. */
  function MarkerTail(s: string): (t: Option<Tail>)
    ensures t.Some? ==> t.value.len <= |s| && s[..t.value.len] == TailText(t.value.declared) + "}}"
    ensures t.Some? ==> t.value.declared.Some? ==> IsWord(t.value.declared.value)
    ensures t.Some? ==> s[0] == '}' || s[0] == ':'
  {
    if |s| >= 2 && s[0] == '}' && s[1] == '}' then
      Some(Tail(None, 2))
    else if |s| >= 1 && s[0] == ':' then
      var w := WordPrefix(s[1..]);
      if w > 0 && |s| >= w + 3 && s[w + 1] == '}' && s[w + 2] == '}' then
        assert s[..w + 3] == ":" + s[1..w + 1] + "}}";
        Some(Tail(Some(s[1..w + 1]), w + 3))
      else None
    else None
  }

  /** A marker found by the parser: its key, its declared type, its length. */
  datatype Match = Match(key: string, declared: Option<string>, len: nat)

  /** One attempt of `placeholderRegex.exec` anchored at the start of `s`:
      the marker `{{(\w+)(?::(\w+))?}}` that `s` starts with, if any. */
  function MarkerPrefix(s: string): (m: Option<Match>)
    ensures m.Some? ==> WellFormedMarker(m.value.key, m.value.declared)
    ensures m.Some? ==> 0 < m.value.len <= |s| && m.value.len == |MarkerText(m.value.key, m.value.declared)|
    ensures m.Some? ==> s[..m.value.len] == MarkerText(m.value.key, m.value.declared)
  {
    if |s| >= 2 && s[0] == '{' && s[1] == '{' then
      var w := WordPrefix(s[2..]);
      if w == 0 then None
      else
        match MarkerTail(s[2 + w..])
        case Some(t) =>
          MarkerPrefixText(s, w, t);
          Some(Match(s[2..2 + w], t.declared, 2 + w + t.len))
        case None => None
    else None
  }

  lemma MarkerPrefixText(s: string, w: nat, t: Tail)
    requires |s| >= 2 + w && s[0] == '{' && s[1] == '{'
    requires t.len <= |s| - 2 - w && s[2 + w..][..t.len] == TailText(t.declared) + "}}"
    ensures s[..2 + w + t.len] == MarkerText(s[2..2 + w], t.declared)
  {
    calc {
      s[..2 + w + t.len];
      s[..2] + s[2..2 + w] + s[2 + w..][..t.len];
      "{{" + s[2..2 + w] + (TailText(t.declared) + "}}");
    }
  }

  /** The entry `parsePlaceholders` pushes for a match: the type is the
      declared one, or `'text'` when none is declared. */
  function EntryOf(m: Match): Placeholder {
    Placeholder(m.key, m.declared.GetOr("text"))
  }

  /** `parsePlaceholders(s)`: scan left to right; where a marker starts,
      record it and continue after it, otherwise move one character on.
      Every entry has a `\w+` key and a `\w+` type, and each marker takes at
      least five characters. */
  function Parse(s: string): (r: seq<Placeholder>)
    ensures forall i :: 0 <= i < |r| ==> IsWord(r[i].key) && IsWord(r[i].typ)
    ensures 5 * |r| <= |s|
    decreases |s|
  {
    if s == [] then []
    else
      match MarkerPrefix(s)
      case Some(m) => [EntryOf(m)] + Parse(s[m.len..])
      case None => Parse(s[1..])
  }

  /** `parsePlaceholders`: a fresh global regular expression is run with
      `exec` until it fails; each success pushes one entry and resumes the
      search where the match ended. */
  method ParsePlaceholders(templateContent: string) returns (placeholders: seq<Placeholder>)
    ensures placeholders == Parse(templateContent)
  {
    placeholders := [];
    var lastIndex := 0;
    while lastIndex < |templateContent|
      invariant 0 <= lastIndex <= |templateContent|
      invariant Resumes(templateContent, lastIndex, placeholders)
      decreases |templateContent| - lastIndex
    {
      var found := MarkerPrefix(templateContent[lastIndex..]);
      ghost var before, at := placeholders, lastIndex;
      if found.Some? {
        placeholders := placeholders + [EntryOf(found.value)];
        lastIndex := lastIndex + found.value.len;
        ParseAtMarker(templateContent, at, before, found.value, lastIndex, placeholders);
      } else {
        lastIndex := lastIndex + 1;
        ParseAtText(templateContent, at, before, lastIndex);
      }
    }
  }

  /** The scan has read `s` up to `i` and recorded `found`: what is left to
      find is the parse of the rest. */
  predicate Resumes(s: string, i: nat, found: seq<Placeholder>) {
    i <= |s| && found + Parse(s[i..]) == Parse(s)
  }

  /** A round of the `exec` loop that finds a marker: its entry is pushed
      and the search resumes after it, at `j`. */
  lemma ParseAtMarker(s: string, i: nat, found: seq<Placeholder>, m: Match, j: int, found': seq<Placeholder>)
    requires i < |s| && Resumes(s, i, found) && MarkerPrefix(s[i..]) == Some(m)
    requires j == i + m.len && found' == found + [EntryOf(m)]
    ensures 0 <= j <= |s| && Resumes(s, j, found')
  {
    ParseFromMarker(s, i, m);
    PushStep(found, [EntryOf(m)], Parse(s[i + m.len..]), Parse(s[i..]), Parse(s));
  }

  lemma ParseFromMarker(s: string, i: nat, m: Match)
    requires i < |s| && MarkerPrefix(s[i..]) == Some(m)
    ensures i + m.len <= |s| && Parse(s[i..]) == [EntryOf(m)] + Parse(s[i + m.len..])
  {
    var t := s[i..];
    ParseMarkerFirst(t, m);
    assert t[m.len..] == s[i + m.len..];
  }

  lemma PushStep<T>(found: seq<T>, e: seq<T>, rest: seq<T>, tail: seq<T>, whole: seq<T>)
    requires found + tail == whole && tail == e + rest
    ensures (found + e) + rest == whole
  {
    assert (found + e) + rest == found + (e + rest);
  }

  /** Text that starts with a marker parses to its entry, then the rest. */
  lemma ParseMarkerFirst(t: string, m: Match)
    requires MarkerPrefix(t) == Some(m)
    ensures m.len <= |t| && Parse(t) == [EntryOf(m)] + Parse(t[m.len..])
  {
  }

  /** A round that finds no marker at the current position moves on by one
      character, to `j`. */
  lemma ParseAtText(s: string, i: nat, found: seq<Placeholder>, j: int)
    requires i < |s| && Resumes(s, i, found) && MarkerPrefix(s[i..]).None? && j == i + 1
    ensures 0 <= j <= |s| && Resumes(s, j, found)
  {
    var t := s[i..];
    ParseTextFirst(t);
    assert t[1..] == s[i + 1..];
  }

  /** Text that does not start with a marker parses as its tail. */
  lemma ParseTextFirst(t: string)
    requires t != [] && MarkerPrefix(t).None?
    ensures Parse(t) == Parse(t[1..])
  {
  }

  // ---------------------------------------------------------------------
  // Replacement

  /** A key the source can splice into `new RegExp(...)` and have it match
      itself literally: no regular-expression syntax character. */
  predicate IsLiteralKey(key: string) {
    forall i :: 0 <= i < |key| ==> key[i] !in "\\^$.|?*+()[]{}"
  }

  /** One attempt of the regular expression `{{key(?::\w+)?}}` anchored at
      the start of `s`: the length of the match, if any. */
  function KeyMarkerPrefix(s: string, key: string): (n: Option<nat>)
    ensures n.Some? ==> 4 + |key| <= n.value <= |s| && s[..2 + |key|] == "{{" + key
  {
    if |s| >= 2 + |key| && s[..2 + |key|] == "{{" + key then
      match MarkerTail(s[2 + |key|..])
      case Some(t) => Some(2 + |key| + t.len)
      case None => None
    else None
  }

  /** The replacement text `String.prototype.replace` inserts for one match
      when given the string `replacement`: `$$` stands for `$`, `$&` for
      the match, `$`` for the text before it and `$'` for the text after
      it; the pattern has no capturing group, so `$1` and the like, `$<`
      and a lone `$` stay literal. */
  function Expand(replacement: string, matched: string, before: string, after: string): string
    decreases |replacement|
  {
    if |replacement| >= 2 && replacement[0] == '$' then
      var rest := Expand(replacement[2..], matched, before, after);
      if replacement[1] == '$' then "$" + rest
      else if replacement[1] == '&' then matched + rest
      else if replacement[1] == '`' then before + rest
      else if replacement[1] == '\'' then after + rest
      else "$" + Expand(replacement[1..], matched, before, after)
    else if replacement == [] then []
    else [replacement[0]] + Expand(replacement[1..], matched, before, after)
  }

  /** The global replacement of the markers of `key` in `s`, where `before`
      is the part of the original string already scanned: matches are found
      left to right, never overlap, and the scan resumes after each match,
      so inserted text is never rescanned. */
  function ReplaceAll(before: string, s: string, key: string, value: string): string
    decreases |s|
  {
    if s == [] then []
    else
      match KeyMarkerPrefix(s, key)
      case Some(n) => Expand(value, s[..n], before, s[n..]) + ReplaceAll(before + s[..n], s[n..], key, value)
      case None => [s[0]] + ReplaceAll(before + [s[0]], s[1..], key, value)
  }

  /** `s.replace(new RegExp(`{{${key}(?::\\w+)?}}`, 'g'), value)`. */
  function FillKey(s: string, key: string, value: string): string {
    ReplaceAll([], s, key, value)
  }

  /** The replacements of `values`, one key after the other, in entry order. */
  function FillAll(s: string, values: seq<(string, string)>): string
    decreases |values|
  {
    if values == [] then s else FillAll(FillKey(s, values[0].0, values[0].1), values[1..])
  }

  /** `fillTemplate(templateContent, values)`, with the object `values` given
      as the list of its entries in `Object.entries` order. */
  method FillTemplate(templateContent: string, values: seq<(string, string)>) returns (filledTemplate: string)
    requires forall i :: 0 <= i < |values| ==> IsLiteralKey(values[i].0)
    ensures filledTemplate == FillAll(templateContent, values)
    ensures values == [] ==> filledTemplate == templateContent
  {
    filledTemplate := templateContent;
    for i := 0 to |values|
      invariant FillAll(filledTemplate, values[i..]) == FillAll(templateContent, values)
    {
      assert values[i..][1..] == values[i + 1..];
      var (key, value) := values[i];
      filledTemplate := FillKey(filledTemplate, key, value);
    }
  }
}
