/** Laws of the placeholder engine. A template text is described as a list
    of segments, literal text and markers; for texts whose literal parts hold
    no `{`, parsing gives back exactly the markers, in order, and filling a
    key replaces exactly that key's markers, whatever the other keys are. */
module TemplateLaws {
  import opened Wrappers
  import opened Text
  import opened PromptTemplates

  /** A piece of a template text: literal text, or a marker `{{key}}` /
      `{{key:type}}`. */
  datatype Segment = Literal(text: string) | Marker(key: string, declared: Option<string>)

  function SegmentText(p: Segment): string {
    match p
    case Literal(t) => t
    case Marker(k, d) => MarkerText(k, d)
  }

  /** The template text a list of segments spells. */
  function Render(parts: seq<Segment>): string
    decreases |parts|
  {
    if parts == [] then [] else SegmentText(parts[0]) + Render(parts[1..])
  }

  predicate SegmentOk(p: Segment) {
    match p
    case Literal(t) => '{' !in t
    case Marker(k, d) => WellFormedMarker(k, d)
  }

  /** Literal parts hold no `{` and every marker has `\w+` key and type. */
  predicate WellFormed(parts: seq<Segment>) {
    forall i :: 0 <= i < |parts| ==> SegmentOk(parts[i])
  }

  /** The placeholder entries the markers of `parts` stand for, in order,
      one per marker. */
  function Entries(parts: seq<Segment>): seq<Placeholder>
    decreases |parts|
  {
    if parts == [] then [] else SegmentEntries(parts[0]) + Entries(parts[1..])
  }

  /** The entry a marker stands for (typed `'text'` when no type is
      declared); literal text stands for none. */
  function SegmentEntries(p: Segment): seq<Placeholder> {
    if p.Marker? then [Placeholder(p.key, p.declared.GetOr("text"))] else []
  }

  function SubstSegment(p: Segment, key: string, value: string): Segment {
    if p.Marker? && p.key == key then Literal(value) else p
  }

  /** The segments with every marker of `key` turned into the literal `value`. */
  function SubstKey(parts: seq<Segment>, key: string, value: string): (r: seq<Segment>)
    ensures |r| == |parts|
    ensures forall i :: 0 <= i < |parts| ==> r[i] == SubstSegment(parts[i], key, value)
    decreases |parts|
  {
    if parts == [] then [] else [SubstSegment(parts[0], key, value)] + SubstKey(parts[1..], key, value)
  }

  /** `SubstKey` for each entry of `values`, in order. */
  function SubstAll(parts: seq<Segment>, values: seq<(string, string)>): seq<Segment>
    decreases |values|
  {
    if values == [] then parts else SubstAll(SubstKey(parts, values[0].0, values[0].1), values[1..])
  }

  /** The entries whose key is not `key`, in their order. */
  function Without(es: seq<Placeholder>, key: string): (r: seq<Placeholder>)
    ensures forall e :: e in r <==> e in es && e.key != key
    decreases |es|
  {
    if es == [] then []
    else (if es[0].key == key then [] else [es[0]]) + Without(es[1..], key)
  }

  /** The entries whose key is not among the keys of `values`. */
  function WithoutAll(es: seq<Placeholder>, values: seq<(string, string)>): seq<Placeholder>
    decreases |values|
  {
    if values == [] then es else WithoutAll(Without(es, values[0].0), values[1..])
  }

  predicate ValuesFit(values: seq<(string, string)>) {
    forall i :: 0 <= i < |values| ==> IsWord(values[i].0) && '{' !in values[i].1 && '$' !in values[i].1
  }

  // ---------------------------------------------------------------------
  // The scanner on marker texts

  /** The greedy `\w+` stops exactly at the end of a word followed by a
      non-word character. */
  lemma WordPrefixOfWord(k: string, x: string)
    requires IsWord(k) && (x == [] || !IsWordChar(x[0]))
    ensures WordPrefix(k + x) == |k|
  {
    var n := WordPrefix(k + x);
    assert forall i :: 0 <= i < |k| ==> (k + x)[i] == k[i];
    assert |k| < |k + x| ==> (k + x)[|k|] == x[0];
  }
  lemma MarkerTailOfTail(d: Option<string>, rest: string)
    requires d.Some? ==> IsWord(d.value)
    ensures MarkerTail(TailText(d) + "}}" + rest) == Some(Tail(d, |TailText(d)| + 2))
  {
    var s := TailText(d) + "}}" + rest;
    if d.Some? {
      var t := d.value;
      assert s == ":" + (t + ("}}" + rest));
      assert s[1..] == t + ("}}" + rest);
      WordPrefixOfWord(t, "}}" + rest);
      assert s[1..|t| + 1] == t;
    }
  }

  lemma MarkerPrefixFrom(s: string, k: string, t: Tail)
    requires |s| >= 2 + |k| && s[0] == '{' && s[1] == '{' && IsWord(k)
    requires s[2..2 + |k|] == k && WordPrefix(s[2..]) == |k|
    requires MarkerTail(s[2 + |k|..]) == Some(t)
    ensures MarkerPrefix(s) == Some(Match(k, t.declared, 2 + |k| + t.len))
  {
  }

  lemma MarkerShape(k: string, d: Option<string>, rest: string)
    ensures var s := MarkerText(k, d) + rest;
      |s| >= 2 + |k| && s[0] == '{' && s[1] == '{' && s[2..2 + |k|] == k
      && s[2..] == k + (TailText(d) + "}}" + rest) && s[2 + |k|..] == TailText(d) + "}}" + rest
  {
    var s := MarkerText(k, d) + rest;
    var after := TailText(d) + "}}" + rest;
    JoinThree("{{", k, TailText(d), "}}");
    Regroup(k, TailText(d), "}}");
    Regroup("{{", k + (TailText(d) + "}}"), rest);
    Regroup(k, TailText(d) + "}}", rest);
    assert s == "{{" + (k + after);
    assert s[2..] == k + after;
  }

  lemma MarkerPrefixOfMarker(k: string, d: Option<string>, rest: string)
    requires WellFormedMarker(k, d)
    ensures MarkerPrefix(MarkerText(k, d) + rest) == Some(Match(k, d, |MarkerText(k, d)|))
  {
    var after := TailText(d) + "}}" + rest;
    MarkerShape(k, d, rest);
    assert after[0] == ':' || after[0] == '}';
    WordPrefixOfWord(k, after);
    MarkerTailOfTail(d, rest);
    MarkerPrefixFrom(MarkerText(k, d) + rest, k, Tail(d, |TailText(d)| + 2));
  }

  lemma KeyPrefixShape(s: string, key: string)
    requires |s| >= 2 + |key| && s[..2 + |key|] == "{{" + key
    ensures s[0] == '{' && s[1] == '{' && s[2..2 + |key|] == key && s[2..] == key + s[2 + |key|..]
  {
    assert s[0] == s[..2 + |key|][0];
    assert s[1] == s[..2 + |key|][1];
    assert s[2..2 + |key|] == s[..2 + |key|][2..];
  }

  lemma KeyMatchImpliesMarker(s: string, key: string)
    requires IsWord(key) && KeyMarkerPrefix(s, key).Some?
    ensures MarkerPrefix(s).Some? && MarkerPrefix(s).value.key == key
    ensures MarkerPrefix(s).value.len == KeyMarkerPrefix(s, key).value
  {
    KeyPrefixShape(s, key);
    var tail := s[2 + |key|..];
    var t := MarkerTail(tail).value;
    WordPrefixOfWord(key, tail);
    MarkerPrefixFrom(s, key, t);
  }

  lemma MarkerImpliesKeyMatch(s: string, key: string)
    requires IsWord(key) && MarkerPrefix(s).Some? && MarkerPrefix(s).value.key == key
    ensures KeyMarkerPrefix(s, key).Some?
  {
    var m := MarkerPrefix(s).value;
    var mt := MarkerText(key, m.declared);
    MarkerShape(key, m.declared, []);
    assert s[..m.len] == mt;
    assert s[..2 + |key|] == mt[..2 + |key|];
    assert mt + [] == mt;
    assert s[..2 + |key|] == "{{" + key;
    var tail := s[2 + |key|..];
    assert tail == s[2..][WordPrefix(s[2..])..];
  }

  /** The filler's regular expression for `key` matches at the start of `s`
      exactly when the parser's does and finds the key `key`; the matches
      then have the same length. So filling a key acts on exactly the
      markers the parser reports for it, and `approach_1` never matches
      inside `{{approach_10}}`. */
  lemma KeyMatchesMarker(s: string, key: string)
    requires IsWord(key)
    ensures KeyMarkerPrefix(s, key) ==
      (var m := MarkerPrefix(s); if m.Some? && m.value.key == key then Some(m.value.len) else None)
  {
    if KeyMarkerPrefix(s, key).Some? {
      KeyMatchImpliesMarker(s, key);
    } else if MarkerPrefix(s).Some? && MarkerPrefix(s).value.key == key {
      MarkerImpliesKeyMatch(s, key);
    }
  }


  // ---------------------------------------------------------------------
  // Parsing rendered texts

  /** Text without `{` holds no marker start: parsing skips it. */
  lemma {:induction false} ParseNoBrace(t: string, r: string)
    requires '{' !in t
    ensures Parse(t + r) == Parse(r)
    decreases |t|
  {
    if t != [] {
      assert (t + r)[0] == t[0];
      assert (t + r)[1..] == t[1..] + r;
      ParseNoBrace(t[1..], r);
    } else {
      assert t + r == r;
    }
  }

  /** Parsing a well-formed rendered template gives one entry per marker, in
      order, repeated keys repeated, each typed by its declared type or
      `'text'` — with no special case for any key. */
  lemma {:induction false} ParseRendered(parts: seq<Segment>)
    requires WellFormed(parts)
    ensures Parse(Render(parts)) == Entries(parts)
    decreases |parts|
  {
    if parts != [] {
      WellFormedTail(parts);
      ParseRendered(parts[1..]);
      ParseSegment(parts[0], Render(parts[1..]));
    }
  }

  /** Parsing a segment followed by any text: the segment's entry, then the
      parse of the text. */
  lemma ParseSegment(p: Segment, rest: string)
    requires SegmentOk(p)
    ensures Parse(SegmentText(p) + rest) == SegmentEntries(p) + Parse(rest)
  {
    match p
    case Literal(t) =>
      ParseNoBrace(t, rest);
    case Marker(k, d) =>
      var s := MarkerText(k, d) + rest;
      var m := Match(k, d, |MarkerText(k, d)|);
      MarkerPrefixOfMarker(k, d, rest);
      ParseMarkerFirst(s, m);
      assert s[m.len..] == rest;
  }

  lemma WellFormedTail(parts: seq<Segment>)
    requires parts != [] && WellFormed(parts)
    ensures WellFormed(parts[1..])
  {
    forall i | 0 <= i < |parts| - 1 ensures SegmentOk(parts[1..][i]) {
      assert parts[1..][i] == parts[i + 1];
    }
  }

  /** Parsing finds nothing exactly when no position of the text starts a
      marker; so `{{a:}}`, an unclosed `{{a` and `{{ a }}` give nothing. */
  lemma {:induction false} ParseEmptyIff(s: string)
    ensures Parse(s) == [] <==> forall i :: 0 <= i <= |s| ==> MarkerPrefix(s[i..]).None?
    decreases |s|
  {
    if s != [] {
      assert s[0..] == s;
      ParseEmptyIff(s[1..]);
      forall i | 1 <= i <= |s| ensures s[i..] == s[1..][i - 1..] { }
      if MarkerPrefix(s).None? {
        assert Parse(s) == Parse(s[1..]);
        if forall i :: 0 <= i <= |s| - 1 ==> MarkerPrefix(s[1..][i..]).None? {
          forall i | 0 <= i <= |s| ensures MarkerPrefix(s[i..]).None? {
            if i > 0 { assert s[i..] == s[1..][i - 1..]; }
          }
        } else {
          var j :| 0 <= j <= |s| - 1 && MarkerPrefix(s[1..][j..]).Some?;
          assert s[1..][j..] == s[j + 1..];
        }
      }
    } else {
      assert MarkerPrefix(s[0..]).None?;
    }
  }

  // ---------------------------------------------------------------------
  // Filling rendered texts

  /** A replacement string without `$` is inserted verbatim. */
  lemma {:induction false} ExpandPlain(v: string, matched: string, before: string, after: string)
    requires '$' !in v
    ensures Expand(v, matched, before, after) == v
    decreases |v|
  {
    if v != [] {
      assert v[0] != '$';
      ExpandPlain(v[1..], matched, before, after);
      assert [v[0]] + v[1..] == v;
    }
  }

  lemma {:induction false} ReplaceNoBrace(before: string, t: string, r: string, key: string, value: string)
    requires '{' !in t
    ensures ReplaceAll(before, t + r, key, value) == t + ReplaceAll(before + t, r, key, value)
    decreases |t|
  {
    if t != [] {
      var s := t + r;
      assert s[0] == t[0];
      assert KeyMarkerPrefix(s, key).None?;
      assert s[1..] == t[1..] + r;
      ReplaceNoBrace(before + [s[0]], t[1..], r, key, value);
      assert before + [s[0]] + t[1..] == before + t;
      assert [t[0]] + t[1..] == t;
    } else {
      assert t + r == r;
      assert before + t == before;
    }
  }

  /** Replacing at a marker of `key` inserts `value` and moves past the marker. */
  lemma ReplaceOwnMarker(before: string, d: Option<string>, r: string, key: string, value: string)
    requires WellFormedMarker(key, d) && '$' !in value
    ensures ReplaceAll(before, MarkerText(key, d) + r, key, value)
      == value + ReplaceAll(before + MarkerText(key, d), r, key, value)
  {
    var mt := MarkerText(key, d);
    var s := mt + r;
    MarkerPrefixOfMarker(key, d, r);
    KeyMatchesMarker(s, key);
    assert s[..|mt|] == mt && s[|mt|..] == r;
    ExpandPlain(value, mt, before, r);
  }

  /** Where the pattern does not match, one character is copied. */
  lemma ReplaceSkip(before: string, s: string, key: string, value: string)
    requires s != [] && KeyMarkerPrefix(s, key).None?
    ensures ReplaceAll(before, s, key, value) == [s[0]] + ReplaceAll(before + [s[0]], s[1..], key, value)
  {
  }

  /** A marker holds no `{` after its opening braces. */
  lemma MarkerBodyNoBrace(k: string, d: Option<string>)
    requires WellFormedMarker(k, d)
    ensures '{' !in k + TailText(d) + "}}"
  {
    var inner := k + TailText(d) + "}}";
    forall i | 0 <= i < |inner| ensures inner[i] != '{' {
      if i < |k| { assert inner[i] == k[i]; }
      else if d.Some? && |k| < i < |k| + 1 + |d.value| { assert inner[i] == d.value[i - |k| - 1]; }
    }
  }

  /** The filler's pattern needs two opening braces. */
  lemma NoKeyMatch(s: string, key: string)
    requires |s| < 2 || s[0] != '{' || s[1] != '{'
    ensures KeyMarkerPrefix(s, key).None?
  {
    if |s| >= 2 + |key| && s[..2 + |key|] == "{{" + key {
      KeyPrefixShape(s, key);
    }
  }

  /** Two opening braces followed by a brace-free text that the pattern
      does not match at either brace are copied. */
  lemma ReplaceOpening(before: string, inner: string, r: string, key: string, value: string)
    requires '{' !in inner && inner != []
    requires KeyMarkerPrefix("{" + ("{" + (inner + r)), key).None?
    ensures ReplaceAll(before, "{" + ("{" + (inner + r)), key, value)
      == "{" + ("{" + inner) + ReplaceAll(before + "{" + "{" + inner, r, key, value)
  {
    var s := "{" + ("{" + (inner + r));
    var s1 := "{" + (inner + r);
    assert s[1..] == s1;
    ReplaceSkip(before, s, key, value);
    assert s1[1] == inner[0];
    NoKeyMatch(s1, key);
    ReplaceSkip(before + "{", s1, key, value);
    assert s1[1..] == inner + r;
    ReplaceNoBrace(before + "{" + "{", inner, r, key, value);
  }

  /** A marker of another key is copied unchanged. */
  lemma ReplaceOtherMarker(before: string, k: string, d: Option<string>, r: string, key: string, value: string)
    requires WellFormedMarker(k, d) && IsWord(key) && k != key
    ensures ReplaceAll(before, MarkerText(k, d) + r, key, value)
      == MarkerText(k, d) + ReplaceAll(before + MarkerText(k, d), r, key, value)
  {
    var mt := MarkerText(k, d);
    var s := mt + r;
    var inner := k + TailText(d) + "}}";
    MarkerPrefixOfMarker(k, d, r);
    KeyMatchesMarker(s, key);
    assert KeyMarkerPrefix(s, key).None?;
    MarkerSplit(k, d, r);
    MarkerBodyNoBrace(k, d);
    ReplaceOpening(before, inner, r, key, value);
    BeforeSplit(before, k, d);
  }

  lemma MarkerSplit(k: string, d: Option<string>, r: string)
    ensures var inner := k + TailText(d) + "}}";
      MarkerText(k, d) == "{" + ("{" + inner) && MarkerText(k, d) + r == "{" + ("{" + (inner + r))
  {
  }

  lemma BeforeSplit(before: string, k: string, d: Option<string>)
    ensures before + "{" + "{" + (k + TailText(d) + "}}") == before + MarkerText(k, d)
  {
  }

  /** Filling `key` in a well-formed rendered template with a value free of
      `{` and `$` replaces every marker of `key`, and only those: the result
      is the template with those markers turned into literal `value`. */
  lemma {:induction false} FillKeyRendered(before: string, parts: seq<Segment>, key: string, value: string)
    requires WellFormed(parts) && IsWord(key) && '{' !in value && '$' !in value
    ensures ReplaceAll(before, Render(parts), key, value) == Render(SubstKey(parts, key, value))
    decreases |parts|
  {
    if parts != [] {
      var head := SegmentText(parts[0]);
      var rest := Render(parts[1..]);
      assert WellFormed(parts[1..]) by {
        forall i | 0 <= i < |parts| - 1 ensures SegmentOk(parts[1..][i]) { assert parts[1..][i] == parts[i + 1]; }
      }
      FillKeyRendered(before + head, parts[1..], key, value);
      assert SubstKey(parts, key, value)[1..] == SubstKey(parts[1..], key, value);
      assert SegmentOk(parts[0]);
      match parts[0]
      case Literal(t) =>
        ReplaceNoBrace(before, t, rest, key, value);
      case Marker(k, d) =>
        if k == key {
          ReplaceOwnMarker(before, d, rest, key, value);
        } else {
          ReplaceOtherMarker(before, k, d, rest, key, value);
        }
    } else {
      assert Render(parts) == [];
    }
  }

  lemma SubstKeyWellFormed(parts: seq<Segment>, key: string, value: string)
    requires WellFormed(parts) && '{' !in value
    ensures WellFormed(SubstKey(parts, key, value))
  {
    var r := SubstKey(parts, key, value);
    forall i | 0 <= i < |r| ensures SegmentOk(r[i]) { assert SegmentOk(parts[i]); }
  }

  lemma {:induction false} EntriesSubstKey(parts: seq<Segment>, key: string, value: string)
    ensures Entries(SubstKey(parts, key, value)) == Without(Entries(parts), key)
    decreases |parts|
  {
    if parts != [] {
      EntriesSubstKey(parts[1..], key, value);
      assert SubstKey(parts, key, value)[1..] == SubstKey(parts[1..], key, value);
      var es := Entries(parts);
      if parts[0].Marker? {
        assert es[0].key == parts[0].key && es[1..] == Entries(parts[1..]);
      } else {
        assert es == Entries(parts[1..]);
      }
    }
  }

  /** The round trip of filling one key: parsing the filled template finds
      every marker of the other keys, in order, and none of `key`. */
  lemma FillRemovesExactlyKey(parts: seq<Segment>, key: string, value: string)
    requires WellFormed(parts) && IsWord(key) && '{' !in value && '$' !in value
    ensures Parse(FillKey(Render(parts), key, value)) == Without(Entries(parts), key)
    ensures forall e :: e in Parse(FillKey(Render(parts), key, value)) ==> e.key != key
  {
    FillKeyRendered([], parts, key, value);
    SubstKeyWellFormed(parts, key, value);
    ParseRendered(SubstKey(parts, key, value));
    EntriesSubstKey(parts, key, value);
  }

  lemma SubstKeyCommute(parts: seq<Segment>, k1: string, v1: string, k2: string, v2: string)
    requires k1 != k2
    ensures SubstKey(SubstKey(parts, k1, v1), k2, v2) == SubstKey(SubstKey(parts, k2, v2), k1, v1)
  {
  }

  /** Filling two different keys gives the same text in either order. */
  lemma FillOrderIrrelevant(parts: seq<Segment>, k1: string, v1: string, k2: string, v2: string)
    requires WellFormed(parts) && IsWord(k1) && IsWord(k2) && k1 != k2
    requires '{' !in v1 && '$' !in v1 && '{' !in v2 && '$' !in v2
    ensures FillKey(FillKey(Render(parts), k1, v1), k2, v2) == FillKey(FillKey(Render(parts), k2, v2), k1, v1)
  {
    FillKeyRendered([], parts, k1, v1);
    SubstKeyWellFormed(parts, k1, v1);
    FillKeyRendered([], SubstKey(parts, k1, v1), k2, v2);
    FillKeyRendered([], parts, k2, v2);
    SubstKeyWellFormed(parts, k2, v2);
    FillKeyRendered([], SubstKey(parts, k2, v2), k1, v1);
    SubstKeyCommute(parts, k1, v1, k2, v2);
  }

  /** `fillTemplate` on a well-formed rendered template: every marker of a
      key of `values` is replaced by its value and the markers of the other
      keys stay literally present; parsing the result finds exactly those. */
  lemma {:induction false} FillAllRendered(parts: seq<Segment>, values: seq<(string, string)>)
    requires WellFormed(parts) && ValuesFit(values)
    ensures FillAll(Render(parts), values) == Render(SubstAll(parts, values))
    ensures Parse(FillAll(Render(parts), values)) == WithoutAll(Entries(parts), values)
    decreases |values|
  {
    if values == [] {
      ParseRendered(parts);
    } else {
      var (k, v) := values[0];
      FillKeyRendered([], parts, k, v);
      SubstKeyWellFormed(parts, k, v);
      EntriesSubstKey(parts, k, v);
      assert ValuesFit(values[1..]) by {
        forall i | 0 <= i < |values| - 1 ensures IsWord(values[1..][i].0) { assert values[1..][i] == values[i + 1]; }
      }
      FillAllRendered(SubstKey(parts, k, v), values[1..]);
    }
  }

  /** An entry survives `WithoutAll` exactly when no entry of `values` has
      its key. */
  lemma {:induction false} WithoutAllMembers(es: seq<Placeholder>, values: seq<(string, string)>, e: Placeholder)
    ensures e in WithoutAll(es, values) <==> e in es && forall i :: 0 <= i < |values| ==> values[i].0 != e.key
    decreases |values|
  {
    if values != [] {
      WithoutAllMembers(Without(es, values[0].0), values[1..], e);
      if e in es && e.key != values[0].0 && forall i :: 1 <= i < |values| ==> values[i].0 != e.key {
        assert forall i :: 0 <= i < |values| - 1 ==> values[1..][i].0 != e.key by {
          forall i | 0 <= i < |values| - 1 ensures values[1..][i].0 != e.key { assert values[1..][i] == values[i + 1]; }
        }
      }
      if e in WithoutAll(es, values) {
        forall i | 1 <= i < |values| ensures values[i].0 != e.key { assert values[i] == values[1..][i - 1]; }
      }
    }
  }

  /** Filling every key the template mentions leaves no marker: parsing the
      result finds nothing. */
  lemma FillEveryKeyLeavesNone(parts: seq<Segment>, values: seq<(string, string)>)
    requires WellFormed(parts) && ValuesFit(values)
    requires forall e :: e in Entries(parts) ==> exists i :: 0 <= i < |values| && values[i].0 == e.key
    ensures Parse(FillAll(Render(parts), values)) == []
  {
    FillAllRendered(parts, values);
    var r := WithoutAll(Entries(parts), values);
    if r != [] {
      WithoutAllMembers(Entries(parts), values, r[0]);
      assert false;
    }
  }

  // ---------------------------------------------------------------------
  // Examples

  /** `{{a:}}` (a colon without a type) is not a marker. */
  lemma EmptyTypeIgnored()
    ensures Parse("{{a:}}") == []
  {
    var s := "{{a:}}";
    assert s[2..] == "a" + ":}}";
    WordPrefixOfWord("a", ":}}");
    assert s[3..] == ":}}";
    assert ":}}"[1..] == "}}";
    assert WordPrefix("}}") == 0;
    assert MarkerPrefix(s).None?;
    assert s[1..] == "{a:}}";
    assert MarkerPrefix("{a:}}").None?;
    assert "{a:}}"[1..] == "a:}}" + [];
    ParseNoBrace("a:}}", []);
  }

  /** An unclosed `{{a` is not a marker. */
  lemma UnclosedIgnored()
    ensures Parse("{{a") == []
  {
    var s := "{{a";
    assert s[2..] == "a" + [];
    WordPrefixOfWord("a", []);
    assert s[3..] == [];
    assert MarkerPrefix(s).None?;
    assert s[1..] == "{a";
    assert MarkerPrefix("{a").None?;
    assert "{a"[1..] == "a" + [];
    ParseNoBrace("a", []);
  }

  /** Spaces inside the braces, as in `{{ a }}`, are not allowed. */
  lemma SpacedIgnored()
    ensures Parse("{{ a }}") == []
  {
    var s := "{{ a }}";
    assert s[2..][0] == ' ';
    assert MarkerPrefix(s).None?;
    assert s[1..] == "{ a }}";
    assert MarkerPrefix("{ a }}").None?;
    assert "{ a }}"[1..] == " a }}" + [];
    ParseNoBrace(" a }}", []);
  }

  /** A repeated key yields one entry per occurrence, each with its own
      type. */
  lemma RepeatedKeyRepeated()
    ensures Parse("{{x:file}} {{x}}") == [Placeholder("x", "file"), Placeholder("x", "text")]
  {
    var p := [Marker("x", Some("file")), Literal(" "), Marker("x", None)];
    assert MarkerText("x", Some("file")) == "{{x:file}}";
    assert MarkerText("x", None) == "{{x}}";
    assert Render(p[2..]) == "{{x}}";
    assert Render(p[1..]) == " {{x}}";
    assert Render(p) == "{{x:file}} {{x}}";
    assert WellFormed(p);
    ParseRendered(p);
  }

  /** `file_reference` gets no special type: without a declared type it is
      `'text'`. */
  lemma FileReferenceIsText()
    ensures Parse("{{file_reference}}") == [Placeholder("file_reference", "text")]
  {
    var p := [Marker("file_reference", None)];
    assert Render(p) == "{{file_reference}}";
    ParseRendered(p);
  }

  /** Filling `approach_1` leaves `{{approach_10}}` alone. */
  lemma PrefixKeyUntouched()
    ensures FillKey("{{approach_10}}", "approach_1", "X") == "{{approach_10}}"
  {
    var p := [Marker("approach_10", None)];
    assert Render(p) == "{{approach_10}}";
    FillKeyRendered([], p, "approach_1", "X");
  }

  /** A lone `{` followed by brace-free text is copied. */
  lemma StrayBraceCopied(before: string, t: string, key: string, value: string)
    requires '{' !in t && t != []
    ensures ReplaceAll(before, "{" + t, key, value) == "{" + t
  {
    var s := "{" + t;
    assert s[1] == t[0];
    NoKeyMatch(s, key);
    ReplaceSkip(before, s, key, value);
    assert s[1..] == t + [];
    ReplaceNoBrace(before + "{", t, [], key, value);
    assert t + [] == t;
  }

  /** Filling `key` with the empty value in `{{{key}}{other}}`: only the
      inner `{{key}}` matches, and the braces around it close up into
      `{{other}}`. */
  lemma StrayBracesFill(key: string, other: string)
    requires IsWord(key) && IsWord(other)
    ensures FillKey("{" + MarkerText(key, None) + "{" + other + "}}", key, "") == "{{" + other + "}}"
  {
    var mt, tail := MarkerText(key, None), "{" + other + "}}";
    var s := "{" + (mt + tail);
    JoinThree("{" + mt, "{", other, "}}");
    Regroup("{", mt, tail);
    assert s[2] == mt[1] == '{';
    OffByOneBrace(s, key);
    ReplaceSkip([], s, key, "");
    assert [] + [s[0]] == "{" && s[1..] == mt + tail;
    StrayBracesInner(key, other);
    assert ReplaceAll([], s, key, "") == "{" + tail;
    JoinThree("{", "{", other, "}}");
    assert "{" + "{" == "{{";
  }

  /** After the first brace is copied: the marker is deleted and the rest,
      `{other}}`, is copied. */
  lemma StrayBracesInner(key: string, other: string)
    requires IsWord(key) && IsWord(other)
    ensures ReplaceAll("{", MarkerText(key, None) + ("{" + other + "}}"), key, "") == "{" + other + "}}"
  {
    var mt, tail := MarkerText(key, None), "{" + other + "}}";
    ReplaceOwnMarker("{", None, tail, key, "");
    WordThenClosing(other);
    StrayBraceCopied("{" + mt, other + "}}", key, "");
    Regroup("{", other, "}}");
    var inner := ReplaceAll("{" + mt, tail, key, "");
    assert inner == tail;
    assert "" + inner == tail;
  }

  /** A word followed by the closing braces holds no `{`. */
  lemma WordThenClosing(w: string)
    requires IsWord(w)
    ensures '{' !in w + "}}"
  {
    assert forall i :: 0 <= i < |w| ==> (w + "}}")[i] == w[i];
  }

  /** Filling `other` in `{{{key}}{other}}` changes nothing: the text there
      is `{`, a marker of another key and `{other}}`, none of which the
      pattern for `other` matches. */
  lemma StrayBracesUntouched(key: string, other: string, value: string)
    requires IsWord(key) && IsWord(other) && key != other
    ensures var s := "{" + MarkerText(key, None) + "{" + other + "}}";
      FillKey(s, other, value) == s
  {
    var mt, tail := MarkerText(key, None), "{" + other + "}}";
    var s := "{" + (mt + tail);
    JoinThree("{" + mt, "{", other, "}}");
    Regroup("{", mt, tail);
    assert s[2] == mt[1] == '{';
    OffByOneBrace(s, other);
    ReplaceSkip([], s, other, value);
    assert [] + [s[0]] == "{" && s[1..] == mt + tail;
    ReplaceOtherMarker("{", key, None, tail, other, value);
    WordThenClosing(other);
    StrayBraceCopied("{" + mt, other + "}}", other, value);
    Regroup("{", other, "}}");
  }

  /** `((a + b) + c) + d`, as written left to right, is `a + ((b + c) + d)`. */
  lemma JoinThree<T>(a: seq<T>, b: seq<T>, c: seq<T>, d: seq<T>)
    ensures ((a + b) + c) + d == a + ((b + c) + d)
  {
    Regroup(a, b, c);
    Regroup(a, b + c, d);
  }

  lemma Regroup<T>(a: seq<T>, b: seq<T>, c: seq<T>)
    ensures (a + b) + c == a + (b + c)
  {
  }

  /** The pattern for `key` does not match where a third opening brace
      follows the first two. */
  lemma OffByOneBrace(s: string, key: string)
    requires IsWord(key) && |s| >= 3 && s[2] == '{'
    ensures KeyMarkerPrefix(s, key).None?
  {
    if |s| >= 2 + |key| && s[..2 + |key|] == "{{" + key {
      // the third character would be both `{` and the key's first word character
      assert false;
    }
  }

  /** Outside well-formed templates a marker can survive a fill: deleting
      `{{key}}` from `{{{key}}{key}}` joins the stray braces around it into a
      new `{{key}}`, which the parser reports. */
  lemma StrayBracesReformMarker(key: string)
    requires IsWord(key)
    ensures Parse(FillKey("{" + MarkerText(key, None) + "{" + key + "}}", key, "")) == [Placeholder(key, "text")]
  {
    StrayBracesFill(key, key);
    var p := [Marker(key, None)];
    assert Render(p) == "{{" + key + "}}";
    ParseRendered(p);
  }

  /** Outside well-formed templates the order of two fills matters. In
      `{{{a}}{b}}`, filling `a` with the empty value first forms `{{b}}`,
      which the fill of `b` then replaces by its value; filling `b` first
      finds no marker of `b`, and the later fill of `a` leaves `{{b}}`
      behind. With `a` = `x`, `b` = `y` and the value `X` the two orders give
      `X` and `{{y}}`. */
  lemma FillOrderMatters(a: string, b: string, v: string)
    requires IsWord(a) && IsWord(b) && a != b && '$' !in v
    ensures var s := "{" + MarkerText(a, None) + "{" + b + "}}";
      FillKey(FillKey(s, a, ""), b, v) == v
      && FillKey(FillKey(s, b, v), a, "") == "{{" + b + "}}"
  {
    var s := "{" + MarkerText(a, None) + "{" + b + "}}";
    StrayBracesFill(a, b);
    FillLoneMarker(b, v);
    assert FillKey(FillKey(s, a, ""), b, v) == v;
    StrayBracesUntouched(a, b, v);
    assert FillKey(s, b, v) == s;
  }

  /** Filling `key` in the text `{{key}}` alone gives the value. */
  lemma FillLoneMarker(key: string, v: string)
    requires IsWord(key) && '$' !in v
    ensures FillKey("{{" + key + "}}", key, v) == v
  {
    ReplaceOwnMarker([], None, [], key, v);
    assert MarkerText(key, None) + [] == "{{" + key + "}}";
  }

  /** A value holding `{` can also form a marker: filling `key` with `v` in
      `{{key}}{{key}}key}}` replaces both markers and copies the rest, so the
      value `{` leaves `{{key}}`. */
  lemma BraceValueReformsMarker(key: string, v: string)
    requires IsWord(key) && '$' !in v
    ensures FillKey(MarkerText(key, None) + MarkerText(key, None) + key + "}}", key, v) == v + v + key + "}}"
    ensures v == "{" ==> FillKey(MarkerText(key, None) + MarkerText(key, None) + key + "}}", key, v) == "{{" + key + "}}"
  {
    var mt, rest := MarkerText(key, None), key + "}}";
    JoinThree(mt, mt, key, "}}");
    Regroup(mt, key, "}}");
    assert mt + mt + key + "}}" == mt + (mt + rest);
    TwoMarkersThenText(mt, rest, key, v);
    JoinThree(v, v, key, "}}");
    Regroup(v, key, "}}");
  }

  lemma TwoMarkersThenText(mt: string, rest: string, key: string, v: string)
    requires IsWord(key) && '$' !in v && mt == MarkerText(key, None) && rest == key + "}}"
    ensures FillKey(mt + (mt + rest), key, v) == v + (v + rest)
  {
    ReplaceOwnMarker([], None, mt + rest, key, v);
    assert [] + mt == mt;
    ReplaceOwnMarker(mt, None, rest, key, v);
    WordThenClosing(key);
    ReplaceNoBrace(mt + mt, rest, [], key, v);
    assert rest + [] == rest;
  }
}
