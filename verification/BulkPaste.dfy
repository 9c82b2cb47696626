/** Pasting many tags at once: cutting the text into labels, previewing them, and creating the new ones. */
module BulkPaste {
  import opened Common
  import opened LabelLists
  import opened Lists
  import Text

  const MAX_LABEL := 80

  // ---- Cutting the pasted text ----

  predicate IsSeparator(c: char) {
    c == '\n' || c == '\t' || c == ','
  }

  /** `replace(/\r\n/g, '\n').replace(/\r/g, '\n')` */
  function Unified(s: string): string {
    if s == [] then []
    else if s[0] == '\r' then "\n" + Unified(if |s| > 1 && s[1] == '\n' then s[2..] else s[1..])
    else [s[0]] + Unified(s[1..])
  }

  /** The characters before the first separator. */
  function Field(s: string): (r: string)
    ensures r <= s && forall c :: c in r ==> !IsSeparator(c)
    ensures |r| < |s| ==> IsSeparator(s[|r|])
  {
    if s == [] || IsSeparator(s[0]) then [] else [s[0]] + Field(s[1..])
  }

  function SkipSeparators(s: string): (r: string)
    ensures |r| <= |s| && (s != [] && IsSeparator(s[0]) ==> |r| < |s|)
  {
    if s != [] && IsSeparator(s[0]) then SkipSeparators(s[1..]) else s
  }

  /** `split(/[\n\t,]+/)` */
  function Fields(s: string): seq<string>
    decreases |s|
  {
    var field := Field(s);
    if |field| == |s| then [field] else [field] + Fields(SkipSeparators(s[|field|..]))
  }

  /** `parseBulkTagInput` */
  function ParseInput(raw: string): seq<string> {
    Labels(Fields(Unified(raw)))
  }

  method ParseBulkTagInput(raw: string) returns (out: seq<string>)
    ensures out == ParseInput(raw)
  {
    var parts := Fields(Unified(raw));
    out := [];
    for i := 0 to |parts|
      invariant out == Labels(parts[..i])
    {
      var trimmed := Text.Trim(parts[i]);
      TakeOne(parts, i, Text.Trim);
      if trimmed != "" {
        out := out + [trimmed];
      }
    }
    assert parts[..|parts|] == parts;
  }

  /** `labels.join('\n')` */
  function JoinLines(labels: seq<string>): string {
    Text.Join(labels, "\n")
  }

  predicate IsPlain(s: string) {
    forall c :: c in s ==> !IsSeparator(c) && c != '\r'
  }

  lemma {:induction false} UnifiedHasNoReturn(s: string)
    ensures '\r' !in Unified(s)
    decreases |s|
  {
    if s != [] && s[0] == '\r' {
      UnifiedHasNoReturn(if |s| > 1 && s[1] == '\n' then s[2..] else s[1..]);
    } else if s != [] {
      UnifiedHasNoReturn(s[1..]);
    }
  }

  lemma {:induction false} UnifiedOfPlain(s: string)
    requires '\r' !in s
    ensures Unified(s) == s
  {
    if s != [] {
      var first, rest := s[0], s[1..];
      assert s == [first] + rest;
      UnifiedOfPlain(rest);
    }
  }

  lemma {:induction false} SkipKeepsTail(s: string)
    ensures SkipSeparators(s) == s[|s| - |SkipSeparators(s)|..]
  {
    if s != [] && IsSeparator(s[0]) {
      SkipKeepsTail(s[1..]);
    }
  }

  /** Fields hold no separator and only characters of the text. */
  lemma {:induction false} FieldsArePieces(s: string)
    ensures forall f :: f in Fields(s) ==> forall c :: c in f ==> !IsSeparator(c) && c in s
    decreases |s|
  {
    var field := Field(s);
    if |field| < |s| {
      SkipKeepsTail(s[|field|..]);
      FieldsArePieces(SkipSeparators(s[|field|..]));
    }
  }

  lemma ParsedArePlain(raw: string)
    ensures AreLabels(ParseInput(raw)) && forall l :: l in ParseInput(raw) ==> IsPlain(l)
  {
    var text := Unified(raw);
    LabelsAreLabels(Fields(text));
    UnifiedHasNoReturn(raw);
    FieldsArePieces(text);
    forall l | l in ParseInput(raw)
      ensures IsPlain(l)
    {
      PickedExactly(Fields(text), Text.Trim, l);
      var f :| f in Fields(text) && Text.Trim(f) == l;
      TrimIsInside(f);
    }
  }

  lemma TrimIsInside(s: string)
    ensures forall c :: c in Text.Trim(s) ==> c in s
  {
  }

  lemma {:induction false} FieldOfJoin(a: string, b: string)
    requires IsPlain(a) && (b == [] || IsSeparator(b[0]))
    ensures Field(a + b) == a
  {
    if a == [] {
      assert a + b == b;
    } else {
      assert (a + b)[1..] == a[1..] + b;
      assert a[0] in a;
      assert forall c :: c in a[1..] ==> c in a;
      FieldOfJoin(a[1..], b);
    }
  }

  lemma FieldsOfTwo(first: string, rest: string)
    requires IsPlain(first) && rest != [] && !IsSeparator(rest[0])
    ensures Fields(first + "\n" + rest) == [first] + Fields(rest)
  {
    var s := first + "\n" + rest;
    assert s == first + ("\n" + rest);
    FieldOfJoin(first, "\n" + rest);
    assert s[|first|..] == "\n" + rest;
    assert SkipSeparators("\n" + rest) == rest by {
      assert ("\n" + rest)[1..] == rest;
    }
  }

  lemma FieldsOfOne(first: string)
    requires IsPlain(first)
    ensures Fields(first) == [first]
  {
    assert first + [] == first;
    FieldOfJoin(first, []);
  }

  lemma {:induction false} FieldsOfLines(labels: seq<string>)
    requires labels != [] && forall l :: l in labels ==> l != "" && IsPlain(l)
    ensures Fields(JoinLines(labels)) == labels
  {
    assert labels[0] in labels;
    if |labels| == 1 {
      FieldsOfOne(labels[0]);
    } else {
      assert forall l :: l in labels[1..] ==> l in labels;
      FieldsOfLines(labels[1..]);
      StartsPlain(labels[1..]);
      FieldsOfTwo(labels[0], JoinLines(labels[1..]));
    }
  }

  lemma {:induction false} LinesHaveNoReturn(labels: seq<string>)
    requires forall l :: l in labels ==> IsPlain(l)
    ensures '\r' !in JoinLines(labels)
  {
    if labels != [] {
      assert labels[0] in labels;
      assert forall l :: l in labels[1..] ==> l in labels;
      LinesHaveNoReturn(labels[1..]);
    }
  }

  lemma StartsPlain(labels: seq<string>)
    requires labels != [] && forall l :: l in labels ==> l != "" && IsPlain(l)
    ensures JoinLines(labels) != [] && !IsSeparator(JoinLines(labels)[0])
  {
    assert labels[0] in labels;
    assert labels[0][0] in labels[0];
  }

  /** Parsing the lines of a parse result gives that result back. */
  lemma ParseOfJoinedLines(raw: string)
    ensures ParseInput(JoinLines(ParseInput(raw))) == ParseInput(raw)
  {
    var labels := ParseInput(raw);
    ParsedArePlain(raw);
    if labels == [] {
      assert Fields("") == [""];
      assert Text.Trim("") == "";
      assert Labels([""]) == Labels([]);
    } else {
      FieldsOfLines(labels);
      LinesHaveNoReturn(labels);
      UnifiedOfPlain(JoinLines(labels));
      LabelsOfLabels(labels);
    }
  }

  // ---- What separates labels ----

  lemma CutAppends<T>(whole: seq<T>, front: seq<T>, first: seq<T>, more: seq<T>, tail: seq<T>, after: seq<T>)
    requires whole == first + more && front == first + tail && more == tail + after
    ensures whole == front + after
  {
  }

  lemma UnifiedStep(a: string, b: string, s: string, k: nat, c: char)
    requires a != [] && s == a + b && (b != [] ==> !(a[|a| - 1] == '\r' && b[0] == '\n'))
    requires k == if a[0] == '\r' && |a| > 1 && a[1] == '\n' then 2 else 1
    requires c == if a[0] == '\r' then '\n' else a[0]
    ensures s[k..] == a[k..] + b
    ensures Unified(s) == [c] + Unified(s[k..]) && Unified(a) == [c] + Unified(a[k..])
  {
  }

  /** Line ends of any kind become one line feed; nothing else changes. */
  lemma {:induction false} UnifiedOfConcat(a: string, b: string, s: string)
    requires s == a + b && (a != [] && b != [] ==> !(a[|a| - 1] == '\r' && b[0] == '\n'))
    ensures Unified(s) == Unified(a) + Unified(b)
    decreases |a|
  {
    if a == [] {
      assert s == b;
    } else {
      var k := if a[0] == '\r' && |a| > 1 && a[1] == '\n' then 2 else 1;
      var c, t, u := if a[0] == '\r' then '\n' else a[0], a[k..], s[k..];
      UnifiedStep(a, b, s, k, c);
      assert t != [] ==> t[|t| - 1] == a[|a| - 1];
      UnifiedOfConcat(t, b, u);
      CutAppends(Unified(s), Unified(a), [c], Unified(u), Unified(t), Unified(b));
    }
  }

  lemma LineEnds(c: char)
    ensures Unified("\r\n") == Unified("\r") == "\n" && (c != '\r' ==> Unified([c]) == [c])
  {
  }

  /** Separators in front of a text add no label. */
  lemma LeadingSeparators(b: string)
    ensures Labels(Fields(SkipSeparators(b))) == Labels(Fields(b))
  {
    if b != [] && IsSeparator(b[0]) {
      assert Field(b) == "" && b[0..] == b;
      PickedOfConcat([""], Fields(SkipSeparators(b)), Text.Trim);
      PickedOfOne("", Text.Trim);
    }
  }

  lemma {:induction false} SkipOver(rest: string, more: string)
    ensures SkipSeparators(rest + more) ==
            if SkipSeparators(rest) == [] then SkipSeparators(more) else SkipSeparators(rest) + more
  {
    if rest == [] {
      assert rest + more == more;
    } else {
      assert (rest + more)[1..] == rest[1..] + more;
      if IsSeparator(rest[0]) {
        SkipOver(rest[1..], more);
      }
    }
  }

  lemma {:induction false} FieldOver(a: string, more: string)
    requires more != [] && IsSeparator(more[0])
    ensures Field(a + more) == Field(a)
  {
    if a == [] {
      assert a + more == more;
    } else {
      assert (a + more)[1..] == a[1..] + more;
      FieldOver(a[1..], more);
    }
  }

  lemma LabelsOfCons(field: string, fields: seq<string>)
    ensures Labels([field] + fields) == Labels([field]) + Labels(fields)
  {
    PickedOfConcat([field], fields, Text.Trim);
  }

  /** The labels after the first field are those past the separators that follow it. */
  lemma LabelsPastField(s: string, field: string, rest: string)
    requires field == Field(s) && |field| < |s| && rest == s[|field|..]
    ensures Labels(Fields(s)) == Labels([field]) + Labels(Fields(SkipSeparators(rest)))
  {
    LabelsOfCons(field, Fields(SkipSeparators(rest)));
  }

  lemma SkipMore(sep: char, b: string, more: string)
    requires IsSeparator(sep) && more == [sep] + b
    ensures SkipSeparators(more) == SkipSeparators(b)
  {
  }

  lemma LabelsOfNothing(s: string)
    requires s == []
    ensures Labels(Fields(s)) == []
  {
    assert Field(s) == s;
    PickedOfOne(s, Text.Trim);
  }

  /** The labels of a text whose first field is followed by `rest`, and then by `more`. */
  lemma FirstFieldOver(a: string, more: string, field: string, rest: string)
    requires field == Field(a) && rest == a[|field|..] && more != [] && IsSeparator(more[0])
    ensures Labels(Fields(a + more)) == Labels([field]) + Labels(Fields(SkipSeparators(rest + more)))
  {
    FieldOver(a, more);
    assert (a + more)[|field|..] == rest + more;
    LabelsPastField(a + more, field, rest + more);
  }

  lemma LabelsOfWhole(a: string, field: string, rest: string)
    requires field == Field(a) && rest == a[|field|..]
    ensures Labels(Fields(a)) == Labels([field]) + Labels(Fields(SkipSeparators(rest)))
  {
    if rest == [] {
      assert field == a;
      LabelsOfNothing(SkipSeparators(rest));
    } else {
      LabelsPastField(a, field, rest);
    }
  }

  lemma TailShrinks(a: string, field: string, tail: string)
    requires field == Field(a) && tail == SkipSeparators(a[|field|..]) && tail != []
    ensures |tail| < |a|
  {
  }

  lemma NoTail(sep: char, b: string, more: string, tail: string)
    requires IsSeparator(sep) && more == [sep] + b && tail == []
    ensures Labels(Fields(SkipSeparators(more))) == Labels(Fields(tail)) + Labels(Fields(b))
  {
    SkipMore(sep, b, more);
    LeadingSeparators(b);
    LabelsOfNothing(tail);
  }

  /** A separator cuts: the labels are those before it and those after it. */
  lemma {:induction false} LabelsAcross(a: string, sep: char, b: string, more: string, whole: string)
    requires IsSeparator(sep) && more == [sep] + b && whole == a + more
    ensures Labels(Fields(whole)) == Labels(Fields(a)) + Labels(Fields(b))
    decreases |a|
  {
    var field := Field(a);
    var rest := a[|field|..];
    var tail, skipped := SkipSeparators(rest), SkipSeparators(rest + more);
    FirstFieldOver(a, more, field, rest);
    LabelsOfWhole(a, field, rest);
    SkipOver(rest, more);
    if tail == [] {
      NoTail(sep, b, more, tail);
    } else {
      TailShrinks(a, field, tail);
      LabelsAcross(tail, sep, b, more, skipped);
    }
    CutAppends(Labels(Fields(whole)), Labels(Fields(a)), Labels([field]), Labels(Fields(skipped)), Labels(Fields(tail)),
               Labels(Fields(b)));
  }

  /** A line feed, a tab or a comma in a pasted text separates the labels before it from those after it. */
  lemma ParseAcross(a: string, sep: char, b: string)
    requires sep == '\n' || sep == '\t' || sep == ','
    requires a == [] || a[|a| - 1] != '\r'
    ensures ParseInput(a + ([sep] + b)) == ParseInput(a) + ParseInput(b)
  {
    UnifiedOfConcat(a, [sep] + b, a + ([sep] + b));
    UnifiedOfConcat([sep], b, [sep] + b);
    LineEnds(sep);
    LabelsAcross(Unified(a), sep, Unified(b), [sep] + Unified(b), Unified(a + ([sep] + b)));
  }

  /** A text without separators or line ends is one label, trimmed, or none. */
  lemma ParseOfOne(a: string)
    requires IsPlain(a)
    ensures ParseInput(a) == if Text.Trim(a) == "" then [] else [Text.Trim(a)]
  {
    UnifiedOfPlain(a);
    FieldsOfOne(a);
    PickedOfOne(a, Text.Trim);
  }

  // ---- Preview ----

  datatype Status = New | Existing | DuplicateInPaste | Invalid

  datatype Row = Row(index: nat, text: string, status: Status)

  predicate IsValid(text: string) {
    text != "" && |text| <= MAX_LABEL
  }

  /** The keys a preview has met in a list of labels. */
  function Met(labels: seq<string>, fold: Fold): set<string> {
    Keys(OfClass(labels, IsValid, true), fold)
  }

  function StatusOf(text: string, met: set<string>, existing: set<string>, fold: Fold): Status {
    if !IsValid(text) then Invalid
    else if fold(text) in met then DuplicateInPaste
    else if fold(text) in existing then Existing
    else New
  }

  function PreviewRows(labels: seq<string>, existing: set<string>, fold: Fold): (rows: seq<Row>)
    ensures |rows| == |labels|
  {
    if labels == [] then []
    else
      var front, last := labels[..|labels| - 1], labels[|labels| - 1];
      PreviewRows(front, existing, fold) + [Row(|front|, last, StatusOf(last, Met(front, fold), existing, fold))]
  }

  method BuildBulkPreview(labels: seq<string>, existing: set<string>, fold: Fold) returns (rows: seq<Row>)
    ensures rows == PreviewRows(labels, existing, fold)
  {
    rows := [];
    var seenInPaste := {};
    for i := 0 to |labels|
      invariant rows == PreviewRows(labels[..i], existing, fold)
      invariant seenInPaste == Met(labels[..i], fold)
    {
      var text := labels[i];
      assert labels[..i + 1] == labels[..i] + [text];
      OfClassOfOneMore(labels[..i], text, IsValid, true);
      KeysOfOneMore(OfClass(labels[..i], IsValid, true), text, fold);
      assert labels[..i + 1][..i] == labels[..i];
      var status := Invalid;
      if IsValid(text) {
        var key := fold(text);
        if key in seenInPaste {
          status := DuplicateInPaste;
        } else {
          seenInPaste := seenInPaste + {key};
          status := if key in existing then Existing else New;
        }
      }
      rows := rows + [Row(i, text, status)];
    }
    assert labels[..|labels|] == labels;
  }

  lemma MetExactly(labels: seq<string>, fold: Fold, key: string)
    ensures key in Met(labels, fold) <==> exists l :: l in labels && IsValid(l) && fold(l) == key
  {
    var valid := OfClass(labels, IsValid, true);
    KeysExactly(valid, fold, key);
    forall l
      ensures l in valid <==> l in labels && IsValid(l)
    {
      OfClassExactly(labels, IsValid, true, l);
    }
  }

  /**
   * Row by row: a blank label or one over 80 characters is invalid; one met before among the valid ones, up to case,
   * is a duplicate; of the others those that are there already are existing.
   */
  lemma {:induction false} PreviewExactly(labels: seq<string>, existing: set<string>, fold: Fold, k: nat)
    requires k < |labels|
    ensures var row, text := PreviewRows(labels, existing, fold)[k], labels[k];
            && row.index == k && row.text == text
            && row.status ==
               if text == "" || |text| > 80 then Invalid
               else if exists l :: l in labels[..k] && l != "" && |l| <= 80 && fold(l) == fold(text)
               then DuplicateInPaste
               else if fold(text) in existing then Existing
               else New
  {
    var front := labels[..|labels| - 1];
    if k < |front| {
      PreviewExactly(front, existing, fold, k);
      assert front[..k] == labels[..k];
    } else {
      MetExactly(front, fold, fold(labels[k]));
    }
  }

  /** `rows.filter(r => r.status === 'new').map(r => r.label)` */
  function NewLabels(rows: seq<Row>): seq<string> {
    if rows == [] then []
    else
      var front, last := NewLabels(rows[..|rows| - 1]), rows[|rows| - 1];
      if last.status == New then front + [last.text] else front
  }

  /** Whether a label's key is there already. */
  function Known(existing: set<string>, fold: Fold): string -> bool {
    text => fold(text) in existing
  }

  /** The first label of each key that is not there yet. */
  function NewOf(valid: seq<string>, known: string -> bool, fold: Fold): seq<string> {
    OfClass(Firsts(valid, fold), known, false)
  }

  lemma NewOfOneMore(valid: seq<string>, last: string, known: string -> bool, fold: Fold)
    ensures NewOf(valid + [last], known, fold) ==
            if fold(last) in Keys(valid, fold) || known(last) then NewOf(valid, known, fold)
            else NewOf(valid, known, fold) + [last]
  {
  }

  lemma NewLabelsOfOneMore(front: seq<string>, last: string, existing: set<string>, fold: Fold)
    ensures var before := NewLabels(PreviewRows(front, existing, fold));
            NewLabels(PreviewRows(front + [last], existing, fold)) ==
            if StatusOf(last, Met(front, fold), existing, fold) == New then before + [last] else before
  {
  }

  /**
   * The new rows are the first valid label of each key that is not there yet, in paste order.
   */
  lemma {:induction false} NewRowsExactly(labels: seq<string>, existing: set<string>, fold: Fold)
    ensures NewLabels(PreviewRows(labels, existing, fold)) ==
            NewOf(OfClass(labels, IsValid, true), Known(existing, fold), fold)
  {
    if labels != [] {
      var front, last := labels[..|labels| - 1], labels[|labels| - 1];
      NewRowsExactly(front, existing, fold);
      assert labels == front + [last];
      NewLabelsOfOneMore(front, last, existing, fold);
      OfClassOfOneMore(front, last, IsValid, true);
      NewOfOneMore(OfClass(front, IsValid, true), last, Known(existing, fold), fold);
    }
  }

  /** New rows are distinct and none is there yet, up to case. */
  lemma NewRowsAreNew(labels: seq<string>, existing: set<string>, fold: Fold)
    ensures DistinctKeys(NewLabels(PreviewRows(labels, existing, fold)), fold)
    ensures Keys(NewLabels(PreviewRows(labels, existing, fold)), fold) == Met(labels, fold) - existing
  {
    var valid := OfClass(labels, IsValid, true);
    var known := Known(existing, fold);
    NewRowsExactly(labels, existing, fold);
    FirstsKeepKeys(valid, fold);
    OfClassKeepsDistinct(Firsts(valid, fold), known, false, fold);
    var unseen := OfClass(Firsts(valid, fold), known, false);
    forall key
      ensures key in Keys(unseen, fold) <==> key in Met(labels, fold) - existing
    {
      KeysExactly(unseen, fold, key);
      KeysExactly(Firsts(valid, fold), fold, key);
      forall l
        ensures l in unseen <==> l in Firsts(valid, fold) && fold(l) !in existing
      {
        OfClassExactly(Firsts(valid, fold), known, false, l);
      }
    }
  }

  // ---- Commit ----

  datatype OptionRow = OptionRow(id: string, kind: string, text: string)

  datatype Store = Store(options: seq<OptionRow>, links: set<(string, string)>)

  /** How a new option's id is derived from its kind and folded label. */
  type IdOf = (string, string) -> string

  predicate Carries(option: OptionRow, kind: string, key: string, fold: Fold) {
    option.kind == kind && fold(option.text) == key
  }

  /** A label is known in a category when a linked option of the kind carries it. */
  predicate Linked(store: Store, category: string, kind: string, key: string, fold: Fold) {
    exists o :: o in store.options && Carries(o, kind, key, fold) && (category, o.id) in store.links
  }

  function ExistingKeys(store: Store, category: string, kind: string, fold: Fold): (r: set<string>)
    ensures forall key :: key in r <==> Linked(store, category, kind, key, fold)
  {
    set o | o in store.options && o.kind == kind && (category, o.id) in store.links :: fold(o.text)
  }

  /** `findFirst` with a case-insensitive label. */
  function FindOption(options: seq<OptionRow>, kind: string, key: string, fold: Fold): (r: Option<OptionRow>)
    ensures r.Some? ==> r.value in options && Carries(r.value, kind, key, fold)
    ensures r.None? ==> forall o :: o in options ==> !Carries(o, kind, key, fold)
  {
    if options == [] then None
    else if Carries(options[0], kind, key, fold) then Some(options[0])
    else FindOption(options[1..], kind, key, fold)
  }

  predicate TakenId(options: seq<OptionRow>, id: string) {
    exists o :: o in options && o.id == id
  }

  /** One label of a commit: an option with that label is found or made, and linked; a taken id aborts. */
  function CreateOne(store: Store, category: string, kind: string, text: string, fold: Fold, idOf: IdOf): Option<Store> {
    match FindOption(store.options, kind, fold(text), fold)
    case Some(o) => Some(store.(links := store.links + {(category, o.id)}))
    case None =>
      var id := idOf(kind, fold(text));
      if TakenId(store.options, id) then None
      else Some(Store(store.options + [OptionRow(id, kind, text)], store.links + {(category, id)}))
  }

  /** An option of the kind with that label, up to case, is linked; else one is added under its id, unless that is taken. */
  lemma CreateOneExactly(store: Store, category: string, kind: string, text: string, fold: Fold, idOf: IdOf)
    ensures var r, id := CreateOne(store, category, kind, text, fold, idOf), idOf(kind, fold(text));
            if exists o :: o in store.options && o.kind == kind && fold(o.text) == fold(text) then
              exists o :: o in store.options && o.kind == kind && fold(o.text) == fold(text)
                          && r == Some(Store(store.options, store.links + {(category, o.id)}))
            else if exists o :: o in store.options && o.id == id then r == None
            else r == Some(Store(store.options + [OptionRow(id, kind, text)], store.links + {(category, id)}))
  {
  }

  function CreateAll(store: Store, category: string, kind: string, texts: seq<string>, fold: Fold, idOf: IdOf)
    : Option<Store>
  {
    if texts == [] then Some(store)
    else
      match CreateAll(store, category, kind, texts[..|texts| - 1], fold, idOf)
      case None => None
      case Some(front) => CreateOne(front, category, kind, texts[|texts| - 1], fold, idOf)
  }

  // ---- The reply ----

  /** `skippedDuplicates` joins the labels that exist and those repeated in the paste. */
  datatype Reply = Reply(created: nat, skippedDuplicates: nat, invalid: nat)

  function CountOf(rows: seq<Row>, status: Status): nat {
    if rows == [] then 0
    else CountOf(rows[..|rows| - 1], status) + (if rows[|rows| - 1].status == status then 1 else 0)
  }

  function ReplyTo(rows: seq<Row>): Reply {
    Reply(|NewLabels(rows)|, CountOf(rows, Existing) + CountOf(rows, DuplicateInPaste), CountOf(rows, Invalid))
  }

  lemma {:induction false} EveryRowIsCounted(rows: seq<Row>)
    ensures var r := ReplyTo(rows); r.created + r.skippedDuplicates + r.invalid == |rows|
  {
    if rows != [] {
      EveryRowIsCounted(rows[..|rows| - 1]);
    }
  }

  lemma {:induction false} InvalidCount(labels: seq<string>, existing: set<string>, fold: Fold)
    ensures CountOf(PreviewRows(labels, existing, fold), Invalid) == |OfClass(labels, IsValid, false)|
  {
    if labels != [] {
      InvalidCount(labels[..|labels| - 1], existing, fold);
      FrontRows(labels, existing, fold);
    }
  }

  /** What is invalid does not depend on what exists. */
  lemma {:induction false} InvalidIsInvalid(labels: seq<string>, a: set<string>, b: set<string>, fold: Fold)
    ensures CountOf(PreviewRows(labels, a, fold), Invalid) == CountOf(PreviewRows(labels, b, fold), Invalid)
  {
    if labels != [] {
      var front := labels[..|labels| - 1];
      InvalidIsInvalid(front, a, b, fold);
      FrontRows(labels, a, fold);
      FrontRows(labels, b, fold);
    }
  }

  lemma FrontRows(labels: seq<string>, existing: set<string>, fold: Fold)
    requires labels != []
    ensures var rows, front, last := PreviewRows(labels, existing, fold), labels[..|labels| - 1], labels[|labels| - 1];
            && rows[..|rows| - 1] == PreviewRows(front, existing, fold)
            && (rows[|rows| - 1].status == Invalid <==> !IsValid(last))
  {
  }

  /** The rows of the preview a commit begins with. */
  function PreviewOf(store: Store, category: string, kind: string, parsed: seq<string>, fold: Fold): seq<Row> {
    PreviewRows(parsed, ExistingKeys(store, category, kind, fold), fold)
  }

  function CommitRows(store: Store, category: string, kind: string, rows: seq<Row>, fold: Fold, idOf: IdOf)
    : Option<(Store, Reply)>
  {
    match CreateAll(store, category, kind, NewLabels(rows), fold, idOf)
    case None => None
    case Some(after) => Some((after, ReplyTo(rows)))
  }

  /** `bulkCommit` of labels as parsed: the store and the reply, or nothing when the transaction aborts. */
  function Commit(store: Store, category: string, kind: string, parsed: seq<string>, fold: Fold, idOf: IdOf)
    : Option<(Store, Reply)>
  {
    CommitRows(store, category, kind, PreviewOf(store, category, kind, parsed, fold), fold, idOf)
  }

  /** What the schema keeps: an id names one option, and a link names an option there is. */
  ghost predicate WellKept(store: Store) {
    && (forall o, p :: o in store.options && p in store.options && o.id == p.id ==> o == p)
    && (forall link :: link in store.links ==> TakenId(store.options, link.1))
  }

  /** One created label is known afterwards in its category and kind; nothing else changes what is known. */
  lemma CreateOneLinks(store: Store, category: string, kind: string, text: string, fold: Fold, idOf: IdOf)
    requires WellKept(store) && CreateOne(store, category, kind, text, fold, idOf).Some?
    ensures var after := CreateOne(store, category, kind, text, fold, idOf).value;
            && WellKept(after)
            && forall c, k, key :: Linked(after, c, k, key, fold) <==>
                 Linked(store, c, k, key, fold) || (c == category && k == kind && key == fold(text))
  {
  }

  lemma {:induction false} CreateAllLinks(store: Store, category: string, kind: string, texts: seq<string>, fold: Fold,
                                          idOf: IdOf)
    requires WellKept(store) && CreateAll(store, category, kind, texts, fold, idOf).Some?
    ensures var after := CreateAll(store, category, kind, texts, fold, idOf).value;
            && WellKept(after)
            && forall c, k, key :: Linked(after, c, k, key, fold) <==>
                 Linked(store, c, k, key, fold) || (c == category && k == kind && key in Keys(texts, fold))
  {
    if texts != [] {
      var front := texts[..|texts| - 1];
      CreateAllLinks(store, category, kind, front, fold, idOf);
      var middle := CreateAll(store, category, kind, front, fold, idOf).value;
      CreateOneLinks(middle, category, kind, texts[|texts| - 1], fold, idOf);
    }
  }

  lemma KnownAfter(store: Store, category: string, kind: string, texts: seq<string>, fold: Fold, idOf: IdOf,
                   c: string, k: string)
    requires WellKept(store) && CreateAll(store, category, kind, texts, fold, idOf).Some?
    ensures var after := CreateAll(store, category, kind, texts, fold, idOf).value;
            && WellKept(after)
            && ExistingKeys(after, c, k, fold) ==
               ExistingKeys(store, c, k, fold) + (if c == category && k == kind then Keys(texts, fold) else {})
  {
    CreateAllLinks(store, category, kind, texts, fold, idOf);
  }

  lemma KnownAfterAsked(store: Store, category: string, kind: string, texts: seq<string>, asked: set<string>, fold: Fold,
                        idOf: IdOf, c: string, k: string)
    requires WellKept(store) && CreateAll(store, category, kind, texts, fold, idOf).Some?
    requires Keys(texts, fold) == asked - ExistingKeys(store, category, kind, fold)
    ensures var after := CreateAll(store, category, kind, texts, fold, idOf).value;
            && WellKept(after)
            && ExistingKeys(after, c, k, fold) ==
               ExistingKeys(store, c, k, fold) + (if c == category && k == kind then asked else {})
  {
    KnownAfter(store, category, kind, texts, fold, idOf, c, k);
  }

  lemma CreatedKeys(existing: set<string>, parsed: seq<string>, fold: Fold)
    ensures var texts := NewLabels(PreviewRows(parsed, existing, fold));
            Keys(texts, fold) == Met(parsed, fold) - existing && |texts| == |Met(parsed, fold) - existing|
  {
    NewRowsAreNew(parsed, existing, fold);
    DistinctKeysCount(NewLabels(PreviewRows(parsed, existing, fold)), fold);
  }

  lemma ReplyIsRight(parsed: seq<string>, existing: set<string>, fold: Fold)
    ensures var rows := PreviewRows(parsed, existing, fold);
            && Keys(NewLabels(rows), fold) == Met(parsed, fold) - existing
            && ReplyTo(rows).created == |Met(parsed, fold) - existing|
            && ReplyTo(rows).created + ReplyTo(rows).skippedDuplicates + ReplyTo(rows).invalid == |parsed|
  {
    CreatedKeys(existing, parsed, fold);
    EveryRowIsCounted(PreviewRows(parsed, existing, fold));
  }

  lemma CommitRowsExactly(store: Store, category: string, kind: string, rows: seq<Row>, asked: set<string>, fold: Fold,
                          idOf: IdOf, c: string, k: string)
    requires WellKept(store) && CommitRows(store, category, kind, rows, fold, idOf).Some?
    requires Keys(NewLabels(rows), fold) == asked - ExistingKeys(store, category, kind, fold)
    ensures var (after, reply) := CommitRows(store, category, kind, rows, fold, idOf).value;
            && WellKept(after) && reply == ReplyTo(rows)
            && ExistingKeys(after, c, k, fold) ==
               ExistingKeys(store, c, k, fold) + (if c == category && k == kind then asked else {})
  {
    KnownAfterAsked(store, category, kind, NewLabels(rows), asked, fold, idOf, c, k);
  }

  /**
   * A commit that goes through makes known exactly the valid labels of its text, in its category and kind only; it
   * counts as created those that were not known, and its three counts cover every label of the text.
   */
  lemma CommitExactly(store: Store, category: string, kind: string, parsed: seq<string>, fold: Fold, idOf: IdOf,
                      c: string, k: string)
    requires WellKept(store) && Commit(store, category, kind, parsed, fold, idOf).Some?
    ensures var (after, reply) := Commit(store, category, kind, parsed, fold, idOf).value;
            && WellKept(after)
            && reply.created == |Met(parsed, fold) - ExistingKeys(store, category, kind, fold)|
            && reply.created + reply.skippedDuplicates + reply.invalid == |parsed|
            && reply.invalid == |OfClass(parsed, IsValid, false)|
            && ExistingKeys(after, c, k, fold) ==
               ExistingKeys(store, c, k, fold) + (if c == category && k == kind then Met(parsed, fold) else {})
  {
    InvalidCount(parsed, ExistingKeys(store, category, kind, fold), fold);
    ReplyIsRight(parsed, ExistingKeys(store, category, kind, fold), fold);
    CommitRowsExactly(store, category, kind, PreviewOf(store, category, kind, parsed, fold), Met(parsed, fold), fold,
                      idOf, c, k);
  }

  lemma SecondPreview(existing: set<string>, known: set<string>, parsed: seq<string>, first: seq<Row>, again: seq<Row>,
                      reply: Reply, repeated: Reply, fold: Fold)
    requires known == existing + Met(parsed, fold)
    requires first == PreviewRows(parsed, existing, fold) && again == PreviewRows(parsed, known, fold)
    requires reply == ReplyTo(first) && repeated == Reply(0, reply.created + reply.skippedDuplicates, reply.invalid)
    ensures NewLabels(again) == [] && ReplyTo(again) == repeated
  {
    CreatedKeys(known, parsed, fold);
    assert Met(parsed, fold) - known == {};
    InvalidIsInvalid(parsed, existing, known, fold);
    EveryRowIsCounted(first);
    EveryRowIsCounted(again);
  }

  lemma NothingToCommit(store: Store, category: string, kind: string, parsed: seq<string>, rows: seq<Row>, reply: Reply,
                        fold: Fold, idOf: IdOf)
    requires rows == PreviewOf(store, category, kind, parsed, fold) && NewLabels(rows) == [] && ReplyTo(rows) == reply
    ensures Commit(store, category, kind, parsed, fold, idOf) == Some((store, reply))
  {
  }

  lemma CommitReplies(store: Store, category: string, kind: string, rows: seq<Row>, fold: Fold, idOf: IdOf)
    requires CommitRows(store, category, kind, rows, fold, idOf).Some?
    ensures CommitRows(store, category, kind, rows, fold, idOf).value.1 == ReplyTo(rows)
  {
  }

  /** Committing the same labels again creates and changes nothing: what was created now counts as skipped. */
  lemma SecondCommitCreatesNothing(store: Store, category: string, kind: string, parsed: seq<string>, fold: Fold,
                                   idOf: IdOf, after: Store, reply: Reply, repeated: Reply)
    requires WellKept(store) && Commit(store, category, kind, parsed, fold, idOf) == Some((after, reply))
    requires repeated == Reply(0, reply.created + reply.skippedDuplicates, reply.invalid)
    ensures Commit(after, category, kind, parsed, fold, idOf) == Some((after, repeated))
  {
    var first, again := PreviewOf(store, category, kind, parsed, fold), PreviewOf(after, category, kind, parsed, fold);
    CommitExactly(store, category, kind, parsed, fold, idOf, category, kind);
    CommitReplies(store, category, kind, first, fold, idOf);
    SecondPreview(ExistingKeys(store, category, kind, fold), ExistingKeys(after, category, kind, fold), parsed, first,
                  again, reply, repeated, fold);
    NothingToCommit(after, category, kind, parsed, again, repeated, fold, idOf);
  }

  /** The loop inside the transaction: one option and one link per label, until one of them fails. */
  method Transaction(store: Store, category: string, kind: string, texts: seq<string>, fold: Fold, idOf: IdOf)
    returns (r: Option<Store>)
    ensures r == CreateAll(store, category, kind, texts, fold, idOf)
  {
    var tx := store;
    for i := 0 to |texts|
      invariant CreateAll(store, category, kind, texts[..i], fold, idOf) == Some(tx)
    {
      assert texts[..i + 1][..i] == texts[..i];
      var next := CreateOne(tx, category, kind, texts[i], fold, idOf);
      if next.None? {
        AbortIsFinal(store, category, kind, texts, i + 1, fold, idOf);
        return None;
      }
      tx := next.value;
    }
    assert texts[..|texts|] == texts;
    return Some(tx);
  }

  class AdminTagService {
    var options: seq<OptionRow>
    var links: set<(string, string)>

    constructor ()
      ensures options == [] && links == {}
    {
      options, links := [], {};
    }

    function State(): Store
      reads this
    {
      Store(options, links)
    }

    /** The writes go to copies and reach the tables only when every label went through. */
    method BulkCommit(category: string, kind: string, labels: seq<string>, fold: Fold, idOf: IdOf)
      returns (result: Option<Reply>)
      modifies this
      ensures match Commit(old(State()), category, kind, ParseInput(JoinLines(labels)), fold, idOf)
              case None => result == None && State() == old(State())
              case Some(done) => result == Some(done.1) && State() == done.0
    {
      var parsed := ParseBulkTagInput(JoinLines(labels));
      var rows := BuildBulkPreview(parsed, ExistingKeys(State(), category, kind, fold), fold);
      var tx := Transaction(State(), category, kind, NewLabels(rows), fold, idOf);
      if tx.None? {
        return None;
      }
      options, links := tx.value.options, tx.value.links;
      result := Some(ReplyTo(rows));
    }
  }

  lemma {:induction false} AbortIsFinal(store: Store, category: string, kind: string, texts: seq<string>, n: nat,
                                        fold: Fold, idOf: IdOf)
    requires n <= |texts| && CreateAll(store, category, kind, texts[..n], fold, idOf).None?
    ensures CreateAll(store, category, kind, texts, fold, idOf).None?
    decreases |texts| - n
  {
    if n == |texts| {
      assert texts[..n] == texts;
    } else {
      assert texts[..n + 1][..n] == texts[..n];
      AbortIsFinal(store, category, kind, texts, n + 1, fold, idOf);
    }
  }
}
