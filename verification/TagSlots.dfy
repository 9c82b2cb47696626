/** Tags of a pack: sorting them into item, quality and size slots, and pruning them on a category change. */
module TagSlots {
  import opened LabelLists
  import opened Lists
  import Text

  datatype ItemRow = ItemRow(name: string, qualities: seq<string>, sizes: seq<string>)
  datatype Sub = Sub(name: string, items: seq<ItemRow>)
  datatype TaxonomyMain = TaxonomyMain(subs: seq<Sub>)

  datatype Slots = Slots(items: seq<string>, qualities: seq<string>, sizes: seq<string>)

  datatype Class = Item | Quality | Size

  // ---- The taxonomy's keys ----

  /** `labelKeySet`: the folded, trimmed labels that are not blank. */
  function LabelKeys(labels: seq<string>, fold: Fold): set<string> {
    Keys(Labels(labels), fold)
  }

  function RowsOf(subs: seq<Sub>): seq<ItemRow> {
    if subs == [] then [] else subs[0].items + RowsOf(subs[1..])
  }

  function SubsOf(mains: seq<TaxonomyMain>): seq<Sub> {
    if mains == [] then [] else mains[0].subs + SubsOf(mains[1..])
  }

  function Flat(lists: seq<seq<string>>): seq<string> {
    if lists == [] then [] else lists[0] + Flat(lists[1..])
  }

  function ItemLabels(mains: seq<TaxonomyMain>): seq<string> {
    var subs := SubsOf(mains);
    var rows := RowsOf(subs);
    seq(|subs|, i requires 0 <= i < |subs| => subs[i].name) + seq(|rows|, i requires 0 <= i < |rows| => rows[i].name)
  }

  function QualityLabels(mains: seq<TaxonomyMain>): seq<string> {
    var rows := RowsOf(SubsOf(mains));
    Flat(seq(|rows|, i requires 0 <= i < |rows| => rows[i].qualities))
  }

  function SizeLabels(mains: seq<TaxonomyMain>): seq<string> {
    var rows := RowsOf(SubsOf(mains));
    Flat(seq(|rows|, i requires 0 <= i < |rows| => rows[i].sizes))
  }

  datatype Official = Official(items: set<string>, qualities: set<string>, sizes: set<string>)

  function OfficialKeys(mains: seq<TaxonomyMain>, fold: Fold): Official {
    Official(LabelKeys(ItemLabels(mains), fold), LabelKeys(QualityLabels(mains), fold), LabelKeys(SizeLabels(mains), fold))
  }

  /** Official sizes come first, then official items, then official qualities; a custom label is an item. */
  function ClassOf(key: string, official: Official): Class {
    if key in official.sizes then Size
    else if key in official.items then Item
    else if key in official.qualities then Quality
    else Item
  }

  function Classes(official: Official, fold: Fold): string -> Class {
    tag => ClassOf(fold(tag), official)
  }

  // ---- The two conversions ----

  /** The slots of a list of labels, given the class of each. */
  function SlotsOf(labels: seq<string>, classOf: string -> Class, fold: Fold): Slots {
    Slots(OfClass(labels, classOf, Item), OfClass(labels, classOf, Quality),
          Firsts(OfClass(labels, classOf, Size), fold))
  }

  /** `categoriesToTagSlots` */
  function ToSlots(categories: seq<string>, classOf: string -> Class, fold: Fold): Slots {
    SlotsOf(Labels(categories), classOf, fold)
  }

  /** `tagSlotsToCategories` */
  function ToCategories(slots: Slots, fold: Fold): seq<string> {
    Firsts(Labels(slots.items + slots.qualities + slots.sizes), fold)
  }

  function NormalForm(categories: seq<string>, official: Official, fold: Fold): seq<string> {
    ToCategories(ToSlots(categories, Classes(official, fold), fold), fold)
  }

  method LabelKeySet(labels: seq<string>, fold: Fold) returns (keys: set<string>)
    ensures keys == LabelKeys(labels, fold)
  {
    keys := {};
    for i := 0 to |labels|
      invariant keys == LabelKeys(labels[..i], fold)
    {
      var key := fold(Text.Trim(labels[i]));
      TakeOne(labels, i, Text.Trim);
      KeysOfOneMore(Labels(labels[..i]), Text.Trim(labels[i]), fold);
      if Text.Trim(labels[i]) != "" {
        keys := keys + {key};
      }
    }
    assert labels[..|labels|] == labels;
  }

  /** The slots after one more label. */
  function Slotted(slots: Slots, tag: string, c: Class, seen: bool): Slots {
    match c
    case Item => slots.(items := slots.items + [tag])
    case Quality => slots.(qualities := slots.qualities + [tag])
    case Size => if seen then slots else slots.(sizes := slots.sizes + [tag])
  }

  lemma OneMoreInSlots(items: seq<string>, qualities: seq<string>, allSizes: seq<string>, tag: string, c: Class,
                       fold: Fold)
    ensures var allSizes' := if c == Size then allSizes + [tag] else allSizes;
            && Slots(if c == Item then items + [tag] else items,
                     if c == Quality then qualities + [tag] else qualities,
                     Firsts(allSizes', fold)) ==
               Slotted(Slots(items, qualities, Firsts(allSizes, fold)), tag, c, fold(tag) in Keys(allSizes, fold))
            && Keys(allSizes', fold) ==
               if c == Size then Keys(allSizes, fold) + {fold(tag)} else Keys(allSizes, fold)
  {
    FirstsOfOneMore(allSizes, tag, fold);
    KeysOfOneMore(allSizes, tag, fold);
  }

  /** One more label joins the end of its own class and no other. */
  lemma OneMoreLabel(labels: seq<string>, tag: string, classOf: string -> Class, fold: Fold)
    ensures var seen := Keys(OfClass(labels, classOf, Size), fold);
            && SlotsOf(labels + [tag], classOf, fold) ==
               Slotted(SlotsOf(labels, classOf, fold), tag, classOf(tag), fold(tag) in seen)
            && Keys(OfClass(labels + [tag], classOf, Size), fold) ==
               if classOf(tag) == Size then seen + {fold(tag)} else seen
  {
    OfClassOfOneMore(labels, tag, classOf, Item);
    OfClassOfOneMore(labels, tag, classOf, Quality);
    OfClassOfOneMore(labels, tag, classOf, Size);
    OneMoreInSlots(OfClass(labels, classOf, Item), OfClass(labels, classOf, Quality), OfClass(labels, classOf, Size), tag,
                   classOf(tag), fold);
  }

  /** The body of the loop of `categoriesToTagSlots`. */
  method PlaceOne(slots: Slots, seenSizes: set<string>, tag: string, key: string, official: Official)
    returns (placed: Slots, seen: set<string>)
    ensures placed == Slotted(slots, tag, ClassOf(key, official), key in seenSizes)
    ensures seen == if ClassOf(key, official) == Size then seenSizes + {key} else seenSizes
  {
    var items, qualities, sizes := slots.items, slots.qualities, slots.sizes;
    seen := seenSizes;
    if key in official.sizes {
      if key !in seenSizes {
        seen := seenSizes + {key};
        sizes := sizes + [tag];
      }
    } else if key in official.items {
      items := items + [tag];
    } else if key in official.qualities {
      qualities := qualities + [tag];
    } else {
      items := items + [tag];
    }
    placed := Slots(items, qualities, sizes);
  }

  method SortIntoSlots(categories: seq<string>, official: Official, fold: Fold, trim: string -> string) returns (slots: Slots)
    ensures slots == SlotsOf(Picked(categories, trim), Classes(official, fold), fold)
  {
    ghost var classOf := Classes(official, fold);
    slots := Slots([], [], []);
    var seenSizes := {};
    ghost var labels := [];
    for i := 0 to |categories|
      invariant labels == Picked(categories[..i], trim)
      invariant slots == SlotsOf(labels, classOf, fold)
      invariant seenSizes == Keys(OfClass(labels, classOf, Size), fold)
    {
      var tag := trim(categories[i]);
      TakeOne(categories, i, trim);
      if tag != "" {
        OneMoreLabel(labels, tag, classOf, fold);
        labels := labels + [tag];
        slots, seenSizes := PlaceOne(slots, seenSizes, tag, fold(tag), official);
      }
    }
    assert categories[..|categories|] == categories;
  }

  method CategoriesToTagSlots(categories: seq<string>, mains: seq<TaxonomyMain>, fold: Fold) returns (slots: Slots)
    ensures slots == ToSlots(categories, Classes(OfficialKeys(mains, fold), fold), fold)
  {
    var itemKeys := LabelKeySet(ItemLabels(mains), fold);
    var qualityKeys := LabelKeySet(QualityLabels(mains), fold);
    var sizeKeys := LabelKeySet(SizeLabels(mains), fold);
    slots := SortIntoSlots(categories, Official(itemKeys, qualityKeys, sizeKeys), fold, Text.Trim);
  }

  method TagSlotsToCategories(slots: Slots, fold: Fold) returns (out: seq<string>)
    ensures out == ToCategories(slots, fold)
  {
    var raws := slots.items + slots.qualities + slots.sizes;
    out := FirstLabels(raws, fold, Text.Trim);
  }

  // ---- Which slot a label is put in ----

  /** A label of the taxonomy, once trimmed and folded, is `key`. */
  predicate Names(name: string, fold: Fold, key: string) {
    Text.Trim(name) != "" && fold(Text.Trim(name)) == key
  }

  /** The key names a sub-category or an item of the taxonomy. */
  ghost predicate OfficialItem(mains: seq<TaxonomyMain>, fold: Fold, key: string) {
    exists main, sub :: main in mains && sub in main.subs
                        && (Names(sub.name, fold, key) || exists row :: row in sub.items && Names(row.name, fold, key))
  }

  ghost predicate OfficialQuality(mains: seq<TaxonomyMain>, fold: Fold, key: string) {
    exists main, sub, row, name ::
      main in mains && sub in main.subs && row in sub.items && name in row.qualities && Names(name, fold, key)
  }

  ghost predicate OfficialSize(mains: seq<TaxonomyMain>, fold: Fold, key: string) {
    exists main, sub, row, name ::
      main in mains && sub in main.subs && row in sub.items && name in row.sizes && Names(name, fold, key)
  }

  lemma LabelKeysExactly(labels: seq<string>, fold: Fold, key: string)
    ensures key in LabelKeys(labels, fold) <==> exists l :: l in labels && Names(l, fold, key)
  {
    KeysExactly(Labels(labels), fold, key);
    forall l
      ensures l in Labels(labels) <==> l != "" && exists r :: r in labels && Text.Trim(r) == l
    {
      PickedExactly(labels, Text.Trim, l);
    }
    if r :| r in labels && Names(r, fold, key) {
      assert Text.Trim(r) in Labels(labels);
    }
  }

  lemma {:induction false} SubsExactly(mains: seq<TaxonomyMain>, sub: Sub)
    ensures sub in SubsOf(mains) <==> exists main :: main in mains && sub in main.subs
  {
    if mains != [] {
      SubsExactly(mains[1..], sub);
      assert forall m :: m in mains <==> m == mains[0] || m in mains[1..];
    }
  }

  lemma {:induction false} RowsExactly(subs: seq<Sub>, row: ItemRow)
    ensures row in RowsOf(subs) <==> exists sub :: sub in subs && row in sub.items
  {
    if subs != [] {
      RowsExactly(subs[1..], row);
      assert forall s :: s in subs <==> s == subs[0] || s in subs[1..];
    }
  }

  lemma {:induction false} FlatExactly(lists: seq<seq<string>>, name: string)
    ensures name in Flat(lists) <==> exists list :: list in lists && name in list
  {
    if lists != [] {
      FlatExactly(lists[1..], name);
      assert forall l :: l in lists <==> l == lists[0] || l in lists[1..];
    }
  }

  lemma QualityLabelsExactly(mains: seq<TaxonomyMain>, name: string)
    ensures name in QualityLabels(mains) <==>
            exists sub, row :: sub in SubsOf(mains) && row in sub.items && name in row.qualities
  {
    var rows := RowsOf(SubsOf(mains));
    var lists := seq(|rows|, i requires 0 <= i < |rows| => rows[i].qualities);
    FlatExactly(lists, name);
    forall row
      ensures row in rows <==> exists sub :: sub in SubsOf(mains) && row in sub.items
    {
      RowsExactly(SubsOf(mains), row);
    }
    if row :| row in rows && name in row.qualities {
      var i :| 0 <= i < |rows| && rows[i] == row;
      assert lists[i] in lists;
    }
  }

  lemma SizeLabelsExactly(mains: seq<TaxonomyMain>, name: string)
    ensures name in SizeLabels(mains) <==>
            exists sub, row :: sub in SubsOf(mains) && row in sub.items && name in row.sizes
  {
    var rows := RowsOf(SubsOf(mains));
    var lists := seq(|rows|, i requires 0 <= i < |rows| => rows[i].sizes);
    FlatExactly(lists, name);
    forall row
      ensures row in rows <==> exists sub :: sub in SubsOf(mains) && row in sub.items
    {
      RowsExactly(SubsOf(mains), row);
    }
    if row :| row in rows && name in row.sizes {
      var i :| 0 <= i < |rows| && rows[i] == row;
      assert lists[i] in lists;
    }
  }

  lemma ItemLabelsExactly(mains: seq<TaxonomyMain>, name: string)
    ensures name in ItemLabels(mains) <==>
            exists sub :: sub in SubsOf(mains) && (sub.name == name || exists row :: row in sub.items && row.name == name)
  {
    var subs := SubsOf(mains);
    var rows := RowsOf(subs);
    var a := seq(|subs|, i requires 0 <= i < |subs| => subs[i].name);
    var b := seq(|rows|, i requires 0 <= i < |rows| => rows[i].name);
    assert ItemLabels(mains) == a + b;
    forall row
      ensures row in rows <==> exists sub :: sub in subs && row in sub.items
    {
      RowsExactly(subs, row);
    }
    if sub :| sub in subs && sub.name == name {
      var i :| 0 <= i < |subs| && subs[i] == sub;
      assert a[i] in a;
    }
    if row :| row in rows && row.name == name {
      var i :| 0 <= i < |rows| && rows[i] == row;
      assert b[i] in b;
    }
  }

  lemma ItemKeysExactly(mains: seq<TaxonomyMain>, fold: Fold, key: string)
    ensures key in OfficialKeys(mains, fold).items <==> OfficialItem(mains, fold, key)
  {
    LabelKeysExactly(ItemLabels(mains), fold, key);
    forall sub
      ensures sub in SubsOf(mains) <==> exists main :: main in mains && sub in main.subs
    {
      SubsExactly(mains, sub);
    }
    forall name
      ensures name in ItemLabels(mains) <==> exists sub ::
                sub in SubsOf(mains) && (sub.name == name || exists row :: row in sub.items && row.name == name)
    {
      ItemLabelsExactly(mains, name);
    }
  }

  lemma QualityKeysExactly(mains: seq<TaxonomyMain>, fold: Fold, key: string)
    ensures key in OfficialKeys(mains, fold).qualities <==> OfficialQuality(mains, fold, key)
  {
    LabelKeysExactly(QualityLabels(mains), fold, key);
    forall sub
      ensures sub in SubsOf(mains) <==> exists main :: main in mains && sub in main.subs
    {
      SubsExactly(mains, sub);
    }
    forall name
      ensures name in QualityLabels(mains) <==> exists sub, row ::
                sub in SubsOf(mains) && row in sub.items && name in row.qualities
    {
      QualityLabelsExactly(mains, name);
    }
  }

  lemma SizeKeysExactly(mains: seq<TaxonomyMain>, fold: Fold, key: string)
    ensures key in OfficialKeys(mains, fold).sizes <==> OfficialSize(mains, fold, key)
  {
    LabelKeysExactly(SizeLabels(mains), fold, key);
    forall sub
      ensures sub in SubsOf(mains) <==> exists main :: main in mains && sub in main.subs
    {
      SubsExactly(mains, sub);
    }
    forall name
      ensures name in SizeLabels(mains) <==> exists sub, row ::
                sub in SubsOf(mains) && row in sub.items && name in row.sizes
    {
      SizeLabelsExactly(mains, name);
    }
  }

  /** The official keys are those the taxonomy names, wherever in it they stand. */
  lemma OfficialKeysExactly(mains: seq<TaxonomyMain>, fold: Fold, key: string)
    ensures var official := OfficialKeys(mains, fold);
            && (key in official.items <==> OfficialItem(mains, fold, key))
            && (key in official.qualities <==> OfficialQuality(mains, fold, key))
            && (key in official.sizes <==> OfficialSize(mains, fold, key))
  {
    ItemKeysExactly(mains, fold, key);
    QualityKeysExactly(mains, fold, key);
    SizeKeysExactly(mains, fold, key);
  }

  /**
   * A label goes to the sizes when the taxonomy has it as a size; else to the items when the taxonomy has it as a
   * sub-category or an item, or does not have it at all; else to the qualities.
   */
  lemma SlotExactly(categories: seq<string>, mains: seq<TaxonomyMain>, fold: Fold, raw: string)
    requires raw in categories && Text.Trim(raw) != ""
    ensures var tag, slots := Text.Trim(raw), ToSlots(categories, Classes(OfficialKeys(mains, fold), fold), fold);
            var size, item := OfficialSize(mains, fold, fold(tag)), OfficialItem(mains, fold, fold(tag));
            && (fold(tag) in Keys(slots.sizes, fold) <==> size)
            && (tag in slots.items <==> !size && (item || !OfficialQuality(mains, fold, fold(tag))))
            && (tag in slots.qualities <==> !size && !item && OfficialQuality(mains, fold, fold(tag)))
  {
    var tag, labels := Text.Trim(raw), Labels(categories);
    var official := OfficialKeys(mains, fold);
    var classOf := Classes(official, fold);
    OfficialKeysExactly(mains, fold, fold(tag));
    PickedExactly(categories, Text.Trim, tag);
    OfClassExactly(labels, classOf, Item, tag);
    OfClassExactly(labels, classOf, Quality, tag);
    OfClassExactly(labels, classOf, Size, tag);
    SizeKeyExactly(labels, classOf, official, fold, tag);
  }

  lemma SizeKeyExactly(labels: seq<string>, classOf: string -> Class, official: Official, fold: Fold, tag: string)
    requires tag in labels && classOf == Classes(official, fold)
    ensures fold(tag) in Keys(Firsts(OfClass(labels, classOf, Size), fold), fold) <==> fold(tag) in official.sizes
  {
    var sizes := OfClass(labels, classOf, Size);
    FirstsKeepKeys(sizes, fold);
    KeysExactly(sizes, fold, fold(tag));
    OfClassExactly(labels, classOf, Size, tag);
    if l :| l in sizes && fold(l) == fold(tag) {
      OfClassExactly(labels, classOf, Size, l);
    }
  }

  /** One more entry adds its label, unless blank or already there under another spelling. */
  lemma OneMoreEntry(raws: seq<string>, i: nat, fold: Fold, trim: string -> string)
    requires i < |raws|
    ensures var tag, before := trim(raws[i]), Picked(raws[..i], trim);
            var after := Picked(raws[..i + 1], trim);
            if tag == "" then after == before
            else
              && Keys(after, fold) == Keys(before, fold) + {fold(tag)}
              && Firsts(after, fold) ==
                 if fold(tag) in Keys(before, fold) then Firsts(before, fold) else Firsts(before, fold) + [tag]
  {
    var tag, before := trim(raws[i]), Picked(raws[..i], trim);
    TakeOne(raws, i, trim);
    if tag != "" {
      FirstsOfOneMore(before, tag, fold);
      KeysOfOneMore(before, tag, fold);
    }
  }

  /** The shared loop: trimmed, non-blank, each key once. */
  method FirstLabels(raws: seq<string>, fold: Fold, trim: string -> string) returns (out: seq<string>)
    ensures out == Firsts(Picked(raws, trim), fold)
  {
    out := [];
    var seen := {};
    for i := 0 to |raws|
      invariant out == Firsts(Picked(raws[..i], trim), fold)
      invariant seen == Keys(Picked(raws[..i], trim), fold)
    {
      var tag := trim(raws[i]);
      OneMoreEntry(raws, i, fold, trim);
      if tag != "" {
        var key := fold(tag);
        if key !in seen {
          seen := seen + {key};
          out := out + [tag];
        }
      }
    }
    assert raws[..|raws|] == raws;
  }

  // ---- The normal form ----

  lemma SublistOfLabels<C>(labels: seq<string>, classOf: string -> C, c: C)
    requires AreLabels(labels)
    ensures AreLabels(OfClass(labels, classOf, c))
  {
    forall l | l in OfClass(labels, classOf, c)
      ensures l != "" && Text.Trim(l) == l
    {
      OfClassExactly(labels, classOf, c, l);
    }
  }

  /** Two classes share no key when the class depends on the key alone. */
  lemma ClassesShareNoKey<C>(labels: seq<string>, classOf: string -> C, c: C, d: C, fold: Fold)
    requires c != d && forall a, b :: fold(a) == fold(b) ==> classOf(a) == classOf(b)
    ensures Keys(OfClass(labels, classOf, c), fold) !! Keys(OfClass(labels, classOf, d), fold)
  {
    forall key | key in Keys(OfClass(labels, classOf, c), fold) && key in Keys(OfClass(labels, classOf, d), fold)
      ensures false
    {
      KeysExactly(OfClass(labels, classOf, c), fold, key);
      KeysExactly(OfClass(labels, classOf, d), fold, key);
      var a :| a in OfClass(labels, classOf, c) && fold(a) == key;
      var b :| b in OfClass(labels, classOf, d) && fold(b) == key;
      OfClassExactly(labels, classOf, c, a);
      OfClassExactly(labels, classOf, d, b);
    }
  }

  /** The labels of one class, each key once. */
  function Lane(labels: seq<string>, classOf: string -> Class, c: Class, fold: Fold): seq<string> {
    Firsts(OfClass(labels, classOf, c), fold)
  }

  /** The normal form lists items, then qualities, then sizes, each class in input order with each key once. */
  lemma NormalFormIsOrdered(categories: seq<string>, official: Official, fold: Fold)
    ensures var labels, classOf := Labels(categories), Classes(official, fold);
            NormalForm(categories, official, fold) ==
            Lane(labels, classOf, Item, fold) + Lane(labels, classOf, Quality, fold) + Lane(labels, classOf, Size, fold)
  {
    var labels, classOf := Labels(categories), Classes(official, fold);
    var items, qualities := OfClass(labels, classOf, Item), OfClass(labels, classOf, Quality);
    var sizes := Lane(labels, classOf, Size, fold);
    LabelsAreLabels(categories);
    SublistOfLabels(labels, classOf, Item);
    SublistOfLabels(labels, classOf, Quality);
    SublistOfLabels(labels, classOf, Size);
    FirstsKeepKeys(OfClass(labels, classOf, Size), fold);
    assert AreLabels(sizes);
    LabelsOfLabels(items + qualities + sizes);
    ClassesShareNoKey(labels, classOf, Item, Quality, fold);
    ClassesShareNoKey(labels, classOf, Item, Size, fold);
    ClassesShareNoKey(labels, classOf, Quality, Size, fold);
    KeysOfConcat(items, qualities, fold);
    FirstsOfConcat(items + qualities, sizes, fold);
    FirstsOfConcat(items, qualities, fold);
    FirstsOfDistinct(sizes, fold);
  }

  function ClassKeys(labels: seq<string>, classOf: string -> Class, fold: Fold): set<string> {
    Keys(OfClass(labels, classOf, Item), fold) + Keys(OfClass(labels, classOf, Quality), fold) +
    Keys(OfClass(labels, classOf, Size), fold)
  }

  lemma KeyIsInItsClass(labels: seq<string>, classOf: string -> Class, fold: Fold, key: string) returns (c: Class)
    requires key in Keys(labels, fold)
    ensures key in Keys(OfClass(labels, classOf, c), fold)
  {
    KeysExactly(labels, fold, key);
    var l :| l in labels && fold(l) == key;
    c := classOf(l);
    OfClassExactly(labels, classOf, c, l);
    KeysExactly(OfClass(labels, classOf, c), fold, key);
  }

  lemma {:induction false} ClassKeysAreKeys(labels: seq<string>, classOf: string -> Class, fold: Fold, c: Class)
    ensures Keys(OfClass(labels, classOf, c), fold) <= Keys(labels, fold)
  {
    forall key | key in Keys(OfClass(labels, classOf, c), fold)
      ensures key in Keys(labels, fold)
    {
      KeysExactly(OfClass(labels, classOf, c), fold, key);
      var l :| l in OfClass(labels, classOf, c) && fold(l) == key;
      OfClassExactly(labels, classOf, c, l);
      KeysExactly(labels, fold, key);
    }
  }

  lemma KeysOfClasses(labels: seq<string>, classOf: string -> Class, fold: Fold)
    ensures Keys(labels, fold) == ClassKeys(labels, classOf, fold)
  {
    forall key | key in Keys(labels, fold)
      ensures key in ClassKeys(labels, classOf, fold)
    {
      var c := KeyIsInItsClass(labels, classOf, fold, key);
      match c
      case Item =>
      case Quality =>
      case Size =>
    }
    ClassKeysAreKeys(labels, classOf, fold, Item);
    ClassKeysAreKeys(labels, classOf, fold, Quality);
    ClassKeysAreKeys(labels, classOf, fold, Size);
    assert forall key :: key in ClassKeys(labels, classOf, fold) ==> key in Keys(labels, fold);
  }

  /** The normal form keeps exactly the labels there were, up to case, and none twice. */
  lemma NormalFormKeepsEveryLabel(categories: seq<string>, official: Official, fold: Fold)
    ensures Keys(NormalForm(categories, official, fold), fold) == LabelKeys(categories, fold)
    ensures DistinctKeys(NormalForm(categories, official, fold), fold)
    ensures AreLabels(NormalForm(categories, official, fold))
  {
    var labels, classOf := Labels(categories), Classes(official, fold);
    var slots := ToSlots(categories, classOf, fold);
    var tags := slots.items + slots.qualities + slots.sizes;
    LabelsAreLabels(tags);
    FirstsKeepKeys(Labels(tags), fold);
    NormalFormIsOrdered(categories, official, fold);
    var items, qualities := Lane(labels, classOf, Item, fold), Lane(labels, classOf, Quality, fold);
    var sizes := Lane(labels, classOf, Size, fold);
    FirstsKeepKeys(OfClass(labels, classOf, Item), fold);
    FirstsKeepKeys(OfClass(labels, classOf, Quality), fold);
    FirstsKeepKeys(OfClass(labels, classOf, Size), fold);
    KeysOfConcat(items + qualities, sizes, fold);
    KeysOfConcat(items, qualities, fold);
    KeysOfClasses(labels, classOf, fold);
  }

  lemma OfRuns(a: seq<string>, b: seq<string>, d: seq<string>, classOf: string -> Class, c: Class)
    ensures OfClass(a + b + d, classOf, c) == OfClass(a, classOf, c) + OfClass(b, classOf, c) + OfClass(d, classOf, c)
  {
    OfClassOfConcat(a + b, d, classOf, c);
    OfClassOfConcat(a, b, classOf, c);
  }

  function OnlyIf(run: seq<string>, c: Class, d: Class): seq<string> {
    if c == d then run else []
  }

  lemma OneRunIsLeft(items: seq<string>, qualities: seq<string>, sizes: seq<string>, c: Class)
    ensures OnlyIf(items, Item, c) + OnlyIf(qualities, Quality, c) + OnlyIf(sizes, Size, c) ==
            match c case Item => items case Quality => qualities case Size => sizes
  {
  }

  /** Of three runs of one class each, a class keeps its own run. */
  lemma OfThreeRuns(items: seq<string>, qualities: seq<string>, sizes: seq<string>, classOf: string -> Class, c: Class)
    requires forall l :: l in items ==> classOf(l) == Item
    requires forall l :: l in qualities ==> classOf(l) == Quality
    requires forall l :: l in sizes ==> classOf(l) == Size
    ensures OfClass(items + qualities + sizes, classOf, c) ==
            match c case Item => items case Quality => qualities case Size => sizes
  {
    OfRuns(items, qualities, sizes, classOf, c);
    OfOneClass(items, classOf, Item, c);
    OfOneClass(qualities, classOf, Quality, c);
    OfOneClass(sizes, classOf, Size, c);
    OneRunIsLeft(items, qualities, sizes, c);
  }

  lemma LaneIsOfItsClass(labels: seq<string>, classOf: string -> Class, c: Class, fold: Fold)
    ensures forall l :: l in Lane(labels, classOf, c, fold) ==> classOf(l) == c
    ensures Firsts(Lane(labels, classOf, c, fold), fold) == Lane(labels, classOf, c, fold)
  {
    FirstsKeepKeys(OfClass(labels, classOf, c), fold);
    FirstsOfDistinct(Lane(labels, classOf, c, fold), fold);
    forall l | l in Lane(labels, classOf, c, fold)
      ensures classOf(l) == c
    {
      OfClassExactly(labels, classOf, c, l);
    }
  }

  /** Each class has in the normal form the labels it had, each key once. */
  lemma LaneOfNormalForm(categories: seq<string>, official: Official, fold: Fold, c: Class)
    ensures Lane(NormalForm(categories, official, fold), Classes(official, fold), c, fold) ==
            Lane(Labels(categories), Classes(official, fold), c, fold)
  {
    var labels, classOf := Labels(categories), Classes(official, fold);
    NormalFormIsOrdered(categories, official, fold);
    LaneIsOfItsClass(labels, classOf, Item, fold);
    LaneIsOfItsClass(labels, classOf, Quality, fold);
    LaneIsOfItsClass(labels, classOf, Size, fold);
    OfThreeRuns(Lane(labels, classOf, Item, fold), Lane(labels, classOf, Quality, fold),
                Lane(labels, classOf, Size, fold), classOf, c);
  }

  /** Normalising twice is normalising once, whatever the taxonomy and the folding. */
  lemma NormalFormTwice(categories: seq<string>, official: Official, fold: Fold)
    ensures NormalForm(NormalForm(categories, official, fold), official, fold) == NormalForm(categories, official, fold)
  {
    var once := NormalForm(categories, official, fold);
    NormalFormKeepsEveryLabel(categories, official, fold);
    LabelsOfLabels(once);
    NormalFormIsOrdered(categories, official, fold);
    NormalFormIsOrdered(once, official, fold);
    LaneOfNormalForm(categories, official, fold, Item);
    LaneOfNormalForm(categories, official, fold, Quality);
    LaneOfNormalForm(categories, official, fold, Size);
  }

  // ---- Pruning on a category change ----

  /** A label goes only when the old category offered it and the new one does not. */
  function Stays(oldPool: seq<string>, newPool: seq<string>, fold: Fold): string -> bool {
    tag => fold(tag) in LabelKeys(oldPool, fold) ==> fold(tag) in LabelKeys(newPool, fold)
  }

  /** `keep` */
  function Kept(labels: seq<string>, oldPool: seq<string>, newPool: seq<string>, fold: Fold): seq<string> {
    Firsts(OfClass(Labels(labels), Stays(oldPool, newPool, fold), true), fold)
  }

  method Keep(labels: seq<string>, oldPool: seq<string>, newPool: seq<string>, fold: Fold) returns (out: seq<string>)
    ensures out == Kept(labels, oldPool, newPool, fold)
  {
    var oldKeys := LabelKeySet(oldPool, fold);
    var newKeys := LabelKeySet(newPool, fold);
    out := KeepLoop(labels, oldKeys, newKeys, fold, Text.Trim, Stays(oldPool, newPool, fold));
  }

  /** The labels read so far that `stays` does not withdraw. */
  function Staying(labels: seq<string>, trim: string -> string, stays: string -> bool): seq<string> {
    OfClass(Picked(labels, trim), stays, true)
  }

  lemma OneMoreStaying(labels: seq<string>, i: nat, fold: Fold, trim: string -> string, stays: string -> bool)
    requires i < |labels|
    ensures var tag, before := trim(labels[i]), Staying(labels[..i], trim, stays);
            var after := Staying(labels[..i + 1], trim, stays);
            if tag == "" || !stays(tag) then after == before
            else
              && Keys(after, fold) == Keys(before, fold) + {fold(tag)}
              && Firsts(after, fold) ==
                 if fold(tag) in Keys(before, fold) then Firsts(before, fold) else Firsts(before, fold) + [tag]
  {
    var tag, before := trim(labels[i]), Staying(labels[..i], trim, stays);
    TakeOne(labels, i, trim);
    OfClassOfOneMore(Picked(labels[..i], trim), tag, stays, true);
    KeysOfOneMore(before, tag, fold);
    FirstsOfOneMore(before, tag, fold);
  }

  /** The loop of `keep`; `stays` names the labels it does not withdraw. */
  method KeepLoop(labels: seq<string>, oldKeys: set<string>, newKeys: set<string>, fold: Fold, trim: string -> string,
                  ghost stays: string -> bool)
    returns (out: seq<string>)
    requires forall tag :: stays(tag) <==> (fold(tag) in oldKeys ==> fold(tag) in newKeys)
    ensures out == Firsts(Staying(labels, trim, stays), fold)
  {
    out := [];
    var seen := {};
    for i := 0 to |labels|
      invariant out == Firsts(Staying(labels[..i], trim, stays), fold)
      invariant seen == Keys(Staying(labels[..i], trim, stays), fold)
    {
      var tag := trim(labels[i]);
      OneMoreStaying(labels, i, fold, trim, stays);
      if tag != "" {
        var key := fold(tag);
        if key !in seen && !(key in oldKeys && key !in newKeys) {
          seen := seen + {key};
          out := out + [tag];
        }
      }
    }
    assert labels[..|labels|] == labels;
  }

  /** `pruneOfficialTagsOnCategoryChange`: each bucket is pruned against its own pools. */
  function Pruned(slots: Slots, oldPools: Slots, newPools: Slots, fold: Fold): Slots {
    Slots(Kept(slots.items, oldPools.items, newPools.items, fold),
          Kept(slots.qualities, oldPools.qualities, newPools.qualities, fold),
          Kept(slots.sizes, oldPools.sizes, newPools.sizes, fold))
  }

  method PruneOfficialTagsOnCategoryChange(slots: Slots, oldPools: Slots, newPools: Slots, fold: Fold)
    returns (pruned: Slots)
    ensures pruned == Pruned(slots, oldPools, newPools, fold)
    ensures Keys(pruned.items, fold) ==
            LabelKeys(slots.items, fold) - (LabelKeys(oldPools.items, fold) - LabelKeys(newPools.items, fold))
    ensures Keys(pruned.qualities, fold) ==
            LabelKeys(slots.qualities, fold) - (LabelKeys(oldPools.qualities, fold) - LabelKeys(newPools.qualities, fold))
    ensures Keys(pruned.sizes, fold) ==
            LabelKeys(slots.sizes, fold) - (LabelKeys(oldPools.sizes, fold) - LabelKeys(newPools.sizes, fold))
  {
    KeptExactly(slots.items, oldPools.items, newPools.items, fold);
    KeptExactly(slots.qualities, oldPools.qualities, newPools.qualities, fold);
    KeptExactly(slots.sizes, oldPools.sizes, newPools.sizes, fold);
    var items := Keep(slots.items, oldPools.items, newPools.items, fold);
    var qualities := Keep(slots.qualities, oldPools.qualities, newPools.qualities, fold);
    var sizes := Keep(slots.sizes, oldPools.sizes, newPools.sizes, fold);
    pruned := Slots(items, qualities, sizes);
  }

  /** Pruning keeps exactly the keys not withdrawn by the change, and none twice. */
  lemma KeptExactly(labels: seq<string>, oldPool: seq<string>, newPool: seq<string>, fold: Fold)
    ensures Keys(Kept(labels, oldPool, newPool, fold), fold) ==
            LabelKeys(labels, fold) - (LabelKeys(oldPool, fold) - LabelKeys(newPool, fold))
    ensures DistinctKeys(Kept(labels, oldPool, newPool, fold), fold)
  {
    var tags, stays := Labels(labels), Stays(oldPool, newPool, fold);
    FirstsKeepKeys(OfClass(tags, stays, true), fold);
    forall key
      ensures key in Keys(OfClass(tags, stays, true), fold) <==>
              key in Keys(tags, fold) && !(key in LabelKeys(oldPool, fold) && key !in LabelKeys(newPool, fold))
    {
      KeysExactly(OfClass(tags, stays, true), fold, key);
      KeysExactly(tags, fold, key);
      forall l
        ensures l in OfClass(tags, stays, true) <==> l in tags && stays(l)
      {
        OfClassExactly(tags, stays, true, l);
      }
    }
  }

  /** Kept labels are labels of the list, in its order: those of a longer list start with them. */
  lemma KeptInOrder(labels: seq<string>, more: seq<string>, oldPool: seq<string>, newPool: seq<string>, fold: Fold)
    ensures Kept(labels, oldPool, newPool, fold) <= Kept(labels + more, oldPool, newPool, fold)
    ensures forall l :: l in Kept(labels, oldPool, newPool, fold) ==> l != "" && exists r :: r in labels && Text.Trim(r) == l
  {
    var stays := Stays(oldPool, newPool, fold);
    var a, b := Labels(labels), Labels(more);
    PickedOfConcat(labels, more, Text.Trim);
    OfClassOfConcat(a, b, stays, true);
    FirstsOfLonger(OfClass(a, stays, true), OfClass(b, stays, true), fold);
    FirstsAreItems(OfClass(a, stays, true), fold);
    forall l | l in Kept(labels, oldPool, newPool, fold)
      ensures l != "" && exists r :: r in labels && Text.Trim(r) == l
    {
      OfClassExactly(a, stays, true, l);
      PickedExactly(labels, Text.Trim, l);
    }
  }

  /** A label the old category never offered is still there after the change. */
  lemma CustomLabelsStay(labels: seq<string>, oldPool: seq<string>, newPool: seq<string>, fold: Fold, tag: string)
    requires tag in Labels(labels) && fold(tag) !in LabelKeys(oldPool, fold)
    ensures fold(tag) in Keys(Kept(labels, oldPool, newPool, fold), fold)
  {
    KeptExactly(labels, oldPool, newPool, fold);
    KeysExactly(Labels(labels), fold, fold(tag));
  }

  /** Pruning twice for the same change is pruning once. */
  lemma KeepTwice(labels: seq<string>, oldPool: seq<string>, newPool: seq<string>, fold: Fold)
    ensures Kept(Kept(labels, oldPool, newPool, fold), oldPool, newPool, fold) == Kept(labels, oldPool, newPool, fold)
  {
    var tags, stays, once := Labels(labels), Stays(oldPool, newPool, fold), Kept(labels, oldPool, newPool, fold);
    LabelsAreLabels(labels);
    SublistOfLabels(tags, stays, true);
    FirstsKeepKeys(OfClass(tags, stays, true), fold);
    LabelsOfLabels(once);
    forall l | l in once
      ensures stays(l)
    {
      OfClassExactly(tags, stays, true, l);
    }
    OfOneClass(once, stays, true, true);
    FirstsOfDistinct(once, fold);
  }

  lemma PruneTwice(slots: Slots, oldPools: Slots, newPools: Slots, fold: Fold)
    ensures Pruned(Pruned(slots, oldPools, newPools, fold), oldPools, newPools, fold) ==
            Pruned(slots, oldPools, newPools, fold)
  {
    KeepTwice(slots.items, oldPools.items, newPools.items, fold);
    KeepTwice(slots.qualities, oldPools.qualities, newPools.qualities, fold);
    KeepTwice(slots.sizes, oldPools.sizes, newPools.sizes, fold);
  }
}
