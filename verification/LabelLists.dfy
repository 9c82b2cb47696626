/** Lists of labels as typed by people: trimming, and dropping the blank. */
module LabelLists {
  import Text

  /** Lower-casing is a parameter: nothing below depends on which one it is. */
  type Fold = string -> string

  /** The entries of a list after `trim`, those left blank dropped. */
  function Picked(raws: seq<string>, trim: string -> string): seq<string> {
    if raws == [] then []
    else
      var tag := trim(raws[|raws| - 1]);
      var front := Picked(raws[..|raws| - 1], trim);
      if tag == "" then front else front + [tag]
  }

  function Labels(raws: seq<string>): seq<string> {
    Picked(raws, Text.Trim)
  }

  predicate AreLabels(labels: seq<string>) {
    forall l :: l in labels ==> l != "" && Text.Trim(l) == l
  }

  /** An entry is picked exactly when something trims to it and it is not blank. */
  lemma {:induction false} PickedExactly(raws: seq<string>, trim: string -> string, tag: string)
    ensures tag in Picked(raws, trim) <==> tag != "" && exists r :: r in raws && trim(r) == tag
  {
    if raws != [] {
      var front, last := raws[..|raws| - 1], raws[|raws| - 1];
      PickedExactly(front, trim, tag);
      assert last in raws;
      assert forall r :: r in raws <==> r in front || r == last;
    }
  }

  /** Picking works entry by entry, in order. */
  lemma {:induction false} PickedOfConcat(a: seq<string>, b: seq<string>, trim: string -> string)
    ensures Picked(a + b, trim) == Picked(a, trim) + Picked(b, trim)
  {
    if b == [] {
      assert a + b == a;
    } else {
      PickedOfConcat(a, b[..|b| - 1], trim);
      assert (a + b)[..|a + b| - 1] == a + b[..|b| - 1];
    }
  }

  lemma PickedOfOne(raw: string, trim: string -> string)
    ensures Picked([raw], trim) == if trim(raw) == "" then [] else [trim(raw)]
  {
  }

  lemma {:induction false} PickedAgain(tags: seq<string>, trim: string -> string)
    requires forall l :: l in tags ==> l != "" && trim(l) == l
    ensures Picked(tags, trim) == tags
  {
    if tags != [] {
      var front, last := tags[..|tags| - 1], tags[|tags| - 1];
      assert last in tags;
      assert forall l :: l in front ==> l in tags;
      PickedAgain(front, trim);
      assert tags == front + [last];
    }
  }

  lemma LabelsAreLabels(raws: seq<string>)
    ensures AreLabels(Labels(raws))
  {
    forall l | l in Labels(raws)
      ensures l != "" && Text.Trim(l) == l
    {
      PickedExactly(raws, Text.Trim, l);
      var r :| r in raws && Text.Trim(r) == l;
      Text.TrimTwice(r);
    }
  }

  lemma LabelsOfLabels(labels: seq<string>)
    requires AreLabels(labels)
    ensures Labels(labels) == labels
  {
    PickedAgain(labels, Text.Trim);
  }

  lemma TakeOne(raws: seq<string>, i: nat, trim: string -> string)
    requires i < |raws|
    ensures var tag := trim(raws[i]);
            Picked(raws[..i + 1], trim) == if tag == "" then Picked(raws[..i], trim) else Picked(raws[..i], trim) + [tag]
  {
    assert raws[..i + 1][..i] == raws[..i];
  }
}
