/** Escaping text for HTML: five chained replacements act as one substitution that can be undone. */
module EscapeHtml {

  /** `value.replaceAll(c, put)` */
  function ReplaceAll(s: string, c: char, put: string): string {
    if s == [] then [] else (if s[0] == c then put else [s[0]]) + ReplaceAll(s[1..], c, put)
  }

  const AMP := "&amp;"
  const LT := "&lt;"
  const GT := "&gt;"
  const QUOT := "&quot;"
  const APOS := "&#39;"

  /** `escapeHtml` */
  function Escape(value: string): string {
    var a := ReplaceAll(value, '&', AMP);
    var b := ReplaceAll(a, '<', LT);
    var c := ReplaceAll(b, '>', GT);
    var d := ReplaceAll(c, '\"', QUOT);
    ReplaceAll(d, '\'', APOS)
  }

  function Entity(c: char): string {
    if c == '&' then AMP
    else if c == '<' then LT
    else if c == '>' then GT
    else if c == '\"' then QUOT
    else if c == '\'' then APOS
    else [c]
  }

  /** Each character replaced by its entity, in one pass. */
  function Substituted(s: string): string {
    if s == [] then [] else Entity(s[0]) + Substituted(s[1..])
  }

  lemma {:induction false} ReplaceOfConcat(a: string, b: string, c: char, put: string)
    ensures ReplaceAll(a + b, c, put) == ReplaceAll(a, c, put) + ReplaceAll(b, c, put)
  {
    if a == [] {
      assert a + b == b;
    } else {
      assert (a + b)[1..] == a[1..] + b;
      ReplaceOfConcat(a[1..], b, c, put);
    }
  }

  lemma {:induction false} ReplaceOfAbsent(s: string, c: char, put: string)
    requires c !in s
    ensures ReplaceAll(s, c, put) == s
  {
    if s != [] {
      assert s[0] in s;
      assert forall d :: d in s[1..] ==> d in s;
      ReplaceOfAbsent(s[1..], c, put);
      assert [s[0]] + s[1..] == s;
    }
  }

  lemma EscapeOfConcat(a: string, b: string)
    ensures Escape(a + b) == Escape(a) + Escape(b)
  {
    var a1, b1 := ReplaceAll(a, '&', AMP), ReplaceAll(b, '&', AMP);
    var a2, b2 := ReplaceAll(a1, '<', LT), ReplaceAll(b1, '<', LT);
    var a3, b3 := ReplaceAll(a2, '>', GT), ReplaceAll(b2, '>', GT);
    var a4, b4 := ReplaceAll(a3, '\"', QUOT), ReplaceAll(b3, '\"', QUOT);
    ReplaceOfConcat(a, b, '&', AMP);
    ReplaceOfConcat(a1, b1, '<', LT);
    ReplaceOfConcat(a2, b2, '>', GT);
    ReplaceOfConcat(a3, b3, '\"', QUOT);
    ReplaceOfConcat(a4, b4, '\'', APOS);
  }

  lemma ReplaceOfOne(d: char, c: char, put: string)
    ensures ReplaceAll([d], c, put) == if d == c then put else [d]
  {
  }

  /** An entity passes untouched through every later replacement. */
  lemma EntityIsStable(entity: string, c: char, put: string)
    requires entity == AMP || entity == LT || entity == GT || entity == QUOT || entity == APOS
    requires c == '<' || c == '>' || c == '\"' || c == '\''
    ensures ReplaceAll(entity, c, put) == entity
  {
    assert c !in AMP && c !in LT && c !in GT && c !in QUOT && c !in APOS;
    ReplaceOfAbsent(entity, c, put);
  }

  lemma EscapeOfOne(c: char)
    ensures Escape([c]) == Entity(c)
  {
    var a := ReplaceAll([c], '&', AMP);
    ReplaceOfOne(c, '&', AMP);
    var b := ReplaceAll(a, '<', LT);
    ReplaceOfOne(c, '<', LT);
    if c == '&' { EntityIsStable(AMP, '<', LT); }
    var d := ReplaceAll(b, '>', GT);
    ReplaceOfOne(c, '>', GT);
    if c == '&' || c == '<' { EntityIsStable(b, '>', GT); }
    var e := ReplaceAll(d, '\"', QUOT);
    ReplaceOfOne(c, '\"', QUOT);
    if c == '&' || c == '<' || c == '>' { EntityIsStable(d, '\"', QUOT); }
    ReplaceOfOne(c, '\'', APOS);
    if c == '&' || c == '<' || c == '>' || c == '\"' { EntityIsStable(e, '\'', APOS); }
  }

  /** What becomes of one character; with `EscapeOfConcat`, of every text. */
  lemma EscapeOneExactly(c: char)
    ensures Escape([c]) ==
            if c == '&' then "&amp;" else if c == '<' then "&lt;" else if c == '>' then "&gt;"
            else if c == '\"' then "&quot;" else if c == '\'' then "&#39;" else [c]
  {
    EscapeOfOne(c);
  }

  /** The five passes are one substitution, character by character. */
  lemma {:induction false} EscapeIsSubstitution(s: string)
    ensures Escape(s) == Substituted(s)
  {
    if s != [] {
      EscapeIsSubstitution(s[1..]);
      EscapeOfConcat([s[0]], s[1..]);
      assert [s[0]] + s[1..] == s;
      EscapeOfOne(s[0]);
    }
  }

  /** Escaped text opens no tag and closes no attribute. */
  lemma {:induction false} SubstitutedIsInert(s: string)
    ensures forall c :: c in Substituted(s) ==> c != '<' && c != '>' && c != '\"' && c != '\''
  {
    if s != [] {
      SubstitutedIsInert(s[1..]);
    }
  }

  lemma EscapedIsInert(s: string)
    ensures forall c :: c in Escape(s) ==> c != '<' && c != '>' && c != '\"' && c != '\''
  {
    EscapeIsSubstitution(s);
    SubstitutedIsInert(s);
  }

  /** Reading entities back. */
  function Unescape(s: string): string {
    if s == [] then []
    else if AMP <= s then "&" + Unescape(s[5..])
    else if LT <= s then "<" + Unescape(s[4..])
    else if GT <= s then ">" + Unescape(s[4..])
    else if QUOT <= s then "\"" + Unescape(s[6..])
    else if APOS <= s then "\'" + Unescape(s[5..])
    else [s[0]] + Unescape(s[1..])
  }

  /** An entity in front of any text is read back alone. */
  lemma UnescapeOfEntity(c: char, rest: string)
    ensures Unescape(Entity(c) + rest) == [c] + Unescape(rest)
  {
    var s := Entity(c) + rest;
    assert s[|Entity(c)|..] == rest;
    if c == '&' {
      assert s[..5] == AMP;
    } else if c == '<' {
      assert s[..4] == LT && s[1] == 'l';
    } else if c == '>' {
      assert s[..4] == GT && s[1] == 'g';
    } else if c == '\"' {
      assert s[..6] == QUOT && s[1] == 'q';
    } else if c == '\'' {
      assert s[..5] == APOS && s[1] == '#';
    } else {
      assert s[0] != '&';
    }
  }

  lemma {:induction false} UnescapeOfSubstituted(s: string)
    ensures Unescape(Substituted(s)) == s
  {
    if s != [] {
      UnescapeOfSubstituted(s[1..]);
      UnescapeOfEntity(s[0], Substituted(s[1..]));
    }
  }

  /** Escaping loses nothing: every string is read back from its escape. */
  lemma EscapeReadsBack(s: string)
    ensures Unescape(Escape(s)) == s
  {
    EscapeIsSubstitution(s);
    UnescapeOfSubstituted(s);
  }
}
