/** Strings: the code-unit order, trimming and cutting on a separator. */
module Text {

  /** The order of `<` and of the default `sort` on strings. */
  predicate Less(a: string, b: string) {
    b != [] && (a == [] || a[0] < b[0] || (a[0] == b[0] && Less(a[1..], b[1..])))
  }

  lemma {:induction false} LessIsTotal(a: string, b: string)
    ensures Less(a, b) || a == b || Less(b, a)
  {
    if a != [] && b != [] && a[0] == b[0] {
      LessIsTotal(a[1..], b[1..]);
      assert a == [a[0]] + a[1..] && b == [b[0]] + b[1..];
    }
  }

  lemma {:induction false} LessIsAsymmetric(a: string, b: string)
    requires Less(a, b)
    ensures a != b && !Less(b, a)
  {
    if a != [] && a[0] == b[0] {
      LessIsAsymmetric(a[1..], b[1..]);
    }
  }

  lemma {:induction false} LessIsTransitive(a: string, b: string, c: string)
    requires Less(a, b) && Less(b, c)
    ensures Less(a, c)
  {
    if a != [] && a[0] == b[0] && b[0] == c[0] {
      LessIsTransitive(a[1..], b[1..], c[1..]);
    }
  }

  /** Characters removed by `trim`: white space and line terminators. */
  predicate IsSpace(c: char) {
    || c == ' ' || c == '\t' || c == '\n' || c == '\r' || c == '\U{000B}' || c == '\U{000C}' || c == '\U{00A0}'
    || c == '\U{FEFF}' || c == '\U{1680}' || '\U{2000}' <= c <= '\U{200A}' || c == '\U{2028}' || c == '\U{2029}'
    || c == '\U{202F}' || c == '\U{205F}' || c == '\U{3000}'
  }

  function TrimStart(s: string): (r: string)
    ensures r == [] || !IsSpace(r[0])
    ensures |r| <= |s| && r == s[|s| - |r|..]
  {
    if s != [] && IsSpace(s[0]) then TrimStart(s[1..]) else s
  }

  function TrimEnd(s: string): (r: string)
    ensures r == [] || !IsSpace(r[|r| - 1])
    ensures r <= s
  {
    if s != [] && IsSpace(s[|s| - 1]) then TrimEnd(s[..|s| - 1]) else s
  }

  predicate Trimmed(s: string) {
    s == [] || (!IsSpace(s[0]) && !IsSpace(s[|s| - 1]))
  }

  function Trim(s: string): (r: string)
    ensures Trimmed(r)
    ensures Trimmed(s) ==> r == s
  {
    TrimEnd(TrimStart(s))
  }

  predicate AllSpace(s: string) {
    forall c :: c in s ==> IsSpace(c)
  }

  lemma {:induction false} TrimStartDropsSpace(s: string)
    ensures AllSpace(s[..|s| - |TrimStart(s)|])
  {
    if s != [] && IsSpace(s[0]) {
      TrimStartDropsSpace(s[1..]);
      var n := |s| - |TrimStart(s)|;
      assert s[..n] == [s[0]] + s[1..][..n - 1];
    }
  }

  lemma {:induction false} TrimEndDropsSpace(s: string)
    ensures AllSpace(s[|TrimEnd(s)|..])
  {
    if s != [] && IsSpace(s[|s| - 1]) {
      TrimEndDropsSpace(s[..|s| - 1]);
      var n := |TrimEnd(s)|;
      assert s[n..] == s[..|s| - 1][n..] + [s[|s| - 1]];
    }
  }

  /** Trimming takes nothing but space off both ends. */
  lemma TrimDropsSpaceOnly(s: string) returns (before: string, after: string)
    ensures s == before + Trim(s) + after && AllSpace(before) && AllSpace(after)
  {
    var left := TrimStart(s);
    TrimStartDropsSpace(s);
    TrimEndDropsSpace(left);
    before, after := s[..|s| - |left|], left[|Trim(s)|..];
  }

  lemma BlankExactly(s: string)
    ensures Trim(s) == "" <==> AllSpace(s)
  {
    var before, after := TrimDropsSpaceOnly(s);
    var t := Trim(s);
    if t != "" {
      assert t[0] in s;
    }
  }

  lemma TrimTwice(s: string)
    ensures Trim(Trim(s)) == Trim(s)
  {
  }

  /** `parts.join(separator)` */
  function Join(parts: seq<string>, separator: string): string {
    if parts == [] then [] else if |parts| == 1 then parts[0] else parts[0] + separator + Join(parts[1..], separator)
  }

  /** `s.split(mark)[0]` */
  function Before(s: string, mark: char): (r: string)
    ensures r <= s && mark !in r
    ensures mark !in s ==> r == s
  {
    if s == [] || s[0] == mark then [] else [s[0]] + Before(s[1..], mark)
  }

  lemma {:induction false} BeforeOfConcat(a: string, b: string, mark: char)
    requires mark !in a && (b == [] || b[0] == mark)
    ensures Before(a + b, mark) == a
  {
    if a == [] {
      assert a + b == b;
    } else {
      assert (a + b)[1..] == a[1..] + b;
      assert a[0] in a;
      BeforeOfConcat(a[1..], b, mark);
    }
  }

  predicate AreParts(parts: seq<string>, mark: char) {
    forall p :: p in parts ==> p != [] && mark !in p
  }

  predicate FreeOf(parts: seq<string>, mark: char) {
    forall p :: p in parts ==> mark !in p
  }

  /** `s.split(mark)` */
  function Split(s: string, mark: char): (parts: seq<string>)
    ensures parts != []
    decreases |s|
  {
    var head := Before(s, mark);
    if |head| == |s| then [s] else [head] + Split(s[|head| + 1..], mark)
  }

  lemma SplitOfConcat(a: string, b: string, mark: char)
    requires mark !in a
    ensures Split(a + [mark] + b, mark) == [a] + Split(b, mark)
  {
    var s := a + [mark] + b;
    assert s == a + ([mark] + b);
    BeforeOfConcat(a, [mark] + b, mark);
    assert s[|a| + 1..] == b;
  }

  /** Parts free of the mark are read back from their join. */
  lemma {:induction false} SplitOfJoin(parts: seq<string>, mark: char)
    requires parts != [] && FreeOf(parts, mark)
    ensures Split(Join(parts, [mark]), mark) == parts
  {
    var first, rest := parts[0], parts[1..];
    assert first in parts && parts == [first] + rest;
    if rest != [] {
      SplitOfJoin(rest, mark);
      SplitOfConcat(first, Join(rest, [mark]), mark);
    }
  }

  lemma HeadOfString(s: string, mark: char)
    requires |Before(s, mark)| < |s|
    ensures s == Before(s, mark) + [mark] + s[|Before(s, mark)| + 1..]
  {
  }

  lemma {:induction false} MarkAfterHead(s: string, mark: char)
    requires |Before(s, mark)| < |s|
    ensures s[|Before(s, mark)|] == mark
  {
    if s[0] != mark {
      MarkAfterHead(s[1..], mark);
    }
  }

  /** A string is the join of its pieces, which are free of the mark. */
  lemma {:induction false} JoinOfSplit(s: string, mark: char)
    ensures Join(Split(s, mark), [mark]) == s && FreeOf(Split(s, mark), mark)
    decreases |s|
  {
    var head := Before(s, mark);
    if |head| < |s| {
      HeadOfString(s, mark);
      JoinOfSplit(s[|head| + 1..], mark);
      var rest := Split(s[|head| + 1..], mark);
      assert Split(s, mark)[1..] == rest;
      assert forall p :: p in Split(s, mark) ==> p == head || p in rest;
    }
  }

  lemma {:induction false} JoinOfConcat(a: seq<string>, b: seq<string>, separator: string)
    requires a != [] && b != []
    ensures Join(a + b, separator) == Join(a, separator) + separator + Join(b, separator)
  {
    assert (a + b)[0] == a[0] && (a + b)[1..] == a[1..] + b;
    if |a| == 1 {
      assert (a + b)[1..] == b;
    } else {
      JoinOfConcat(a[1..], b, separator);
      Grouped(a[0], separator, Join(a[1..], separator), Join(b, separator));
    }
  }

  lemma Grouped(a: string, s: string, b: string, c: string)
    ensures a + s + (b + s + c) == a + s + b + s + c
  {
  }

  lemma JoinIsNotEmpty(parts: seq<string>, mark: char)
    requires AreParts(parts, mark) && parts != []
    ensures Join(parts, [mark]) != []
  {
    assert parts[0] in parts;
  }

  /** Lists of non-empty parts free of the mark are told apart by their joins. */
  lemma JoinIsInjective(a: seq<string>, b: seq<string>, mark: char)
    requires AreParts(a, mark) && AreParts(b, mark) && Join(a, [mark]) == Join(b, [mark])
    ensures a == b
  {
    if a != [] {
      JoinIsNotEmpty(a, mark);
      SplitOfJoin(a, mark);
    }
    if b != [] {
      JoinIsNotEmpty(b, mark);
      SplitOfJoin(b, mark);
    }
  }
}
