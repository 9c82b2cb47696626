/** Links to managed photos: reading a link, and swapping its key for another variant. */
module MediaUrls {
  import opened Common
  import opened MediaPaths
  import Text

  datatype Split = Split(origin: string, host: string, pathname: string)

  datatype ManagedUrl = ManagedUrl(origin: string, prefix: string, blobPath: string)

  const AZURE_SUFFIX := ".blob.core.windows.net"

  predicate EndsWith(s: string, suffix: string) {
    |suffix| <= |s| && s[|s| - |suffix|..] == suffix
  }

  predicate HasMark(s: string) {
    '#' in s || '?' in s
  }

  /** The address of an absolute link after its protocol, which is already in lower case. */
  function SplitHost(protocol: string, rest: string): Option<Split> {
    var host := LowerAscii(Segment(rest));
    var pathname := rest[|host|..];
    if host == [] then None
    else Some(Split(protocol + "://" + host, host, if pathname == [] then "/" else pathname))
  }

  /** `splitHttpUrl` once the fragment and the query are cut off. */
  function SplitClean(s: string): Option<Split> {
    if "/" <= s then Some(Split("", "", s))
    else if "http://" <= LowerAscii(s) then SplitHost("http", s[7..])
    else if "https://" <= LowerAscii(s) then SplitHost("https", s[8..])
    else None
  }

  function SplitHttpUrl(raw: string): Option<Split> {
    SplitClean(Text.Before(Text.Before(raw, '#'), '?'))
  }

  /** The managed key inside a split link: a container on the Azure host, `/media` elsewhere. */
  function Locate(link: Split): Option<ManagedUrl> {
    if EndsWith(link.host, AZURE_SUFFIX) then
      var parts := Parts(link.pathname);
      if |parts| < 3 then None else Some(ManagedUrl(link.origin, "/" + parts[0], Text.Join(parts[1..], "/")))
    else if "/media/" <= link.pathname && |link.pathname| > 7 then
      Some(ManagedUrl(link.origin, "/media", link.pathname[7..]))
    else None
  }

  /** `parseManagedMediaUrl` */
  function ParseUrl(url: string): Option<ManagedUrl> {
    var trimmed := Text.Trim(url);
    if trimmed == [] || "blob:" <= trimmed || "data:" <= trimmed then None
    else
      match SplitHttpUrl(trimmed)
      case None => None
      case Some(link) => Locate(link)
  }

  /** `replace(/\/{2,}/g, '/')` */
  function Collapse(s: string): string {
    if |s| >= 2 && s[0] == '/' && s[1] == '/' then Collapse(s[1..])
    else if s == [] then []
    else [s[0]] + Collapse(s[1..])
  }

  /** `joinManagedUrl` */
  function JoinUrl(parts: ManagedUrl, blobPath: string): string {
    parts.origin + Collapse(parts.prefix + "/" + blobPath)
  }

  /** The key that replaces the one in the link. */
  function NextPath(blobPath: string, variant: Variant): Option<string> {
    if variant.Original? && Relocated(blobPath).Some? then Relocated(blobPath) else VariantPath(blobPath, variant)
  }

  /** `mediaVariantUrl` */
  function VariantUrl(url: string, variant: Variant): string {
    VariantOfParsed(url, ParseUrl(url), variant)
  }

  function VariantOfParsed(url: string, parsed: Option<ManagedUrl>, variant: Variant): string {
    match parsed
    case None => url
    case Some(managed) =>
      match NextPath(managed.blobPath, variant)
      case None => url
      case Some(next) => JoinUrl(managed, next)
  }

  // ---- Collapsing slashes does not change the parts ----

  lemma {:induction false} CollapseShape(s: string)
    ensures Collapse(s) == [] <==> s == []
    ensures s != [] ==> Collapse(s)[0] == s[0] && Collapse(s)[|Collapse(s)| - 1] == s[|s| - 1]
    ensures forall c :: c in Collapse(s) ==> c in s
  {
    if s != [] {
      CollapseShape(s[1..]);
    }
  }

  lemma PartsOfCons(c: char, s: string)
    requires c != '/'
    ensures s == [] || s[0] == '/' ==> Parts([c] + s) == [[c]] + Parts(s)
    ensures s != [] && s[0] != '/' ==> Parts(s) != [] && Parts([c] + s) == [[c] + Parts(s)[0]] + Parts(s)[1..]
  {
    var t := [c] + s;
    assert t[1..] == s;
    if s == [] || s[0] == '/' {
      PartsOfJoin([c], s);
    } else {
      assert Segment(t) == [c] + Segment(s);
      assert t[|Segment(t)|..] == s[|Segment(s)|..];
    }
  }

  lemma {:induction false} PartsOfCollapsed(s: string)
    ensures Parts(Collapse(s)) == Parts(s)
  {
    if s != [] {
      PartsOfCollapsed(s[1..]);
      CollapseShape(s[1..]);
      if s[0] == '/' {
        assert !(|s| >= 2 && s[1] == '/') ==> Collapse(s) == "/" + Collapse(s[1..]);
        PartsAfterSlash(Collapse(s[1..]));
      } else {
        assert s == [s[0]] + s[1..];
        PartsOfCons(s[0], s[1..]);
        PartsOfCons(s[0], Collapse(s[1..]));
      }
    }
  }

  lemma {:induction false} PartsOfJoined(parts: seq<string>)
    requires forall p :: p in parts ==> p != [] && '/' !in p
    ensures Parts(Text.Join(parts, "/")) == parts
  {
    if parts != [] {
      var first, tail := parts[0], parts[1..];
      assert first in parts && forall p :: p in tail ==> p in parts;
      PartsOfJoined(tail);
      PartsOfMore(first, Text.Join(tail, "/"));
    }
  }

  lemma PartsOfMore(first: string, rest: string)
    requires first != [] && '/' !in first
    ensures Parts(first) == [first] && Parts(first + "/" + rest) == [first] + Parts(rest)
  {
    assert first + [] == first;
    PartsOfJoin(first, []);
    assert first + "/" + rest == first + ("/" + rest);
    PartsAfterSlash(rest);
    PartsOfJoin(first, "/" + rest);
  }

  lemma {:induction false} JoinedChars(parts: seq<string>, c: char)
    requires c != '/' && c in Text.Join(parts, "/")
    ensures exists p :: p in parts && c in p
  {
    if |parts| == 1 {
      assert parts[0] in parts;
    } else if |parts| > 1 {
      if c in parts[0] {
        assert parts[0] in parts;
      } else {
        JoinedChars(parts[1..], c);
        var p :| p in parts[1..] && c in p;
        assert p in parts;
      }
    }
  }

  /** A key without backslashes is read from its parts alone. */
  lemma ParseIsByParts(s: string)
    requires '\\' !in s
    ensures Parse(s) == if SomeDotDot(Parts(s)) then Unknown else ParseParts(Parts(s))
  {
    PartsOfStripped(s);
    StripKeepsTail(s);
    ToSlashesTwice(StripSlashes(s));
    DotDotIsInAPart(StripSlashes(s));
  }

  // ---- What the printed key looks like ----

  /** The characters that can end a printed key. */
  predicate IsEnd(c: char) {
    c == '/' || c == 'g' || c == 'G' || c == 'p' || c == 'P'
  }

  predicate Clean(s: string) {
    '\\' !in s && !HasMark(s)
  }

  /** A key that survives being put in a link and read again. */
  predicate Linkable(s: string) {
    s != [] && Clean(s) && IsEnd(s[|s| - 1]) && |Parts(s)| >= 2
  }

  lemma ImageEndsInALetter(fileName: string)
    requires IsImage(fileName)
    ensures fileName != [] && IsEnd(fileName[|fileName| - 1])
  {
  }

  lemma {:induction false} LastCharIsInLastPart(s: string)
    requires s != [] && s[|s| - 1] != '/'
    ensures var parts := Parts(s);
            parts != [] && parts[|parts| - 1] != [] &&
            parts[|parts| - 1][|parts[|parts| - 1]| - 1] == s[|s| - 1]
    decreases |s|
  {
    if s[0] == '/' {
      LastCharIsInLastPart(s[1..]);
    } else if |Segment(s)| < |s| {
      LastCharIsInLastPart(s[|Segment(s)|..]);
    } else {
      assert s[|Segment(s)|..] == [];
    }
  }

  /** The names of a parsed key are among its parts; the file name is the last. */
  lemma ParsedNamesAreParts(blobPath: string)
    ensures var parts := Parts(Normal(blobPath));
            match Parse(blobPath)
            case Unknown => true
            case Seed(_, fileName) => |parts| >= 2 && fileName == parts[|parts| - 1]
            case Managed(companyId, _, fileName) =>
              |parts| >= 2 && companyId == parts[0] && fileName == parts[|parts| - 1]
  {
  }

  lemma PartsOfNormal(s: string)
    requires '\\' !in s
    ensures Parts(Normal(s)) == Parts(s)
  {
    StripKeepsTail(s);
    ToSlashesTwice(StripSlashes(s));
    PartsOfStripped(s);
  }

  lemma EndOfLastPart(s: string, last: string)
    requires s != [] && Parts(s) != [] && last == Parts(s)[|Parts(s)| - 1]
    requires last != [] && IsEnd(last[|last| - 1])
    ensures IsEnd(s[|s| - 1])
  {
    if s[|s| - 1] != '/' {
      LastCharIsInLastPart(s);
    }
  }

  lemma LinkableOf(s: string)
    requires s != [] && Clean(s)
    requires !Parse(s).Unknown? && IsImage(Parse(s).fileName)
    ensures Linkable(s)
  {
    var fileName := Parse(s).fileName;
    PartsOfNormal(s);
    ParsedNamesAreParts(s);
    ImageEndsInALetter(fileName);
    EndOfLastPart(s, fileName);
  }

  lemma {:induction false} MarksOfParts(s: string, p: string)
    requires !HasMark(s) && p in Parts(s)
    ensures !HasMark(p)
  {
    PartsAreSegments(s);
    assert forall c :: c in p ==> c in s;
  }

  /** A parsed key brings no mark that its own key lacks. */
  lemma ParsedIsClean(blobPath: string)
    requires !HasMark(blobPath)
    ensures Clean(Normal(blobPath))
    ensures match Parse(blobPath)
            case Unknown => true
            case Seed(_, fileName) => Clean(fileName)
            case Managed(companyId, _, fileName) => Clean(companyId) && Clean(fileName)
  {
    var s := Normal(blobPath);
    StripKeepsTail(blobPath);
    assert forall i :: 0 <= i < |s| && s[i] != '/' ==> s[i] in blobPath;
    ParsedNames(blobPath);
    ParsedNamesAreParts(blobPath);
    if !Parse(blobPath).Unknown? {
      MarksOfParts(s, Parts(s)[0]);
      MarksOfParts(s, Parse(blobPath).fileName);
    }
  }

  lemma StemIsClean(fileName: string)
    requires Clean(fileName)
    ensures Clean(Stem(fileName)) && Clean(Stem(fileName) + ".webp") && Clean(Stem(fileName) + ".jpg")
  {
  }

  lemma CleanOfThree(a: string, b: string, c: string)
    requires Clean(a) && Clean(b) && Clean(c)
    ensures Clean(a + "/" + c) && Clean(a + "/" + b + "/" + c)
  {
  }

  lemma SeedVariantIsClean(folder: Folder, fileName: string, variant: Variant)
    requires Clean(fileName)
    ensures SeedVariant(folder, fileName, variant) != [] && Clean(SeedVariant(folder, fileName, variant))
  {
    StemIsClean(fileName);
    CleanOfThree("seed", FolderName(variant), fileName);
    CleanOfThree("seed", FolderName(variant), Stem(fileName) + ".jpg");
    CleanOfThree("seed", FolderName(variant), Stem(fileName) + ".webp");
  }

  lemma ManagedVariantIsClean(companyId: string, fileName: string, variant: Variant)
    requires Clean(companyId) && Clean(fileName)
    ensures ManagedVariant(companyId, fileName, variant) != [] && Clean(ManagedVariant(companyId, fileName, variant))
  {
    StemIsClean(fileName);
    CleanOfThree(companyId, FolderName(variant), fileName);
    CleanOfThree(companyId, FolderName(variant), Stem(fileName) + ".webp");
  }

  lemma VariantIsClean(blobPath: string, variant: Variant)
    requires !HasMark(blobPath) && VariantPath(blobPath, variant).Some?
    ensures VariantPath(blobPath, variant).value != [] && Clean(VariantPath(blobPath, variant).value)
  {
    ParsedIsClean(blobPath);
    match Parse(blobPath)
    case Seed(folder, fileName) => SeedVariantIsClean(folder, fileName, variant);
    case Managed(companyId, _, fileName) => ManagedVariantIsClean(companyId, fileName, variant);
  }

  /** Where a swapped key exists it can be linked, and it means a variant of the key it replaces. */
  lemma NextIsLinkable(blobPath: string, variant: Variant, thumbnail: Variant)
    requires !HasMark(blobPath) && NextPath(blobPath, variant).Some? && !thumbnail.Original?
    ensures var next := NextPath(blobPath, variant).value;
            Linkable(next) && VariantPath(next, thumbnail) == VariantPath(blobPath, thumbnail)
  {
    var next := NextPath(blobPath, variant).value;
    if Some(next) == VariantPath(blobPath, variant) {
      VariantParsesBack(blobPath, variant);
      ThumbnailOfVariant(blobPath, variant, thumbnail);
      VariantIsClean(blobPath, variant);
      LinkableOf(next);
    } else {
      assert next == Normal(blobPath);
      ParsedIsClean(blobPath);
      ParseOfNormal(blobPath);
      LinkableOf(next);
      ThumbnailOfSameStem(Parse(next), Parse(blobPath), thumbnail);
    }
  }

  // ---- Reading a printed link again ----

  predicate IsHost(host: string) {
    host != [] && '/' !in host && !HasMark(host) && LowerAscii(host) == host
  }

  /** The address of a link that was split: none, or a protocol and a host in lower case. */
  predicate IsAddress(origin: string, host: string) {
    || (origin == "" && host == "")
    || (IsHost(host) && (origin == "http" + "://" + host || origin == "https" + "://" + host))
  }

  lemma SplitHostShape(protocol: string, rest: string)
    requires !HasMark(rest) && SplitHost(protocol, rest).Some?
    ensures var link := SplitHost(protocol, rest).value;
            IsHost(link.host) && link.origin == protocol + "://" + link.host && !HasMark(link.pathname)
  {
  }

  lemma SplitShape(raw: string)
    requires SplitHttpUrl(raw).Some?
    ensures var link := SplitHttpUrl(raw).value; IsAddress(link.origin, link.host) && !HasMark(link.pathname)
  {
    var s := Text.Before(Text.Before(raw, '#'), '?');
    assert s <= Text.Before(raw, '#') && !HasMark(s);
    if "/" <= s {
    } else if "http://" <= LowerAscii(s) {
      SplitHostShape("http", s[7..]);
    } else {
      SplitHostShape("https", s[8..]);
    }
  }

  lemma SplitHostAgain(protocol: string, host: string, path: string)
    requires IsHost(host) && "/" <= path
    ensures SplitHost(protocol, host + path) == Some(Split(protocol + "://" + host, host, path))
  {
    SegmentOfJoin(host, path);
    assert (host + path)[|host|..] == path;
  }

  lemma ProtocolsAreLower()
    ensures LowerAscii("http://") == "http://" && LowerAscii("https://") == "https://"
  {
  }

  lemma HeadOfUrl(head: string, rest: string)
    requires LowerAscii(head) == head
    ensures head <= LowerAscii(head + rest) && (head + rest)[|head|..] == rest
  {
  }

  /** A protocol, a host and a path are split where they were joined. */
  lemma SplitHttp(host: string, path: string)
    requires IsHost(host) && "/" <= path
    ensures SplitClean("http://" + (host + path)) == Some(Split("http" + "://" + host, host, path))
  {
    ProtocolsAreLower();
    HeadOfUrl("http://", host + path);
    SplitHostAgain("http", host, path);
  }

  lemma HttpsIsNotHttp(s: string)
    requires "https://" <= s
    ensures !("http://" <= s)
  {
    assert s[4] == 's';
  }

  lemma SplitHttps(host: string, path: string)
    requires IsHost(host) && "/" <= path
    ensures SplitClean("https://" + (host + path)) == Some(Split("https" + "://" + host, host, path))
  {
    ProtocolsAreLower();
    HeadOfUrl("https://", host + path);
    HttpsIsNotHttp(LowerAscii("https://" + (host + path)));
    SplitHostAgain("https", host, path);
  }

  lemma SplitAgain(origin: string, host: string, path: string)
    requires IsAddress(origin, host) && "/" <= path && !HasMark(path)
    ensures SplitHttpUrl(origin + path) == Some(Split(origin, host, path))
  {
    assert !HasMark(origin);
    assert !HasMark(origin + path);
    if origin == "" {
      assert origin + path == path;
    } else if origin == "http" + "://" + host {
      assert origin + path == "http://" + (host + path);
      SplitHttp(host, path);
    } else {
      assert origin + path == "https://" + (host + path);
      SplitHttps(host, path);
    }
  }

  lemma TrimOfUrl(s: string)
    requires s != [] && (s[0] == '/' || s[0] == 'h') && IsEnd(s[|s| - 1])
    ensures Text.Trim(s) == s
  {
    assert !Text.IsSpace('/') && !Text.IsSpace('h');
    assert !Text.IsSpace(s[|s| - 1]);
    assert Text.Trimmed(s);
  }

  lemma IsManagedScheme(s: string)
    requires s != [] && (s[0] == '/' || s[0] == 'h')
    ensures !("blob:" <= s) && !("data:" <= s)
  {
  }

  lemma UrlEnds(origin: string, host: string, path: string)
    requires IsAddress(origin, host) && "/" <= path
    ensures var s := origin + path; (s[0] == '/' || s[0] == 'h') && s[|s| - 1] == path[|path| - 1]
  {
  }

  /** A path that ends like a key comes through trimming and splitting. */
  lemma ParseAgain(origin: string, host: string, path: string)
    requires IsAddress(origin, host) && "/" <= path && !HasMark(path) && IsEnd(path[|path| - 1])
    ensures ParseUrl(origin + path) == Locate(Split(origin, host, path))
  {
    var s := origin + path;
    UrlEnds(origin, host, path);
    TrimOfUrl(s);
    IsManagedScheme(s);
    SplitAgain(origin, host, path);
  }

  /** A path that names the same key, in the same place, as the one a link was split into. */
  predicate Renames(managed: ManagedUrl, host: string, path: string, next: string) {
    && "/" <= path && !HasMark(path) && IsEnd(path[|path| - 1])
    && var again := Locate(Split(managed.origin, host, path));
       && again.Some? && again.value.origin == managed.origin && again.value.prefix == managed.prefix
       && '\\' !in again.value.blobPath && Parts(again.value.blobPath) == Parts(next)
  }

  lemma CollapsedPath(prefix: string, next: string)
    requires "/" <= prefix && !HasMark(prefix) && Linkable(next)
    ensures var path := Collapse(prefix + "/" + next);
            "/" <= path && !HasMark(path) && IsEnd(path[|path| - 1])
  {
    var raw := prefix + "/" + next;
    assert raw[|raw| - 1] == next[|next| - 1];
    CollapseShape(raw);
  }

  lemma Regroup(a: string, b: string, c: string)
    ensures a + b + c == a + (b + c)
  {
  }

  lemma PartsOfPrefixed(container: string, next: string)
    requires container != [] && '/' !in container
    ensures Parts(Collapse("/" + container + "/" + next)) == [container] + Parts(next)
  {
    Regroup("/" + container, "/", next);
    Regroup("/", container, "/" + next);
    PartsOfCollapsed("/" + container + "/" + next);
    PartsAfterSlash(container + ("/" + next));
    PartsOfJoin(container, "/" + next);
    PartsAfterSlash(next);
  }

  lemma RejoinedKey(next: string)
    requires '\\' !in next
    ensures Parts(Text.Join(Parts(next), "/")) == Parts(next) && '\\' !in Text.Join(Parts(next), "/")
  {
    PartsAreSegments(next);
    PartsOfJoined(Parts(next));
    if '\\' in Text.Join(Parts(next), "/") {
      JoinedChars(Parts(next), '\\');
      assert false;
    }
  }

  lemma AzureRenames(link: Split, next: string)
    requires EndsWith(link.host, AZURE_SUFFIX) && Locate(link).Some?
    requires !HasMark(link.pathname) && Linkable(next)
    ensures Renames(Locate(link).value, link.host, Collapse(Locate(link).value.prefix + "/" + next), next)
  {
    var container := Parts(link.pathname)[0];
    PartsAreSegments(link.pathname);
    assert container in Parts(link.pathname);
    MarksOfParts(link.pathname, container);
    CollapsedPath("/" + container, next);
    PartsOfPrefixed(container, next);
    var parts := Parts(Collapse("/" + container + "/" + next));
    assert parts[1..] == Parts(next);
    RejoinedKey(next);
  }

  lemma {:induction false} CollapseOver(a: string, b: string)
    requires '/' !in a
    ensures Collapse(a + b) == a + Collapse(b)
  {
    if a == [] {
      assert a + b == b;
    } else {
      assert (a + b)[1..] == a[1..] + b;
      assert a[0] in a;
      CollapseOver(a[1..], b);
      assert a == [a[0]] + a[1..];
    }
  }

  lemma CollapseAfterSlash(head: string, rest: string)
    requires head != [] && '/' !in head
    ensures Collapse("/" + (head + rest)) == "/" + (head + Collapse(rest))
  {
    var s := "/" + (head + rest);
    assert s[1..] == head + rest;
    assert head[0] in head && s[1] == head[0];
    CollapseOver(head, rest);
  }

  lemma CollapseOfPrefix(head: string, rest: string)
    requires head != [] && '/' !in head
    ensures Collapse("/" + head + rest) == "/" + head + Collapse(rest)
  {
    Regroup("/", head, rest);
    Regroup("/", head, Collapse(rest));
    CollapseAfterSlash(head, rest);
  }

  lemma MediaPath(next: string)
    ensures Collapse("/media" + "/" + next) == "/media" + Collapse("/" + next)
  {
    assert "/" + "media" == "/media";
    Regroup("/media", "/", next);
    CollapseOfPrefix("media", "/" + next);
  }

  /** What is left of a collapsed path past its leading slash. */
  lemma KeyPastSlash(next: string)
    requires Linkable(next)
    ensures var collapsed := Collapse("/" + next);
            && |collapsed| > 1 && collapsed[0] == '/'
            && Parts(collapsed[1..]) == Parts(next) && '\\' !in collapsed[1..]
  {
    var collapsed := Collapse("/" + next);
    CollapseShape("/" + next);
    PartsOfCollapsed("/" + next);
    PartsAfterSlash(next);
    assert collapsed == "/" + collapsed[1..];
    PartsAfterSlash(collapsed[1..]);
    assert forall c :: c in collapsed[1..] ==> c in collapsed;
  }

  lemma LocateMedia(origin: string, host: string, rest: string)
    requires !EndsWith(host, AZURE_SUFFIX) && |rest| > 1 && rest[0] == '/'
    ensures Locate(Split(origin, host, "/media" + rest)) == Some(ManagedUrl(origin, "/media", rest[1..]))
  {
    var path := "/media" + rest;
    assert path[..7] == "/media/";
    assert path[7..] == rest[1..];
  }

  lemma MediaRenames(link: Split, next: string)
    requires !EndsWith(link.host, AZURE_SUFFIX) && Locate(link).Some? && Linkable(next)
    ensures Renames(Locate(link).value, link.host, Collapse("/media" + "/" + next), next)
  {
    CollapsedPath("/media", next);
    MediaPath(next);
    KeyPastSlash(next);
    LocateMedia(link.origin, link.host, Collapse("/" + next));
  }

  lemma SwapRenames(link: Split, managed: ManagedUrl, next: string)
    requires Locate(link) == Some(managed) && !HasMark(link.pathname) && Linkable(next)
    ensures Renames(managed, link.host, Collapse(managed.prefix + "/" + next), next)
  {
    if EndsWith(link.host, AZURE_SUFFIX) {
      AzureRenames(link, next);
    } else {
      MediaRenames(link, next);
    }
  }

  /** Read back in one place: the key that stands there means the key that was put there. */
  predicate ReadsBack(managed: ManagedUrl, again: Option<ManagedUrl>, next: string) {
    && again.Some? && again.value.origin == managed.origin && again.value.prefix == managed.prefix
    && Parse(again.value.blobPath) == Parse(next)
  }

  lemma RenamedReadsBack(managed: ManagedUrl, host: string, path: string, next: string)
    requires IsAddress(managed.origin, host) && Renames(managed, host, path, next) && '\\' !in next
    ensures ReadsBack(managed, ParseUrl(managed.origin + path), next)
  {
    ParseAgain(managed.origin, host, path);
    ParseIsByParts(next);
    ParseIsByParts(Locate(Split(managed.origin, host, path)).value.blobPath);
  }

  /** What a link was split into, with the facts about it that printing needs. */
  lemma ParsedLink(url: string) returns (link: Split)
    requires ParseUrl(url).Some?
    ensures Locate(link) == ParseUrl(url) && !HasMark(link.pathname) && IsAddress(link.origin, link.host)
    ensures ParseUrl(url).value.origin == link.origin
  {
    link := SplitHttpUrl(Text.Trim(url)).value;
    SplitShape(Text.Trim(url));
    LocatedHasNoMark(link);
  }

  /** A link whose key was swapped is read back as the same place holding a key with the same meaning. */
  lemma SwappedLinkReadsBack(url: string, next: string)
    requires ParseUrl(url).Some? && Linkable(next)
    ensures ReadsBack(ParseUrl(url).value, ParseUrl(JoinUrl(ParseUrl(url).value, next)), next)
  {
    var managed := ParseUrl(url).value;
    var link := ParsedLink(url);
    SwapRenames(link, managed, next);
    RenamedReadsBack(managed, link.host, Collapse(managed.prefix + "/" + next), next);
  }

  lemma LocatedHasNoMark(link: Split)
    requires !HasMark(link.pathname) && Locate(link).Some?
    ensures !HasMark(Locate(link).value.blobPath) && Locate(link).value.origin == link.origin
  {
    if EndsWith(link.host, AZURE_SUFFIX) {
      var parts := Parts(link.pathname);
      PartsAreSegments(link.pathname);
      forall c | c in Text.Join(parts[1..], "/") && c != '/'
        ensures c in link.pathname
      {
        JoinedChars(parts[1..], c);
        var p :| p in parts[1..] && c in p;
        assert p in parts;
      }
    }
  }

  /** Links that hold keys of the same meaning in the same place have the same thumbnails. */
  lemma ThumbnailOfSamePlace(url: string, managed: ManagedUrl, other: string, again: ManagedUrl, thumbnail: Variant)
    requires !thumbnail.Original? && managed.origin == again.origin && managed.prefix == again.prefix
    requires VariantPath(managed.blobPath, thumbnail) == VariantPath(again.blobPath, thumbnail) != None
    ensures VariantOfParsed(url, Some(managed), thumbnail) == VariantOfParsed(other, Some(again), thumbnail)
  {
  }

  /** Either every variant of a key can be printed or none can. */
  lemma VariantsExistTogether(blobPath: string, variant: Variant, thumbnail: Variant)
    requires NextPath(blobPath, variant).Some?
    ensures VariantPath(blobPath, thumbnail).Some?
  {
  }

  /** Over links: taking any variant and then a thumbnail is taking the thumbnail, whatever the link. */
  lemma ThumbnailUrlOfVariantUrl(url: string, variant: Variant, thumbnail: Variant)
    requires !thumbnail.Original?
    ensures VariantUrl(VariantUrl(url, variant), thumbnail) == VariantUrl(url, thumbnail)
  {
    var parsed := ParseUrl(url);
    if parsed.Some? {
      var blobPath := parsed.value.blobPath;
      var nextPath := NextPath(blobPath, variant);
      if nextPath.Some? {
        ThumbnailUrlOfSwapped(url, variant, thumbnail);
      }
    }
  }

  lemma ThumbnailUrlOfSwapped(url: string, variant: Variant, thumbnail: Variant)
    requires !thumbnail.Original? && ParseUrl(url).Some? && NextPath(ParseUrl(url).value.blobPath, variant).Some?
    ensures VariantUrl(VariantUrl(url, variant), thumbnail) == VariantUrl(url, thumbnail)
  {
    var managed := ParseUrl(url).value;
    var next := NextPath(managed.blobPath, variant).value;
    SwappedKeyHasNoMark(url);
    NextIsLinkable(managed.blobPath, variant, thumbnail);
    SwappedLinkReadsBack(url, next);
    VariantsExistTogether(managed.blobPath, variant, thumbnail);
    ThumbnailOfSamePlace(url, managed, JoinUrl(managed, next), ParseUrl(JoinUrl(managed, next)).value, thumbnail);
  }

  lemma SwappedKeyHasNoMark(url: string)
    requires ParseUrl(url).Some?
    ensures !HasMark(ParseUrl(url).value.blobPath)
  {
    var link := ParsedLink(url);
    LocatedHasNoMark(link);
  }

  // ---- What a swapped link looks like ----

  lemma CollapseOfTwo(a: string, b: string)
    requires a != [] && '/' !in a && b != [] && '/' !in b
    ensures Collapse("/" + (a + "/" + b)) == "/" + (a + "/" + b)
  {
    assert b + [] == b;
    CollapseAfterSlash(b, []);
    Regroup(a, "/", b);
    CollapseAfterSlash(a, "/" + b);
  }

  lemma CollapseOfThree(a: string, b: string, c: string)
    requires a != [] && '/' !in a && b != [] && '/' !in b && c != [] && '/' !in c
    ensures Collapse("/" + (a + "/" + b + "/" + c)) == "/" + (a + "/" + b + "/" + c)
  {
    CollapseOfTwo(b, c);
    Joined(a, "/", b, c);
    CollapseAfterSlash(a, "/" + (b + "/" + c));
  }

  lemma CollapseOfKey(owner: string, folder: Folder, fileName: string)
    requires IsName(owner) && IsName(fileName)
    ensures Collapse("/" + KeyOf(owner, folder, fileName)) == "/" + KeyOf(owner, folder, fileName)
  {
    match folder
    case Legacy => CollapseOfTwo(owner, fileName);
    case In(v) =>
      FolderNameIsName(v);
      CollapseOfThree(owner, FolderName(v), fileName);
  }

  lemma KeyIsClean(owner: string, folder: Folder, fileName: string)
    requires Clean(owner) && Clean(fileName)
    ensures Clean(KeyOf(owner, folder, fileName))
  {
  }

  lemma KeyIsLinkable(owner: string, folder: Folder, fileName: string, key: string)
    requires IsName(owner) && IsName(fileName) && IsImage(fileName) && !HasMark(owner) && !HasMark(fileName)
    requires key == KeyOf(owner, folder, fileName)
    ensures Linkable(key)
  {
    KeyParses(owner, folder, fileName);
    KeyIsClean(owner, folder, fileName);
    LinkableOf(key);
  }

  /** Where an address keeps its files: in a container of an Azure account, and under `/media` anywhere else. */
  predicate Serves(host: string, prefix: string) {
    if EndsWith(host, ".blob.core.windows.net")
    then |prefix| > 1 && prefix[0] == '/' && '/' !in prefix[1..] && Clean(prefix)
    else prefix == "/media"
  }

  lemma JoinOfKey(owner: string, folder: Folder, fileName: string)
    requires IsName(owner) && IsName(fileName)
    ensures |Parts(KeyOf(owner, folder, fileName))| >= 2
    ensures Text.Join(Parts(KeyOf(owner, folder, fileName)), "/") == KeyOf(owner, folder, fileName)
  {
    match folder
    case Legacy =>
      PartsOfTwo(owner, fileName);
      JoinOfTwo(owner, fileName);
    case In(v) =>
      FolderNameIsName(v);
      PartsOfThree(owner, FolderName(v), fileName);
      JoinOfThree(owner, FolderName(v), fileName);
  }

  lemma JoinOfTwo(a: string, b: string)
    ensures Text.Join([a, b], "/") == a + "/" + b
  {
  }

  lemma JoinOfThree(a: string, b: string, c: string)
    ensures Text.Join([a, b, c], "/") == a + "/" + b + "/" + c
  {
    assert [a, b, c][1..] == [b, c];
    JoinOfTwo(b, c);
    Joined(a, "/", b, c);
    Regroup(a, "/", b + "/" + c);
  }

  lemma LocateAzure(origin: string, host: string, container: string, key: string)
    requires EndsWith(host, AZURE_SUFFIX) && container != [] && '/' !in container
    requires |Parts(key)| >= 2 && Text.Join(Parts(key), "/") == key
    ensures Locate(Split(origin, host, "/" + container + ("/" + key))) == Some(ManagedUrl(origin, "/" + container, key))
  {
    var path := "/" + container + ("/" + key);
    Regroup("/", container, "/" + key);
    PartsAfterSlash(container + ("/" + key));
    PartsOfJoin(container, "/" + key);
    PartsAfterSlash(key);
    assert Parts(path) == [container] + Parts(key);
    assert Parts(path)[1..] == Parts(key);
  }

  lemma PathShape(prefix: string, key: string, path: string)
    requires "/" <= prefix && Clean(prefix) && Linkable(key) && path == prefix + ("/" + key)
    ensures "/" <= path && !HasMark(path) && IsEnd(path[|path| - 1])
  {
  }

  lemma ServingPrefix(host: string, prefix: string)
    requires Serves(host, prefix)
    ensures "/" <= prefix && Clean(prefix)
    ensures EndsWith(host, AZURE_SUFFIX) ==> prefix == "/" + prefix[1..] && prefix[1..] != [] && '/' !in prefix[1..]
  {
  }

  /** A link to a key is read as that key in that place. */
  lemma LinkParses(origin: string, host: string, prefix: string, key: string)
    requires IsAddress(origin, host) && Serves(host, prefix) && Linkable(key) && Text.Join(Parts(key), "/") == key
    ensures ParseUrl(origin + (prefix + ("/" + key))) == Some(ManagedUrl(origin, prefix, key))
  {
    var path := prefix + ("/" + key);
    ServingPrefix(host, prefix);
    PathShape(prefix, key, path);
    ParseAgain(origin, host, path);
    if EndsWith(host, AZURE_SUFFIX) {
      LocateAzure(origin, host, prefix[1..], key);
    } else {
      LocateMedia(origin, host, "/" + key);
    }
  }

  lemma JoinUrlExactly(origin: string, host: string, prefix: string, key: string, next: string)
    requires Serves(host, prefix) && Collapse("/" + next) == "/" + next
    ensures JoinUrl(ManagedUrl(origin, prefix, key), next) == origin + (prefix + ("/" + next))
  {
    ServingPrefix(host, prefix);
    if EndsWith(host, AZURE_SUFFIX) {
      Regroup(prefix, "/", next);
      CollapseOfPrefix(prefix[1..], "/" + next);
    } else {
      MediaPath(next);
    }
  }

  lemma ThumbnailNameIsName(fileName: string)
    requires IsName(fileName) && IsImage(fileName)
    ensures IsName(Stem(fileName) + ".webp")
  {
    PrintedExtensions(Stem(fileName));
    StemWithExtension(fileName, "webp");
  }

  lemma SwappedKey(origin: string, host: string, prefix: string, owner: string, folder: Folder, fileName: string,
                   variant: Variant, folder': Folder, fileName': string)
    requires IsAddress(origin, host) && Serves(host, prefix)
    requires IsName(owner) && IsName(fileName) && IsImage(fileName) && !HasMark(owner) && !HasMark(fileName)
    requires IsName(fileName')
    requires NextPath(KeyOf(owner, folder, fileName), variant) == Some(KeyOf(owner, folder', fileName'))
    ensures VariantUrl(origin + (prefix + ("/" + KeyOf(owner, folder, fileName))), variant) ==
            origin + (prefix + ("/" + KeyOf(owner, folder', fileName')))
  {
    var key, next := KeyOf(owner, folder, fileName), KeyOf(owner, folder', fileName');
    KeyIsLinkable(owner, folder, fileName, key);
    JoinOfKey(owner, folder, fileName);
    LinkParses(origin, host, prefix, key);
    CollapseOfKey(owner, folder', fileName');
    JoinUrlExactly(origin, host, prefix, key, next);
  }

  /** The thumbnail link of an image stands at the same address, in the thumbnail's folder of the same owner. */
  lemma ThumbnailLinkExactly(origin: string, host: string, prefix: string, owner: string, folder: Folder,
                             fileName: string, thumbnail: Variant)
    requires IsAddress(origin, host) && Serves(host, prefix) && !thumbnail.Original?
    requires IsName(owner) && IsName(fileName) && IsImage(fileName) && !HasMark(owner) && !HasMark(fileName)
    ensures VariantUrl(origin + (prefix + ("/" + KeyOf(owner, folder, fileName))), thumbnail) ==
            origin + (prefix + ("/" + KeyOf(owner, In(thumbnail), Stem(fileName) + ".webp")))
  {
    VariantOfKey(owner, folder, fileName, thumbnail);
    ThumbnailNameIsName(fileName);
    SwappedKey(origin, host, prefix, owner, folder, fileName, thumbnail, In(thumbnail), Stem(fileName) + ".webp");
  }

  lemma OriginalKey(owner: string, folder: Folder, fileName: string)
    requires IsName(owner) && IsName(fileName) && IsImage(fileName) && owner != "seed"
    ensures NextPath(KeyOf(owner, folder, fileName), Original) == Some(KeyOf(owner, In(Original), fileName))
  {
    RelocatedExactly(owner, folder, fileName);
    VariantOfKey(owner, folder, fileName, Original);
  }

  /** The original link of a company's image points into `original`, whichever folder the link named. */
  lemma OriginalLinkExactly(origin: string, host: string, prefix: string, owner: string, folder: Folder, fileName: string)
    requires IsAddress(origin, host) && Serves(host, prefix) && owner != "seed"
    requires IsName(owner) && IsName(fileName) && IsImage(fileName) && !HasMark(owner) && !HasMark(fileName)
    ensures VariantUrl(origin + (prefix + ("/" + KeyOf(owner, folder, fileName))), Original) ==
            origin + (prefix + ("/" + KeyOf(owner, In(Original), fileName)))
  {
    OriginalKey(owner, folder, fileName);
    SwappedKey(origin, host, prefix, owner, folder, fileName, Original, In(Original), fileName);
  }

  /** A link that is no managed image stays as it is. */
  lemma OtherLinksStay(url: string, variant: Variant)
    requires var trimmed := Text.Trim(url);
             trimmed == "" || "blob:" <= trimmed || "data:" <= trimmed
             || (ParseUrl(url).Some? && NextPath(ParseUrl(url).value.blobPath, variant).None?)
    ensures VariantUrl(url, variant) == url
  {
  }
}
