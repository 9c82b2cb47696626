/** Storage keys of managed photos: parsing a key, printing its variants, and relocating originals. */
module MediaPaths {
  import opened Common

  datatype Variant = Original | Thumbnail1 | Thumbnail2

  datatype Folder = Legacy | In(variant: Variant)

  datatype Parsed =
    | Seed(folder: Folder, fileName: string)
    | Managed(companyId: string, folder: Folder, fileName: string)
    | Unknown

  function FolderName(v: Variant): string {
    match v
    case Original => "original"
    case Thumbnail1 => "thumbnail1"
    case Thumbnail2 => "thumbnail2"
  }

  // ---- Slashes and parts ----

  function StripSlashes(s: string): string {
    if s != [] && s[0] == '/' then StripSlashes(s[1..]) else s
  }

  function ToSlashes(s: string): (r: string)
    ensures |r| == |s| && '\\' !in r
    ensures forall i :: 0 <= i < |s| ==> r[i] == if s[i] == '\\' then '/' else s[i]
  {
    if s == [] then [] else [if s[0] == '\\' then '/' else s[0]] + ToSlashes(s[1..])
  }

  function Normal(s: string): string {
    ToSlashes(StripSlashes(s))
  }

  /** The characters before the first slash. */
  function Segment(s: string): (r: string)
    ensures r <= s && '/' !in r
    ensures |r| < |s| ==> s[|r|] == '/'
  {
    if s == [] || s[0] == '/' then [] else [s[0]] + Segment(s[1..])
  }

  /** `split('/').filter(Boolean)` */
  function Parts(s: string): seq<string>
    decreases |s|
  {
    if s == [] then []
    else if s[0] == '/' then Parts(s[1..])
    else [Segment(s)] + Parts(s[|Segment(s)|..])
  }

  predicate HasDotDot(s: string) {
    exists i :: 0 <= i < |s| - 1 && s[i] == '.' && s[i + 1] == '.'
  }

  /** A part that can stand between slashes in a key. */
  predicate IsName(p: string) {
    p != [] && '/' !in p && '\\' !in p && !HasDotDot(p)
  }

  lemma {:induction false} SegmentOfJoin(a: string, b: string)
    requires '/' !in a && (b == [] || b[0] == '/')
    ensures Segment(a + b) == a
  {
    if a == [] {
      assert a + b == b;
    } else {
      assert (a + b)[1..] == a[1..] + b;
      SegmentOfJoin(a[1..], b);
      assert a == [a[0]] + a[1..];
    }
  }

  /** A name in front of a slash is the first part. */
  lemma PartsOfJoin(a: string, b: string)
    requires a != [] && '/' !in a && (b == [] || b[0] == '/')
    ensures Parts(a + b) == [a] + Parts(b)
  {
    SegmentOfJoin(a, b);
    assert (a + b)[0] == a[0] != '/' by { assert a[0] in a; }
    assert (a + b)[|a|..] == b;
  }

  lemma PartsAfterSlash(s: string)
    ensures Parts("/" + s) == Parts(s)
  {
  }

  lemma PartsOfTwo(a: string, b: string)
    requires a != [] && '/' !in a && b != [] && '/' !in b
    ensures Parts(a + "/" + b) == [a, b]
  {
    assert a + "/" + b == a + ("/" + b);
    PartsOfJoin(a, "/" + b);
    PartsAfterSlash(b);
    assert b == b + [];
    PartsOfJoin(b, []);
  }

  lemma Joined<T>(a: seq<T>, slash: seq<T>, b: seq<T>, c: seq<T>)
    ensures a + slash + b + slash + c == a + (slash + (b + slash + c))
  {
  }

  lemma PartsOfThree(a: string, b: string, c: string)
    requires a != [] && '/' !in a && b != [] && '/' !in b && c != [] && '/' !in c
    ensures Parts(a + "/" + b + "/" + c) == [a, b, c]
  {
    Joined(a, "/", b, c);
    PartsOfJoin(a, "/" + (b + "/" + c));
    PartsAfterSlash(b + "/" + c);
    PartsOfTwo(b, c);
  }

  lemma {:induction false} PartsOfStripped(s: string)
    ensures Parts(StripSlashes(s)) == Parts(s)
  {
    if s != [] && s[0] == '/' {
      PartsOfStripped(s[1..]);
    }
  }

  /** Parts are non-empty, hold no slash, and hold only characters of the string. */
  lemma {:induction false} PartsAreSegments(s: string)
    ensures forall p :: p in Parts(s) ==> p != [] && '/' !in p && forall c :: c in p ==> c in s
    decreases |s|
  {
    if s != [] && s[0] == '/' {
      PartsAreSegments(s[1..]);
    } else if s != [] {
      PartsAreSegments(s[|Segment(s)|..]);
    }
  }

  lemma DotDotOfJoin(a: string, b: string)
    requires b == [] || b[0] == '/'
    ensures HasDotDot(a + b) <==> HasDotDot(a) || HasDotDot(b)
  {
    var s := a + b;
    if i :| 0 <= i < |s| - 1 && s[i] == '.' && s[i + 1] == '.' {
      if i + 1 < |a| {
        assert a[i] == '.' && a[i + 1] == '.';
      } else {
        assert i >= |a|;
        assert b[i - |a|] == '.' && b[i - |a| + 1] == '.';
      }
    }
    if i :| 0 <= i < |a| - 1 && a[i] == '.' && a[i + 1] == '.' {
      assert s[i] == '.' && s[i + 1] == '.';
    }
    if i :| 0 <= i < |b| - 1 && b[i] == '.' && b[i + 1] == '.' {
      assert s[|a| + i] == '.' && s[|a| + i + 1] == '.';
    }
  }

  lemma DotDotAfterSlash(s: string)
    ensures HasDotDot("/" + s) <==> HasDotDot(s)
  {
    var t := "/" + s;
    if i :| 0 <= i < |t| - 1 && t[i] == '.' && t[i + 1] == '.' {
      assert s[i - 1] == '.' && s[i] == '.';
    }
    if i :| 0 <= i < |s| - 1 && s[i] == '.' && s[i + 1] == '.' {
      assert t[i + 1] == '.' && t[i + 2] == '.';
    }
  }

  predicate SomeDotDot(parts: seq<string>) {
    exists p :: p in parts && HasDotDot(p)
  }

  /** Two dots never span a slash. */
  lemma {:induction false} DotDotIsInAPart(s: string)
    ensures HasDotDot(s) <==> SomeDotDot(Parts(s))
    decreases |s|
  {
    if s != [] && s[0] == '/' {
      assert s == "/" + s[1..];
      DotDotAfterSlash(s[1..]);
      DotDotIsInAPart(s[1..]);
    } else if s != [] {
      var a, b := Segment(s), s[|Segment(s)|..];
      assert s == a + b;
      DotDotOfJoin(a, b);
      DotDotIsInAPart(b);
      assert Parts(s) == [a] + Parts(b);
      assert forall p :: p in Parts(s) <==> p == a || p in Parts(b);
    }
  }

  // ---- File names ----

  /** `lastIndexOf('.')` */
  function LastDot(s: string): (r: int)
    ensures -1 <= r < |s|
    ensures r >= 0 ==> s[r] == '.'
    ensures forall i :: r < i < |s| ==> s[i] != '.'
  {
    if s == [] then -1 else if s[|s| - 1] == '.' then |s| - 1 else LastDot(s[..|s| - 1])
  }

  function Stem(fileName: string): string {
    if LastDot(fileName) <= 0 then fileName else fileName[..LastDot(fileName)]
  }

  function Ext(fileName: string): string {
    if LastDot(fileName) <= 0 then "" else fileName[LastDot(fileName) + 1..]
  }

  function AsciiLower(c: char): char {
    if 'A' <= c <= 'Z' then (c as int + 32) as char else c
  }

  function LowerAscii(s: string): (r: string)
    ensures |r| == |s| && forall i :: 0 <= i < |s| ==> r[i] == AsciiLower(s[i])
  {
    if s == [] then [] else [AsciiLower(s[0])] + LowerAscii(s[1..])
  }

  predicate IsImageExt(ext: string) {
    var e := LowerAscii(ext);
    e == "jpg" || e == "jpeg" || e == "png" || e == "webp"
  }

  predicate IsImage(fileName: string) {
    IsImageExt(Ext(fileName))
  }

  // ---- Parsing ----

  function FolderOf(part: string): Option<Variant> {
    if part == "original" then Some(Original)
    else if part == "thumbnail1" then Some(Thumbnail1)
    else if part == "thumbnail2" then Some(Thumbnail2)
    else None
  }

  /** What a key means, from its parts alone. */
  function ParseParts(parts: seq<string>): Parsed {
    if |parts| == 2 then
      if parts[0] == "seed" then Seed(Legacy, parts[1]) else Managed(parts[0], Legacy, parts[1])
    else if |parts| == 3 && FolderOf(parts[1]).Some? then
      var folder := In(FolderOf(parts[1]).value);
      if parts[0] == "seed" then Seed(folder, parts[2]) else Managed(parts[0], folder, parts[2])
    else Unknown
  }

  /** `parseMediaBlobPath`; the `blobPath` it also returns is `Normal(blobPath)`. */
  function Parse(blobPath: string): Parsed {
    var trimmed := Normal(blobPath);
    if trimmed == [] || HasDotDot(trimmed) then Unknown else ParseParts(Parts(trimmed))
  }

  /** The names in a parsed key can be printed again. */
  lemma ParsedNames(blobPath: string)
    ensures match Parse(blobPath)
            case Unknown => true
            case Seed(_, fileName) => IsName(fileName)
            case Managed(companyId, _, fileName) => IsName(companyId) && IsName(fileName) && companyId != "seed"
  {
    var trimmed := Normal(blobPath);
    PartsAreSegments(trimmed);
    DotDotIsInAPart(trimmed);
    if !HasDotDot(trimmed) {
      assert forall p :: p in Parts(trimmed) ==> IsName(p);
    }
  }

  lemma PrintedIsNormal(s: string)
    requires s != [] && s[0] != '/' && '\\' !in s
    ensures Normal(s) == s
  {
  }

  lemma ParseOfTwo(a: string, b: string)
    requires IsName(a) && IsName(b)
    ensures Normal(a + "/" + b) == a + "/" + b
    ensures Parse(a + "/" + b) == ParseParts([a, b])
  {
    var s := a + "/" + b;
    assert s[0] == a[0] && a[0] in a;
    PrintedIsNormal(s);
    PartsOfTwo(a, b);
    DotDotIsInAPart(s);
  }

  lemma ParseOfThree(a: string, b: string, c: string)
    requires IsName(a) && IsName(b) && IsName(c)
    ensures Normal(a + "/" + b + "/" + c) == a + "/" + b + "/" + c
    ensures Parse(a + "/" + b + "/" + c) == ParseParts([a, b, c])
  {
    var s := a + "/" + b + "/" + c;
    assert s[0] == a[0] && a[0] in a;
    PrintedIsNormal(s);
    PartsOfThree(a, b, c);
    DotDotIsInAPart(s);
  }

  lemma FolderNameIsName(v: Variant)
    ensures IsName(FolderName(v)) && FolderOf(FolderName(v)) == Some(v)
  {
  }

  // ---- Printing variants ----

  function SeedVariant(folder: Folder, fileName: string, variant: Variant): string {
    if variant.Original? then
      if folder == Legacy || folder == In(Original) then "seed" + "/" + fileName
      else "seed" + "/" + (Stem(fileName) + ".jpg")
    else "seed" + "/" + FolderName(variant) + "/" + (Stem(fileName) + ".webp")
  }

  function ManagedVariant(companyId: string, fileName: string, variant: Variant): string {
    companyId + "/" + FolderName(variant) + "/" + (if variant.Original? then fileName else Stem(fileName) + ".webp")
  }

  /** `mediaVariantBlobPath` */
  function VariantPath(blobPath: string, variant: Variant): Option<string> {
    VariantOf(Parse(blobPath), variant)
  }

  function VariantOf(parsed: Parsed, variant: Variant): Option<string> {
    match parsed
    case Seed(folder, fileName) => if IsImage(fileName) then Some(SeedVariant(folder, fileName, variant)) else None
    case Managed(companyId, _, fileName) =>
      if IsImage(fileName) then Some(ManagedVariant(companyId, fileName, variant)) else None
    case Unknown => None
  }

  /** The letters after the dot of a printed file name. */
  predicate IsSuffix(suffix: string) {
    suffix != [] && '.' !in suffix && '/' !in suffix && '\\' !in suffix
  }

  lemma StemOfRenamed(stem: string, suffix: string)
    requires stem != [] && IsSuffix(suffix)
    ensures Stem(stem + "." + suffix) == stem && Ext(stem + "." + suffix) == suffix
  {
    var renamed := stem + "." + suffix;
    assert renamed[|stem|] == '.';
    assert forall i :: |stem| < i < |renamed| ==> renamed[i] == suffix[i - |stem| - 1] && renamed[i] in suffix;
    assert LastDot(renamed) == |stem|;
  }

  lemma RenamedIsName(stem: string, suffix: string)
    requires IsName(stem) && stem[|stem| - 1] != '.' && IsSuffix(suffix)
    ensures IsName(stem + "." + suffix)
  {
  }

  lemma StemIsName(fileName: string)
    requires IsName(fileName) && LastDot(fileName) > 0
    ensures IsName(Stem(fileName)) && Stem(fileName)[|Stem(fileName)| - 1] != '.'
  {
  }

  /** Swapping the extension of an image keeps it a name with the same stem. */
  lemma StemWithExtension(fileName: string, suffix: string)
    requires IsName(fileName) && IsImage(fileName) && IsSuffix(suffix) && IsImageExt(suffix)
    ensures var renamed := Stem(fileName) + "." + suffix;
            IsName(renamed) && IsImage(renamed) && Stem(renamed) == Stem(fileName)
  {
    StemIsName(fileName);
    StemOfRenamed(Stem(fileName), suffix);
    RenamedIsName(Stem(fileName), suffix);
  }

  lemma PrintedExtensions(stem: string)
    ensures IsSuffix("webp") && IsImageExt("webp") && IsSuffix("jpg") && IsImageExt("jpg")
    ensures stem + "." + "webp" == stem + ".webp" && stem + "." + "jpg" == stem + ".jpg"
  {
  }

  /** The part of a parsed key that every variant shares. */
  function Owner(parsed: Parsed): Option<string> {
    match parsed
    case Seed(_, _) => None
    case Managed(companyId, _, _) => Some(companyId)
    case Unknown => None
  }

  /** Every printed variant parses back to the same owner, the asked folder and the same stem, as an image. */
  lemma VariantParsesBack(blobPath: string, variant: Variant)
    requires VariantPath(blobPath, variant).Some?
    ensures var before, path := Parse(blobPath), VariantPath(blobPath, variant).value;
            var after := Parse(path);
            && Normal(path) == path
            && !after.Unknown? && after.Seed? == before.Seed? && Owner(after) == Owner(before)
            && after.folder == (if before.Seed? && variant.Original? then Legacy else In(variant))
            && Stem(after.fileName) == Stem(before.fileName) && IsImage(after.fileName)
  {
    ParsedNames(blobPath);
    match Parse(blobPath)
    case Seed(folder, fileName) => SeedVariantParsesBack(folder, fileName, variant);
    case Managed(companyId, _, fileName) => ManagedVariantParsesBack(companyId, fileName, variant);
  }

  lemma SeedThumbnailParsesBack(fileName: string, variant: Variant)
    requires IsName(fileName) && IsImage(fileName)
    ensures var path := "seed" + "/" + FolderName(variant) + "/" + (Stem(fileName) + ".webp");
            && Normal(path) == path && Parse(path) == Seed(In(variant), Stem(fileName) + ".webp")
            && Stem(Stem(fileName) + ".webp") == Stem(fileName) && IsImage(Stem(fileName) + ".webp")
  {
    PrintedExtensions(Stem(fileName));
    StemWithExtension(fileName, "webp");
    SeedIsName();
    FolderNameIsName(variant);
    ParseOfThree("seed", FolderName(variant), Stem(fileName) + ".webp");
  }

  lemma SeedOriginalParsesBack(fileName: string)
    requires IsName(fileName)
    ensures Normal("seed" + "/" + fileName) == "seed" + "/" + fileName
    ensures Parse("seed" + "/" + fileName) == Seed(Legacy, fileName)
  {
    SeedIsName();
    ParseOfTwo("seed", fileName);
  }

  lemma SeedVariantParsesBack(folder: Folder, fileName: string, variant: Variant)
    requires IsName(fileName) && IsImage(fileName)
    ensures var path := SeedVariant(folder, fileName, variant);
            && Normal(path) == path
            && Parse(path).Seed? && Parse(path).folder == (if variant.Original? then Legacy else In(variant))
            && Stem(Parse(path).fileName) == Stem(fileName) && IsImage(Parse(path).fileName)
  {
    if !variant.Original? {
      SeedThumbnailParsesBack(fileName, variant);
    } else if folder == Legacy || folder == In(Original) {
      SeedOriginalParsesBack(fileName);
    } else {
      PrintedExtensions(Stem(fileName));
      StemWithExtension(fileName, "jpg");
      SeedOriginalParsesBack(Stem(fileName) + ".jpg");
    }
  }

  lemma ManagedVariantParsesBack(companyId: string, fileName: string, variant: Variant)
    requires IsName(companyId) && companyId != "seed" && IsName(fileName) && IsImage(fileName)
    ensures var path := ManagedVariant(companyId, fileName, variant);
            && Normal(path) == path
            && Parse(path).Managed? && Parse(path).companyId == companyId && Parse(path).folder == In(variant)
            && Stem(Parse(path).fileName) == Stem(fileName) && IsImage(Parse(path).fileName)
  {
    PrintedExtensions(Stem(fileName));
    StemWithExtension(fileName, "webp");
    FolderNameIsName(variant);
    ParseOfThree(companyId, FolderName(variant), if variant.Original? then fileName else Stem(fileName) + ".webp");
  }

  lemma SeedIsName()
    ensures IsName("seed")
  {
  }

  /** A thumbnail depends only on owner and stem. */
  lemma ThumbnailOfSameStem(a: Parsed, b: Parsed, thumbnail: Variant)
    requires !thumbnail.Original? && !a.Unknown? && !b.Unknown?
    requires a.Seed? == b.Seed? && Owner(a) == Owner(b)
    requires Stem(a.fileName) == Stem(b.fileName) && IsImage(a.fileName) && IsImage(b.fileName)
    ensures VariantOf(a, thumbnail) == VariantOf(b, thumbnail)
  {
  }

  /** Taking any variant and then a thumbnail is taking the thumbnail. */
  lemma ThumbnailOfVariant(blobPath: string, variant: Variant, thumbnail: Variant)
    requires VariantPath(blobPath, variant).Some? && !thumbnail.Original?
    ensures VariantPath(VariantPath(blobPath, variant).value, thumbnail) == VariantPath(blobPath, thumbnail)
  {
    VariantParsesBack(blobPath, variant);
    ThumbnailOfSameStem(Parse(VariantPath(blobPath, variant).value), Parse(blobPath), thumbnail);
  }

  /** The key of a file: in its owner's folder, or, for a legacy upload, beside the folders. */
  function KeyOf(owner: string, folder: Folder, fileName: string): string {
    match folder
    case Legacy => owner + "/" + fileName
    case In(Original) => owner + "/" + "original" + "/" + fileName
    case In(Thumbnail1) => owner + "/" + "thumbnail1" + "/" + fileName
    case In(Thumbnail2) => owner + "/" + "thumbnail2" + "/" + fileName
  }

  lemma KeyParses(owner: string, folder: Folder, fileName: string)
    requires IsName(owner) && IsName(fileName)
    ensures Normal(KeyOf(owner, folder, fileName)) == KeyOf(owner, folder, fileName)
    ensures Parse(KeyOf(owner, folder, fileName)) ==
            if owner == "seed" then Seed(folder, fileName) else Managed(owner, folder, fileName)
  {
    match folder
    case Legacy => ParseOfTwo(owner, fileName);
    case In(v) =>
      FolderNameIsName(v);
      ParseOfThree(owner, FolderName(v), fileName);
  }

  lemma LastDotIs(name: string, at: nat)
    requires at < |name| && name[at] == '.' && '.' !in name[at + 1..]
    ensures LastDot(name) == at
  {
  }

  lemma NoDot(name: string)
    requires '.' !in name
    ensures LastDot(name) == -1
  {
  }

  /** A name is an image's exactly when the letters after its last dot, which is not its first character, say so. */
  lemma ImageExactly(stem: string, ext: string, lower: string)
    requires '.' !in ext && lower == LowerAscii(ext)
    ensures IsImage(stem + "." + ext) <==>
            stem != "" && (lower == "jpg" || lower == "jpeg" || lower == "png" || lower == "webp")
    ensures !IsImage(ext)
  {
    var name := stem + "." + ext;
    assert name[|stem| + 1..] == ext && name[|stem|] == '.';
    LastDotIs(name, |stem|);
    NoDot(ext);
    assert Ext(name) == if stem == "" then "" else ext;
    NoExtension();
  }

  lemma NoExtension()
    ensures !IsImageExt("")
  {
  }

  /**
   * The variants of an image: a thumbnail is a `.webp` of the same stem in its folder; the original of a company's
   * image keeps its name, and a seed's stands beside the folders, as a `.jpg` when asked for from a thumbnail.
   */
  lemma VariantOfKey(owner: string, folder: Folder, fileName: string, variant: Variant)
    requires IsName(owner) && IsName(fileName)
    ensures VariantPath(KeyOf(owner, folder, fileName), variant) ==
            if !IsImage(fileName) then None
            else if !variant.Original? then Some(KeyOf(owner, In(variant), Stem(fileName) + ".webp"))
            else if owner != "seed" then Some(KeyOf(owner, In(Original), fileName))
            else if folder == In(Thumbnail1) || folder == In(Thumbnail2)
            then Some(KeyOf(owner, Legacy, Stem(fileName) + ".jpg"))
            else Some(KeyOf(owner, Legacy, fileName))
  {
    KeyParses(owner, folder, fileName);
  }

  // ---- Relocating originals ----

  /** `originalBlobCandidates` */
  function Candidates(blobPath: string): seq<string> {
    match Parse(blobPath)
    case Managed(companyId, folder, fileName) =>
      if !IsImage(fileName) then [blobPath]
      else
        var canonical, legacy := companyId + "/" + "original" + "/" + fileName, companyId + "/" + fileName;
        if folder == Legacy then [legacy, canonical] else [canonical, legacy]
    case _ => [blobPath]
  }

  /** `relocateOriginalBlobPath` */
  function Relocated(blobPath: string): Option<string> {
    match Parse(blobPath)
    case Managed(companyId, folder, fileName) =>
      if !IsImage(fileName) then None
      else if folder == Legacy then Some(companyId + "/" + "original" + "/" + fileName)
      else if folder == In(Original) then Some(Normal(blobPath))
      else None
    case _ => None
  }

  /** A company's legacy image moves to `original`, one that is there stays, and nothing else is relocated. */
  lemma RelocatedExactly(owner: string, folder: Folder, fileName: string)
    requires IsName(owner) && IsName(fileName)
    ensures Relocated(KeyOf(owner, folder, fileName)) ==
            if owner != "seed" && IsImage(fileName) && (folder == Legacy || folder == In(Original))
            then Some(KeyOf(owner, In(Original), fileName)) else None
  {
    KeyParses(owner, folder, fileName);
  }

  /** A company's image is tried in `original` and beside the folders, a legacy key first where it was recorded. */
  lemma CandidatesExactly(owner: string, folder: Folder, fileName: string)
    requires IsName(owner) && IsName(fileName)
    ensures Candidates(KeyOf(owner, folder, fileName)) ==
            if owner == "seed" || !IsImage(fileName) then [KeyOf(owner, folder, fileName)]
            else if folder == Legacy then [KeyOf(owner, Legacy, fileName), KeyOf(owner, In(Original), fileName)]
            else [KeyOf(owner, In(Original), fileName), KeyOf(owner, Legacy, fileName)]
  {
    KeyParses(owner, folder, fileName);
  }

  /** A legacy image key and its relocated key are tried under the same names. */
  lemma RelocationKeepsCandidates(blobPath: string)
    requires Relocated(blobPath).Some?
    ensures Elems(Candidates(Relocated(blobPath).value)) == Elems(Candidates(blobPath))
  {
    ParsedNames(blobPath);
    FolderNameIsName(Original);
    var parsed := Parse(blobPath);
    if parsed.folder == Legacy {
      ParseOfThree(parsed.companyId, "original", parsed.fileName);
    } else {
      ParseOfNormal(blobPath);
    }
  }

  lemma {:induction false} ToSlashesTwice(s: string)
    requires '\\' !in s
    ensures ToSlashes(s) == s
  {
  }

  lemma {:induction false} StripKeepsTail(s: string)
    ensures |StripSlashes(s)| <= |s| && StripSlashes(s) == s[|s| - |StripSlashes(s)|..]
  {
    if s != [] && s[0] == '/' {
      StripKeepsTail(s[1..]);
    }
  }

  /** A normalised key means what the key meant; normalising again only drops leading slashes. */
  lemma ParseOfNormal(blobPath: string)
    ensures Parse(Normal(blobPath)) == Parse(blobPath)
    ensures Normal(Normal(blobPath)) == StripSlashes(Normal(blobPath))
  {
    var s := Normal(blobPath);
    StripKeepsTail(s);
    ToSlashesTwice(StripSlashes(s));
    PartsOfStripped(s);
    DotDotIsInAPart(s);
    DotDotIsInAPart(StripSlashes(s));
    if StripSlashes(s) == [] {
      assert Parts(s) == [];
    }
  }

  /**
   * Relocating twice is relocating once, unless the key already lies in `original` and, past its leading
   * slashes, begins with a backslash: then each call drops one more leading slash.
   */
  lemma RelocationIsIdempotentExactly(blobPath: string)
    requires Relocated(blobPath).Some?
    ensures var rest := StripSlashes(blobPath);
            Relocated(Relocated(blobPath).value) == Relocated(blobPath) <==>
            Parse(blobPath).folder == Legacy || !(rest != [] && rest[0] == '\\')
  {
    ParsedNames(blobPath);
    FolderNameIsName(Original);
    var parsed := Parse(blobPath);
    if parsed.folder == Legacy {
      ParseOfThree(parsed.companyId, "original", parsed.fileName);
    } else {
      var s, rest := Normal(blobPath), StripSlashes(blobPath);
      ParseOfNormal(blobPath);
      StripIsClean(blobPath);
      assert s[0] == if rest[0] == '\\' then '/' else rest[0];
      StripKeepsTail(s);
      if s[0] == '/' {
        StripKeepsTail(s[1..]);
        assert |StripSlashes(s)| < |s|;
      }
    }
  }

  lemma {:induction false} StripIsClean(s: string)
    ensures StripSlashes(s) == [] || StripSlashes(s)[0] != '/'
  {
    if s != [] && s[0] == '/' {
      StripIsClean(s[1..]);
    }
  }

  lemma SlashInFront(key: string)
    requires key != [] && key[0] != '/' && Normal(key) == key
    ensures Normal("/" + key) == key && Normal("\\" + key) == "/" + key
    ensures Parse("/" + key) == Parse(key) && Parse("\\" + key) == Parse(key)
  {
  }

  /** Any key already in `original` that starts with a backslash: the second relocation drops the slash of the first. */
  lemma RelocatingTwiceDiffers(companyId: string, fileName: string)
    requires IsName(companyId) && companyId != "seed" && IsName(fileName) && IsImage(fileName)
    ensures var key := companyId + "/" + "original" + "/" + fileName;
            Relocated("\\" + key) == Some("/" + key) && Relocated("/" + key) == Some(key)
  {
    var key := companyId + "/" + "original" + "/" + fileName;
    FolderNameIsName(Original);
    ParseOfThree(companyId, "original", fileName);
    assert key[0] == companyId[0] && companyId[0] in companyId;
    SlashInFront(key);
    RelocatedInOriginal("/" + key, companyId, fileName);
    RelocatedInOriginal("\\" + key, companyId, fileName);
  }

  lemma RelocatedInOriginal(key: string, companyId: string, fileName: string)
    requires Parse(key) == Managed(companyId, In(Original), fileName) && IsImage(fileName)
    ensures Relocated(key) == Some(Normal(key))
  {
  }

  lemma PlainImageName()
    ensures IsName("c") && "c" != "seed" && IsName("x" + "." + "png") && IsImage("x" + "." + "png")
  {
    assert LowerAscii("png") == "png";
    StemOfRenamed("x", "png");
    RenamedIsName("x", "png");
  }

  /** For one, `\c/original/x.png`. */
  lemma BackslashKeyRelocatesTwice()
    ensures var key := "c" + "/" + "original" + "/" + ("x" + "." + "png");
            Relocated("\\" + key) == Some("/" + key) && Relocated("/" + key) == Some(key) && key != "/" + key
  {
    PlainImageName();
    RelocatingTwiceDiffers("c", "x" + "." + "png");
    var key := "c" + "/" + "original" + "/" + ("x" + "." + "png");
    assert |key| != |"/" + key|;
  }
}
