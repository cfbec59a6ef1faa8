/** Release assets and the classifier that sorts them into archives, changelogs,
    checksum files and property files (update.py:89-102). */
module Assets {

  import opened Wrappers

  /** One file attached to a GitHub release, with the fields of the release
      listing that the builder reads. */
  datatype Asset = Asset(
    name: string,
    contentType: string,
    downloadUrl: string,
    size: int,
    updatedAt: string)

  /** One GitHub release: its assets in listing order and its web page. */
  datatype Release = Release(assets: seq<Asset>, htmlUrl: string)

  const ZipType: string := "application/zip"

  /** Index of the last occurrence of `c` in `s`, or -1 (Python's `str.rfind`). */
  function LastIndexOf(s: string, c: char): (r: int)
    ensures -1 <= r < |s|
    ensures r >= 0 ==> s[r] == c
    ensures forall j :: r < j < |s| ==> s[j] != c
  {
    if s == [] then -1
    else if s[|s| - 1] == c then |s| - 1
    else LastIndexOf(s[..|s| - 1], c)
  }

  /** Python's `os.path.splitext` on POSIX paths: the extension starts at the last
      dot of the base name, unless everything before that dot in the base name is
      dots (a leading-dot name such as `.prop` has no extension). */
  function SplitExt(p: string): (r: (string, string))
    ensures r.0 + r.1 == p
    ensures r.1 != [] ==>
              && r.1[0] == '.'
              && (forall i :: 1 <= i < |r.1| ==> r.1[i] != '.' && r.1[i] != '/')
              && (exists k :: LastIndexOf(p, '/') < k < |r.0| && p[k] != '.')
    ensures r.1 == [] ==>
              forall k :: LastIndexOf(p, '/') < k < LastIndexOf(p, '.') ==> p[k] == '.'
  {
    var sepIndex := LastIndexOf(p, '/');
    var dotIndex := LastIndexOf(p, '.');
    if dotIndex > sepIndex && exists k :: sepIndex < k < dotIndex && p[k] != '.' then
      (p[..dotIndex], p[dotIndex..])
    else
      (p, [])
  }

  function Extension(name: string): string {
    SplitExt(name).1
  }

  datatype Role = Archive | Changelog | Checksum | Properties

  /** The bucket an asset goes to; `None` means the asset is ignored. The content
      type is looked at first, so a zip upload is an archive whatever its name. */
  function RoleOf(a: Asset): (r: Option<Role>)
    ensures r == Some(Archive) <==> a.contentType == ZipType
    ensures r == Some(Changelog) <==>
              a.contentType != ZipType && (Extension(a.name) == ".txt" || Extension(a.name) == ".html")
    ensures r == Some(Checksum) <==> a.contentType != ZipType && Extension(a.name) == ".md5sum"
    ensures r == Some(Properties) <==> a.contentType != ZipType && Extension(a.name) == ".prop"
    ensures r.None? <==>
              && a.contentType != ZipType
              && Extension(a.name) !in [".txt", ".html", ".md5sum", ".prop"]
  {
    if a.contentType == ZipType then Some(Archive)
    else
      var ext := Extension(a.name);
      if ext == ".txt" || ext == ".html" then Some(Changelog)
      else if ext == ".md5sum" then Some(Checksum)
      else if ext == ".prop" then Some(Properties)
      else None
  }

  /** The assets of one role, in listing order: the reference the classifier is
      measured against. */
  function Select(assets: seq<Asset>, role: Role): seq<Asset> {
    if assets == [] then []
    else
      var last := assets[|assets| - 1];
      Select(assets[..|assets| - 1], role) + (if RoleOf(last) == Some(role) then [last] else [])
  }

  datatype Classified = Classified(
    archives: seq<Asset>,
    changelogs: seq<Asset>,
    checksums: seq<Asset>,
    properties: seq<Asset>)

  /** Adds one asset to the end of the bucket its role selects. */
  function Place(c: Classified, a: Asset): (d: Classified)
    ensures d.archives == c.archives + (if RoleOf(a) == Some(Archive) then [a] else [])
    ensures d.changelogs == c.changelogs + (if RoleOf(a) == Some(Changelog) then [a] else [])
    ensures d.checksums == c.checksums + (if RoleOf(a) == Some(Checksum) then [a] else [])
    ensures d.properties == c.properties + (if RoleOf(a) == Some(Properties) then [a] else [])
  {
    match RoleOf(a)
    case Some(Archive) => c.(archives := c.archives + [a])
    case Some(Changelog) => c.(changelogs := c.changelogs + [a])
    case Some(Checksum) => c.(checksums := c.checksums + [a])
    case Some(Properties) => c.(properties := c.properties + [a])
    case None => c
  }

  /** The asset loop of the builder: each asset, in listing order, is appended
      to the bucket its role selects. */
  function Classify(assets: seq<Asset>): (c: Classified)
    ensures c.archives == Select(assets, Archive)
    ensures c.changelogs == Select(assets, Changelog)
    ensures c.checksums == Select(assets, Checksum)
    ensures c.properties == Select(assets, Properties)
  {
    if assets == [] then Classified([], [], [], [])
    else Place(Classify(assets[..|assets| - 1]), assets[|assets| - 1])
  }

  /** `xs` is `ys` with some elements left out, the rest in the same order. */
  predicate IsSubsequence<T(==)>(xs: seq<T>, ys: seq<T>)
    decreases |ys|
  {
    if ys == [] then xs == []
    else
      || (xs != [] && xs[|xs| - 1] == ys[|ys| - 1] && IsSubsequence(xs[..|xs| - 1], ys[..|ys| - 1]))
      || IsSubsequence(xs, ys[..|ys| - 1])
  }

  /** Every bucket keeps the listing order... */
  lemma {:induction false} SelectIsSubsequence(assets: seq<Asset>, role: Role)
    ensures IsSubsequence(Select(assets, role), assets)
  {
    if assets != [] {
      var init := assets[..|assets| - 1];
      var last := assets[|assets| - 1];
      SelectIsSubsequence(init, role);
      var s := Select(init, role);
      if RoleOf(last) == Some(role) {
        assert Select(assets, role) == s + [last];
        assert (s + [last])[..|s|] == s;
      } else {
        assert Select(assets, role) == s;
      }
    }
  }

  /** ...and holds exactly the assets of its role. */
  lemma {:induction false} SelectMembers(assets: seq<Asset>, role: Role)
    ensures forall a :: a in Select(assets, role) <==> a in assets && RoleOf(a) == Some(role)
  {
    if assets != [] {
      var init := assets[..|assets| - 1];
      SelectMembers(init, role);
      assert assets == init + [assets[|assets| - 1]];
    }
  }

  /** A zip upload lands among the archives whatever its name. */
  lemma ZipIsArchive(assets: seq<Asset>, a: Asset)
    requires a in assets && a.contentType == ZipType
    ensures a in Select(assets, Archive)
  {
    SelectMembers(assets, Archive);
  }

  /** A name without a slash whose last dot follows a non-dot character has
      the extension from that dot on. */
  lemma ExtensionAfterLastDot(p: string, k: nat)
    requires k < |p| && p[k] == '.' && '/' !in p
    requires forall j :: k < j < |p| ==> p[j] != '.'
    requires 0 < k && p[0] != '.'
    ensures Extension(p) == p[k..]
  {
    assert LastIndexOf(p, '/') == -1;
    assert LastIndexOf(p, '.') == k;
  }

  /** A name without a dot has no extension. */
  lemma NoDotNoExtension(p: string)
    requires '.' !in p
    ensures Extension(p) == ""
  {
    assert LastIndexOf(p, '.') == -1;
  }

  /** A hidden name such as `.prop`, with no other dot, has no extension. */
  lemma HiddenNameNoExtension(p: string)
    requires |p| > 0 && p[0] == '.' && '.' !in p[1..]
    ensures Extension(p) == ""
  {
    assert forall j :: 0 < j < |p| ==> p[j] == p[1..][j - 1];
    assert LastIndexOf(p, '.') == 0;
  }

  /** A name made of a stem without slashes or a leading dot, a dot, and a
      suffix without dots or slashes has that suffix as its extension, however
      many dots the stem holds. */
  lemma ExtensionOfSuffix(stem: string, suffix: string)
    requires stem != [] && stem[0] != '.' && '/' !in stem
    requires '.' !in suffix && '/' !in suffix
    ensures Extension(stem + "." + suffix) == "." + suffix
  {
    var p := stem + "." + suffix;
    assert p[|stem|..] == "." + suffix;
    forall j | |stem| < j < |p|
      ensures p[j] != '.'
    {
      assert p[j] == suffix[j - |stem| - 1];
    }
    ExtensionAfterLastDot(p, |stem|);
  }

  /** Examples: a properties file's extension... */
  lemma BuildPropExtension()
    ensures Extension("build.prop") == ".prop"
  {
    ExtensionAfterLastDot("build.prop", 5);
  }

  /** ...and a checksum file's, where only the last dot counts... */
  lemma ChecksumFileExtension()
    ensures Extension("a.zip.md5sum") == ".md5sum"
  {
    ExtensionOfSuffix("a.zip", "md5sum");
    assert "a.zip" + "." + "md5sum" == "a.zip.md5sum";
  }

  /** ...and the leading dot of a hidden file is not an extension separator. */
  lemma NoExtensionExamples()
    ensures Extension(".prop") == ""
    ensures Extension("changelog") == ""
  {
    HiddenNameNoExtension(".prop");
    NoDotNoExtension("changelog");
  }
}
