/** The build-record assembler, `LOTABuilds.__parseGithubBuild`
    (update.py:83-128): the assets of one release are sorted, every archive
    overwrites the filename-derived fields, then every properties file, every
    checksum file and every changelog is merged in, and an identifier is
    computed. A missing key of the Python dict is a `None` field here, and every
    exception is an `Err`. */
module Assembler {

  import opened Wrappers
  import opened Text
  import opened Assets
  import opened Tokenizer
  import opened Channel
  import opened LineParsers

  /** One build as the dict of update.py holds it: a field is `None` until some
      step writes it. */
  datatype Build = Build(
    url: Option<string>,
    channel: Option<string>,
    filename: Option<string>,
    timestamp: Option<int>,
    model: Option<string>,
    version: Option<string>,
    size: Option<int>,
    incremental: Option<string>,
    apiLevel: Option<string>,
    md5: Option<string>,
    changelogUrl: Option<string>,
    uid: Option<string>)

  const EmptyBuild: Build := Build(None, None, None, None, None, None, None, None, None, None, None, None)

  /** The contents of the fetched text files, already decoded and split into
      lines, by download URL. A URL that is absent stands for a failed fetch. */
  type Files = map<string, seq<string>>

  /** The seconds since the epoch of an asset's upload time, read as local
      time (update.py:109): it depends on the time zone, so it is a parameter,
      and `None` stands for text the date format rejects. */
  type Clock = string -> Option<int>

  /** The hex SHA-256 digest of the identifier seed (update.py:127), a parameter. */
  type Digest = string -> string

  const KeyDateUtc: string := "ro.build.date.utc"
  const KeyIncremental: string := "ro.build.version.incremental"
  const KeySdk: string := "ro.build.version.sdk"
  const KeyLineageDevice: string := "ro.lineage.device"
  const KeyCmDevice: string := "ro.cm.device"

  function Fetch(files: Files, url: string): Result<seq<string>, Error> {
    if url in files then Ok(files[url]) else Err(FetchFailed(url))
  }

  // ----- archives (update.py:103-112) -----

  function ArchiveTokens(a: Asset): Tokens {
    ParseFilenameFull(a.name)
  }

  /** update.py:107: the channel of an archive, from its dash-free channel token. */
  function ArchiveChannel(a: Asset): (r: Result<string, Error>)
    ensures var t := ArchiveTokens(a); r == GetChannel(t.channel, t.kind, t.version)
  {
    var t := ArchiveTokens(a);
    ArchiveTokensFacts(a.name);
    GetChannel(RemoveSlashDigitSlash(t.channel), t.kind, t.version)
  }

  /** update.py:110 as written: it compares the VERSION group with `cm`, so a
      version group of digits and dots always selects the fifth group. */
  function ModelOf(t: Tokens): (r: string)
    ensures r == t.trailingA || r == t.trailingB
    ensures AllIn(t.version, VersionCh) ==> r == t.trailingA
  {
    CmNotVersion();
    if t.version == "cm" then t.trailingB else t.trailingA
  }

  /** The version group is digits and dots, so it never equals `cm` and the model
      is always the fifth group; and the substitution of line 107 never changes a
      channel group, which cannot hold a slash. */
  lemma ArchiveTokensFacts(name: string)
    ensures ModelOf(ParseFilenameFull(name)) == ParseFilenameFull(name).trailingA
    ensures RemoveSlashDigitSlash(ParseFilenameFull(name).channel) == ParseFilenameFull(name).channel
  {
    TokenClassFacts(ParseFilenameFull(name));
  }

  /** The same facts for any tokens whose version and channel groups are in
      their classes. */
  lemma TokenClassFacts(t: Tokens)
    requires AllIn(t.version, VersionCh) && AllIn(t.channel, WordPlus)
    ensures ModelOf(t) == t.trailingA
    ensures RemoveSlashDigitSlash(t.channel) == t.channel
  {
    NotInClass(t.channel, WordPlus, '/');
  }

  lemma CmNotVersion()
    ensures !AllIn("cm", VersionCh)
  {
    assert !InClass("cm"[0], VersionCh);
  }

  lemma NotInClass(s: string, cls: CharClass, c: char)
    requires AllIn(s, cls) && !InClass(c, cls)
    ensures c !in s
  {
  }

  predicate ArchiveOk(a: Asset, clock: Clock) {
    clock(a.updatedAt).Some? && ArchiveChannel(a).Ok?
  }

  function ApplyArchive(b: Build, a: Asset, clock: Clock): (r: Result<Build, Error>)
    ensures r.Ok? <==> ArchiveOk(a, clock)
    ensures r.Ok? ==> FromArchive(r.value, a, clock)
    ensures r.Ok? ==> r.value.(url := b.url, channel := b.channel, filename := b.filename,
                               timestamp := b.timestamp, model := b.model, version := b.version,
                               size := b.size) == b
  {
    ArchiveTokensFacts(a.name);
    var t := ArchiveTokens(a);
    var channel :- ArchiveChannel(a);
    var timestamp :- clock(a.updatedAt).ToResult(BadTimestamp(a.updatedAt));
    Ok(b.(url := Some(a.downloadUrl), channel := Some(channel), filename := Some(a.name),
          timestamp := Some(timestamp), model := Some(ModelOf(t)), version := Some(t.version),
          size := Some(a.size)))
  }

  /** The seven fields an archive writes, as `a` determines them. */
  predicate FromArchive(b: Build, a: Asset, clock: Clock) {
    && ArchiveOk(a, clock)
    && b.url == Some(a.downloadUrl)
    && b.channel == Some(ArchiveChannel(a).value)
    && b.filename == Some(a.name)
    && b.timestamp == clock(a.updatedAt)
    && b.model == Some(ArchiveTokens(a).trailingA)
    && b.version == Some(ArchiveTokens(a).version)
    && b.size == Some(a.size)
  }

  /** update.py:103-112: the archives in order, each overwriting the fields
      before it, so the last archive decides all seven; nothing else changes. */
  function ApplyArchives(b: Build, archives: seq<Asset>, clock: Clock): (r: Result<Build, Error>)
    ensures archives == [] ==> r == Ok(b)
    ensures r.Ok? <==> All(archives, a => ArchiveOk(a, clock))
    ensures r.Ok? && archives != [] ==> FromArchive(r.value, archives[|archives| - 1], clock)
    ensures r.Ok? ==> r.value.(url := b.url, channel := b.channel, filename := b.filename,
                               timestamp := b.timestamp, model := b.model, version := b.version,
                               size := b.size) == b
  {
    if archives == [] then Ok(b)
    else
      var init := archives[..|archives| - 1];
      var last := archives[|archives| - 1];
      assert forall i :: 0 <= i < |init| ==> init[i] == archives[i];
      var b' :- ApplyArchives(b, init, clock);
      ApplyArchive(b', last, clock)
  }

  // ----- properties files (update.py:113-118) -----

  /** The device a properties file names: `ro.lineage.device`, else `ro.cm.device`. */
  predicate NamesDeviceIn(p: map<string, string>) {
    KeyLineageDevice in p || KeyCmDevice in p
  }

  function DeviceIn(p: map<string, string>): string
    requires NamesDeviceIn(p)
  {
    if KeyLineageDevice in p then p[KeyLineageDevice] else p[KeyCmDevice]
  }

  /** update.py:115-118 for one parsed file. The fallbacks, the build's
      current timestamp and model, are looked up before the file's keys, so a
      build without them fails even when the file carries the keys. */
  function MergeProperties(b: Build, p: map<string, string>): (r: Result<Build, Error>)
    ensures r.Ok? <==> b.timestamp.Some? && b.model.Some? && (KeyDateUtc in p ==> ParseInt(p[KeyDateUtc]).Some?)
    ensures b.timestamp.None? ==> r == Err(MissingField("timestamp"))
    ensures b.timestamp.Some? && KeyDateUtc in p && ParseInt(p[KeyDateUtc]).None? ==> r == Err(InvalidInt(p[KeyDateUtc]))
    ensures r.Err? && b.timestamp.Some? && (KeyDateUtc in p ==> ParseInt(p[KeyDateUtc]).Some?) ==>
              r == Err(MissingField("model"))
    ensures r.Ok? ==> r.value.(timestamp := b.timestamp, incremental := b.incremental,
                               apiLevel := b.apiLevel, model := b.model) == b
    ensures r.Ok? && KeyDateUtc in p ==> r.value.timestamp == ParseInt(p[KeyDateUtc])
    ensures r.Ok? && KeyDateUtc !in p ==> r.value.timestamp == b.timestamp
    ensures r.Ok? && KeyIncremental in p ==> r.value.incremental == Some(p[KeyIncremental])
    ensures r.Ok? && KeyIncremental !in p ==> r.value.incremental == Some("")
    ensures r.Ok? && KeySdk in p ==> r.value.apiLevel == Some(p[KeySdk])
    ensures r.Ok? && KeySdk !in p ==> r.value.apiLevel == Some("")
    ensures r.Ok? && KeyLineageDevice in p ==> r.value.model == Some(p[KeyLineageDevice])
    ensures r.Ok? && KeyLineageDevice !in p && KeyCmDevice in p ==> r.value.model == Some(p[KeyCmDevice])
    ensures r.Ok? && !NamesDeviceIn(p) ==> r.value.model == b.model
  {
    if b.timestamp.None? then Err(MissingField("timestamp"))
    else if KeyDateUtc in p && ParseInt(p[KeyDateUtc]).None? then Err(InvalidInt(p[KeyDateUtc]))
    else if b.model.None? then Err(MissingField("model"))
    else
      var timestamp := if KeyDateUtc in p then ParseInt(p[KeyDateUtc]) else b.timestamp;
      Ok(b.(timestamp := timestamp,
            incremental := Some(Get(p, KeyIncremental, "")),
            apiLevel := Some(Get(p, KeySdk, "")),
            model := Some(Get(p, KeyLineageDevice, Get(p, KeyCmDevice, b.model.value)))))
  }

  /** Fetching and parsing the text file at a URL: `__loadProperties` or
      `__loadMd5sums`. The folds below take it as a parameter; `Assemble`
      passes the real one. */
  type Loader = string -> Result<map<string, string>, Error>

  /** The file at `a` loads, and its `ro.build.date.utc`, if any, is an integer:
      what one turn of the properties loop needs of the file. */
  function CheckProperties(load: Loader, a: Asset): Result<map<string, string>, Error> {
    var p :- load(a.downloadUrl);
    if KeyDateUtc in p && ParseInt(p[KeyDateUtc]).None? then Err(InvalidInt(p[KeyDateUtc])) else Ok(p)
  }

  /** The file at `a` was fetched and parsed and binds `key`. */
  predicate Binds(load: Loader, a: Asset, key: string) {
    load(a.downloadUrl).Ok? && key in load(a.downloadUrl).value
  }

  predicate NamesDevice(load: Loader, a: Asset) {
    load(a.downloadUrl).Ok? && NamesDeviceIn(load(a.downloadUrl).value)
  }

  /** No file after `props[i]` binds `key`. */
  predicate LastToBind(load: Loader, props: seq<Asset>, i: int, key: string)
    requires 0 <= i < |props|
  {
    forall j :: i < j < |props| ==> !Binds(load, props[j], key)
  }

  /** No file after `props[i]` names a device. */
  predicate LastToNameDevice(load: Loader, props: seq<Asset>, i: int)
    requires 0 <= i < |props|
  {
    forall j :: i < j < |props| ==> !NamesDevice(load, props[j])
  }

  /** The timestamp after the properties files: the date of the last file that
      binds one, or the timestamp before them when none does. */
  predicate TimestampDecided(props: seq<Asset>, load: Loader, before: Option<int>, after: Option<int>) {
    && (forall i :: 0 <= i < |props| && Binds(load, props[i], KeyDateUtc) && LastToBind(load, props, i, KeyDateUtc) ==>
          after == ParseInt(load(props[i].downloadUrl).value[KeyDateUtc]))
    && (All(props, (a: Asset) => !Binds(load, a, KeyDateUtc)) ==> after == before)
  }

  /** The model after the properties files: the device of the last file that
      names one, or the model before them when none does. */
  predicate ModelDecided(props: seq<Asset>, load: Loader, before: Option<string>, after: Option<string>) {
    && (forall i :: 0 <= i < |props| && NamesDevice(load, props[i]) && LastToNameDevice(load, props, i) ==>
          after == Some(DeviceIn(load(props[i].downloadUrl).value)))
    && (All(props, (a: Asset) => !NamesDevice(load, a)) ==> after == before)
  }

  /** What the properties loop needs to get through: nothing when there are no
      files; otherwise a timestamp and a model already in the build, and every
      file loading with an integer date if it has one. */
  predicate PropertiesAccepted(b: Build, props: seq<Asset>, load: Loader) {
    props == [] || (b.timestamp.Some? && b.model.Some? && AllCheck(props, load))
  }

  /** Every properties file in `props` passes `CheckProperties`. */
  predicate AllCheck(props: seq<Asset>, load: Loader) {
    All(props, (a: Asset) => CheckProperties(load, a).Ok?)
  }

  /** update.py:113-118: the properties files in order. Every file must load,
      with an integer date if it has one, and a build no archive wrote cannot
      take a properties file at all. The last file decides incremental and
      apiLevel; the timestamp and the model come from the last file that binds
      them and are otherwise kept. */
  function ApplyProperties(b: Build, props: seq<Asset>, load: Loader): (r: Result<Build, Error>)
    ensures props == [] ==> r == Ok(b)
    ensures r.Ok? <==> PropertiesAccepted(b, props, load)
    ensures r.Err? && b.timestamp.Some? && b.model.Some? ==>
              exists i :: 0 <= i < |props| && CheckProperties(load, props[i]) == Err(r.error)
    ensures props != [] && b.timestamp.None? && load(props[0].downloadUrl).Ok? ==>
              r == Err(MissingField("timestamp"))
    ensures r.Ok? ==> r.value.(timestamp := b.timestamp, incremental := b.incremental,
                               apiLevel := b.apiLevel, model := b.model) == b
    ensures r.Ok? && props != [] ==>
              var p := load(props[|props| - 1].downloadUrl).value;
              && r.value.incremental == Some(Get(p, KeyIncremental, ""))
              && r.value.apiLevel == Some(Get(p, KeySdk, ""))
    ensures r.Ok? ==> TimestampDecided(props, load, b.timestamp, r.value.timestamp)
    ensures r.Ok? ==> ModelDecided(props, load, b.model, r.value.model)
  {
    if props == [] then Ok(b)
    else
      var init := props[..|props| - 1];
      var last := props[|props| - 1];
      assert forall j :: 0 <= j < |init| ==> init[j] == props[j];
      assert All(props, (a: Asset) => CheckProperties(load, a).Ok?) <==>
             All(init, (a: Asset) => CheckProperties(load, a).Ok?) && CheckProperties(load, last).Ok?;
      var b' :- ApplyProperties(b, init, load);
      var p :- load(last.downloadUrl);
      var r := MergeProperties(b', p);
      if r.Err? then r
      else
        TimestampAfterMerge(props, load, b.timestamp, b', r.value);
        ModelAfterMerge(props, load, b.model, b', r.value);
        r
  }

  /** One more properties file: the file decides the timestamp when it binds a
      date, and the files before it decide otherwise. */
  lemma TimestampAfterMerge(props: seq<Asset>, load: Loader, before: Option<int>, mid: Build, after: Build)
    requires props != [] && load(props[|props| - 1].downloadUrl).Ok?
    requires MergeProperties(mid, load(props[|props| - 1].downloadUrl).value) == Ok(after)
    requires TimestampDecided(props[..|props| - 1], load, before, mid.timestamp)
    ensures TimestampDecided(props, load, before, after.timestamp)
  {
    var init := props[..|props| - 1];
    var last := props[|props| - 1];
    assert forall j :: 0 <= j < |init| ==> init[j] == props[j];
    forall i | 0 <= i < |props| && Binds(load, props[i], KeyDateUtc) && LastToBind(load, props, i, KeyDateUtc)
      ensures after.timestamp == ParseInt(load(props[i].downloadUrl).value[KeyDateUtc])
    {
      if i < |init| {
        assert !Binds(load, last, KeyDateUtc);
        assert LastToBind(load, init, i, KeyDateUtc);
      }
    }
  }

  /** One more properties file: the file decides the model when it names a
      device, and the files before it decide otherwise. */
  lemma ModelAfterMerge(props: seq<Asset>, load: Loader, before: Option<string>, mid: Build, after: Build)
    requires props != [] && load(props[|props| - 1].downloadUrl).Ok?
    requires MergeProperties(mid, load(props[|props| - 1].downloadUrl).value) == Ok(after)
    requires ModelDecided(props[..|props| - 1], load, before, mid.model)
    ensures ModelDecided(props, load, before, after.model)
  {
    var init := props[..|props| - 1];
    var last := props[|props| - 1];
    assert forall j :: 0 <= j < |init| ==> init[j] == props[j];
    forall i | 0 <= i < |props| && NamesDevice(load, props[i]) && LastToNameDevice(load, props, i)
      ensures after.model == Some(DeviceIn(load(props[i].downloadUrl).value))
    {
      if i < |init| {
        assert !NamesDevice(load, last);
        assert LastToNameDevice(load, init, i);
      }
    }
  }

  /** update.py:177-180: fetch a properties file, then parse it. A missing
      file is a fetch failure; a fetched file fails only on a malformed
      property line of its own, and every key comes from one of its lines. */
  function LoadProperties(files: Files, url: string): (r: Result<map<string, string>, Error>)
    ensures url !in files ==> r == Err(FetchFailed(url))
    ensures r.Ok? <==> url in files && forall l :: l in files[url] && IsPropertyLine(l) ==> SplitPair(l, "=").Some?
    ensures r.Ok? ==> forall k :: k in r.value ==>
              exists l :: l in files[url] && IsPropertyLine(l) && l == k + "=" + r.value[k]
    ensures url in files && r.Err? ==>
              exists l :: l in files[url] && IsPropertyLine(l) && SplitPair(l, "=").None? && r.error == MalformedLine(l)
  {
    var lines :- Fetch(files, url);
    ParseProperties(lines)
  }

  // ----- checksum files (update.py:119-121) -----

  /** update.py:182-184: fetch a checksum file, then parse it. A missing
      file is a fetch failure; a fetched file fails only on a line without a
      two-space separator, and every entry comes from one of its lines. */
  function LoadMd5sums(files: Files, url: string): (r: Result<map<string, string>, Error>)
    ensures url !in files ==> r == Err(FetchFailed(url))
    ensures r.Ok? <==> url in files && forall i :: 0 <= i < |files[url]| ==> SplitPair(files[url][i], "  ").Some?
    ensures r.Ok? ==> forall f :: f in r.value ==>
              exists i :: 0 <= i < |files[url]| && Halves(files[url][i], "  ") == (r.value[f], f)
    ensures url in files && r.Err? ==>
              exists i :: FirstBadLine(files[url], "  ", i) && r.error == MalformedLine(files[url][i])
  {
    var lines :- Fetch(files, url);
    ParseMd5sums(lines)
  }

  /** update.py:121 for one parsed file: the checksum listed for the build's
      file name, or empty; a build without a file name raises KeyError. */
  function MergeMd5sums(b: Build, sums: map<string, string>): (r: Result<Build, Error>)
    ensures r.Ok? <==> b.filename.Some?
    ensures r.Err? ==> r.error == MissingField("filename")
    ensures r.Ok? ==> r.value.(md5 := b.md5) == b
    ensures r.Ok? && b.filename.value in sums ==> r.value.md5 == Some(sums[b.filename.value])
    ensures r.Ok? && b.filename.value !in sums ==> r.value.md5 == Some("")
  {
    if b.filename.None? then Err(MissingField("filename"))
    else Ok(b.(md5 := Some(Get(sums, b.filename.value, ""))))
  }

  /** What the checksum loop needs to get through: nothing when there are no
      files; otherwise a file name in the build and every file loading. */
  predicate ChecksumsAccepted(b: Build, sums: seq<Asset>, load: Loader) {
    sums == [] || (b.filename.Some? && AllLoad(sums, load))
  }

  /** Every file in `assets` loads. */
  predicate AllLoad(assets: seq<Asset>, load: Loader) {
    All(assets, (a: Asset) => load(a.downloadUrl).Ok?)
  }

  /** update.py:119-121: every checksum file must load; only the last one
      decides md5 (its line for the build's file name, or empty); a build no
      archive wrote fails once a file has loaded. */
  function ApplyMd5sums(b: Build, sums: seq<Asset>, load: Loader): (r: Result<Build, Error>)
    ensures sums == [] ==> r == Ok(b)
    ensures r.Ok? <==> ChecksumsAccepted(b, sums, load)
    ensures r.Err? && b.filename.Some? ==> exists i :: 0 <= i < |sums| && load(sums[i].downloadUrl) == Err(r.error)
    ensures sums != [] && b.filename.None? && load(sums[0].downloadUrl).Ok? ==> r == Err(MissingField("filename"))
    ensures r.Ok? ==> r.value.(md5 := b.md5) == b
    ensures r.Ok? && sums != [] ==>
              r.value.md5 == Some(Get(load(sums[|sums| - 1].downloadUrl).value, b.filename.value, ""))
  {
    if sums == [] then Ok(b)
    else
      var init := sums[..|sums| - 1];
      assert forall j :: 0 <= j < |init| ==> init[j] == sums[j];
      assert All(sums, (a: Asset) => load(a.downloadUrl).Ok?) <==>
             All(init, (a: Asset) => load(a.downloadUrl).Ok?) && load(sums[|sums| - 1].downloadUrl).Ok?;
      var b' :- ApplyMd5sums(b, init, load);
      var m :- load(sums[|sums| - 1].downloadUrl);
      MergeMd5sums(b', m)
  }

  /** The two loaders a release needs, as parameters of the assembly. */
  datatype Loaders = Loaders(properties: Loader, md5sums: Loader)

  /** The loaders of update.py: fetch from `files`, then parse. A URL that is
      not among the files fails to fetch whichever kind of file is asked for;
      one that is gets its own lines parsed. */
  function FileLoaders(files: Files): (r: Loaders)
    ensures forall url :: url !in files ==>
              r.properties(url) == Err(FetchFailed(url)) && r.md5sums(url) == Err(FetchFailed(url))
    ensures forall url :: url in files ==>
              r.properties(url) == ParseProperties(files[url]) && r.md5sums(url) == ParseMd5sums(files[url])
  {
    Loaders((url: string) => LoadProperties(files, url), (url: string) => LoadMd5sums(files, url))
  }

  // ----- changelog and identifier (update.py:122-127) -----

  /** The URL of the last changelog asset, or the release page when there is none. */
  function ChangelogUrl(changelogs: seq<Asset>, htmlUrl: string): (r: string)
    ensures changelogs == [] ==> r == htmlUrl
    ensures changelogs != [] ==> exists i :: 0 <= i < |changelogs| && r == changelogs[i].downloadUrl
  {
    if changelogs == [] then htmlUrl else changelogs[|changelogs| - 1].downloadUrl
  }

  /** The changelog loop of update.py:122-123 as written, front to back: each
      asset overwrites the URL the earlier ones wrote. */
  function ChangelogLoop(written: Option<string>, changelogs: seq<Asset>): Option<string>
    decreases |changelogs|
  {
    if changelogs == [] then written
    else ChangelogLoop(Some(changelogs[0].downloadUrl), changelogs[1..])
  }

  /** The loop leaves the last changelog's URL, or what was there before. */
  lemma {:induction false} ChangelogLoopLast(written: Option<string>, changelogs: seq<Asset>)
    ensures ChangelogLoop(written, changelogs)
         == if changelogs == [] then written else Some(changelogs[|changelogs| - 1].downloadUrl)
    decreases |changelogs|
  {
    if changelogs != [] {
      ChangelogLoopLast(Some(changelogs[0].downloadUrl), changelogs[1..]);
    }
  }

  /** update.py:122-125: the loop followed by the fallback to the release page
      is `ChangelogUrl`. */
  lemma ChangelogUrlIsLoop(changelogs: seq<Asset>, htmlUrl: string)
    ensures ChangelogUrl(changelogs, htmlUrl) == ChangelogLoop(None, changelogs).GetOr(htmlUrl)
  {
    ChangelogLoopLast(None, changelogs);
  }

  /** The text the identifier is hashed from: the decimal timestamp (zero when
      absent), then the model, then the apiLevel (each empty when absent). The
      timestamp reads back from the front, the model follows it, and the
      apiLevel closes it. */
  function Seed(b: Build): (r: string)
    ensures var ts := ShowInt(b.timestamp.GetOr(0));
            |r| == |ts| + |b.model.GetOr("")| + |b.apiLevel.GetOr("")| && ParseInt(r[..|ts|]) == Some(b.timestamp.GetOr(0))
    ensures var ts := ShowInt(b.timestamp.GetOr(0));
            |ts| + |b.model.GetOr("")| <= |r| && r[|ts|..|ts| + |b.model.GetOr("")|] == b.model.GetOr("")
    ensures r[|r| - |b.apiLevel.GetOr("")|..] == b.apiLevel.GetOr("")
  {
    var ts := ShowInt(b.timestamp.GetOr(0));
    var r := ts + b.model.GetOr("") + b.apiLevel.GetOr("");
    assert r[..|ts|] == ts;
    ParseShowInt(b.timestamp.GetOr(0));
    r
  }

  /** update.py:83-128 for one release: the archives, then the remaining assets. */
  function Assemble(release: Release, load: Loaders, clock: Clock, digest: Digest): (r: Result<Build, Error>)
    ensures r.Ok? ==> r.value.changelogUrl == Some(ChangelogUrl(Select(release.assets, Changelog), release.htmlUrl))
    ensures r.Ok? ==> r.value.uid == Some(digest(Seed(r.value)))
    ensures r.Ok? ==> (r.value.md5.Some? <==> Select(release.assets, Checksum) != [])
    ensures r.Ok? ==> (r.value.incremental.Some? <==> Select(release.assets, Properties) != [])
  {
    var c := Classify(release.assets);
    var b := ApplyArchives(EmptyBuild, c.archives, clock);
    ArchivesLeave(c.archives, clock);
    if b.Err? then Err(b.error) else Complete(b.value, c, release.htmlUrl, load, digest)
  }

  /** A release assembles exactly when every archive resolves, a properties or
      checksum file comes with at least one archive, every properties file
      loads with an integer date if it has one, and every checksum file loads. */
  lemma AssembleSucceeds(release: Release, load: Loaders, clock: Clock, digest: Digest)
    ensures var archives := Select(release.assets, Archive);
            var props := Select(release.assets, Properties);
            var sums := Select(release.assets, Checksum);
            Assemble(release, load, clock, digest).Ok? <==>
              && All(archives, a => ArchiveOk(a, clock))
              && (archives == [] ==> props == [] && sums == [])
              && AllCheck(props, load.properties)
              && AllLoad(sums, load.md5sums)
  {
    var c := Classify(release.assets);
    ArchivesLeave(c.archives, clock);
  }

  /** The map the file at `a` loads to, or empty when it does not load. */
  function Loaded(load: Loader, a: Asset): map<string, string> {
    if load(a.downloadUrl).Ok? then load(a.downloadUrl).value else map[]
  }

  /** The last properties file decides incremental and apiLevel (by
      `AssembleSucceeds`, it loaded). */
  lemma AssembleProperties(release: Release, load: Loaders, clock: Clock, digest: Digest)
    requires Assemble(release, load, clock, digest).Ok?
    ensures var props := Select(release.assets, Properties);
            var b := Assemble(release, load, clock, digest).value;
            props != [] ==>
              && b.incremental == Some(Get(Loaded(load.properties, props[|props| - 1]), KeyIncremental, ""))
              && b.apiLevel == Some(Get(Loaded(load.properties, props[|props| - 1]), KeySdk, ""))
  {
    var c := Classify(release.assets);
    var ab := AssembleIsComplete(release, load, clock, digest);
    CompleteProperties(ab, c, release.htmlUrl, load, digest);
  }

  /** `Complete`'s properties clause, for a successful run. */
  lemma CompleteProperties(b: Build, c: Classified, htmlUrl: string, load: Loaders, digest: Digest)
    requires Complete(b, c, htmlUrl, load, digest).Ok?
    ensures var r := Complete(b, c, htmlUrl, load, digest).value;
            c.properties != [] ==>
              && r.incremental == Some(Get(Loaded(load.properties, c.properties[|c.properties| - 1]), KeyIncremental, ""))
              && r.apiLevel == Some(Get(Loaded(load.properties, c.properties[|c.properties| - 1]), KeySdk, ""))
  {
  }

  /** The timestamp and the model of an assembled release: the last properties
      file that binds a date or names a device decides, and otherwise the last
      archive's time and fifth group stay. */
  lemma AssembleTimestampModel(release: Release, load: Loaders, clock: Clock, digest: Digest)
    requires Assemble(release, load, clock, digest).Ok?
    ensures var archives := Select(release.assets, Archive);
            var props := Select(release.assets, Properties);
            var b := Assemble(release, load, clock, digest).value;
            archives != [] ==>
              var a := archives[|archives| - 1];
              && TimestampDecided(props, load.properties, clock(a.updatedAt), b.timestamp)
              && ModelDecided(props, load.properties, Some(ArchiveTokens(a).trailingA), b.model)
  {
    var c := Classify(release.assets);
    var ab := AssembleIsComplete(release, load, clock, digest);
    if c.archives != [] {
      assert FromArchive(ab, c.archives[|c.archives| - 1], clock);
    }
  }

  /** A release that assembles went through the archive loop, then `Complete`. */
  lemma AssembleIsComplete(release: Release, load: Loaders, clock: Clock, digest: Digest) returns (ab: Build)
    requires Assemble(release, load, clock, digest).Ok?
    ensures ApplyArchives(EmptyBuild, Select(release.assets, Archive), clock) == Ok(ab)
    ensures Assemble(release, load, clock, digest) == Complete(ab, Classify(release.assets), release.htmlUrl, load, digest)
    ensures var archives := Select(release.assets, Archive);
            archives != [] ==> ab.filename == Some(archives[|archives| - 1].name)
    ensures ab.filename.Some? ==> Select(release.assets, Archive) != []
  {
    var c := Classify(release.assets);
    ab := ApplyArchives(EmptyBuild, c.archives, clock).value;
    ArchivesLeave(c.archives, clock);
  }

  /** md5 is the last checksum file's entry for the last archive's name, or
      empty (by `AssembleSucceeds`, that file loaded). */
  lemma AssembleChecksum(release: Release, load: Loaders, clock: Clock, digest: Digest)
    requires Assemble(release, load, clock, digest).Ok?
    ensures var archives := Select(release.assets, Archive);
            var sums := Select(release.assets, Checksum);
            sums != [] ==> archives != []
    ensures var archives := Select(release.assets, Archive);
            var sums := Select(release.assets, Checksum);
            var b := Assemble(release, load, clock, digest).value;
            sums != [] && archives != [] ==>
              b.md5 == Some(Get(Loaded(load.md5sums, sums[|sums| - 1]), archives[|archives| - 1].name, ""))
  {
    var archives := Select(release.assets, Archive);
    var sums := Select(release.assets, Checksum);
    var c := Classify(release.assets);
    assert c.archives == archives && c.checksums == sums;
    var ab := AssembleIsComplete(release, load, clock, digest);
    var r := Complete(ab, c, release.htmlUrl, load, digest);
    assert Assemble(release, load, clock, digest) == r;
    if sums != [] {
      assert ChecksumsAccepted(ab, sums, load.md5sums);
      assert archives != [];
      assert ab.filename == Some(archives[|archives| - 1].name);
      assert r.value.md5 == Some(Get(Loaded(load.md5sums, sums[|sums| - 1]), ab.filename.value, ""));
    }
  }

  /** After the archive loop, a build has a timestamp, a model and a file
      name exactly when some archive was applied, and the file name is the
      last archive's. */
  lemma ArchivesLeave(archives: seq<Asset>, clock: Clock)
    ensures var r := ApplyArchives(EmptyBuild, archives, clock);
            r.Ok? ==> && (r.value.timestamp.Some? <==> archives != [])
                      && (r.value.model.Some? <==> archives != [])
                      && (r.value.filename.Some? <==> archives != [])
                      && (archives != [] ==> r.value.filename == Some(archives[|archives| - 1].name))
  {
    var r := ApplyArchives(EmptyBuild, archives, clock);
    if r.Ok? && archives != [] {
      var a := archives[|archives| - 1];
      assert FromArchive(r.value, a, clock);
      assert ArchiveOk(a, clock);
    }
  }

  /** A release without an archive: the eager defaults make any properties or
      checksum file fail, and a build that survives has no model, channel, url
      or file name. */
  lemma AssembleWithoutArchive(release: Release, load: Loaders, clock: Clock, digest: Digest)
    requires Select(release.assets, Archive) == []
    ensures Select(release.assets, Properties) != [] || Select(release.assets, Checksum) != [] ==>
              Assemble(release, load, clock, digest).Err?
    ensures Assemble(release, load, clock, digest).Ok? ==>
              var b := Assemble(release, load, clock, digest).value;
              b.model.None? && b.channel.None? && b.url.None? && b.filename.None?
  {
    var c := Classify(release.assets);
    assert ApplyArchives(EmptyBuild, c.archives, clock) == Ok(EmptyBuild);
  }

  /** With archives, the last one decides url, file name, version and size, and
      timestamp and model too when no properties file overrides them. */
  lemma AssembleWithArchive(release: Release, load: Loaders, clock: Clock, digest: Digest)
    requires Assemble(release, load, clock, digest).Ok?
    requires Select(release.assets, Archive) != []
    ensures var archives := Select(release.assets, Archive);
            var a := archives[|archives| - 1];
            var b := Assemble(release, load, clock, digest).value;
            && b.url == Some(a.downloadUrl)
            && b.filename == Some(a.name)
            && b.version == Some(ArchiveTokens(a).version)
            && b.size == Some(a.size)
            && (Select(release.assets, Properties) == [] ==> b.timestamp == clock(a.updatedAt))
            && (Select(release.assets, Properties) == [] ==> b.model == Some(ArchiveTokens(a).trailingA))
  {
    var c := Classify(release.assets);
    var b := ApplyArchives(EmptyBuild, c.archives, clock);
    assert b.Ok?;
    assert Assemble(release, load, clock, digest) == Complete(b.value, c, release.htmlUrl, load, digest);
  }

  /** update.py:113-127: the properties, checksum and changelog assets merged
      into the build the archives left, and the identifier computed. */
  function Complete(b: Build, c: Classified, htmlUrl: string, load: Loaders, digest: Digest): (r: Result<Build, Error>)
    ensures r.Ok? <==> PropertiesAccepted(b, c.properties, load.properties)
                       && ChecksumsAccepted(b, c.checksums, load.md5sums)
    ensures r.Ok? ==> r.value.(timestamp := b.timestamp, model := b.model, incremental := b.incremental,
                               apiLevel := b.apiLevel, md5 := b.md5, changelogUrl := b.changelogUrl,
                               uid := b.uid) == b
    ensures r.Ok? && c.properties == [] ==>
              r.value.timestamp == b.timestamp && r.value.model == b.model
              && r.value.incremental == b.incremental && r.value.apiLevel == b.apiLevel
    ensures r.Ok? && c.properties != [] ==>
              var p := Loaded(load.properties, c.properties[|c.properties| - 1]);
              && r.value.incremental == Some(Get(p, KeyIncremental, ""))
              && r.value.apiLevel == Some(Get(p, KeySdk, ""))
    ensures r.Ok? ==> TimestampDecided(c.properties, load.properties, b.timestamp, r.value.timestamp)
    ensures r.Ok? ==> ModelDecided(c.properties, load.properties, b.model, r.value.model)
    ensures r.Ok? && c.checksums == [] ==> r.value.md5 == b.md5
    ensures r.Ok? && c.checksums != [] ==>
              && b.filename.Some?
              && r.value.md5 == Some(Get(Loaded(load.md5sums, c.checksums[|c.checksums| - 1]), b.filename.value, ""))
    ensures r.Ok? ==> r.value.changelogUrl == Some(ChangelogUrl(c.changelogs, htmlUrl))
    ensures r.Ok? ==> r.value.uid == Some(digest(Seed(r.value)))
  {
    var b2 :- ApplyProperties(b, c.properties, load.properties);
    var b3 :- ApplyMd5sums(b2, c.checksums, load.md5sums);
    var b4 := b3.(changelogUrl := Some(ChangelogUrl(c.changelogs, htmlUrl)));
    Ok(b4.(uid := Some(digest(Seed(b4)))))
  }

  /** With an archive, the build's channel is the one resolved from the last
      archive's name, and resolving it and reading its time succeeded. */
  lemma AssembleChannel(release: Release, load: Loaders, clock: Clock, digest: Digest)
    requires Assemble(release, load, clock, digest).Ok?
    requires Select(release.assets, Archive) != []
    ensures var archives := Select(release.assets, Archive);
            var a := archives[|archives| - 1];
            ArchiveOk(a, clock) && Assemble(release, load, clock, digest).value.channel == Some(ArchiveChannel(a).value)
  {
    var c := Classify(release.assets);
    var b := ApplyArchives(EmptyBuild, c.archives, clock);
    assert b.Ok?;
    assert Assemble(release, load, clock, digest) == Complete(b.value, c, release.htmlUrl, load, digest);
  }

  /** The identifier depends on the timestamp, model and apiLevel only: two builds
      that agree on those three get the same uid, whatever their files and URLs. */
  lemma UidDependsOnSeedFields(r1: Release, r2: Release, load: Loaders, clock: Clock, digest: Digest)
    requires Assemble(r1, load, clock, digest).Ok? && Assemble(r2, load, clock, digest).Ok?
    requires var b1 := Assemble(r1, load, clock, digest).value;
             var b2 := Assemble(r2, load, clock, digest).value;
             b1.timestamp.GetOr(0) == b2.timestamp.GetOr(0) && b1.model.GetOr("") == b2.model.GetOr("")
             && b1.apiLevel.GetOr("") == b2.apiLevel.GetOr("")
    ensures Assemble(r1, load, clock, digest).value.uid == Assemble(r2, load, clock, digest).value.uid
  {
  }

  /** The seed is a plain concatenation, so different builds can share it:
      timestamp 1 with model "2a" and timestamp 12 with model "a". */
  lemma SeedCollision()
    ensures Seed(EmptyBuild.(timestamp := Some(1), model := Some("2a")))
         == Seed(EmptyBuild.(timestamp := Some(12), model := Some("a")))
  {
    assert ShowNat(1) == "1";
    assert ShowNat(12) == "12";
  }

  /** update.py:40-41 over all releases: the first failing release aborts the run
      (nothing in update.py catches the exception); otherwise one build per
      release, in order, including releases without an archive. */
  function AssembleAll(releases: seq<Release>, load: Loaders, clock: Clock, digest: Digest): (r: Result<seq<Build>, Error>)
    ensures r.Ok? <==> forall i :: 0 <= i < |releases| ==> Assemble(releases[i], load, clock, digest).Ok?
    ensures r.Ok? ==> |r.value| == |releases|
    ensures r.Ok? ==> forall i :: 0 <= i < |releases| ==> Assemble(releases[i], load, clock, digest) == Ok(r.value[i])
    ensures r.Err? ==> exists i :: 0 <= i < |releases| && Assemble(releases[i], load, clock, digest) == Err(r.error)
  {
    Traverse(releases, (release: Release) => Assemble(release, load, clock, digest))
  }
}
