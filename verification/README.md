# LineageOTA static API builder, modelled in Dafny

`update.py` of LineageOTAstatic builds a static LineageOS OTA update API from
GitHub releases. Its class `LOTABuilds` does the following:

- It reads every release of the configured repositories.
- It sorts each release's assets into archives, changelogs, md5sum files and
  build.prop files.
- It tokenizes each archive's file name to get a build type, version, date,
  channel and device model.
- It resolves the update channel.
- It merges the properties and checksum files into one build record and
  gives the record an identifier.
- It writes one JSON manifest per (device model, channel) pair.

This project models that logic as pure functions and proves properties of
them.

| file | module | models |
|---|---|---|
| `wrappers.dfy` | `Wrappers` | `Option`, `Result`, the exceptions the script can raise, `dict.get`, and an all-or-nothing map over a list |
| `text.dfy` | `Text` | ASCII character classes; `str.lower`; `str.split`; `int()` and `str()` on integers |
| `assets.dfy` | `Assets` | release assets, `os.path.splitext`, the asset classifier (update.py:89-102) |
| `tokenizer.dfy` | `Tokenizer` | `__parseFilenameFull` and `__removeTrailingDashes` (update.py:130-156) |
| `channel.dfy` | `Channel` | the `re.sub` of update.py:107, PEP 440 release-segment ordering, and `__getChannel` (update.py:158-168) |
| `lineparsers.dfy` | `LineParsers` | the line parsing of `__loadProperties` and `__loadMd5sums` (update.py:177-184) |
| `assembler.dfy` | `Assembler` | `__parseGithubBuild` (update.py:83-128) and the loop over releases (update.py:40-41) |
| `manifest.dfy` | `Manifest` | the grouping and projection of `writeApiFiles` (update.py:200-228) |

## Modelling choices

- **Build records.** A Python build dict is a `Build` with one `Option` per key.
  A `KeyError` and every other exception become an `Err` of `Result`.
- **Fetching.** The network is not modelled. The fetched `.prop` and `.md5sum`
  files are passed in as a map from download URL to the file's lines. A URL
  that is absent from the map is a failed fetch. The assembly of one release
  takes its two loaders (`__loadProperties`, `__loadMd5sums`: fetch, then
  parse) as function parameters; `Assembler.FileLoaders` builds the real pair
  from the map, and `Manifest.Run` passes it.
- **Parameters.** Two computations become parameters:
  - `time.mktime(strptime(...))` becomes `clock`. It depends on the local
    time zone.
  - `hashlib.sha256` becomes `digest`.
- **Filename pattern.** It is read in a deterministic form. No group of the
  regular expression can contain `-`, so each of the first four groups is the
  whole run up to the next dash. Groups five and six are greedy runs. Two
  properties back this reading:
  - every match is well formed (`Tokenizer.MatchFilename`);
  - every name built from well-formed groups is matched and split back into
    those groups (`Tokenizer.MatchOfPrefix`, `Tokenizer.MatchFormat`).
- **Device model.** update.py:110 compares `tokens[1]` with `cm`. `tokens[1]`
  is the version group, and a version group is made of digits and dots, so it
  is never `cm`. The model therefore always comes from the fifth group, even
  for cm builds. The comment at update.py:137-142 says a cm build carries its
  device in the sixth group. The model follows the code, and
  `Assembler.ArchiveTokensFacts` proves that the test never holds.
- **Error policy.** update.py catches nothing, so one failing release ends the
  whole run before any manifest is written (`Assembler.AssembleAll`).
  Skipping bad releases would be gentler; the model follows the code.
- **Repositories.** update.py:32-41 loops over repositories and then over their
  releases. The model takes the releases of all repositories as one list, in
  that order.

## Model

| member | source | states |
|---|---|---|
| Wrappers.Traverse | update.py:40-41 | mapping a raising step over a list succeeds exactly when it succeeds on every element; the results line up with the inputs; a failure is the failure of some element |
| Text.Span | update.py:144 | a greedy character-class run: every character before the stop is in the class and the one at the stop is not |
| Text.Lower | update.py:160 | `str.lower` keeps the length and lower-cases each ASCII letter in place |
| Text.LowerIsLower | update.py:160 | the lower-cased channel contains no upper-case letter, and lower-casing twice changes nothing |
| Text.Split | update.py:180 | `str.split`: the parts joined with the separator give back the input, and no part contains the separator |
| Text.SplitPair | update.py:180 | a two-part split is `a + sep + b` with the separator in neither half |
| Text.SplitWithoutSep | update.py:184 | a line without the separator splits into one part, itself |
| Text.SplitAtFirst | update.py:180 | the split cuts at the first occurrence of the separator |
| Text.SplitPairOfJoin | update.py:180 | `a + sep + b` splits back into exactly `(a, b)` when `sep` occurs only at the join |
| Text.SplitPairSingleChar | update.py:180 | a line splits on `=` into two parts if and only if it contains exactly one `=` |
| Text.ParseInt | update.py:115 | `int()` accepts exactly an optional minus sign followed by one or more digits |
| Text.ParseShowNat | update.py:126 | reading back `str(n)` gives `n` |
| Text.ParseShowInt | update.py:115 | `int(str(i)) == i` for every integer, negative ones included |
| Text.ParseIntDigits | update.py:115 | the value of every accepted text, canonical or not: digits read as their decimal value, a leading zero changes nothing (`007` is 7) and a minus sign negates (`-0` is 0, `-012` is -12) |
| Text.ParseDecimalLeadingZero | update.py:115 | a leading zero leaves a digit string's value unchanged |
| Assets.LastIndexOf | update.py:94 | the index of the last occurrence of a character, or -1 when it does not occur |
| Assets.SplitExt | update.py:94 | `os.path.splitext`: root plus extension is the path; a non-empty extension is one dot and then no dot or slash, with a non-dot before it in the base name; an empty one means no such dot exists |
| Assets.RoleOf | update.py:91-102 | each role exactly: a zip upload is an archive whatever its name; otherwise `.txt` and `.html` are changelogs, `.md5sum` checksum files, `.prop` properties files, and any other extension is ignored |
| Assets.Place | update.py:91-102 | one asset goes to exactly the bucket of its role, appended at the end, and the other buckets do not change |
| Assets.Classify | update.py:90-102 | each of the four buckets is the ordered selection of the assets with that role |
| Assets.SelectIsSubsequence | update.py:90-102 | every bucket keeps the assets in release order |
| Assets.SelectMembers | update.py:90-102 | an asset is in a bucket if and only if it is in the release and has that role |
| Assets.ZipIsArchive | update.py:91-92 | an `application/zip` asset is an archive, whatever its name |
| Assets.ExtensionAfterLastDot | update.py:94 | a name whose last dot follows a non-dot character has the extension from that dot on |
| Assets.NoDotNoExtension | update.py:94 | a name without a dot has no extension |
| Assets.HiddenNameNoExtension | update.py:94 | a leading-dot name such as `.prop` with no other dot has no extension |
| Assets.ExtensionOfSuffix | update.py:94 | a stem without slashes or a leading dot, a dot and a dot-free suffix has that suffix as its extension, however many dots the stem holds |
| Assets.BuildPropExtension | update.py:94-102 | `build.prop` has the extension `.prop` |
| Assets.ChecksumFileExtension | update.py:94-102 | `a.zip.md5sum` has the extension `.md5sum`: only the last dot counts, as the general suffix lemma gives |
| Assets.NoExtensionExamples | update.py:94 | a leading-dot name `.prop` and a dotless name have no extension |
| Tokenizer.WellFormedHasNoDash | update.py:144 | a well-formed group contains no dash |
| Tokenizer.Field | update.py:144 | one `(class)-` step returns a group in the class and the text after its dash |
| Tokenizer.FieldOfJoin | update.py:144 | that step succeeds on every `group-rest` and returns exactly that group |
| Tokenizer.SpanStopsAt | update.py:144 | a greedy run stops at the first character outside the class |
| Tokenizer.MatchFilename | update.py:144-146 | every match yields six well-formed groups (version and channel non-empty, each group in its class), and the name is the first four groups, each followed by a dash, then a rest whose trailing groups are groups five and six |
| Tokenizer.TrailingGroups | update.py:144 | group five is the maximal word run at the start of the rest; group six is the maximal word-or-plus run after the one optional dash that follows it |
| Tokenizer.TrailingGroupsOfJoin | update.py:144 | `a-b` followed by a non-word character yields groups `a` and `b` |
| Tokenizer.SingleTrailingGroup | update.py:144 | a word run followed by a character that is neither a dash nor a word-or-plus character yields that run and an empty sixth group |
| Tokenizer.MatchOfPrefix | update.py:144 | a name starting with four well-formed groups, each followed by a dash, matches with those four groups |
| Tokenizer.MatchFormat | update.py:144 | a name written from six well-formed groups and a suffix such as `.zip` is tokenized back into those six groups |
| Tokenizer.SpanOfRun | update.py:144 | a greedy run over `run + after` ends exactly where `run` ends |
| Tokenizer.StripLeading | update.py:153 | `strip('-')` on the left removes exactly the leading dashes |
| Tokenizer.StripTrailing | update.py:153 | `strip('-')` on the right removes exactly the trailing dashes |
| Tokenizer.StripDashes | update.py:153 | `strip('-')` leaves the text between the leading and trailing dashes: the input is the result padded with dashes on both sides, and the result neither starts nor ends with a dash |
| Tokenizer.StripGroup | update.py:152-155 | a matched group is dash-stripped and a group that did not take part stays empty; both satisfy the same padding characterisation |
| Tokenizer.RemoveTrailingDashes | update.py:149-156 | each of the six groups is its input with leading and trailing dashes removed, in place |
| Tokenizer.StripWithoutDash | update.py:149-156 | stripping dashes from a dash-free group changes nothing |
| Tokenizer.ParseFilenameFull | update.py:144-156 | a non-matching name gives six empty strings; a matching name gives the matched groups, none with a dash, so the dash strip changes nothing |
| Tokenizer.LineageExample | update.py:144-147 | the name `lineage-17.1-20200101-NIGHTLY-i9300-signed.zip`, written from its six groups, is tokenized back into lineage, 17.1, 20200101, NIGHTLY, i9300, signed |
| Tokenizer.MatchWithoutSixthGroup | update.py:144-147 | four well-formed groups with their dashes, then a word group and a tail that cannot extend it, tokenize back into those groups with an empty sixth group |
| Tokenizer.CmExample | update.py:137-147 | the name `cm-11-20140130-NIGHTLY-i9300.zip` has i9300 in the fifth group and an empty sixth group |
| Tokenizer.StripIsIdentity | update.py:149-156 | the dash strip returns dash-free groups unchanged |
| Tokenizer.RejectedExample | update.py:144-146 | `lineage-17.1.zip` does not match and gives six empty strings |
| Tokenizer.NoVersionGroupName | update.py:144-146 | the pattern fails on `lineage-17.1.zip` because no dash follows the version group |
| Tokenizer.NoVersionGroup | update.py:144-146 | a name whose version step fails does not match |
| Channel.ParseVersion | update.py:163 | a parsed version has at least one component |
| Channel.ParseVersionAccepts | update.py:163 | the version parser accepts exactly the digit groups separated by single dots |
| Channel.SegmentCons | update.py:163 | a digit run and a dot extend a release segment, and only a release segment |
| Channel.DigitsAreSegment | update.py:163 | a digit run alone is a release segment |
| Channel.ParseShowVersion | update.py:163 | every list of numbers, written with dots, parses back to itself |
| Channel.ParseDigits | update.py:163 | a digit run alone parses to its value |
| Channel.ParseDigitsDot | update.py:163 | a digit run and a dot put the run's value in front of the components of the rest, and fail when the rest fails |
| Channel.SpanAll | update.py:163 | a digit run is consumed whole |
| Channel.SpanStopsAtDot | update.py:163 | the digit run ends at the first dot |
| Channel.VersionLess | update.py:163 | a version is never below itself, and a smaller version never has a larger first component |
| Channel.VersionLessIsPaddedOrder | update.py:163 | `version.parse(a) < version.parse(b)` holds if and only if the zero-padded segments agree up to a component where `a` is smaller |
| Channel.LessAtShift | update.py:163 | with equal first components, comparing the segments is comparing what follows them |
| Channel.LegacyThresholdParses | update.py:163 | the constant `14.1` parses to the threshold [14, 1] |
| Channel.RemoveSlashDigitSlash | update.py:107 | the substitution never lengthens the token, and leaves a token without `/` unchanged |
| Channel.Remap | update.py:164-167 | only `experimental` and `unofficial` change, to `snapshot` and `nightly`; a result of snapshot or nightly came from the old name or was already that name |
| Channel.GetChannel | update.py:158-168 | an empty token gives `stable`; the version is parsed, and can fail, only for a non-empty token of a non-cm build; otherwise the result is the lower-cased token, renamed by `Remap` for a cm build or a version below 14.1 and kept as it is from 14.1 on |
| Channel.EmptyTokenIsStable | update.py:159-161 | an empty channel token gives `stable` |
| Channel.CmExperimentalIsSnapshot | update.py:163-165 | a cm build's `EXPERIMENTAL` channel becomes `snapshot` whatever its version |
| Channel.ModernExperimentalStays | update.py:162-163 | a 18.0 lineage build keeps `experimental` |
| Channel.OldUnofficialIsNightly | update.py:163-167 | a 10.0 lineage build's `UNOFFICIAL` channel becomes `nightly` |
| Channel.ResolvedAtVersion | update.py:162-167 | for a non-cm build with a non-empty token and a parsable version, the channel is the renamed token below 14.1 and the lower-cased token otherwise |
| Channel.VersionParses | update.py:163 | a `major.minor` version parses to its two numbers |
| Channel.DoubleDotIsInvalid | update.py:163 | the version `17..1` is rejected |
| LineParsers.SplitLines | update.py:180 | every line splits into two parts, or the error names the first line that does not; the pairs rebuild the lines |
| LineParsers.ToMap | update.py:180 | `dict()` over pairs: its keys are exactly the pairs' keys, and each key is bound to the value of its last pair |
| LineParsers.ToMapValues | update.py:180 | every value of the dict comes from a pair with its key |
| LineParsers.PropertyLines | update.py:179 | the kept lines are exactly the non-empty lines that do not start with `#`, and never more than the input |
| LineParsers.PropertyLinesAppend | update.py:179 | the filter keeps order: filtering a concatenation is concatenating the filtered parts |
| LineParsers.ParseProperties | update.py:177-180 | parsing succeeds if and only if every kept line has exactly one `=`; every binding is a kept line `key=value`; every kept line's key is bound, to the value of the last kept line with that key; an error names a kept line without exactly one `=` |
| LineParsers.ParseMd5sums | update.py:182-184 | parsing succeeds if and only if every line splits on the two-space separator into two parts; every binding is some line's own split, its file name mapped to its checksum, so the keys are exactly the lines' file names; every line's file name is bound, to the checksum of the last line naming it; an error names the first line that does not split |
| LineParsers.Md5sumLine | update.py:184 | a text-mode md5sum line is read back as the file name mapped to its checksum |
| LineParsers.NoDoubleSpace | update.py:184 | a string with no two consecutive spaces does not contain the separator |
| LineParsers.Md5sumExample | update.py:184 | `abc123  foo.zip` maps foo.zip to abc123 |
| LineParsers.BinaryModeLineFails | update.py:184 | a binary-mode line `abc123 *foo.zip` makes parsing fail |
| LineParsers.PropertyLine | update.py:179-180 | a `key=value` line with a single `=` binds key to value |
| Assembler.LoadProperties | update.py:177-180 | a URL without a file fails to fetch; a fetched file loads if and only if each of its property lines has exactly one `=`; every key is bound as written on one of the file's property lines; a parse error names one of the file's property lines that lacks exactly one `=` |
| Assembler.LoadMd5sums | update.py:182-184 | a URL without a file fails to fetch; a fetched file loads if and only if every line splits on the two-space separator; every entry is one line's split, file name to checksum; a parse error names the file's first line that does not split |
| Assembler.FileLoaders | update.py:177-184 | both loaders fail with a fetch error on a URL that has no file, and parse that URL's own lines when it has one |
| Assembler.ArchiveTokensFacts | update.py:107-110 | the `cm` test on the version group never holds, so the model is the fifth group; the slash-digit-slash substitution never changes a channel group |
| Assembler.ArchiveChannel | update.py:107 | the channel of an archive is the one resolved from its raw channel group: the slash-digit-slash substitution drops out |
| Assembler.ModelOf | update.py:110 | the model is group five or group six, and always group five when the version group is digits and dots |
| Assembler.ApplyArchive | update.py:104-112 | one archive succeeds exactly when its channel resolves and its time parses; it writes url, channel, filename, timestamp, model, version and size from that archive, and nothing else |
| Assembler.ApplyArchives | update.py:103-112 | the loop succeeds exactly when every archive does; the last archive decides all seven fields; no other field changes |
| Assembler.MergeProperties | update.py:115-118 | it succeeds exactly when the build has a timestamp and a model and any `ro.build.date.utc` is an integer, failing on the missing timestamp first, then the bad date, then the missing model; the timestamp becomes the file's date or stays; incremental and apiLevel become the file's values or empty; the model becomes `ro.lineage.device`, else `ro.cm.device`, else stays; nothing else changes |
| Assembler.ApplyProperties | update.py:113-118 | it succeeds if and only if there is no file or the build has a timestamp and a model and every file loads with an integer date if it has one; a failure is some file's failure, or the missing timestamp; the last file decides incremental and apiLevel; the timestamp is the date of the last file that binds one and the model the device of the last file that names one, each otherwise kept; nothing else changes |
| Assembler.TimestampAfterMerge | update.py:113-116 | one more properties file sets the timestamp to its date when it binds one, and otherwise the files before it keep deciding |
| Assembler.ModelAfterMerge | update.py:113-118 | one more properties file sets the model to its device when it names one, and otherwise the files before it keep deciding |
| Assembler.MergeMd5sums | update.py:121 | with a file name, md5 becomes the file's checksum for that name, or empty when it lists none; without one the build fails; nothing else changes |
| Assembler.ApplyMd5sums | update.py:119-121 | it succeeds if and only if there is no file or the build has a file name and every file loads; a failure is some file's failure, or the missing file name; the last file decides md5, as its entry for the build's file name or empty; nothing else changes |
| Assembler.ChangelogUrl | update.py:122-125 | with no changelog the release page, otherwise the URL of one of the changelogs |
| Assembler.ChangelogUrlIsLoop | update.py:122-125 | the overwriting loop over the changelogs followed by the fallback to the release page gives the last changelog's URL, or the page |
| Assembler.Seed | update.py:126 | the seed is as long as its three parts; the timestamp reads back from its front, the model follows it, and the apiLevel is its end |
| Assembler.Assemble | update.py:83-128 | a successful build's changelogUrl is the last changelog's URL or else the release page; its uid is the digest of its seed; md5 is present exactly when the release has a checksum file, and incremental exactly when it has a properties file |
| Assembler.AssembleSucceeds | update.py:83-128 | a release assembles if and only if every archive resolves, properties or checksum files come only with an archive, every properties file loads with an integer date if it has one, and every checksum file loads |
| Assembler.AssembleProperties | update.py:113-118 | after assembly, incremental and apiLevel are the last properties file's values, or empty |
| Assembler.AssembleTimestampModel | update.py:103-118 | with an archive, the timestamp is the date of the last properties file that binds one, else the last archive's upload time, and the model is the device of the last properties file that names one, else the last archive's fifth group |
| Assembler.AssembleChecksum | update.py:119-121 | a checksum file implies an archive, and md5 is the last checksum file's entry for the last archive's name, or empty |
| Assembler.ArchivesLeave | update.py:103-112 | after the archive loop a build has a timestamp, a model and a file name exactly when there was an archive, and the file name is the last archive's |
| Assembler.AssembleIsComplete | update.py:83-128 | assembly is the archive loop from an empty build followed by the properties, checksum, changelog and uid steps on the build it leaves, whose file name is the last archive's exactly when there is an archive |
| Assembler.Complete | update.py:113-127 | after the archives: it succeeds exactly when both file loops can; the last properties file that binds a date decides the timestamp and the last that names a device decides the model, each otherwise kept; the last properties file decides incremental and apiLevel, and the last checksum file decides md5 as its entry for the build's file name; with no properties file timestamp, model, incremental and apiLevel stay, and with no checksum file md5 stays; only the fields of lines 113-127 change; changelogUrl and uid as in `Assemble` |
| Assembler.AssembleWithoutArchive | update.py:113-121 | a release without an archive fails if it has a properties or checksum file, and otherwise yields a build with no model, channel, url or filename |
| Assembler.AssembleWithArchive | update.py:103-112 | with archives, the last one decides url, filename, version and size, and also timestamp and model when there is no properties file |
| Assembler.AssembleChannel | update.py:107 | with archives, the build's channel is the one resolved from the last archive's name |
| Assembler.UidDependsOnSeedFields | update.py:126-127 | two builds that agree on timestamp, model and apiLevel get the same uid |
| Assembler.SeedCollision | update.py:126 | the seed is plain concatenation, so timestamp 1 with model `2a` and timestamp 12 with model `a` share it |
| Assembler.AssembleAll | update.py:40-41 | the run over releases succeeds exactly when every release assembles; then the builds are in release order, and otherwise the error is that of some release |
| Manifest.ToEntry | update.py:209-226 | an entry's channel and romtype are the manifest's channel and datetime equals timestamp; every other field is the build's value, or `''` (`0` for timestamp and size) when the build lacks it |
| Manifest.Project | update.py:207-227 | one entry per build, in order |
| Manifest.WriteApiFiles | update.py:200-203 | manifests are produced exactly when every build has a model and a channel; a missing model is reported before a missing channel |
| Manifest.Manifests | update.py:202-228 | every manifest is non-empty and named by a pair that some build carries |
| Manifest.Group | update.py:204-228 | a one-pass grouping that appends each build to its own pair: every build's pair has a group and no group is empty |
| Manifest.MatchingSpec | update.py:206-209 | the builds of a manifest keep list order and are exactly the builds carrying its pair |
| Manifest.MatchingNonEmpty | update.py:206-227 | a pair has builds exactly when some build carries it |
| Manifest.GroupSpec | update.py:204-228 | a one-pass grouping has a group exactly for the pairs with builds, holding their entries in order |
| Manifest.ManifestsSpec | update.py:202-228 | the double loop over models and channels keeps exactly the pairs with builds, with their entries in order |
| Manifest.ManifestsAreGroups | update.py:202-228 | the double loop and a one-pass grouping produce the same manifests |
| Manifest.ManifestContents | update.py:202-228 | a manifest exists for a pair if and only if some build carries it; it holds that pair's builds in list order, each with the pair's channel as channel and romtype |
| Manifest.EveryBuildListed | update.py:202-228 | every build appears in the manifest of its own pair |
| Manifest.Run | update.py:40-41 | a run succeeds exactly when every release assembles into a build with a model and a channel; a failing release's error ends the run; otherwise the result is the manifests of all the builds |
| Manifest.RunListsEveryRelease | update.py:200-226 | after a successful run, every release's build is an entry of the manifest of its (model, channel) pair |
| Manifest.ReleaseWithoutArchiveFails | update.py:115-121 | any release without an archive makes the whole run fail: assembly fails if it has a properties or checksum file, and `writeApiFiles` fails at update.py:202 otherwise |

## Left out

- Network access is not modelled: `__loadGithubReleases` and `__loadFile` (update.py:43-50, 170-175). Fetched files arrive as lines; text decoding and `splitlines` stay outside the model.
- Not modelled because it is file-system or console I/O: the release buffer, reading `github.json`, the refresh prompt, folder clearing and JSON writing (update.py:20-31, 52-81, 186-198, 229-231).
- `main`'s argument dispatch (update.py:234-245) is not modelled because it only selects the buffer flag.
- `time.mktime(strptime(...))` (update.py:109) is a parameter, because its value depends on the local time zone.
- `hashlib.sha256` (update.py:127) is a parameter.
- `\w` and `\d` are their ASCII subsets; Unicode letters and digits are not modelled.
- Text.ParseInt: accepts only an optional `-` and ASCII digits. Python's `int()` also allows surrounding whitespace, a `+` sign and digit-separating underscores.
- Channel.ParseVersion: models only the release segment of PEP 440 (digit groups and dots). Pre-, post- and dev-release suffixes, epochs and local versions are rejected instead of ordered. The version group can only hold digits and dots, and on such text the model agrees with `packaging` 22 and later, whose `version.parse` raises on a malformed version such as `17..1`. Older `packaging` releases return a `LegacyVersion` instead, which sorts below every release version, so there `17..1` would be treated as older than 14.1 and renamed rather than rejected.
- Manifests are keyed by the (model, channel) pair, not by the file name `model_channel`. Two pairs that map to the same name (a model containing `_`) would overwrite each other's file; that is not modelled, and neither is set iteration order.
- The `filePath` key (update.py:105) is never read, so it is not modelled.
- The JSON field `size` keeps the asset's integer size; JSON number formatting is not modelled.
