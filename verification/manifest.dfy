/** The manifests of `LOTABuilds.writeApiFiles` (update.py:200-228): the builds
    are grouped by (model, channel), and each group becomes the list of update
    entries of one `api/v1/<model>_<channel>` file. The files themselves are not
    written here; the result is a map from the (model, channel) pair to the
    entries of its file. */
module Manifest {

  import opened Wrappers
  import opened Assets
  import opened Assembler

  /** One element of a manifest's `response` list, in the legacy CyanogenMod
      keys followed by the LineageOS keys. */
  datatype Entry = Entry(
    incremental: string,
    apiLevel: string,
    url: string,
    timestamp: int,
    md5sum: string,
    changes: string,
    channel: string,
    filename: string,
    romtype: string,
    datetime: int,
    version: string,
    id: string,
    size: int)

  /** A manifest is named by a model and a channel. */
  type Key = (string, string)

  /** update.py:209-226: the entry of build `b` in the manifest of `channel`;
      a field the build lacks is `''` or `0`. */
  function ToEntry(b: Build, channel: string): (e: Entry)
    ensures e.channel == channel && e.romtype == channel
    ensures e.datetime == e.timestamp
    ensures b.timestamp.Some? ==> e.timestamp == b.timestamp.value
    ensures b.uid.Some? ==> e.id == b.uid.value
    ensures b.filename.Some? ==> e.filename == b.filename.value
    ensures e.incremental == b.incremental.GetOr("") && e.apiLevel == b.apiLevel.GetOr("")
    ensures e.url == b.url.GetOr("") && e.md5sum == b.md5.GetOr("") && e.changes == b.changelogUrl.GetOr("")
    ensures e.filename == b.filename.GetOr("") && e.version == b.version.GetOr("") && e.id == b.uid.GetOr("")
    ensures e.timestamp == b.timestamp.GetOr(0) && e.size == b.size.GetOr(0)
  {
    Entry(
      incremental := b.incremental.GetOr(""),
      apiLevel := b.apiLevel.GetOr(""),
      url := b.url.GetOr(""),
      timestamp := b.timestamp.GetOr(0),
      md5sum := b.md5.GetOr(""),
      changes := b.changelogUrl.GetOr(""),
      channel := channel,
      filename := b.filename.GetOr(""),
      romtype := channel,
      datetime := b.timestamp.GetOr(0),
      version := b.version.GetOr(""),
      id := b.uid.GetOr(""),
      size := b.size.GetOr(0))
  }

  /** Both fields that name a manifest are present. */
  predicate Keyed(b: Build) {
    b.model.Some? && b.channel.Some?
  }

  function KeyOf(b: Build): Key
    requires Keyed(b)
  {
    (b.model.value, b.channel.value)
  }

  /** update.py:208-209: the build belongs to the manifest of `k`. */
  predicate HasKey(b: Build, k: Key) {
    b.model == Some(k.0) && b.channel == Some(k.1)
  }

  /** The builds of manifest `k`, in list order. */
  function Matching(bs: seq<Build>, k: Key): seq<Build> {
    if bs == [] then []
    else Matching(bs[..|bs| - 1], k) + (if HasKey(bs[|bs| - 1], k) then [bs[|bs| - 1]] else [])
  }

  /** The entries of a list of builds, all in the manifest of `channel`. */
  function Project(bs: seq<Build>, channel: string): (es: seq<Entry>)
    ensures |es| == |bs|
    ensures forall i :: 0 <= i < |bs| ==> es[i] == ToEntry(bs[i], channel)
  {
    if bs == [] then [] else Project(bs[..|bs| - 1], channel) + [ToEntry(bs[|bs| - 1], channel)]
  }

  /** Every (model, channel) combination of two sets: the double loop at update.py:204-205. */
  function Pairs(models: set<string>, channels: set<string>): set<Key> {
    set m, c | m in models && c in channels :: (m, c)
  }

  /** update.py:202: the set of the builds' models. */
  function Models(bs: seq<Build>): set<string>
    requires forall i :: 0 <= i < |bs| ==> Keyed(bs[i])
  {
    set i | 0 <= i < |bs| && Keyed(bs[i]) :: bs[i].model.value
  }

  /** update.py:203, the same for the channels. */
  function Channels(bs: seq<Build>): set<string>
    requires forall i :: 0 <= i < |bs| ==> Keyed(bs[i])
  {
    set i | 0 <= i < |bs| && Keyed(bs[i]) :: bs[i].channel.value
  }

  /** update.py:202-228 once every build has a model and a channel: every
      combination of a model and a channel that some build carries, and for
      those with at least one build the entries of its builds. */
  function Manifests(bs: seq<Build>): (r: map<Key, seq<Entry>>)
    requires forall i :: 0 <= i < |bs| ==> Keyed(bs[i])
    ensures forall k :: k in r ==> r[k] != [] && exists i :: 0 <= i < |bs| && HasKey(bs[i], k)
  {
    var models := Models(bs);
    var channels := Channels(bs);
    var r := map k | k in Pairs(models, channels) && Matching(bs, k) != [] :: Project(Matching(bs, k), k.1);
    forall k | k in r
      ensures exists i :: 0 <= i < |bs| && HasKey(bs[i], k)
    {
      MatchingNonEmpty(bs, k);
    }
    r
  }

  /** update.py:200-228. The models are collected before the channels, both
      with lookups that raise, so a build without either fails the whole call
      before any manifest is produced. */
  function WriteApiFiles(bs: seq<Build>): (r: Result<map<Key, seq<Entry>>, Error>)
    ensures r.Ok? <==> forall i :: 0 <= i < |bs| ==> Keyed(bs[i])
    ensures r == Err(MissingField("model")) <==> exists i :: 0 <= i < |bs| && bs[i].model.None?
    ensures r == Err(MissingField("channel")) <==>
              (forall i :: 0 <= i < |bs| ==> bs[i].model.Some?) && exists i :: 0 <= i < |bs| && bs[i].channel.None?
  {
    if exists i :: 0 <= i < |bs| && bs[i].model.None? then Err(MissingField("model"))
    else if exists i :: 0 <= i < |bs| && bs[i].channel.None? then Err(MissingField("channel"))
    else Ok(Manifests(bs))
  }

  // ----- an independent reading: one pass that appends each build to its file -----

  /** The builds in order, each appended to the manifest of its own key. */
  function Group(bs: seq<Build>): (r: map<Key, seq<Entry>>)
    requires forall i :: 0 <= i < |bs| ==> Keyed(bs[i])
    ensures forall i :: 0 <= i < |bs| ==> KeyOf(bs[i]) in r
    ensures forall k :: k in r ==> r[k] != []
  {
    if bs == [] then map[]
    else
      var init := bs[..|bs| - 1];
      var g := Group(init);
      var k := KeyOf(bs[|bs| - 1]);
      assert forall i :: 0 <= i < |init| ==> init[i] == bs[i];
      g[k := Get(g, k, []) + [ToEntry(bs[|bs| - 1], k.1)]]
  }

  lemma {:induction false} MatchingSpec(bs: seq<Build>, k: Key)
    ensures IsSubsequence(Matching(bs, k), bs)
    ensures forall b :: b in Matching(bs, k) <==> b in bs && HasKey(b, k)
  {
    if bs != [] {
      var init := bs[..|bs| - 1];
      var last := bs[|bs| - 1];
      MatchingSpec(init, k);
      var m := Matching(init, k);
      if HasKey(last, k) {
        assert Matching(bs, k) == m + [last];
        assert (m + [last])[..|m|] == m;
      } else {
        assert Matching(bs, k) == m;
      }
      assert bs == init + [last];
    }
  }

  /** A manifest exists exactly when some build carries its key. */
  lemma {:induction false} MatchingNonEmpty(bs: seq<Build>, k: Key)
    ensures Matching(bs, k) != [] <==> exists i :: 0 <= i < |bs| && HasKey(bs[i], k)
  {
    if bs != [] {
      var init := bs[..|bs| - 1];
      MatchingNonEmpty(init, k);
      if exists i :: 0 <= i < |init| && HasKey(init[i], k) {
        var i :| 0 <= i < |init| && HasKey(init[i], k);
        assert bs[i] == init[i];
      }
    }
  }

  lemma {:induction false} GroupSpec(bs: seq<Build>, k: Key)
    requires forall i :: 0 <= i < |bs| ==> Keyed(bs[i])
    ensures k in Group(bs) <==> Matching(bs, k) != []
    ensures k in Group(bs) ==> Group(bs)[k] == Project(Matching(bs, k), k.1)
  {
    if bs != [] {
      var init := bs[..|bs| - 1];
      var last := bs[|bs| - 1];
      GroupSpec(init, k);
      if HasKey(last, k) {
        assert KeyOf(last) == k;
        var m := Matching(init, k);
        assert Project(m + [last], k.1) == Project(m, k.1) + [ToEntry(last, k.1)] by {
          assert (m + [last])[..|m + [last]| - 1] == m;
        }
      } else {
        assert KeyOf(last) != k;
      }
    }
  }

  /** The double loop keeps exactly the pairs some build carries. */
  lemma ManifestsSpec(bs: seq<Build>, k: Key)
    requires forall i :: 0 <= i < |bs| ==> Keyed(bs[i])
    ensures k in Manifests(bs) <==> Matching(bs, k) != []
    ensures k in Manifests(bs) ==> Manifests(bs)[k] == Project(Matching(bs, k), k.1)
  {
    MatchingNonEmpty(bs, k);
    if Matching(bs, k) != [] {
      var i :| 0 <= i < |bs| && HasKey(bs[i], k);
      assert k.0 in Models(bs) && k.1 in Channels(bs);
      assert k in Pairs(Models(bs), Channels(bs));
    }
  }

  /** The one-pass grouping and the double loop over models and channels produce
      the same manifests. */
  lemma ManifestsAreGroups(bs: seq<Build>)
    requires forall i :: 0 <= i < |bs| ==> Keyed(bs[i])
    ensures Manifests(bs) == Group(bs)
  {
    var m := Manifests(bs);
    var g := Group(bs);
    forall k
      ensures (k in m <==> k in g) && (k in m ==> m[k] == g[k])
    {
      GroupSpec(bs, k);
      ManifestsSpec(bs, k);
    }
    SameMaps(m, g);
  }

  lemma SameMaps<K, V>(m: map<K, V>, g: map<K, V>)
    requires forall k :: (k in m <==> k in g) && (k in m ==> m[k] == g[k])
    ensures m == g
  {
  }

  /** update.py:202-228: there is one manifest per (model, channel) pair that
      some build carries and none for any other pair; its entries are exactly
      that pair's builds, in list order, each with the pair's channel. */
  lemma ManifestContents(bs: seq<Build>, k: Key)
    requires WriteApiFiles(bs).Ok?
    ensures k in WriteApiFiles(bs).value <==> exists i :: 0 <= i < |bs| && HasKey(bs[i], k)
    ensures k in WriteApiFiles(bs).value ==>
              var es := WriteApiFiles(bs).value[k];
              && |es| == |Matching(bs, k)|
              && (forall j :: 0 <= j < |es| ==> es[j] == ToEntry(Matching(bs, k)[j], k.1))
              && (forall j :: 0 <= j < |es| ==> es[j].channel == k.1 && es[j].romtype == k.1)
  {
    ManifestsAreGroups(bs);
    GroupSpec(bs, k);
    MatchingNonEmpty(bs, k);
  }

  /** Every build appears in the manifest of its own key. */
  lemma EveryBuildListed(bs: seq<Build>, i: nat)
    requires WriteApiFiles(bs).Ok? && i < |bs|
    ensures KeyOf(bs[i]) in WriteApiFiles(bs).value
    ensures ToEntry(bs[i], bs[i].channel.value) in WriteApiFiles(bs).value[KeyOf(bs[i])]
  {
    var k := KeyOf(bs[i]);
    ManifestContents(bs, k);
    MatchingSpec(bs, k);
    assert HasKey(bs[i], k);
    var ms := Matching(bs, k);
    assert bs[i] in ms;
    var j :| 0 <= j < |ms| && ms[j] == bs[i];
    assert WriteApiFiles(bs).value[k][j] == ToEntry(bs[i], k.1);
  }

  // ----- the whole run -----

  /** update.py:40-41 followed by writeApiFiles: every release assembled, then
      the manifests of all builds. */
  function Run(releases: seq<Release>, files: Files, clock: Clock, digest: Digest): (r: Result<map<Key, seq<Entry>>, Error>)
    ensures r.Ok? ==> forall i :: 0 <= i < |releases| ==> Assemble(releases[i], FileLoaders(files), clock, digest).Ok?
    ensures r.Ok? <==> forall i :: 0 <= i < |releases| ==>
              && Assemble(releases[i], FileLoaders(files), clock, digest).Ok?
              && Keyed(Assemble(releases[i], FileLoaders(files), clock, digest).value)
    ensures var all := AssembleAll(releases, FileLoaders(files), clock, digest);
            && (all.Ok? ==> r == WriteApiFiles(all.value))
            && (all.Err? ==> r == Err(all.error))
  {
    var bs :- AssembleAll(releases, FileLoaders(files), clock, digest);
    WriteApiFiles(bs)
  }

  /** After a successful run, every release's build is listed in the manifest
      of its (model, channel) pair. */
  lemma RunListsEveryRelease(releases: seq<Release>, files: Files, clock: Clock, digest: Digest, i: nat)
    requires Run(releases, files, clock, digest).Ok? && i < |releases|
    ensures var b := Assemble(releases[i], FileLoaders(files), clock, digest).value;
            && Keyed(b)
            && KeyOf(b) in Run(releases, files, clock, digest).value
            && ToEntry(b, b.channel.value) in Run(releases, files, clock, digest).value[KeyOf(b)]
  {
    var bs := AssembleAll(releases, FileLoaders(files), clock, digest).value;
    assert Assemble(releases[i], FileLoaders(files), clock, digest) == Ok(bs[i]);
    EveryBuildListed(bs, i);
  }

  /** A release without an archive produces a build with no model, so the run
      never reaches a manifest: the assembly fails if the release has a
      properties or checksum file, and writeApiFiles fails otherwise. */
  lemma {:induction false} ReleaseWithoutArchiveFails(releases: seq<Release>, files: Files, clock: Clock, digest: Digest, i: nat)
    requires i < |releases| && Select(releases[i].assets, Archive) == []
    ensures Run(releases, files, clock, digest).Err?
  {
    var all := AssembleAll(releases, FileLoaders(files), clock, digest);
    if all.Ok? {
      var bs := all.value;
      assert Assemble(releases[i], FileLoaders(files), clock, digest) == Ok(bs[i]);
      assert bs[i].model.None?;
      assert WriteApiFiles(bs).Err?;
    }
  }
}
