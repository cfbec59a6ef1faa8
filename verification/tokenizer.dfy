/** The archive-filename tokenizer (update.py:130-156). The name is matched,
    from its start only, against six groups: an optional alphanumeric build
    type, a required version of digits and dots, an optional date of digits and
    underscores, a required channel of word characters and plus signs (each of
    these four followed by a dash), an optional word-character device group, an
    optional dash, and an optional group of word characters and plus signs.
    Then every group is stripped of dashes. No group can contain a dash, so backtracking never changes a choice:
    each of the first four groups is the whole run of characters up to the next
    dash, and groups five and six are greedy runs. The matcher below is written
    in that deterministic form. */
module Tokenizer {

  import opened Wrappers
  import opened Text

  /** The six groups, in pattern order. What the last two mean depends on the
      build family: a cm name carries a snapshot code and then the device, a
      lineage name carries the device and then a signing marker. */
  datatype Tokens = Tokens(
    kind: string,
    version: string,
    date: string,
    channel: string,
    trailingA: string,
    trailingB: string)

  /** What the tokenizer answers for a name the pattern rejects. */
  const NoTokens: Tokens := Tokens("", "", "", "", "", "")

  /** The groups a successful match can produce. */
  predicate WellFormed(t: Tokens) {
    && AllIn(t.kind, Alnum)
    && AllIn(t.version, VersionCh) && t.version != []
    && AllIn(t.date, DateCh)
    && AllIn(t.channel, WordPlus) && t.channel != []
    && AllIn(t.trailingA, Word)
    && AllIn(t.trailingB, WordPlus)
  }

  predicate NoDash(t: Tokens) {
    && '-' !in t.kind && '-' !in t.version && '-' !in t.date
    && '-' !in t.channel && '-' !in t.trailingA && '-' !in t.trailingB
  }

  lemma NoDashInClass(s: string, cls: CharClass)
    requires AllIn(s, cls)
    ensures '-' !in s
  {
    DashInNoClass(cls);
  }

  lemma WellFormedHasNoDash(t: Tokens)
    requires WellFormed(t)
    ensures NoDash(t)
  {
    NoDashInClass(t.kind, Alnum);
    NoDashInClass(t.version, VersionCh);
    NoDashInClass(t.date, DateCh);
    NoDashInClass(t.channel, WordPlus);
    NoDashInClass(t.trailingA, Word);
    NoDashInClass(t.trailingB, WordPlus);
  }

  /** One group of class `cls` followed by a dash (a group that may be empty
      when `nonEmpty` is false): the group and the text after its dash. */
  function Field(s: string, cls: CharClass, nonEmpty: bool): (r: Option<(string, string)>)
    ensures r.Some? ==> s == r.value.0 + "-" + r.value.1
    ensures r.Some? ==> AllIn(r.value.0, cls) && (nonEmpty ==> r.value.0 != [])
  {
    var n := Span(s, cls);
    if n < |s| && s[n] == '-' && (n > 0 || !nonEmpty) then
      assert s == s[..n] + "-" + s[n + 1..];
      assert AllIn(s[..n], cls);
      Some((s[..n], s[n + 1..]))
    else None
  }

  /** The step succeeds on every `f + "-" + rest` with `f` in the class, and
      finds exactly `f`: there is no other way to split. */
  lemma FieldOfJoin(f: string, rest: string, cls: CharClass, nonEmpty: bool)
    requires AllIn(f, cls) && (nonEmpty ==> f != [])
    ensures Field(f + "-" + rest, cls, nonEmpty) == Some((f, rest))
  {
    var s := f + "-" + rest;
    assert s[..|f|] == f;
    assert forall i :: 0 <= i < |f| ==> s[i] == f[i];
    DashInNoClass(cls);
    SpanStopsAt(s, |f|, cls);
    assert s[|f| + 1..] == rest;
  }

  /** A greedy run that reaches a character outside the class (or the end) at
      `k` has length exactly `k`. */
  lemma {:induction false} SpanStopsAt(s: string, k: nat, cls: CharClass)
    requires k <= |s| && forall i :: 0 <= i < k ==> InClass(s[i], cls)
    requires k == |s| || !InClass(s[k], cls)
    ensures Span(s, cls) == k
  {
    if k > 0 {
      assert InClass(s[0], cls);
      SpanStopsAt(s[1..], k - 1, cls);
    }
  }

  /** The pattern applied with `re.match`: `None` when it does not match. */
  function MatchFilename(s: string): (r: Option<Tokens>)
    ensures r.Some? ==> WellFormed(r.value)
    ensures r.Some? ==> exists rest :: Prefixed(s, r.value, rest) && TrailingGroups(rest) == (r.value.trailingA, r.value.trailingB)
  {
    var p1 :- Field(s, Alnum, false);
    var p2 :- Field(p1.1, VersionCh, true);
    var p3 :- Field(p2.1, DateCh, false);
    var p4 :- Field(p3.1, WordPlus, true);
    var tail := TrailingGroups(p4.1);
    var t := Tokens(p1.0, p2.0, p3.0, p4.0, tail.0, tail.1);
    JoinFour(s, p1, p2, p3, p4);
    assert Prefixed(s, t, p4.1);
    Some(t)
  }

  /** `s` is the first four groups of `t`, each followed by a dash, then `rest`. */
  predicate Prefixed(s: string, t: Tokens, rest: string) {
    s == t.kind + "-" + t.version + "-" + t.date + "-" + t.channel + "-" + rest
  }

  lemma JoinFour(s: string, p1: (string, string), p2: (string, string), p3: (string, string), p4: (string, string))
    requires s == p1.0 + "-" + p1.1 && p1.1 == p2.0 + "-" + p2.1
    requires p2.1 == p3.0 + "-" + p3.1 && p3.1 == p4.0 + "-" + p4.1
    ensures s == p1.0 + "-" + p2.0 + "-" + p3.0 + "-" + p4.0 + "-" + p4.1
  {
  }

  /** `g` is the greedy run of `cls` that starts at `k` in `s`: it is the text
      there, and the next character (if any) is outside the class. */
  predicate MaximalRun(s: string, k: nat, g: string, cls: CharClass) {
    && k + |g| <= |s| && g == s[k..k + |g|]
    && AllIn(g, cls)
    && (k + |g| == |s| || !InClass(s[k + |g|], cls))
  }

  /** Where the sixth group starts: after the optional dash that follows the fifth. */
  function AfterDash(rest: string, n: nat): nat {
    if n < |rest| && rest[n] == '-' then n + 1 else n
  }

  /** Groups five and six at the start of `rest`: a greedy word run, one
      optional dash, a greedy run of word characters and plus signs. */
  function TrailingGroups(rest: string): (r: (string, string))
    ensures AllIn(r.0, Word) && AllIn(r.1, WordPlus)
    ensures MaximalRun(rest, 0, r.0, Word)
    ensures MaximalRun(rest, AfterDash(rest, |r.0|), r.1, WordPlus)
  {
    var n5 := Span(rest, Word);
    RunAt(rest, 0, Word);
    assert rest[0..] == rest;
    var k := AfterDash(rest, n5);
    RunAt(rest, k, WordPlus);
    (rest[..n5], rest[k..k + Span(rest[k..], WordPlus)])
  }

  /** The greedy run of `cls` that starts at `k` in `s`. */
  lemma RunAt(s: string, k: nat, cls: CharClass)
    requires k <= |s|
    ensures MaximalRun(s, k, s[k..k + Span(s[k..], cls)], cls)
  {
    var n := Span(s[k..], cls);
    var g := s[k..k + n];
    assert AllIn(g, cls) by {
      forall i | 0 <= i < |g|
        ensures InClass(g[i], cls)
      {
        assert g[i] == s[k..][i];
      }
    }
    assert k + n == |s| || !InClass(s[k + n], cls) by {
      if k + n < |s| {
        assert s[k + n] == s[k..][n];
      }
    }
  }

  lemma TrailingGroupsOfJoin(a: string, b: string, tail: string)
    requires AllIn(a, Word) && AllIn(b, WordPlus)
    requires tail == [] || !InClass(tail[0], WordPlus)
    ensures TrailingGroups(a + "-" + b + tail) == (a, b)
  {
    var rest := a + "-" + b + tail;
    var after := "-" + b + tail;
    assert rest == a + after;
    SpanOfRun(a, after, Word);
    assert rest[|a|..] == after;
    assert after[1..] == b + tail;
    SpanOfRun(b, tail, WordPlus);
  }

  /** A name with no sixth group: the fifth group runs up to the first
      character that can neither extend it nor start the sixth. */
  lemma SingleTrailingGroup(a: string, tail: string)
    requires AllIn(a, Word)
    requires tail == [] || (tail[0] != '-' && !InClass(tail[0], Word) && !InClass(tail[0], WordPlus))
    ensures TrailingGroups(a + tail) == (a, "")
  {
    var rest := a + tail;
    var r := TrailingGroups(rest);
    assert forall i :: 0 <= i < |a| ==> rest[i] == a[i];
    assert rest[..|a|] == a;
  }

  /** The match succeeds on every name that starts with four well-formed groups
      each followed by a dash, and returns those four groups. */
  lemma {:induction false} MatchOfPrefix(kind: string, version: string, date: string, channel: string, rest: string)
    requires AllIn(kind, Alnum)
    requires AllIn(version, VersionCh) && version != []
    requires AllIn(date, DateCh)
    requires AllIn(channel, WordPlus) && channel != []
    ensures MatchFilename(kind + "-" + version + "-" + date + "-" + channel + "-" + rest)
              == Some(Tokens(kind, version, date, channel, TrailingGroups(rest).0, TrailingGroups(rest).1))
  {
    var s4 := channel + "-" + rest;
    var s3 := date + "-" + s4;
    var s2 := version + "-" + s3;
    assert kind + "-" + version + "-" + date + "-" + channel + "-" + rest == kind + "-" + s2;
    FieldOfJoin(kind, s2, Alnum, false);
    FieldOfJoin(version, s3, VersionCh, true);
    FieldOfJoin(date, s4, DateCh, false);
    FieldOfJoin(channel, rest, WordPlus, true);
  }

  /** A name written from six well-formed groups, followed by anything that
      cannot extend the last group (such as ".zip"), gives those groups back. */
  function Format(t: Tokens): string {
    t.kind + "-" + t.version + "-" + t.date + "-" + t.channel + "-" + t.trailingA + "-" + t.trailingB
  }

  lemma MatchFormat(t: Tokens, tail: string)
    requires WellFormed(t)
    requires tail == [] || !InClass(tail[0], WordPlus)
    ensures MatchFilename(Format(t) + tail) == Some(t)
  {
    var rest := t.trailingA + "-" + t.trailingB + tail;
    assert Format(t) + tail == t.kind + "-" + t.version + "-" + t.date + "-" + t.channel + "-" + rest;
    MatchOfPrefix(t.kind, t.version, t.date, t.channel, rest);
    TrailingGroupsOfJoin(t.trailingA, t.trailingB, tail);
  }

  /** A greedy run over `run + after` stops exactly at the end of `run` when
      `after` cannot continue it. */
  lemma SpanOfRun(run: string, after: string, cls: CharClass)
    requires AllIn(run, cls)
    requires after == [] || !InClass(after[0], cls)
    ensures Span(run + after, cls) == |run|
    ensures (run + after)[..|run|] == run
  {
    var s := run + after;
    assert s[..|run|] == run;
    assert forall i :: 0 <= i < |run| ==> s[i] == run[i];
    SpanStopsAt(s, |run|, cls);
  }

  /** Python's `token.strip('-')`. */
  function StripLeading(s: string): (r: string)
    ensures |r| <= |s| && r == s[|s| - |r|..]
    ensures forall k :: 0 <= k < |s| - |r| ==> s[k] == '-'
    ensures r == [] || r[0] != '-'
  {
    if s != [] && s[0] == '-' then StripLeading(s[1..]) else s
  }

  function StripTrailing(s: string): (r: string)
    ensures |r| <= |s| && r == s[..|r|]
    ensures forall k :: |r| <= k < |s| ==> s[k] == '-'
    ensures r == [] || r[|r| - 1] != '-'
  {
    if s != [] && s[|s| - 1] == '-' then StripTrailing(s[..|s| - 1]) else s
  }

  /** `s` is `r` with `i` dashes before it and only dashes after it. */
  predicate DashPadded(s: string, r: string, i: int) {
    && 0 <= i && i + |r| <= |s| && s[i..i + |r|] == r
    && (forall k :: 0 <= k < i ==> s[k] == '-')
    && (forall k :: i + |r| <= k < |s| ==> s[k] == '-')
  }

  /** `r` is `s` with every leading and trailing dash removed: `s` is `r`
      padded with dashes on both sides, and `r` neither starts nor ends with
      one. This pins `r` down: an all-dash `s` leaves the empty string. */
  predicate StrippedFrom(s: string, r: string) {
    && (r == [] || (r[0] != '-' && r[|r| - 1] != '-'))
    && exists i :: 0 <= i <= |s| && DashPadded(s, r, i)
  }

  function StripDashes(s: string): (r: string)
    ensures StrippedFrom(s, r)
  {
    var l := StripLeading(s);
    var r := StripTrailing(l);
    var i := |s| - |l|;
    assert s[i..i + |r|] == r by {
      assert l == s[i..];
      assert r == l[..|r|];
    }
    assert forall k :: i + |r| <= k < |s| ==> s[k] == l[k - i];
    assert DashPadded(s, r, i);
    r
  }

  /** Stripping dashes from a string without dashes changes nothing. */
  lemma StripWithoutDash(s: string)
    requires '-' !in s
    ensures StripDashes(s) == s
  {
    var l := StripLeading(s);
    var t := StripTrailing(l);
  }

  /** update.py:149-156: strips every group that matched; a group that did not
      take part stays empty. */
  function RemoveTrailingDashes(t: Tokens): (r: Tokens)
    ensures StrippedFrom(t.kind, r.kind) && StrippedFrom(t.version, r.version)
    ensures StrippedFrom(t.date, r.date) && StrippedFrom(t.channel, r.channel)
    ensures StrippedFrom(t.trailingA, r.trailingA) && StrippedFrom(t.trailingB, r.trailingB)
  {
    Tokens(StripGroup(t.kind), StripGroup(t.version), StripGroup(t.date),
           StripGroup(t.channel), StripGroup(t.trailingA), StripGroup(t.trailingB))
  }

  function StripGroup(s: string): (r: string)
    ensures StrippedFrom(s, r)
  {
    if s != [] then StripDashes(s) else
      assert DashPadded(s, "", 0);
      ""
  }

  /** update.py:144-147: six empty strings when the name does not match,
      otherwise the six dash-stripped groups, which are the groups unchanged. */
  function ParseFilenameFull(name: string): (t: Tokens)
    ensures MatchFilename(name).None? ==> t == NoTokens
    ensures MatchFilename(name).Some? ==> t == MatchFilename(name).value
    ensures t == NoTokens || WellFormed(t)
    ensures NoDash(t)
  {
    match MatchFilename(name)
    case None => NoTokens
    case Some(m) =>
      WellFormedHasNoDash(m);
      StripIsIdentity(m);
      RemoveTrailingDashes(m)
  }

  /** The dash strip of update.py:153 never changes dash-free groups. */
  lemma StripIsIdentity(t: Tokens)
    requires NoDash(t)
    ensures RemoveTrailingDashes(t) == t
  {
    StripGroupWithoutDash(t.kind);
    StripGroupWithoutDash(t.version);
    StripGroupWithoutDash(t.date);
    StripGroupWithoutDash(t.channel);
    StripGroupWithoutDash(t.trailingA);
    StripGroupWithoutDash(t.trailingB);
  }

  lemma StripGroupWithoutDash(s: string)
    requires '-' !in s
    ensures StripGroup(s) == s
  {
    if s != [] {
      StripWithoutDash(s);
    }
  }

  /** The groups of the lineage-style archive name
      `lineage-17.1-20200101-NIGHTLY-i9300-signed.zip`. */
  const LineageTokens: Tokens := Tokens("lineage", "17.1", "20200101", "NIGHTLY", "i9300", "signed")

  /** That name, written from its groups, is tokenized back into them. */
  lemma LineageExample()
    ensures ParseFilenameFull(Format(LineageTokens) + ".zip") == LineageTokens
  {
    LineageWellFormed(LineageTokens);
    MatchFormat(LineageTokens, ".zip");
  }

  lemma LineageWellFormed(t: Tokens)
    requires t == LineageTokens
    ensures WellFormed(t)
  {
  }

  /** The first four groups, each followed by its dash. */
  function Lead(t: Tokens): string {
    t.kind + "-" + t.version + "-" + t.date + "-" + t.channel + "-"
  }

  /** The groups of the cm-style name `cm-11-20140130-NIGHTLY-i9300.zip`, which
      has no sixth group. */
  const CmTokens: Tokens := Tokens("cm", "11", "20140130", "NIGHTLY", "i9300", "")

  /** In that name the fifth group is the device and the sixth is empty. */
  lemma CmExample()
    ensures ParseFilenameFull(Lead(CmTokens) + CmTokens.trailingA + ".zip") == CmTokens
  {
    CmWellFormed(CmTokens);
    MatchWithoutSixthGroup(CmTokens, ".zip");
  }

  /** Four well-formed groups, a word group and a tail that cannot continue
      either trailing group tokenize back to those groups and an empty sixth. */
  lemma MatchWithoutSixthGroup(t: Tokens, tail: string)
    requires WellFormed(t) && t.trailingB == ""
    requires tail == [] || (tail[0] != '-' && !InClass(tail[0], Word) && !InClass(tail[0], WordPlus))
    ensures ParseFilenameFull(Lead(t) + t.trailingA + tail) == t
  {
    var rest := t.trailingA + tail;
    assert Lead(t) + t.trailingA + tail == Lead(t) + rest;
    MatchOfPrefix(t.kind, t.version, t.date, t.channel, rest);
    SingleTrailingGroup(t.trailingA, tail);
  }

  lemma CmWellFormed(t: Tokens)
    requires t == CmTokens
    ensures WellFormed(t)
  {
  }

  /** A name without the date group's dash does not match at all. */
  lemma RejectedExample()
    ensures ParseFilenameFull("lineage-17.1.zip") == NoTokens
  {
    var s := "lineage-17.1.zip";
    NoVersionGroupName(s);
  }

  lemma NoVersionGroupName(s: string)
    requires s == "lineage-17.1.zip"
    ensures MatchFilename(s) == None
  {
    LineageField(s);
    VersionFieldFails("17.1.zip");
    NoVersionGroup(s, "lineage", "17.1.zip");
  }

  lemma LineageField(s: string)
    requires s == "lineage-17.1.zip"
    ensures Field(s, Alnum, false) == Some(("lineage", "17.1.zip"))
  {
    assert s == "lineage" + "-" + "17.1.zip";
    FieldOfJoin("lineage", "17.1.zip", Alnum, false);
  }

  lemma VersionFieldFails(r: string)
    requires r == "17.1.zip"
    ensures Field(r, VersionCh, true) == None
  {
    SpanStopsAt(r, 5, VersionCh);
  }

  lemma NoVersionGroup(s: string, kind: string, rest: string)
    requires Field(s, Alnum, false) == Some((kind, rest))
    requires Field(rest, VersionCh, true) == None
    ensures MatchFilename(s) == None
  {
  }
}
