/** Channel resolution (update.py:107, 158-168): the channel token of an archive
    name becomes a lower-case release channel, and two legacy channel names are
    renamed for cm builds and for versions below 14.1. */
module Channel {

  import opened Wrappers
  import opened Text

  // ----- version strings -----

  /** The release segment of a version: `[0-9]+(\.[0-9]+)*` read as numbers.
      Anything else is rejected, as `packaging.version.parse` rejects it. */
  function ParseVersion(s: string): (r: Option<seq<nat>>)
    ensures r.Some? ==> |r.value| >= 1
    decreases |s|
  {
    var k := Span(s, Digits);
    if k == 0 then None
    else
      assert AllIn(s[..k], Digits);
      var n := ParseDecimal(s[..k]);
      if k == |s| then Some([n])
      else if s[k] == '.' then
        match ParseVersion(s[k + 1..])
        case None => None
        case Some(rest) => Some([n] + rest)
      else None
  }

  /** Digits and single dots, starting and ending with a digit. */
  predicate IsReleaseSegment(s: string) {
    && |s| > 0
    && AllIn(s, VersionCh)
    && s[0] != '.'
    && s[|s| - 1] != '.'
    && forall i :: 0 <= i < |s| - 1 ==> !(s[i] == '.' && s[i + 1] == '.')
  }

  /** The parser accepts exactly the release segments. */
  lemma {:induction false} ParseVersionAccepts(s: string)
    ensures ParseVersion(s).Some? <==> IsReleaseSegment(s)
    decreases |s|
  {
    var k := Span(s, Digits);
    if k == |s| {
      assert AllIn(s, Digits);
    } else if s[k] == '.' && k > 0 {
      var rest := s[k + 1..];
      ParseVersionAccepts(rest);
      assert s == s[..k] + "." + rest;
      assert AllIn(s[..k], Digits);
      SegmentCons(s[..k], rest);
    } else {
      assert !IsDigit(s[k]);
    }
  }

  /** A digit run followed by a dot extends a release segment, and only a
      release segment. */
  lemma SegmentCons(d: string, rest: string)
    requires |d| > 0 && AllIn(d, Digits)
    ensures IsReleaseSegment(d + "." + rest) <==> IsReleaseSegment(rest)
  {
    if IsReleaseSegment(rest) {
      SegmentConsExtends(d, rest);
    }
    if IsReleaseSegment(d + "." + rest) {
      SegmentConsTail(d, rest);
    }
  }

  lemma SegmentConsExtends(d: string, rest: string)
    requires |d| > 0 && AllIn(d, Digits) && IsReleaseSegment(rest)
    ensures IsReleaseSegment(d + "." + rest)
  {
    var s := d + "." + rest;
    var j := |d|;
    forall i | 0 <= i < |s|
      ensures InClass(s[i], VersionCh)
    {
      if i < j {
        assert s[i] == d[i];
      } else if i > j {
        assert s[i] == rest[i - j - 1];
      }
    }
    forall i | 0 <= i < |s| - 1
      ensures !(s[i] == '.' && s[i + 1] == '.')
    {
      if i < j {
        assert s[i] == d[i];
      } else if i == j {
        assert s[i + 1] == rest[0];
      } else {
        assert s[i] == rest[i - j - 1] && s[i + 1] == rest[i - j];
      }
    }
    assert s[0] == d[0];
    assert s[|s| - 1] == rest[|rest| - 1];
  }

  lemma SegmentConsTail(d: string, rest: string)
    requires |d| > 0 && AllIn(d, Digits) && IsReleaseSegment(d + "." + rest)
    ensures IsReleaseSegment(rest)
  {
    var s := d + "." + rest;
    var j := |d|;
    assert s[j] == '.';
    assert |rest| > 0;
    assert rest[0] == s[j + 1];
    assert rest[|rest| - 1] == s[|s| - 1];
    forall i | 0 <= i < |rest|
      ensures InClass(rest[i], VersionCh)
    {
      assert rest[i] == s[j + 1 + i];
    }
    forall i | 0 <= i < |rest| - 1
      ensures !(rest[i] == '.' && rest[i + 1] == '.')
    {
      assert s[j + 1 + i] == rest[i] && s[j + 2 + i] == rest[i + 1];
    }
  }

  /** A run of digits alone is a release segment. */
  lemma DigitsAreSegment(d: string)
    requires |d| > 0 && AllIn(d, Digits)
    ensures IsReleaseSegment(d)
  {
  }

  /** Writes a release segment back as text: the decimal components, dot-separated. */
  function ShowVersion(v: seq<nat>): string
    requires |v| >= 1
  {
    if |v| == 1 then ShowNat(v[0]) else ShowNat(v[0]) + "." + ShowVersion(v[1..])
  }

  /** Every release segment written out parses back to itself. */
  lemma {:induction false} ParseShowVersion(v: seq<nat>)
    requires |v| >= 1
    ensures ParseVersion(ShowVersion(v)) == Some(v)
  {
    var d := ShowNat(v[0]);
    ParseShowNat(v[0]);
    if |v| == 1 {
      ParseDigits(d);
      assert v == [v[0]];
    } else {
      ParseShowVersion(v[1..]);
      ParseDigitsDot(d, ShowVersion(v[1..]));
      assert [v[0]] + v[1..] == v;
    }
  }

  /** A digit run alone parses to its value. */
  lemma ParseDigits(d: string)
    requires |d| > 0 && AllIn(d, Digits)
    ensures ParseVersion(d) == Some([ParseDecimal(d)])
  {
    SpanAll(d);
    assert d[..|d|] == d;
  }

  /** A digit run and a dot put the run's value in front of the rest's components. */
  lemma ParseDigitsDot(d: string, rest: string)
    requires |d| > 0 && AllIn(d, Digits)
    ensures ParseVersion(rest).None? ==> ParseVersion(d + "." + rest).None?
    ensures ParseVersion(rest).Some? ==> ParseVersion(d + "." + rest) == Some([ParseDecimal(d)] + ParseVersion(rest).value)
  {
    var s := d + "." + rest;
    assert s[..|d|] == d;
    assert forall i :: 0 <= i < |d| ==> s[i] == d[i];
    SpanStopsAtDot(s, |d|);
    assert s[|d| + 1..] == rest;
  }

  lemma SpanAll(d: string)
    requires AllIn(d, Digits)
    ensures Span(d, Digits) == |d|
  {
    if d != [] {
      SpanAll(d[1..]);
    }
  }

  lemma {:induction false} SpanStopsAtDot(s: string, k: nat)
    requires k < |s| && s[k] == '.'
    requires forall i :: 0 <= i < k ==> IsDigit(s[i])
    ensures Span(s, Digits) == k
  {
    if k > 0 {
      SpanStopsAtDot(s[1..], k - 1);
    }
  }

  /** Component `i` of a release segment, zero past its end. */
  function At(v: seq<nat>, i: nat): nat {
    if i < |v| then v[i] else 0
  }

  function Tail(v: seq<nat>): seq<nat> {
    if v == [] then [] else v[1..]
  }

  /** PEP 440 ordering of release segments: component by component, the shorter
      one padded with zeros (so 14.1 and 14.1.0 are equal). */
  function VersionLess(a: seq<nat>, b: seq<nat>): (r: bool)
    ensures a == b ==> !r
    ensures r ==> At(a, 0) <= At(b, 0)
    decreases |a| + |b|
  {
    if a == [] && b == [] then false
    else if At(a, 0) != At(b, 0) then At(a, 0) < At(b, 0)
    else VersionLess(Tail(a), Tail(b))
  }

  /** `a` and `b`, padded with zeros, agree before component `k` and `a` is
      smaller at `k`. */
  predicate LessAt(a: seq<nat>, b: seq<nat>, k: nat) {
    (forall i: nat :: i < k ==> At(a, i) == At(b, i)) && At(a, k) < At(b, k)
  }

  /** The comparison is the lexicographic order on the zero-padded segments:
      `a < b` exactly when they agree up to some component where `a` is smaller. */
  lemma {:induction false} VersionLessIsPaddedOrder(a: seq<nat>, b: seq<nat>)
    ensures VersionLess(a, b) <==> exists k: nat :: LessAt(a, b, k)
    decreases |a| + |b|
  {
    if a == [] && b == [] {
      assert forall k: nat :: !LessAt(a, b, k);
    } else if At(a, 0) < At(b, 0) {
      assert LessAt(a, b, 0);
    } else if At(a, 0) > At(b, 0) {
      assert forall k: nat :: !LessAt(a, b, k) by {
        forall k: nat
          ensures !LessAt(a, b, k)
        {
          FirstComponentDecides(a, b, k);
        }
      }
    } else {
      VersionLessIsPaddedOrder(Tail(a), Tail(b));
      if VersionLess(a, b) {
        var k: nat :| LessAt(Tail(a), Tail(b), k);
        LessAtShift(a, b, k);
      }
      if exists k: nat :: LessAt(a, b, k) {
        var k: nat :| LessAt(a, b, k);
        LessAtShift(a, b, k - 1);
      }
    }
  }

  lemma FirstComponentDecides(a: seq<nat>, b: seq<nat>, k: nat)
    requires At(a, 0) > At(b, 0)
    ensures !LessAt(a, b, k)
  {
    if k > 0 {
      assert !(At(a, 0) == At(b, 0));
    }
  }

  /** With equal first components, the order of the tails is the order of the
      segments, one component later. */
  lemma LessAtShift(a: seq<nat>, b: seq<nat>, k: nat)
    requires At(a, 0) == At(b, 0)
    ensures LessAt(Tail(a), Tail(b), k) <==> LessAt(a, b, k + 1)
  {
    assert forall i: nat :: At(Tail(a), i) == At(a, i + 1) && At(Tail(b), i) == At(b, i + 1);
    if LessAt(a, b, k + 1) {
      forall i: nat | i < k
        ensures At(Tail(a), i) == At(Tail(b), i)
      {
        assert At(a, i + 1) == At(b, i + 1);
      }
    }
    if LessAt(Tail(a), Tail(b), k) {
      forall i: nat | i < k + 1
        ensures At(a, i) == At(b, i)
      {
        if i > 0 {
          assert At(Tail(a), i - 1) == At(Tail(b), i - 1);
        }
      }
    }
  }

  /** The threshold below which legacy channel names are renamed: `14.1`. */
  const LegacyThreshold: seq<nat> := [14, 1]

  lemma LegacyThresholdParses()
    ensures ParseVersion("14.1") == Some(LegacyThreshold)
  {
    ParseShowVersion(LegacyThreshold);
    assert ShowNat(14) == "14";
    assert ShowNat(1) == "1";
  }

  // ----- channels -----

  /** The substitution of update.py:107: deletes every slash, digit, slash
      sequence, scanning left to right without overlap. */
  function RemoveSlashDigitSlash(s: string): (r: string)
    ensures |r| <= |s|
    ensures '/' !in s ==> r == s
  {
    if |s| >= 3 && s[0] == '/' && IsDigit(s[1]) && s[2] == '/' then RemoveSlashDigitSlash(s[3..])
    else if s == [] then []
    else [s[0]] + RemoveSlashDigitSlash(s[1..])
  }

  const Stable: string := "stable"

  /** The legacy renames: experimental became snapshot, unofficial became nightly. */
  function Remap(channel: string): (r: string)
    ensures r == channel <==> channel != "experimental" && channel != "unofficial"
    ensures r != channel ==> r == "snapshot" || r == "nightly"
    ensures r == "snapshot" ==> channel == "experimental" || channel == "snapshot"
    ensures r == "nightly" ==> channel == "unofficial" || channel == "nightly"
  {
    if channel == "experimental" then "snapshot"
    else if channel == "unofficial" then "nightly"
    else channel
  }

  /** update.py:158-168. The version is parsed, and so can fail, only when the
      channel token is not empty and the build type is not `cm`. */
  function GetChannel(tokenChannel: string, tokenType: string, tokenVersion: string): (r: Result<string, Error>)
    ensures tokenChannel == [] ==> r == Ok(Stable)
    ensures r.Err? <==> tokenChannel != [] && tokenType != "cm" && ParseVersion(tokenVersion).None?
    ensures r.Err? ==> r.error == InvalidVersion(tokenVersion)
    ensures r.Ok? ==> r.value != [] && NoUpper(r.value)
    ensures tokenChannel != [] && tokenType == "cm" ==> r == Ok(Remap(Lower(tokenChannel)))
    ensures (tokenChannel != [] && r.Ok? && Lower(tokenChannel) != "experimental" && Lower(tokenChannel) != "unofficial")
              ==> r.value == Lower(tokenChannel)
    ensures (r.Ok? && tokenChannel != [] && tokenType != "cm" &&
             VersionLess(ParseVersion(tokenVersion).value, LegacyThreshold)) ==> r.value == Remap(Lower(tokenChannel))
    ensures (r.Ok? && tokenChannel != [] && tokenType != "cm" &&
             !VersionLess(ParseVersion(tokenVersion).value, LegacyThreshold)) ==> r.value == Lower(tokenChannel)
  {
    var channel := Lower(tokenChannel);
    LowerIsLower(tokenChannel);
    if channel == [] then Ok(Stable)
    else if tokenType == "cm" then Ok(Remap(channel))
    else
      match ParseVersion(tokenVersion)
      case None => Err(InvalidVersion(tokenVersion))
      case Some(v) => Ok(if VersionLess(v, LegacyThreshold) then Remap(channel) else channel)
  }

  /** The examples of the channel rules: an empty token is stable; cm builds are
      renamed whatever their version; other builds only below 14.1; a version
      that is not a release segment is an error. */
  lemma EmptyTokenIsStable()
    ensures GetChannel("", "lineage", "18.0") == Ok("stable")
  {
  }

  lemma CmExperimentalIsSnapshot()
    ensures GetChannel("EXPERIMENTAL", "cm", "11.0") == Ok("snapshot")
  {
    LowerOf("EXPERIMENTAL", "experimental");
  }

  lemma ModernExperimentalStays()
    ensures GetChannel("experimental", "lineage", "18.0") == Ok("experimental")
  {
    ModernExperimentalAt("experimental", "lineage", "18.0");
  }

  lemma ModernExperimentalAt(tokenChannel: string, tokenType: string, tokenVersion: string)
    requires tokenChannel == "experimental" && tokenType == "lineage" && tokenVersion == "18.0"
    ensures GetChannel(tokenChannel, tokenType, tokenVersion) == Ok("experimental")
  {
    VersionParses(tokenVersion, "18", "0", [18, 0]);
    LowerOf(tokenChannel, "experimental");
    ResolvedAtVersion(tokenChannel, tokenType, tokenVersion, [18, 0]);
  }

  lemma OldUnofficialIsNightly()
    ensures GetChannel("UNOFFICIAL", "lineage", "10.0") == Ok("nightly")
  {
    OldUnofficialAt("UNOFFICIAL", "lineage", "10.0");
  }

  lemma OldUnofficialAt(tokenChannel: string, tokenType: string, tokenVersion: string)
    requires tokenChannel == "UNOFFICIAL" && tokenType == "lineage" && tokenVersion == "10.0"
    ensures GetChannel(tokenChannel, tokenType, tokenVersion) == Ok("nightly")
  {
    VersionParses(tokenVersion, "10", "0", [10, 0]);
    LowerOf(tokenChannel, "unofficial");
    ResolvedAtVersion(tokenChannel, tokenType, tokenVersion, [10, 0]);
  }

  /** A non-cm build with a parsable version: renamed below 14.1, kept from it on. */
  lemma ResolvedAtVersion(tokenChannel: string, tokenType: string, tokenVersion: string, v: seq<nat>)
    requires Lower(tokenChannel) != [] && tokenType != "cm" && ParseVersion(tokenVersion) == Some(v)
    ensures VersionLess(v, LegacyThreshold) ==> GetChannel(tokenChannel, tokenType, tokenVersion) == Ok(Remap(Lower(tokenChannel)))
    ensures !VersionLess(v, LegacyThreshold) ==> GetChannel(tokenChannel, tokenType, tokenVersion) == Ok(Lower(tokenChannel))
  {
  }

  /** `major.minor` parses to its two numbers. */
  lemma VersionParses(s: string, major: string, minor: string, v: seq<nat>)
    requires s == major + "." + minor && |v| == 2
    requires |major| > 0 && AllIn(major, Digits) && ParseDecimal(major) == v[0]
    requires |minor| > 0 && AllIn(minor, Digits) && ParseDecimal(minor) == v[1]
    ensures ParseVersion(s) == Some(v)
  {
    ParseDigits(minor);
    ParseDigitsDot(major, minor);
    assert [v[0]] + [v[1]] == v;
  }

  lemma DoubleDotIsInvalid()
    ensures GetChannel("NIGHTLY", "lineage", "17..1") == Err(InvalidVersion("17..1"))
  {
    ParseVersionAccepts("17..1");
    assert "17..1"[2] == '.' && "17..1"[3] == '.';
    assert Lower("NIGHTLY") != [];
  }
}
