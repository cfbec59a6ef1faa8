/** ASCII character classes and the string primitives the filename, version and
    line parsers are built from. Unicode meanings of `\w` and `\d` are not modelled:
    every class here is its ASCII subset. */
module Text {

  import opened Wrappers

  predicate IsDigit(c: char) { '0' <= c <= '9' }
  predicate IsUpper(c: char) { 'A' <= c <= 'Z' }
  predicate IsLowerLetter(c: char) { 'a' <= c <= 'z' }
  predicate IsAlnum(c: char) { IsDigit(c) || IsUpper(c) || IsLowerLetter(c) }
  predicate IsWord(c: char) { IsAlnum(c) || c == '_' }

  /** The regular-expression character classes of the filename pattern. */
  datatype CharClass =
    | Alnum      // [A-Za-z0-9]
    | Digits     // [0-9] and \d
    | VersionCh  // [0-9\.]
    | DateCh     // [\d_]
    | Word       // [A-Za-z0-9_] and \w
    | WordPlus   // [\w+]

  predicate InClass(c: char, cls: CharClass) {
    match cls
    case Alnum => IsAlnum(c)
    case Digits => IsDigit(c)
    case VersionCh => IsDigit(c) || c == '.'
    case DateCh => IsDigit(c) || c == '_'
    case Word => IsWord(c)
    case WordPlus => IsWord(c) || c == '+'
  }

  predicate AllIn(s: string, cls: CharClass) {
    forall i :: 0 <= i < |s| ==> InClass(s[i], cls)
  }

  /** No class of the filename pattern admits the field separator. */
  lemma DashInNoClass(cls: CharClass)
    ensures !InClass('-', cls)
  {
  }

  /** Length of the longest prefix of `s` whose characters are all in `cls`:
      what a greedy `[...]*` consumes. */
  function Span(s: string, cls: CharClass): (n: nat)
    ensures n <= |s|
    ensures forall i :: 0 <= i < n ==> InClass(s[i], cls)
    ensures n < |s| ==> !InClass(s[n], cls)
  {
    if s == [] || !InClass(s[0], cls) then 0 else 1 + Span(s[1..], cls)
  }

  /** Python's `str.lower()` on ASCII. */
  function LowerChar(c: char): (d: char)
    ensures !IsUpper(d)
    ensures IsUpper(c) ==> d as int == c as int + 32
    ensures !IsUpper(c) ==> d == c
  {
    if IsUpper(c) then (c as int + 32) as char else c
  }

  function Lower(s: string): (r: string)
    ensures |r| == |s|
    ensures forall i :: 0 <= i < |r| ==> r[i] == LowerChar(s[i])
  {
    if s == [] then [] else [LowerChar(s[0])] + Lower(s[1..])
  }

  lemma LowerOf(s: string, t: string)
    requires |s| == |t| && forall i :: 0 <= i < |s| ==> LowerChar(s[i]) == t[i]
    ensures Lower(s) == t
  {
  }

  predicate NoUpper(s: string) {
    forall i :: 0 <= i < |s| ==> !IsUpper(s[i])
  }

  /** Lower-casing leaves no upper-case letter and is idempotent. */
  lemma LowerIsLower(s: string)
    ensures NoUpper(Lower(s))
    ensures Lower(Lower(s)) == Lower(s)
  {
  }

  /** `t` occurs in `s` as a contiguous substring. */
  predicate HasSubstring(s: string, t: string)
    requires |t| > 0
    decreases |s|
  {
    t <= s || (|s| > 0 && HasSubstring(s[1..], t))
  }

  lemma {:induction false} HasSingleChar(s: string, c: char)
    ensures HasSubstring(s, [c]) <==> c in s
    decreases |s|
  {
    if s != [] {
      HasSingleChar(s[1..], c);
      assert c in s <==> s[0] == c || c in s[1..];
    }
  }

  /** `parts` joined with `sep` between neighbours (Python's `sep.join(parts)`). */
  function Join(parts: seq<string>, sep: string): string
    requires |parts| >= 1
  {
    if |parts| == 1 then parts[0] else parts[0] + sep + Join(parts[1..], sep)
  }

  /** Python's `str.split(sep)`: scans left to right and cuts at every
      non-overlapping occurrence of `sep`. */
  function Split(s: string, sep: string): (parts: seq<string>)
    requires |sep| > 0
    ensures |parts| >= 1
    ensures Join(parts, sep) == s
    ensures forall i :: 0 <= i < |parts| ==> !HasSubstring(parts[i], sep)
    decreases |s|
  {
    if |s| == 0 then [""]
    else if sep <= s then
      var rest := Split(s[|sep|..], sep);
      SplitMatchParts(s, sep, rest);
      [""] + rest
    else
      var rest := Split(s[1..], sep);
      SplitNoMatchParts(s, sep, rest);
      [[s[0]] + rest[0]] + rest[1..]
  }

  /** A separator at the start of `s` cuts off an empty first part. */
  lemma SplitMatchParts(s: string, sep: string, rest: seq<string>)
    requires |sep| > 0 && sep <= s
    requires |rest| >= 1 && Join(rest, sep) == s[|sep|..]
    requires forall i :: 0 <= i < |rest| ==> !HasSubstring(rest[i], sep)
    ensures Join([""] + rest, sep) == s
    ensures forall i :: 0 <= i < |[""] + rest| ==> !HasSubstring(([""] + rest)[i], sep)
  {
    JoinEmptyHead(rest, sep);
    PrefixThenRest(sep, s);
    var parts := [""] + rest;
    forall i | 0 <= i < |parts|
      ensures !HasSubstring(parts[i], sep)
    {
      if i > 0 {
        assert parts[i] == rest[i - 1];
      }
    }
  }

  /** An empty first part puts the separator in front of the join. */
  lemma JoinEmptyHead(rest: seq<string>, sep: string)
    requires |rest| >= 1
    ensures Join([""] + rest, sep) == sep + Join(rest, sep)
  {
    var parts := [""] + rest;
    assert parts[1..] == rest;
  }

  lemma PrefixThenRest(p: string, s: string)
    requires p <= s
    ensures s == p + s[|p|..]
  {
  }

  /** A character that does not start a separator joins the first part. */
  lemma SplitNoMatchParts(s: string, sep: string, rest: seq<string>)
    requires |sep| > 0 && |s| > 0 && !(sep <= s)
    requires |rest| >= 1 && Join(rest, sep) == s[1..]
    requires forall i :: 0 <= i < |rest| ==> !HasSubstring(rest[i], sep)
    ensures var parts := [[s[0]] + rest[0]] + rest[1..];
            Join(parts, sep) == s && forall i :: 0 <= i < |parts| ==> !HasSubstring(parts[i], sep)
  {
    var head := [s[0]] + rest[0];
    var parts := [head] + rest[1..];
    JoinHead(s[0], rest, sep);
    assert s == [s[0]] + s[1..];
    HeadIsPrefix(s, head, rest[0]);
    HeadHasNoSep(head, sep, rest[0], s);
    forall i | 0 <= i < |parts|
      ensures !HasSubstring(parts[i], sep)
    {
      if i > 0 {
        assert parts[i] == rest[i];
      }
    }
  }

  /** Putting a character in front of the first part puts it in front of the join. */
  lemma JoinHead(c: char, rest: seq<string>, sep: string)
    requires |rest| >= 1
    ensures Join([[c] + rest[0]] + rest[1..], sep) == [c] + Join(rest, sep)
  {
    var parts := [[c] + rest[0]] + rest[1..];
    assert parts[1..] == rest[1..];
  }

  lemma HeadIsPrefix(s: string, head: string, first: string)
    requires |s| > 0 && head == [s[0]] + first && first <= s[1..]
    ensures head <= s
  {
    assert s[..|head|] == [s[0]] + s[1..][..|first|];
  }

  lemma HeadHasNoSep(head: string, sep: string, first: string, s: string)
    requires |sep| > 0 && |head| > 0 && head[1..] == first && !HasSubstring(first, sep)
    requires head <= s && !(sep <= s)
    ensures !HasSubstring(head, sep)
  {
  }

  /** The two halves of `s` when `s.split(sep)` has exactly two parts. */
  function SplitPair(s: string, sep: string): (r: Option<(string, string)>)
    requires |sep| > 0
    ensures r.Some? ==> s == r.value.0 + sep + r.value.1
    ensures r.Some? ==> !HasSubstring(r.value.0, sep) && !HasSubstring(r.value.1, sep)
  {
    var parts := Split(s, sep);
    if |parts| == 2 then
      assert parts[1..] == [parts[1]];
      assert Join(parts, sep) == parts[0] + sep + Join([parts[1]], sep);
      Some((parts[0], parts[1]))
    else None
  }

  lemma {:induction false} SplitWithoutSep(s: string, sep: string)
    requires |sep| > 0
    requires !HasSubstring(s, sep)
    ensures Split(s, sep) == [s]
    decreases |s|
  {
    if |s| > 0 {
      SplitWithoutSep(s[1..], sep);
    }
  }

  /** When the first occurrence of `sep` in `a + sep + b` starts right after `a`,
      splitting cuts there first. */
  lemma {:induction false} SplitAtFirst(a: string, b: string, sep: string)
    requires |sep| > 0
    requires !HasSubstring(a + sep[..|sep| - 1], sep)
    ensures Split(a + sep + b, sep) == [a] + Split(b, sep)
    decreases |a|
  {
    var s := a + sep + b;
    if a == [] {
      assert s == sep + b;
      assert s[|sep|..] == b;
      SplitUnfoldMatch(s, sep);
    } else {
      var u := a + sep[..|sep| - 1];
      assert u[1..] == a[1..] + sep[..|sep| - 1];
      SplitAtFirst(a[1..], b, sep);
      SplitAtFirstStep(a, b, sep, u);
    }
  }

  /** One step of SplitAtFirst: the first character of `a` does not start a
      separator, so it joins the first part of the rest. */
  lemma SplitAtFirstStep(a: string, b: string, sep: string, u: string)
    requires |sep| > 0 && a != []
    requires u == a + sep[..|sep| - 1] && !HasSubstring(u, sep)
    requires Split(a[1..] + sep + b, sep) == [a[1..]] + Split(b, sep)
    ensures Split(a + sep + b, sep) == [a] + Split(b, sep)
  {
    var s := a + sep + b;
    NoSepAtStart(a, b, sep, u);
    TailOfJoin(a, b, sep);
    SplitUnfoldNoMatch(s, sep, Split(s[1..], sep));
    assert [s[0]] + a[1..] == a;
  }

  lemma NoSepAtStart(a: string, b: string, sep: string, u: string)
    requires |sep| > 0 && a != []
    requires u == a + sep[..|sep| - 1] && !HasSubstring(u, sep)
    ensures !(sep <= a + sep + b)
  {
    assert !(sep <= u);
    assert u <= a + sep + b;
    NotPrefixExtends(u, a + sep + b, sep);
  }

  lemma TailOfJoin(a: string, b: string, sep: string)
    requires a != []
    ensures (a + sep + b)[1..] == a[1..] + sep + b
    ensures (a + sep + b)[0] == a[0]
  {
  }

  lemma NotPrefixExtends(u: string, s: string, sep: string)
    requires u <= s && |u| >= |sep|
    requires !(sep <= u)
    ensures !(sep <= s)
  {
  }

  lemma SplitUnfoldMatch(s: string, sep: string)
    requires |sep| > 0 && |s| > 0 && sep <= s
    ensures Split(s, sep) == [""] + Split(s[|sep|..], sep)
  {
  }

  lemma SplitUnfoldNoMatch(s: string, sep: string, rest: seq<string>)
    requires |sep| > 0 && |s| > 0 && !(sep <= s)
    requires rest == Split(s[1..], sep)
    ensures Split(s, sep) == [[s[0]] + rest[0]] + rest[1..]
  {
  }

  /** Exactly two parts come back precisely when `s` is `a + sep + b` cut at the
      first occurrence of `sep`, with no further occurrence in `b`. */
  lemma SplitPairOfJoin(a: string, b: string, sep: string)
    requires |sep| > 0
    requires !HasSubstring(a + sep[..|sep| - 1], sep)
    requires !HasSubstring(b, sep)
    ensures SplitPair(a + sep + b, sep) == Some((a, b))
  {
    SplitAtFirst(a, b, sep);
    SplitWithoutSep(b, sep);
  }

  /** For a one-character separator: two parts exactly when the character occurs once. */
  lemma SplitPairSingleChar(s: string, c: char)
    ensures SplitPair(s, [c]).Some? <==>
              exists a, b :: s == a + [c] + b && c !in a && c !in b
  {
    var r := SplitPair(s, [c]);
    if r.Some? {
      HasSingleChar(r.value.0, c);
      HasSingleChar(r.value.1, c);
    }
    if exists a, b :: s == a + [c] + b && c !in a && c !in b {
      var a, b :| s == a + [c] + b && c !in a && c !in b;
      HasSingleChar(a, c);
      HasSingleChar(b, c);
      assert [c][..0] == [];
      assert a + [c][..0] == a;
      SplitPairOfJoin(a, b, [c]);
    }
  }

  // ----- decimal numbers -----

  function DigitValue(c: char): nat
    requires IsDigit(c)
  {
    c as int - '0' as int
  }

  function DigitChar(d: nat): (c: char)
    requires d < 10
    ensures IsDigit(c) && DigitValue(c) == d
  {
    ('0' as int + d) as char
  }

  /** Python's `str(n)` for a natural number. */
  function ShowNat(n: nat): (s: string)
    ensures |s| > 0 && AllIn(s, Digits)
  {
    if n < 10 then [DigitChar(n)] else ShowNat(n / 10) + [DigitChar(n % 10)]
  }

  /** Value of a string of decimal digits (leading zeros allowed). */
  function ParseDecimal(s: string): nat
    requires AllIn(s, Digits)
  {
    if s == [] then 0
    else
      assert AllIn(s[..|s| - 1], Digits);
      10 * ParseDecimal(s[..|s| - 1]) + DigitValue(s[|s| - 1])
  }

  lemma {:induction false} ParseShowNat(n: nat)
    ensures ParseDecimal(ShowNat(n)) == n
  {
    if n >= 10 {
      ParseShowNat(n / 10);
      var s := ShowNat(n);
      assert s[..|s| - 1] == ShowNat(n / 10);
    }
  }

  /** Python's `str(i)` for an integer. */
  function ShowInt(i: int): string {
    if i < 0 then "-" + ShowNat(-i) else ShowNat(i)
  }

  /** Python's `int(s)` restricted to an optional minus sign followed by ASCII digits. */
  function ParseInt(s: string): (r: Option<int>)
    ensures r.Some? <==> (|s| > 0 && AllIn(s, Digits)) || (|s| > 1 && s[0] == '-' && AllIn(s[1..], Digits))
  {
    if |s| > 0 && AllIn(s, Digits) then Some(ParseDecimal(s))
    else if |s| > 1 && s[0] == '-' && AllIn(s[1..], Digits) then Some(-(ParseDecimal(s[1..]) as int))
    else None
  }

  /** Reading back the decimal text of an integer gives the integer. */
  lemma ParseShowInt(i: int)
    ensures ParseInt(ShowInt(i)) == Some(i)
  {
    if i < 0 {
      ParseShowNat(-i);
      var s := ShowInt(i);
      assert s[1..] == ShowNat(-i);
      assert !IsDigit(s[0]);
    } else {
      ParseShowNat(i);
    }
  }

  /** A leading zero does not change the value of a digit string. */
  lemma {:induction false} ParseDecimalLeadingZero(s: string)
    requires AllIn(s, Digits)
    ensures AllIn("0" + s, Digits) && ParseDecimal("0" + s) == ParseDecimal(s)
  {
    var z := "0" + s;
    assert forall k :: 0 <= k < |z| ==> z[k] == if k == 0 then '0' else s[k - 1];
    if s != [] {
      var init := s[..|s| - 1];
      assert AllIn(init, Digits);
      ParseDecimalLeadingZero(init);
      assert z[..|z| - 1] == "0" + init;
      assert z[|z| - 1] == s[|s| - 1];
    }
  }

  /**
   * The value of every text `ParseInt` accepts, canonical or not: a leading
   * zero changes nothing ("007" reads as 7) and a minus sign negates the
   * value of the digits after it ("-0" reads as 0, "-012" as -12). With
   * `ParseShowInt` this fixes the result on every accepted string.
   */
  lemma ParseIntDigits(d: string)
    requires |d| > 0 && AllIn(d, Digits)
    ensures ParseInt(d) == Some(ParseDecimal(d) as int)
    ensures ParseInt("0" + d) == ParseInt(d)
    ensures ParseInt("-" + d) == Some(-ParseInt(d).value)
  {
    ParseDecimalLeadingZero(d);
    ParseIntUnsigned(d);
    ParseIntUnsigned("0" + d);
    var m := "-" + d;
    assert m[1..] == d;
    ParseIntSigned(m);
  }

  lemma ParseIntUnsigned(s: string)
    requires |s| > 0 && AllIn(s, Digits)
    ensures ParseInt(s) == Some(ParseDecimal(s) as int)
  {
  }

  lemma ParseIntSigned(s: string)
    requires |s| > 1 && s[0] == '-' && AllIn(s[1..], Digits)
    ensures ParseInt(s) == Some(-(ParseDecimal(s[1..]) as int))
  {
    assert !InClass(s[0], Digits);
  }

}
