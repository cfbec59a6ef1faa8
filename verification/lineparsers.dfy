/** The two line formats the builder reads after fetching a file
    (update.py:177-184): `key=value` build properties and `checksum  filename`
    md5sum listings. Both end in Python's `dict()` over two-element lists, which
    raises on any line that did not split into exactly two parts. */
module LineParsers {

  import opened Wrappers
  import opened Text

  /** Splits every line at `sep`; fails on the first line that does not split
      into exactly two parts. */
  function SplitLines(lines: seq<string>, sep: string): (r: Result<seq<(string, string)>, Error>)
    requires |sep| > 0
    ensures r.Ok? <==> forall i :: 0 <= i < |lines| ==> SplitPair(lines[i], sep).Some?
    ensures r.Ok? ==> |r.value| == |lines|
    ensures r.Ok? ==> forall i :: 0 <= i < |lines| ==> SplitPair(lines[i], sep) == Some(r.value[i])
    ensures r.Ok? ==> forall i :: 0 <= i < |lines| ==> lines[i] == r.value[i].0 + sep + r.value[i].1
    ensures r.Err? ==> exists i :: 0 <= i < |lines| && r.error == MalformedLine(lines[i])
    ensures r.Err? ==> exists i :: FirstBadLine(lines, sep, i) && r.error == MalformedLine(lines[i])
  {
    if lines == [] then Ok([])
    else
      match SplitPair(lines[0], sep)
      case None =>
        assert FirstBadLine(lines, sep, 0);
        Err(MalformedLine(lines[0]))
      case Some(p) =>
        var rest := SplitLines(lines[1..], sep);
        if rest.Err? then
          FirstBadLineShift(lines, sep, rest.error);
          Err(rest.error)
        else
          ConsPairs(lines, sep, p, rest.value);
          Ok([p] + rest.value)
  }

  /** The pairs of the first line and of the rest line up with all the lines. */
  lemma ConsPairs(lines: seq<string>, sep: string, p: (string, string), rest: seq<(string, string)>)
    requires |sep| > 0 && |lines| > 0 && SplitPair(lines[0], sep) == Some(p)
    requires |rest| == |lines| - 1
    requires forall i :: 0 <= i < |rest| ==> SplitPair(lines[1..][i], sep) == Some(rest[i])
    requires forall i :: 0 <= i < |rest| ==> lines[1..][i] == rest[i].0 + sep + rest[i].1
    ensures forall i :: 0 <= i < |lines| ==> SplitPair(lines[i], sep).Some?
    ensures forall i :: 0 <= i < |lines| ==> SplitPair(lines[i], sep) == Some(([p] + rest)[i])
    ensures forall i :: 0 <= i < |lines| ==> lines[i] == ([p] + rest)[i].0 + sep + ([p] + rest)[i].1
  {
    assert forall i :: 1 <= i < |lines| ==> lines[i] == lines[1..][i - 1];
  }

  /** Line `i` is the first line that does not split at `sep`. */
  predicate FirstBadLine(lines: seq<string>, sep: string, i: int)
    requires |sep| > 0
  {
    && 0 <= i < |lines| && SplitPair(lines[i], sep).None?
    && forall j :: 0 <= j < i ==> SplitPair(lines[j], sep).Some?
  }

  /** A first bad line of the tail, after a good head, is the first bad line
      of the whole. */
  lemma FirstBadLineShift(lines: seq<string>, sep: string, e: Error)
    requires |sep| > 0 && |lines| > 0 && SplitPair(lines[0], sep).Some?
    requires exists i :: FirstBadLine(lines[1..], sep, i) && e == MalformedLine(lines[1..][i])
    ensures exists i :: FirstBadLine(lines, sep, i) && e == MalformedLine(lines[i])
  {
    var i :| FirstBadLine(lines[1..], sep, i) && e == MalformedLine(lines[1..][i]);
    assert forall j :: 1 <= j < |lines| ==> lines[j] == lines[1..][j - 1];
    assert FirstBadLine(lines, sep, i + 1);
  }

  /** Python's `dict(pairs)`: every key of the pairs, each bound to the value of
      its LAST pair. */
  function ToMap<K, V>(pairs: seq<(K, V)>): (m: map<K, V>)
    ensures m.Keys == set i | 0 <= i < |pairs| :: pairs[i].0
    ensures forall i :: 0 <= i < |pairs| && (forall j :: i < j < |pairs| ==> pairs[j].0 != pairs[i].0)
              ==> m[pairs[i].0] == pairs[i].1
  {
    if pairs == [] then map[]
    else
      var init := pairs[..|pairs| - 1];
      var last := pairs[|pairs| - 1];
      var m := ToMap(init);
      assert forall i :: 0 <= i < |init| ==> init[i] == pairs[i];
      m[last.0 := last.1]
  }

  /** Every value of the map comes from a pair with its key. */
  lemma {:induction false} ToMapValues<K, V>(pairs: seq<(K, V)>, k: K)
    requires k in ToMap(pairs)
    ensures exists i :: 0 <= i < |pairs| && pairs[i] == (k, ToMap(pairs)[k])
  {
    var init := pairs[..|pairs| - 1];
    var last := pairs[|pairs| - 1];
    if last.0 != k {
      ToMapValues(init, k);
      var i :| 0 <= i < |init| && init[i] == (k, ToMap(init)[k]);
      assert pairs[i] == init[i];
    } else {
      assert pairs[|pairs| - 1] == (k, ToMap(pairs)[k]);
    }
  }

  /** Lines a properties file keeps: not empty and not a `#` comment. */
  predicate IsPropertyLine(line: string) {
    line != "" && !("#" <= line)
  }

  /** The list comprehension of update.py:179: the property lines, in order. */
  function PropertyLines(lines: seq<string>): (kept: seq<string>)
    ensures |kept| <= |lines|
    ensures forall l {:trigger l in kept} :: l in kept <==> l in lines && IsPropertyLine(l)
  {
    if lines == [] then []
    else
      var last := lines[|lines| - 1];
      PropertyLines(lines[..|lines| - 1]) + (if IsPropertyLine(last) then [last] else [])
  }

  /** The filter keeps order: filtering a concatenation filters each part and
      concatenates the results. With `PropertyLinesOne` this fixes the result. */
  lemma {:induction false} PropertyLinesAppend(a: seq<string>, b: seq<string>)
    ensures PropertyLines(a + b) == PropertyLines(a) + PropertyLines(b)
    decreases |b|
  {
    if b == [] {
      assert a + b == a;
    } else {
      var init := b[..|b| - 1];
      var last := b[|b| - 1];
      PropertyLinesAppend(a, init);
      assert a + b == (a + init) + [last];
      assert b == init + [last];
      PropertyLinesSnoc(a + init, last);
      PropertyLinesSnoc(init, last);
      var pa, pi, t := PropertyLines(a), PropertyLines(init), if IsPropertyLine(last) then [last] else [];
      Associative(pa, pi, t);
    }
  }

  lemma Associative<T>(x: seq<T>, y: seq<T>, z: seq<T>)
    ensures (x + y) + z == x + (y + z)
  {
  }

  /** Filtering one more line at the end appends it when it is kept. */
  lemma PropertyLinesSnoc(lines: seq<string>, l: string)
    ensures PropertyLines(lines + [l]) == PropertyLines(lines) + if IsPropertyLine(l) then [l] else []
  {
    assert (lines + [l])[..|lines|] == lines;
  }

  /** One line is kept exactly when it is a property line. */
  lemma PropertyLinesOne(l: string)
    ensures PropertyLines([l]) == if IsPropertyLine(l) then [l] else []
  {
    assert [l][..0] == [];
  }

  /** A kept line `i` sits in the filtered list right after the lines kept
      before it, and is followed by exactly the lines kept after it. */
  lemma KeptLineAt(lines: seq<string>, i: int)
    requires 0 <= i < |lines| && IsPropertyLine(lines[i])
    ensures var q := |PropertyLines(lines[..i])|;
            && q < |PropertyLines(lines)|
            && PropertyLines(lines)[q] == lines[i]
            && PropertyLines(lines)[q + 1..] == PropertyLines(lines[i + 1..])
  {
    var pre := lines[..i];
    var post := lines[i + 1..];
    assert lines == pre + ([lines[i]] + post);
    PropertyLinesAppend(pre, [lines[i]] + post);
    PropertyLinesAppend([lines[i]], post);
    PropertyLinesOne(lines[i]);
    KeptAt(PropertyLines(pre), lines[i], PropertyLines(post));
  }

  lemma KeptAt(before: seq<string>, l: string, after: seq<string>)
    ensures (before + ([l] + after))[|before|] == l
    ensures (before + ([l] + after))[|before| + 1..] == after
  {
  }

  /** The two halves of a line that splits at `sep` into exactly two parts
      (the whole line and nothing otherwise). */
  function Halves(line: string, sep: string): (string, string)
    requires |sep| > 0
  {
    match SplitPair(line, sep)
    case Some(p) => p
    case None => (line, "")
  }

  /** No property line after line `i` binds the key of line `i`. */
  predicate LastPropertyFor(lines: seq<string>, i: int)
    requires 0 <= i < |lines|
  {
    forall j :: i < j < |lines| && IsPropertyLine(lines[j]) ==> Halves(lines[j], "=").0 != Halves(lines[i], "=").0
  }

  /** update.py:177-180: `key=value` lines into a map. Every kept line must
      contain exactly one `=`; every kept line's key is bound, to the value of
      the last line with that key. */
  function ParseProperties(lines: seq<string>): (r: Result<map<string, string>, Error>)
    ensures r.Ok? <==> forall l :: l in lines && IsPropertyLine(l) ==> SplitPair(l, "=").Some?
    ensures r.Ok? ==> forall k :: k in r.value ==>
              exists l :: l in lines && IsPropertyLine(l) && l == k + "=" + r.value[k]
    ensures r.Ok? ==> forall i :: 0 <= i < |lines| && IsPropertyLine(lines[i]) ==>
              Halves(lines[i], "=").0 in r.value
    ensures r.Ok? ==> forall i :: 0 <= i < |lines| && IsPropertyLine(lines[i]) && LastPropertyFor(lines, i) ==>
              r.value[Halves(lines[i], "=").0] == Halves(lines[i], "=").1
    ensures r.Err? ==> exists l :: l in lines && IsPropertyLine(l) && SplitPair(l, "=").None? && r.error == MalformedLine(l)
  {
    PropertiesSplit(lines);
    var pairs :- SplitLines(PropertyLines(lines), "=");
    PropertiesFromLines(lines, pairs);
    forall i | 0 <= i < |lines| && IsPropertyLine(lines[i])
      ensures Halves(lines[i], "=").0 in ToMap(pairs)
      ensures LastPropertyFor(lines, i) ==> ToMap(pairs)[Halves(lines[i], "=").0] == Halves(lines[i], "=").1
    {
      PropertyBinding(lines, pairs, i);
    }
    Ok(ToMap(pairs))
  }

  /** Splitting the kept lines succeeds exactly when every property line of the
      file splits, and fails on one of them otherwise. */
  lemma PropertiesSplit(lines: seq<string>)
    ensures SplitLines(PropertyLines(lines), "=").Ok? <==>
              forall l :: l in lines && IsPropertyLine(l) ==> SplitPair(l, "=").Some?
    ensures SplitLines(PropertyLines(lines), "=").Err? ==>
              exists l :: l in lines && IsPropertyLine(l) && SplitPair(l, "=").None?
                          && SplitLines(PropertyLines(lines), "=").error == MalformedLine(l)
  {
    var kept := PropertyLines(lines);
    var r := SplitLines(kept, "=");
    if r.Ok? {
      forall l | l in lines && IsPropertyLine(l)
        ensures SplitPair(l, "=").Some?
      {
        assert l in kept;
        var i :| 0 <= i < |kept| && kept[i] == l;
      }
    } else {
      var i :| FirstBadLine(kept, "=", i) && r.error == MalformedLine(kept[i]);
      assert kept[i] in kept;
    }
  }

  lemma PropertiesFromLines(lines: seq<string>, pairs: seq<(string, string)>)
    requires SplitLines(PropertyLines(lines), "=") == Ok(pairs)
    ensures forall k :: k in ToMap(pairs) ==>
              exists l :: l in lines && IsPropertyLine(l) && l == k + "=" + ToMap(pairs)[k]
  {
    var kept := PropertyLines(lines);
    var m := ToMap(pairs);
    forall k | k in m
      ensures exists l :: l in lines && IsPropertyLine(l) && l == k + "=" + m[k]
    {
      ToMapValues(pairs, k);
      var i :| 0 <= i < |pairs| && pairs[i] == (k, m[k]);
      assert kept[i] in kept;
    }
  }

  /** The pair of line `i` is bound by the map, and it decides its key's value
      when no later property line repeats the key. */
  lemma PropertyBinding(lines: seq<string>, pairs: seq<(string, string)>, i: int)
    requires SplitLines(PropertyLines(lines), "=") == Ok(pairs)
    requires 0 <= i < |lines| && IsPropertyLine(lines[i])
    ensures Halves(lines[i], "=").0 in ToMap(pairs)
    ensures LastPropertyFor(lines, i) ==> ToMap(pairs)[Halves(lines[i], "=").0] == Halves(lines[i], "=").1
  {
    var kept := PropertyLines(lines);
    KeptLineAt(lines, i);
    var q := |PropertyLines(lines[..i])|;
    assert pairs[q] == Halves(lines[i], "=");
    if LastPropertyFor(lines, i) {
      forall j' | q < j' < |pairs|
        ensures pairs[j'].0 != pairs[q].0
      {
        var j := LaterKeptLine(lines, i, j');
        assert pairs[j'] == Halves(lines[j], "=");
      }
    }
  }

  /** Every kept line after the place of line `i` is a property line after `i`. */
  lemma LaterKeptLine(lines: seq<string>, i: int, j': int) returns (j: int)
    requires 0 <= i < |lines| && IsPropertyLine(lines[i])
    requires |PropertyLines(lines[..i])| < j' < |PropertyLines(lines)|
    ensures i < j < |lines| && IsPropertyLine(lines[j]) && lines[j] == PropertyLines(lines)[j']
  {
    KeptLineAt(lines, i);
    var q := |PropertyLines(lines[..i])|;
    var kept := PropertyLines(lines);
    var e := kept[j'];
    assert e == kept[q + 1..][j' - q - 1];
    assert e in PropertyLines(lines[i + 1..]);
    assert e in lines[i + 1..] && IsPropertyLine(e);
    var j0 :| 0 <= j0 < |lines[i + 1..]| && lines[i + 1..][j0] == e;
    j := i + 1 + j0;
  }

  /** No checksum line after line `i` names the file of line `i`. */
  predicate LastChecksumFor(lines: seq<string>, i: int)
    requires 0 <= i < |lines|
  {
    forall j :: i < j < |lines| ==> Halves(lines[j], "  ").1 != Halves(lines[i], "  ").1
  }

  /** update.py:182-184: `checksum  filename` lines into a map from file name to
      checksum. No line is skipped, so an empty line fails; every listed file is
      bound, to the checksum of its last line. */
  function ParseMd5sums(lines: seq<string>): (r: Result<map<string, string>, Error>)
    ensures r.Ok? <==> forall i :: 0 <= i < |lines| ==> SplitPair(lines[i], "  ").Some?
    ensures r.Ok? ==> forall f :: f in r.value ==>
              exists i :: 0 <= i < |lines| && lines[i] == r.value[f] + "  " + f
    ensures r.Ok? ==> forall f :: f in r.value ==>
              exists i :: 0 <= i < |lines| && Halves(lines[i], "  ") == (r.value[f], f)
    ensures r.Ok? ==> forall i :: 0 <= i < |lines| ==> Halves(lines[i], "  ").1 in r.value
    ensures r.Ok? ==> forall i :: 0 <= i < |lines| && LastChecksumFor(lines, i) ==>
              r.value[Halves(lines[i], "  ").1] == Halves(lines[i], "  ").0
    ensures r.Err? ==> exists i :: FirstBadLine(lines, "  ", i) && r.error == MalformedLine(lines[i])
  {
    var pairs :- SplitLines(lines, "  ");
    ChecksumsFromLines(lines, pairs);
    ChecksumBindings(lines, pairs);
    Ok(ToMap(Swap(pairs)))
  }

  /** Every pair with its two halves exchanged: checksum files list the
      checksum first, the map is keyed by file name. */
  function Swap(pairs: seq<(string, string)>): (swapped: seq<(string, string)>)
    ensures |swapped| == |pairs|
    ensures forall i :: 0 <= i < |pairs| ==> swapped[i] == (pairs[i].1, pairs[i].0)
  {
    seq(|pairs|, i requires 0 <= i < |pairs| => (pairs[i].1, pairs[i].0))
  }

  /** The pairs of a checksum file: each line split at the two spaces. */
  predicate SplitsInto(lines: seq<string>, pairs: seq<(string, string)>, sep: string)
    requires |sep| > 0
  {
    |pairs| == |lines| && forall i :: 0 <= i < |lines| ==> SplitPair(lines[i], sep) == Some(pairs[i])
  }

  lemma ChecksumsFromLines(lines: seq<string>, pairs: seq<(string, string)>)
    requires SplitsInto(lines, pairs, "  ")
    ensures forall f :: f in ToMap(Swap(pairs)) ==>
              exists i :: 0 <= i < |lines| && lines[i] == ToMap(Swap(pairs))[f] + "  " + f
    ensures forall f :: f in ToMap(Swap(pairs)) ==>
              exists i :: 0 <= i < |lines| && Halves(lines[i], "  ") == (ToMap(Swap(pairs))[f], f)
  {
    var m := ToMap(Swap(pairs));
    forall f | f in m
      ensures exists i :: 0 <= i < |lines| && lines[i] == m[f] + "  " + f
      ensures exists i :: 0 <= i < |lines| && Halves(lines[i], "  ") == (m[f], f)
    {
      ToMapValues(Swap(pairs), f);
      var i :| 0 <= i < |pairs| && Swap(pairs)[i] == (f, m[f]);
      assert SplitPair(lines[i], "  ") == Some(pairs[i]);
      assert Halves(lines[i], "  ") == (m[f], f);
    }
  }

  lemma ChecksumBindings(lines: seq<string>, pairs: seq<(string, string)>)
    requires SplitsInto(lines, pairs, "  ")
    ensures forall i :: 0 <= i < |lines| ==> Halves(lines[i], "  ").1 in ToMap(Swap(pairs))
    ensures forall i :: 0 <= i < |lines| && LastChecksumFor(lines, i) ==>
              ToMap(Swap(pairs))[Halves(lines[i], "  ").1] == Halves(lines[i], "  ").0
  {
    forall i | 0 <= i < |lines|
      ensures Halves(lines[i], "  ").1 in ToMap(Swap(pairs))
      ensures LastChecksumFor(lines, i) ==> ToMap(Swap(pairs))[Halves(lines[i], "  ").1] == Halves(lines[i], "  ").0
    {
      ChecksumBinding(lines, pairs, i);
    }
  }

  /** The file name of line `i` is bound, to its checksum when no later line
      names the same file. */
  lemma ChecksumBinding(lines: seq<string>, pairs: seq<(string, string)>, i: int)
    requires SplitsInto(lines, pairs, "  ") && 0 <= i < |lines|
    ensures Halves(lines[i], "  ").1 in ToMap(Swap(pairs))
    ensures LastChecksumFor(lines, i) ==> ToMap(Swap(pairs))[Halves(lines[i], "  ").1] == Halves(lines[i], "  ").0
  {
    var swapped := Swap(pairs);
    assert swapped[i] == (Halves(lines[i], "  ").1, Halves(lines[i], "  ").0);
    if LastChecksumFor(lines, i) {
      forall j | i < j < |swapped|
        ensures swapped[j].0 != swapped[i].0
      {
        assert swapped[j] == (Halves(lines[j], "  ").1, Halves(lines[j], "  ").0);
      }
    }
  }

  /** The checksum line of the md5sum tool's text mode is read back as written. */
  lemma Md5sumLine(checksum: string, file: string)
    requires ' ' !in checksum && !HasSubstring(file, "  ")
    ensures ParseMd5sums([checksum + "  " + file]) == Ok(map[file := checksum])
  {
    assert "  "[..1] == " ";
    assert !HasSubstring(checksum + " ", "  ") by {
      NoDoubleSpace(checksum + " ");
    }
    SplitPairOfJoin(checksum, file, "  ");
    SingleChecksum(checksum + "  " + file, checksum, file);
  }

  /** A file of one well-formed line binds its file name to its checksum. */
  lemma SingleChecksum(line: string, checksum: string, file: string)
    requires SplitPair(line, "  ") == Some((checksum, file))
    ensures ParseMd5sums([line]) == Ok(map[file := checksum])
  {
    var pairs := [(checksum, file)];
    assert SplitLines([line], "  ") == Ok(pairs) by {
      assert [line][1..] == [];
      assert SplitLines([], "  ") == Ok([]);
      assert [(checksum, file)] + [] == pairs;
    }
    assert Swap(pairs) == [(file, checksum)];
    assert ToMap(Swap(pairs)) == map[file := checksum] by {
      assert Swap(pairs)[..0] == [];
    }
  }

  lemma {:induction false} NoDoubleSpace(s: string)
    requires forall i :: 0 <= i < |s| - 1 ==> !(s[i] == ' ' && s[i + 1] == ' ')
    ensures !HasSubstring(s, "  ")
    decreases |s|
  {
    if |s| > 0 {
      NoDoubleSpace(s[1..]);
      if |s| >= 2 {
        assert !(s[0] == ' ' && s[1] == ' ');
      }
    }
  }

  /** The example of a checksum file: one matching line. */
  lemma Md5sumExample()
    ensures ParseMd5sums(["abc123  foo.zip"]) == Ok(map["foo.zip" := "abc123"])
  {
    assert "abc123  foo.zip" == "abc123" + "  " + "foo.zip";
    NoDoubleSpace("foo.zip");
    Md5sumLine("abc123", "foo.zip");
  }

  /** The md5sum tool's binary mode (`checksum *filename`) is not understood. */
  lemma BinaryModeLineFails()
    ensures ParseMd5sums(["abc123 *foo.zip"]).Err?
  {
    NoDoubleSpace("abc123 *foo.zip");
    SplitWithoutSep("abc123 *foo.zip", "  ");
  }

  /** A `key=value` line is read back as written when neither side holds `=`. */
  lemma PropertyLine(key: string, value: string)
    requires '=' !in key && '=' !in value
    requires key != [] && key[0] != '#'
    ensures ParseProperties([key + "=" + value]) == Ok(map[key := value])
  {
    var line := key + "=" + value;
    assert line[0] == key[0];
    HasSingleChar(key, '=');
    HasSingleChar(value, '=');
    assert "="[..0] == [];
    assert key + "="[..0] == key;
    SplitPairOfJoin(key, value, "=");
    assert PropertyLines([line]) == [line];
  }
}
