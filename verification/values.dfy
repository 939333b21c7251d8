/**
 The label-path value of the ltree column type and its decomposition into
 labels. `LabelPath.Labels` follows Ruby's `String#split('.')`: the path is cut
 at every `.`, empty fields at the front and in the middle are kept, and empty
 fields at the end are dropped (so the empty path has no labels at all).
 */
module Values {

  /** The label separator of an ltree path. */
  const Dot: char := '.'

  /** No character of `s` is the separator. */
  predicate DotFree(s: string) {
    Dot !in s
  }

  /** Every field of `s` between separators, trailing empty fields included;
      there is always at least one, and none contains the separator. */
  function Fields(s: string): (r: seq<string>)
    ensures |r| >= 1
    ensures forall i :: 0 <= i < |r| ==> DotFree(r[i])
    decreases |s|
  {
    if |s| == 0 then [""]
    else
      var rest := Fields(s[1..]);
      if s[0] == Dot then [""] + rest
      else [[s[0]] + rest[0]] + rest[1..]
  }

  /** The longest prefix of `fs` that does not end in an empty field; what is
      cut off consists of empty fields only. */
  function DropTrailingEmpty(fs: seq<string>): (r: seq<string>)
    ensures |r| <= |fs| && r == fs[..|r|]
    ensures forall i :: |r| <= i < |fs| ==> fs[i] == ""
    ensures r == [] || r[|r| - 1] != ""
    decreases |fs|
  {
    if |fs| == 0 then []
    else if fs[|fs| - 1] == "" then DropTrailingEmpty(fs[..|fs| - 1])
    else fs
  }

  /** Ruby's `String#split` with the separator `.` and no limit. */
  function Split(s: string): seq<string> {
    DropTrailingEmpty(Fields(s))
  }

  /** The labels written out with the separator between neighbours. */
  function Join(labels: seq<string>): string
    decreases |labels|
  {
    if |labels| == 0 then ""
    else if |labels| == 1 then labels[0]
    else labels[0] + [Dot] + Join(labels[1..])
  }

  /** An ltree value: its textual path, from which the labels are derived. */
  datatype LabelPath = LabelPath(path: string) {

    /** The labels of the path; none of them contains the separator, and there
        are never more of them than the path has fields. */
    function Labels(): (r: seq<string>)
      ensures forall i :: 0 <= i < |r| ==> DotFree(r[i])
      ensures |r| <= multiset(path)[Dot] + 1
      ensures r == [] || r[|r| - 1] != ""
    {
      FieldsCount(path);
      Split(path)
    }
  }

  // ---------------------------------------------------------------------
  // Fields and Join are inverse to each other.

  /** A path with k separators has exactly k + 1 fields. */
  lemma {:induction false} FieldsCount(s: string)
    ensures |Fields(s)| == multiset(s)[Dot] + 1
    decreases |s|
  {
    if |s| > 0 {
      FieldsCount(s[1..]);
      assert s == [s[0]] + s[1..];
      assert multiset(s) == multiset{s[0]} + multiset(s[1..]);
    }
  }

  /** Joining the fields of a string gives back the string. */
  lemma {:induction false} JoinFields(s: string)
    ensures Join(Fields(s)) == s
    decreases |s|
  {
    if |s| > 0 {
      var rest := Fields(s[1..]);
      JoinFields(s[1..]);
      if s[0] == Dot {
        assert Fields(s) == [""] + rest;
        JoinCons("", rest);
        assert "" + [Dot] + s[1..] == s;
      } else {
        assert Fields(s) == [[s[0]] + rest[0]] + rest[1..];
        JoinTail(s[0], rest);
        assert [s[0]] + s[1..] == s;
      }
    }
  }

  /** Prepending a character to the first label prepends it to the join. */
  lemma JoinTail(c: char, rest: seq<string>)
    requires |rest| >= 1
    ensures Join([[c] + rest[0]] + rest[1..]) == [c] + Join(rest)
  {
  }

  /** Joining a label in front of at least one other puts a separator between. */
  lemma JoinCons(x: string, rest: seq<string>)
    requires |rest| >= 1
    ensures Join([x] + rest) == x + [Dot] + Join(rest)
  {
  }

  /** A separator-free prefix `a` of `a + t` glues onto the first field of `t`. */
  lemma {:induction false} FieldsOfPrefix(a: string, t: string)
    requires DotFree(a)
    ensures Fields(a + t) == [a + Fields(t)[0]] + Fields(t)[1..]
    decreases |a|
  {
    if |a| > 0 {
      assert (a + t)[0] == a[0] && a[0] in a;
      assert (a + t)[1..] == a[1..] + t;
      assert DotFree(a[1..]) by {
        assert forall c :: c in a[1..] ==> c in a;
      }
      FieldsOfPrefix(a[1..], t);
      var rest := Fields(a[1..] + t);
      var f := Fields(t);
      assert Fields(a + t) == [[a[0]] + rest[0]] + rest[1..];
      assert rest[0] == a[1..] + f[0];
      assert rest[1..] == f[1..];
      assert [a[0]] + (a[1..] + f[0]) == a + f[0];
    } else {
      assert a + t == t;
      var f := Fields(t);
      assert f == [f[0]] + f[1..];
      assert a + f[0] == f[0];
    }
  }

  /** A separator-free string is its own single field. */
  lemma FieldsOfDotFree(a: string)
    requires DotFree(a)
    ensures Fields(a) == [a]
  {
    FieldsOfPrefix(a, "");
    assert a + "" == a;
  }

  /** A separator-free field followed by the separator is peeled off whole. */
  lemma FieldsOfCons(a: string, t: string)
    requires DotFree(a)
    ensures Fields(a + [Dot] + t) == [a] + Fields(t)
  {
    FieldsOfPrefix(a, [Dot] + t);
    assert a + [Dot] + t == a + ([Dot] + t);
    assert ([Dot] + t)[1..] == t;
    assert Fields([Dot] + t) == [""] + Fields(t);
    assert a + "" == a;
  }

  /** Splitting the join of separator-free fields gives back those fields. */
  lemma {:induction false} FieldsOfJoin(fields: seq<string>)
    requires |fields| >= 1
    requires forall i :: 0 <= i < |fields| ==> DotFree(fields[i])
    ensures Fields(Join(fields)) == fields
    decreases |fields|
  {
    if |fields| == 1 {
      FieldsOfDotFree(fields[0]);
    } else {
      var rest := fields[1..];
      assert forall i :: 0 <= i < |rest| ==> DotFree(rest[i]) by {
        forall i | 0 <= i < |rest| ensures DotFree(rest[i]) {
          assert rest[i] == fields[i + 1];
        }
      }
      FieldsOfJoin(rest);
      FieldsOfCons(fields[0], Join(rest));
      assert fields == [fields[0]] + rest;
    }
  }

  /** A path that is non-empty and does not end in the separator has a
      non-empty last field. */
  lemma {:induction false} LastFieldNonEmpty(s: string)
    requires |s| > 0 && s[|s| - 1] != Dot
    ensures Fields(s)[|Fields(s)| - 1] != ""
    decreases |s|
  {
    var rest := Fields(s[1..]);
    if |s| == 1 {
      assert rest == [""];
    } else {
      assert s[1..][|s[1..]| - 1] == s[|s| - 1];
      LastFieldNonEmpty(s[1..]);
    }
  }

  /** A trailing separator adds one trailing empty field. */
  lemma {:induction false} FieldsOfTrailingDot(s: string)
    ensures Fields(s + [Dot]) == Fields(s) + [""]
    decreases |s|
  {
    if |s| == 0 {
      assert Fields([Dot]) == [""] + Fields([]);
    } else {
      assert (s + [Dot])[1..] == s[1..] + [Dot];
      FieldsOfTrailingDot(s[1..]);
      var rest := Fields(s[1..]);
      if s[0] != Dot {
        assert (rest + [""])[0] == rest[0];
        assert (rest + [""])[1..] == rest[1..] + [""];
      }
    }
  }

  // ---------------------------------------------------------------------
  // DropTrailingEmpty is determined by its contract.

  /** Any prefix of `fs` that is followed by empty fields only and does not end
      in an empty field is the one DropTrailingEmpty computes. */
  lemma DropTrailingEmptyUnique(fs: seq<string>, r: seq<string>)
    requires |r| <= |fs| && r == fs[..|r|]
    requires forall i :: |r| <= i < |fs| ==> fs[i] == ""
    requires r == [] || r[|r| - 1] != ""
    ensures DropTrailingEmpty(fs) == r
  {
  }

  /** A field in front of the others survives unless it is empty and nothing
      non-empty follows it. */
  lemma DropTrailingEmptyCons(a: string, fs: seq<string>)
    ensures DropTrailingEmpty([a] + fs) ==
      (if a == "" && DropTrailingEmpty(fs) == [] then [] else [a] + DropTrailingEmpty(fs))
  {
    var d := DropTrailingEmpty(fs);
    var all := [a] + fs;
    if a == "" && d == [] {
      DropTrailingEmptyUnique(all, []);
    } else {
      var r := [a] + d;
      assert r == all[..|r|];
      DropTrailingEmptyUnique(all, r);
    }
  }

  // ---------------------------------------------------------------------
  // Properties of LabelPath.Labels.

  /** The empty path has no labels. */
  lemma LabelsOfEmpty()
    ensures LabelPath("").Labels() == []
  {
  }

  /** A non-empty path without separators is its own single label. */
  lemma LabelsOfDotFree(s: string)
    requires s != "" && DotFree(s)
    ensures LabelPath(s).Labels() == [s]
  {
    FieldsOfDotFree(s);
  }

  /** A non-empty path that does not end in the separator is recovered by
      joining its labels. */
  lemma LabelsJoinRoundTrip(p: string)
    requires |p| > 0 && p[|p| - 1] != Dot
    ensures Join(LabelPath(p).Labels()) == p
  {
    LastFieldNonEmpty(p);
    DropTrailingEmptyUnique(Fields(p), Fields(p));
    JoinFields(p);
  }

  /** A non-empty path that does not end in the separator has one label more
      than it has separators. */
  lemma LabelsCount(p: string)
    requires |p| > 0 && p[|p| - 1] != Dot
    ensures |LabelPath(p).Labels()| == multiset(p)[Dot] + 1
  {
    FieldsCount(p);
    LastFieldNonEmpty(p);
    DropTrailingEmptyUnique(Fields(p), Fields(p));
  }

  /** Joining separator-free labels whose last one is non-empty and splitting
      the result gives back exactly those labels. */
  lemma {:induction false} LabelsOfJoin(labels: seq<string>)
    requires forall i :: 0 <= i < |labels| ==> DotFree(labels[i])
    requires labels == [] || labels[|labels| - 1] != ""
    ensures LabelPath(Join(labels)).Labels() == labels
  {
    if labels != [] {
      FieldsOfJoin(labels);
      DropTrailingEmptyUnique(labels, labels);
    }
  }

  /** A trailing separator is dropped along with the empty field it opens. */
  lemma LabelsDropTrailingDot(p: string)
    ensures LabelPath(p + [Dot]).Labels() == LabelPath(p).Labels()
  {
    FieldsOfTrailingDot(p);
    var fs := Fields(p);
    assert (fs + [""])[..|fs|] == fs;
  }

  /** A leading or interior field is kept, even when empty, as long as a
      non-empty label follows it somewhere. */
  lemma LabelsKeepLeadingField(a: string, t: string)
    requires DotFree(a)
    ensures LabelPath(a + [Dot] + t).Labels() ==
      (if a == "" && LabelPath(t).Labels() == [] then [] else [a] + LabelPath(t).Labels())
  {
    FieldsOfCons(a, t);
    DropTrailingEmptyCons(a, Fields(t));
  }

  /** An empty label between two separators is kept (`"a..b"` has the
      labels `"a"`, `""` and `"b"`). */
  lemma LabelsKeepInteriorEmpty(a: string, b: string)
    requires DotFree(a) && DotFree(b) && b != ""
    ensures LabelPath(a + [Dot, Dot] + b).Labels() == [a, "", b]
  {
    JoinCons("", [b]);
    JoinCons(a, ["", b]);
    assert [a, "", b] == [a] + ["", b] && ["", b] == [""] + [b];
    assert a + [Dot] + ("" + [Dot] + b) == a + [Dot, Dot] + b;
    LabelsOfJoin([a, "", b]);
  }

  /** A leading separator gives an empty first label (`".a"` has the labels
      `""` and `"a"`). */
  lemma LabelsKeepLeadingEmpty(b: string)
    requires DotFree(b) && b != ""
    ensures LabelPath([Dot] + b).Labels() == ["", b]
  {
    JoinCons("", [b]);
    assert "" + [Dot] + b == [Dot] + b;
    LabelsOfJoin(["", b]);
  }

  /** A path made of separators only has no labels at all. */
  lemma {:induction false} LabelsOfDotsOnly(n: nat)
    ensures LabelPath(seq(n, _ => Dot)).Labels() == []
  {
    if n > 0 {
      LabelsOfDotsOnly(n - 1);
      var rest: string := seq(n - 1, _ => Dot);
      assert seq(n, _ => Dot) == "" + [Dot] + rest;
      LabelsKeepLeadingField("", rest);
    }
  }
}
