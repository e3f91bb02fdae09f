/** The dashboard breadcrumb: the path segments after `/dashboard`, a title
    for each and the link of each crumb. Rendering is not modelled; a crumb
    is its title, its link and whether it is the last one. */
module Breadcrumb {
  import Text

  /** The regular-expression class `\w`: ASCII letters, digits and `_`. */
  predicate IsWordChar(c: char) {
    ('a' <= c <= 'z') || ('A' <= c <= 'Z') || ('0' <= c <= '9') || c == '_'
  }

  /** `segment.replace(/[-_]/g, " ")` */
  function Despace(s: string): (t: string)
    ensures |t| == |s|
    ensures forall i :: 0 <= i < |s| ==> t[i] == if s[i] == '-' || s[i] == '_' then ' ' else s[i]
  {
    seq(|s|, i requires 0 <= i < |s| => if s[i] == '-' || s[i] == '_' then ' ' else s[i])
  }

  /** The `\b\w` match at `i`: a word character at the start or after a
      non-word character (`prevIsWord` says what stands before the string). */
  predicate WordStartAfter(t: string, i: int, prevIsWord: bool)
    requires 0 <= i < |t|
  {
    IsWordChar(t[i]) && if i == 0 then !prevIsWord else !IsWordChar(t[i - 1])
  }

  predicate WordStart(t: string, i: int)
    requires 0 <= i < |t|
  {
    WordStartAfter(t, i, false)
  }

  /** `.replace(/\b\w/g, (c) => c.toUpperCase())`, scanning left to right. */
  function Capitalize(t: string, prevIsWord: bool): string
    decreases |t|
  {
    if t == [] then []
    else
      var c := if IsWordChar(t[0]) && !prevIsWord then Text.ToUpperAscii(t[0]) else t[0];
      [c] + Capitalize(t[1..], IsWordChar(t[0]))
  }

  /** The scan upper-cases exactly the characters that start a word. */
  lemma {:induction false} CapitalizeSpec(t: string, prevIsWord: bool)
    ensures |Capitalize(t, prevIsWord)| == |t|
    ensures forall i :: 0 <= i < |t| ==>
      Capitalize(t, prevIsWord)[i] == if WordStartAfter(t, i, prevIsWord) then Text.ToUpperAscii(t[i]) else t[i]
    decreases |t|
  {
    if t != [] {
      CapitalizeSpec(t[1..], IsWordChar(t[0]));
      var r := Capitalize(t, prevIsWord);
      forall i | 1 <= i < |t|
        ensures r[i] == if WordStartAfter(t, i, prevIsWord) then Text.ToUpperAscii(t[i]) else t[i]
      {
        assert r[i] == Capitalize(t[1..], IsWordChar(t[0]))[i - 1];
        assert WordStartAfter(t, i, prevIsWord) == WordStartAfter(t[1..], i - 1, IsWordChar(t[0]));
      }
    }
  }

  /** `toTitle(segment)` */
  function ToTitle(segment: string): string {
    Capitalize(Despace(segment), false)
  }

  /** `toTitle` keeps the length, turns every `-` and `_` into a space,
      upper-cases each character that starts a word and keeps every other one. */
  lemma {:induction false} ToTitleSpec(s: string)
    ensures |ToTitle(s)| == |s|
    ensures forall i :: 0 <= i < |s| ==>
      ToTitle(s)[i] == if s[i] == '-' || s[i] == '_' then ' '
                       else if WordStart(Despace(s), i) then Text.ToUpperAscii(s[i])
                       else s[i]
    ensures '-' !in ToTitle(s) && '_' !in ToTitle(s)
  {
    CapitalizeSpec(Despace(s), false);
  }

  lemma UpperKeepsWordChar(c: char)
    ensures IsWordChar(Text.ToUpperAscii(c)) == IsWordChar(c)
    ensures Text.ToUpperAscii(Text.ToUpperAscii(c)) == Text.ToUpperAscii(c)
  {
  }

  /** A title is its own title. */
  lemma {:induction false} ToTitleIdempotent(s: string)
    ensures ToTitle(ToTitle(s)) == ToTitle(s)
  {
    var t := ToTitle(s);
    var d := Despace(s);
    ToTitleSpec(s);
    ToTitleSpec(t);
    CapitalizeSpec(d, false);
    assert Despace(t) == t;
    forall i | 0 <= i < |t|
      ensures ToTitle(t)[i] == t[i]
    {
      UpperKeepsWordChar(d[i]);
      if i > 0 {
        UpperKeepsWordChar(d[i - 1]);
      }
      assert IsWordChar(t[i]) == IsWordChar(d[i]);
      assert i > 0 ==> IsWordChar(t[i - 1]) == IsWordChar(d[i - 1]);
      assert WordStart(t, i) == WordStart(d, i);
    }
  }

  /** `.filter((s) => s && s !== "dashboard")` */
  function KeepSegments(parts: seq<string>): (r: seq<string>)
    ensures |r| <= |parts|
    ensures forall x :: x in r <==> x in parts && x != "" && x != "dashboard"
  {
    if parts == [] then []
    else
      var rest := KeepSegments(parts[1..]);
      assert forall x :: x in parts <==> x == parts[0] || x in parts[1..];
      if parts[0] != "" && parts[0] != "dashboard" then [parts[0]] + rest else rest
  }

  /** The breadcrumb's segments of `pathname`. */
  function Segments(pathname: string): (segs: seq<string>)
    ensures forall x :: x in segs <==> x in Text.Split(pathname, '/') && x != "" && x != "dashboard"
    ensures forall i :: 0 <= i < |segs| ==> segs[i] != "" && segs[i] != "dashboard" && '/' !in segs[i]
  {
    var parts := Text.Split(pathname, '/');
    var segs := KeepSegments(parts);
    assert forall i :: 0 <= i < |segs| ==> segs[i] in parts;
    segs
  }

  /** The filter keeps the pieces in order, each as often as it occurs:
      filtering a concatenation filters each part. */
  lemma {:induction false} KeepSegmentsConcat(a: seq<string>, b: seq<string>)
    ensures KeepSegments(a + b) == KeepSegments(a) + KeepSegments(b)
    decreases |a|
  {
    if a == [] {
      assert a + b == b;
    } else {
      assert (a + b)[0] == a[0] && (a + b)[1..] == a[1..] + b;
      KeepSegmentsConcat(a[1..], b);
    }
  }

  /** A single piece is kept, once, exactly when it is non-empty and not `dashboard`. */
  lemma KeepSegmentsSingle(x: string)
    ensures KeepSegments([x]) == if x != "" && x != "dashboard" then [x] else []
  {
    assert [x][1..] == [];
  }

  /** A list of pieces that are all kept comes through unchanged. */
  lemma {:induction false} KeepSegmentsAllKept(parts: seq<string>)
    requires forall i :: 0 <= i < |parts| ==> parts[i] != "" && parts[i] != "dashboard"
    ensures KeepSegments(parts) == parts
    decreases |parts|
  {
    if parts != [] {
      KeepSegmentsAllKept(parts[1..]);
    }
  }

  /** The segments of two paths joined by `/` are those of the first followed
      by those of the second. */
  lemma {:induction false} SegmentsConcat(a: string, b: string)
    ensures Segments(a + "/" + b) == Segments(a) + Segments(b)
  {
    Text.SplitConcat(a, b, '/');
    KeepSegmentsConcat(Text.Split(a, '/'), Text.Split(b, '/'));
  }

  /** A path without `/` is one segment, or none when it is empty or `dashboard`. */
  lemma {:induction false} SegmentsOfPiece(x: string)
    requires '/' !in x
    ensures Segments(x) == if x != "" && x != "dashboard" then [x] else []
  {
    Text.SplitWithoutSep(x, '/');
    KeepSegmentsSingle(x);
  }

  const DashboardPrefix := "/dashboard/"

  /** The link of crumb `i`: the dashboard followed by the first `i + 1` segments. */
  function Href(segs: seq<string>, i: nat): string
    requires i < |segs|
  {
    DashboardPrefix + Text.Join(segs[..i + 1], '/')
  }

  datatype Crumb = Crumb(title: string, href: string, isLast: bool)

  /** `breadcrumbItems`: one crumb per segment, in order. */
  function Crumbs(segs: seq<string>): (r: seq<Crumb>)
    ensures |r| == |segs|
    ensures forall i :: 0 <= i < |segs| ==>
      r[i].title == ToTitle(segs[i]) && r[i].href == Href(segs, i) && (r[i].isLast <==> i == |segs| - 1)
  {
    seq(|segs|, i requires 0 <= i < |segs| => Crumb(ToTitle(segs[i]), Href(segs, i), i == |segs| - 1))
  }

  /** The separator after the root crumb is shown iff there is a segment. */
  predicate ShowRootSeparator(segs: seq<string>) {
    |segs| > 0
  }

  /** The root separator appears exactly when some crumb follows it. */
  lemma RootSeparatorIff(segs: seq<string>)
    ensures ShowRootSeparator(segs) <==> |Crumbs(segs)| > 0
  {
  }

  /** Each link extends the previous one by `/` and the next segment, so it is
      a proper prefix of the next. */
  lemma {:induction false} HrefExtends(segs: seq<string>, i: nat)
    requires i + 1 < |segs|
    ensures Href(segs, i + 1) == Href(segs, i) + "/" + segs[i + 1]
    ensures |Href(segs, i)| < |Href(segs, i + 1)| && Href(segs, i + 1)[..|Href(segs, i)|] == Href(segs, i)
  {
    assert segs[..i + 2] == segs[..i + 1] + [segs[i + 1]];
    Text.JoinSnoc(segs[..i + 1], segs[i + 1], '/');
  }

  /** A crumb's link names exactly the segments up to it: splitting the part
      after `/dashboard/` gives them back. */
  lemma {:induction false} HrefRoundTrip(pathname: string, i: nat)
    requires i < |Segments(pathname)|
    ensures var segs := Segments(pathname); var h := Href(segs, i);
      |h| >= |DashboardPrefix| && h[..|DashboardPrefix|] == DashboardPrefix &&
      Text.Split(h[|DashboardPrefix|..], '/') == segs[..i + 1]
  {
    var segs := Segments(pathname);
    var prefix := segs[..i + 1];
    var h := Href(segs, i);
    assert h[|DashboardPrefix|..] == Text.Join(prefix, '/');
    Text.SplitJoin(prefix, '/');
  }

  /** Every crumb but the last links strictly deeper than the one before it;
      links are pairwise distinct. */
  lemma {:induction false} HrefsDistinct(segs: seq<string>, i: nat, j: nat)
    requires i < j < |segs|
    ensures |Href(segs, i)| < |Href(segs, j)|
    decreases j - i
  {
    HrefExtends(segs, j - 1);
    if i < j - 1 {
      HrefsDistinct(segs, i, j - 1);
    }
  }

  /** Following crumb `i`'s link shows exactly the crumbs up to `i`: the
      segments of the link are the first `i + 1` segments, in order. */
  lemma {:induction false} HrefSegments(pathname: string, i: nat)
    requires i < |Segments(pathname)|
    ensures Segments(Href(Segments(pathname), i)) == Segments(pathname)[..i + 1]
  {
    var segs := Segments(pathname);
    var prefix := segs[..i + 1];
    var j := Text.Join(prefix, '/');
    assert Href(segs, i) == "" + "/" + ("dashboard" + "/" + j);
    SegmentsConcat("", "dashboard" + "/" + j);
    SegmentsConcat("dashboard", j);
    SegmentsOfPiece("");
    SegmentsOfPiece("dashboard");
    Text.SplitJoin(prefix, '/');
    KeepSegmentsAllKept(prefix);
  }
}
