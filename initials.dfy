/** The avatar initials of the sidebar user menu: `getInitials(name)`. */
module Initials {
  import Text

  /** `s.split(c)` where every white-space character is a separator. */
  function SplitWs(s: string): (parts: seq<string>)
    ensures |parts| >= 1
    decreases |s|
  {
    if |s| == 0 then [""]
    else
      var rest := SplitWs(s[1..]);
      if Text.IsWhitespace(s[0]) then [""] + rest
      else [[s[0]] + rest[0]] + rest[1..]
  }

  /** `.filter(Boolean)` on strings: drop the empty ones. */
  function KeepNonEmpty(parts: seq<string>): (r: seq<string>)
    ensures forall i :: 0 <= i < |r| ==> r[i] != "" && r[i] in parts
  {
    if parts == [] then []
    else if parts[0] == "" then KeepNonEmpty(parts[1..])
    else [parts[0]] + KeepNonEmpty(parts[1..])
  }

  /** `name.trim().split(/\s+/).filter(Boolean)`: the words of `name`. Trimming
      and splitting on runs of white space, then dropping empty pieces, leaves
      the same pieces as splitting at every white-space character and
      dropping the empty ones, which is what is written here. */
  function Words(name: string): (words: seq<string>)
    ensures forall i :: 0 <= i < |words| ==> words[i] != ""
  {
    KeepNonEmpty(SplitWs(name))
  }

  /** `getInitials(name)`: the first letters of the first and last words,
      upper-cased; the first word counts twice when it is the only one. */
  function GetInitials(name: string): (r: string)
    ensures |r| == 0 || |r| == 2
  {
    var parts := Words(name);
    if |parts| == 0 then ""
    else
      var first := parts[0][0];
      var last := if |parts| > 1 then parts[|parts| - 1][0] else first;
      Text.UpperCase([first, last])
  }

  // ----- Splitting -----

  /** The pieces hold no white space and only characters of the string. */
  lemma {:induction false} SplitWsPieces(s: string)
    ensures forall i, k :: 0 <= i < |SplitWs(s)| && 0 <= k < |SplitWs(s)[i]| ==>
      !Text.IsWhitespace(SplitWs(s)[i][k]) && SplitWs(s)[i][k] in s
    decreases |s|
  {
    if |s| > 0 {
      SplitWsPieces(s[1..]);
      assert forall ch :: ch in s[1..] ==> ch in s;
    }
  }

  /** The words hold no white space and only characters of the name. */
  lemma {:induction false} WordsChars(name: string)
    ensures forall i, k :: 0 <= i < |Words(name)| && 0 <= k < |Words(name)[i]| ==>
      !Text.IsWhitespace(Words(name)[i][k]) && Words(name)[i][k] in name
  {
    SplitWsPieces(name);
    var parts := SplitWs(name);
    var words := Words(name);
    assert forall i :: 0 <= i < |words| ==> exists j :: 0 <= j < |parts| && words[i] == parts[j];
  }

  /** A separator splits a string into the pieces of its two sides. */
  lemma {:induction false} SplitWsConcat(a: string, c: char, b: string)
    requires Text.IsWhitespace(c)
    ensures SplitWs(a + [c] + b) == SplitWs(a) + SplitWs(b)
    decreases |a|
  {
    var s := a + [c] + b;
    if |a| == 0 {
      assert s == [c] + b && s[1..] == b;
    } else {
      assert s[0] == a[0] && s[1..] == a[1..] + [c] + b;
      SplitWsConcat(a[1..], c, b);
    }
  }

  /** A string without white space is a single piece. */
  lemma {:induction false} SplitWsWord(w: string)
    requires forall k :: 0 <= k < |w| ==> !Text.IsWhitespace(w[k])
    ensures SplitWs(w) == [w]
    decreases |w|
  {
    if |w| > 0 {
      SplitWsWord(w[1..]);
      assert [w[0]] + w[1..] == w;
    }
  }

  lemma {:induction false} KeepConcat(x: seq<string>, y: seq<string>)
    ensures KeepNonEmpty(x + y) == KeepNonEmpty(x) + KeepNonEmpty(y)
    decreases |x|
  {
    if x != [] {
      assert (x + y)[0] == x[0] && (x + y)[1..] == x[1..] + y;
      KeepConcat(x[1..], y);
    } else {
      assert x + y == y;
    }
  }

  /** Splitting `c + s` for white space `c` prepends one empty piece. */
  lemma LeadingSeparator(c: char, s: string)
    requires Text.IsWhitespace(c)
    ensures SplitWs([c] + s) == [""] + SplitWs(s)
  {
    assert ([c] + s)[1..] == s;
  }

  /** A name without visible characters has no words. */
  lemma {:induction false} WordsEmptyIff(name: string)
    ensures Words(name) == [] <==> Text.IsBlank(name)
    decreases |name|
  {
    if |name| > 0 {
      var rest := name[1..];
      WordsEmptyIff(rest);
      assert Text.IsBlank(name) <==> Text.IsWhitespace(name[0]) && Text.IsBlank(rest) by {
        assert forall i :: 1 <= i < |name| ==> name[i] == rest[i - 1];
      }
      if Text.IsWhitespace(name[0]) {
        assert name == [name[0]] + rest;
        LeadingSeparator(name[0], rest);
        KeepConcat([""], SplitWs(rest));
      } else {
        assert SplitWs(name)[0] != "";
      }
    }
  }

  // ----- The promises of getInitials -----

  /** An empty or all-white-space name gives `""`, and only such a name does. */
  lemma {:induction false} BlankNameNoInitials(name: string)
    ensures GetInitials(name) == "" <==> Text.IsBlank(name)
  {
    WordsEmptyIff(name);
  }

  /** A single word gives its first character twice, upper-cased. */
  lemma {:induction false} SingleWord(w: string)
    requires w != ""
    requires forall k :: 0 <= k < |w| ==> !Text.IsWhitespace(w[k])
    ensures GetInitials(w) == [Text.ToUpperAscii(w[0]), Text.ToUpperAscii(w[0])]
  {
    SplitWsWord(w);
    assert [w][1..] == [];
    assert KeepNonEmpty([w]) == [w] + KeepNonEmpty([]);
  }

  /** "alice" gives "AA". */
  lemma {:induction false} AliceGivesAA()
    ensures GetInitials("alice") == "AA"
  {
    SingleWord("alice");
  }

  /** Two words give their first characters, upper-cased. */
  lemma {:induction false} TwoWords(w1: string, c: char, w2: string)
    requires w1 != "" && w2 != "" && Text.IsWhitespace(c)
    requires forall k :: 0 <= k < |w1| ==> !Text.IsWhitespace(w1[k])
    requires forall k :: 0 <= k < |w2| ==> !Text.IsWhitespace(w2[k])
    ensures GetInitials(w1 + [c] + w2) == [Text.ToUpperAscii(w1[0]), Text.ToUpperAscii(w2[0])]
  {
    SplitWsConcat(w1, c, w2);
    SplitWsWord(w1);
    SplitWsWord(w2);
    KeepConcat([w1], [w2]);
    assert Words(w1 + [c] + w2) == [w1, w2];
  }

  /** With more than two words the middle ones are ignored: whatever stands
      between the first and the last word, only their first characters count. */
  lemma {:induction false} MiddleWordsIgnored(w1: string, c: char, middle: string, d: char, w2: string)
    requires w1 != "" && w2 != "" && Text.IsWhitespace(c) && Text.IsWhitespace(d)
    requires forall k :: 0 <= k < |w1| ==> !Text.IsWhitespace(w1[k])
    requires forall k :: 0 <= k < |w2| ==> !Text.IsWhitespace(w2[k])
    ensures GetInitials(w1 + [c] + middle + [d] + w2) == [Text.ToUpperAscii(w1[0]), Text.ToUpperAscii(w2[0])]
  {
    var name := w1 + [c] + middle + [d] + w2;
    var tail := middle + [d] + w2;
    assert name == w1 + [c] + tail;
    var pm := SplitWs(middle);
    SplitWsWord(w1);
    SplitWsWord(w2);
    SplitWsConcat(middle, d, w2);
    assert SplitWs(tail) == pm + [w2];
    SplitWsConcat(w1, c, tail);
    assert SplitWs(name) == [w1] + (pm + [w2]);
    KeepConcat(pm, [w2]);
    KeepConcat([w1], pm + [w2]);
    assert KeepNonEmpty([w1]) == [w1] + KeepNonEmpty([]);
    assert KeepNonEmpty([w2]) == [w2] + KeepNonEmpty([]);
    var words := [w1] + KeepNonEmpty(pm) + [w2];
    assert Words(name) == words;
    assert |words| >= 2 && words[0] == w1 && words[|words| - 1] == w2;
    InitialsOfWords(name);
  }

  /** With two or more words, the initials are those of the first and the last. */
  lemma InitialsOfWords(name: string)
    requires |Words(name)| >= 2
    ensures GetInitials(name) ==
      [Text.ToUpperAscii(Words(name)[0][0]), Text.ToUpperAscii(Words(name)[|Words(name)| - 1][0])]
  {
  }

  /** Leading white space does not change the words. */
  lemma {:induction false} LeadingWhitespace(c: char, name: string)
    requires Text.IsWhitespace(c)
    ensures Words([c] + name) == Words(name)
    ensures GetInitials([c] + name) == GetInitials(name)
  {
    LeadingSeparator(c, name);
    KeepConcat([""], SplitWs(name));
  }

  /** Trailing white space does not change the words. */
  lemma {:induction false} TrailingWhitespace(name: string, c: char)
    requires Text.IsWhitespace(c)
    ensures Words(name + [c]) == Words(name)
    ensures GetInitials(name + [c]) == GetInitials(name)
  {
    assert name + [c] == name + [c] + "";
    SplitWsConcat(name, c, "");
    KeepConcat(SplitWs(name), [""]);
  }

  /** A run of two white-space characters acts like one. */
  lemma {:induction false} RepeatedWhitespace(a: string, c: char, d: char, b: string)
    requires Text.IsWhitespace(c) && Text.IsWhitespace(d)
    ensures Words(a + [c, d] + b) == Words(a + [c] + b)
    ensures GetInitials(a + [c, d] + b) == GetInitials(a + [c] + b)
  {
    var pa, pb := SplitWs(a), SplitWs(b);
    var twice := a + [c, d] + b;
    assert twice == a + [c] + ([d] + b) by {
      assert [c, d] + b == [c] + ([d] + b);
    }
    SplitWsConcat(a, c, [d] + b);
    LeadingSeparator(d, b);
    assert SplitWs(twice) == pa + ([""] + pb);
    SplitWsConcat(a, c, b);
    assert SplitWs(a + [c] + b) == pa + pb;
    assert pa + ([""] + pb) == (pa + [""]) + pb;
    KeepConcat(pa + [""], pb);
    KeepConcat(pa, [""]);
    KeepConcat(pa, pb);
    var ka, kb := KeepNonEmpty(pa), KeepNonEmpty(pb);
    assert KeepNonEmpty([""]) == [];
    assert KeepNonEmpty(pa + [""]) == ka;
    assert Words(twice) == ka + kb;
    assert Words(a + [c] + b) == ka + kb;
  }

  /** Position `k` holds the first character of `name` that is not white space. */
  predicate FirstVisible(name: string, k: int) {
    && 0 <= k < |name|
    && !Text.IsWhitespace(name[k])
    && (forall j :: 0 <= j < k ==> Text.IsWhitespace(name[j]))
  }

  /** A name that is not blank has a first visible character. */
  lemma {:induction false} FirstVisibleExists(name: string)
    requires !Text.IsBlank(name)
    ensures exists k :: FirstVisible(name, k)
    decreases |name|
  {
    if Text.IsWhitespace(name[0]) {
      var rest := name[1..];
      assert !Text.IsBlank(rest) by {
        var i :| 0 <= i < |name| && !Text.IsWhitespace(name[i]);
        assert rest[i - 1] == name[i];
      }
      FirstVisibleExists(rest);
      var k :| FirstVisible(rest, k);
      assert FirstVisible(name, k + 1) by {
        forall j | 0 <= j < k + 1
          ensures Text.IsWhitespace(name[j])
        {
          if j > 0 { assert name[j] == rest[j - 1]; }
        }
      }
    } else {
      assert FirstVisible(name, 0);
    }
  }

  /** The first word starts at the first visible character. */
  lemma {:induction false} FirstWordStart(name: string, k: int)
    requires FirstVisible(name, k)
    ensures |Words(name)| > 0 && Words(name)[0][0] == name[k]
    decreases k
  {
    var rest := name[1..];
    var r := SplitWs(rest);
    if k == 0 {
      assert SplitWs(name) == [[name[0]] + r[0]] + r[1..];
      assert KeepNonEmpty(SplitWs(name)) == [[name[0]] + r[0]] + KeepNonEmpty(r[1..]);
    } else {
      assert SplitWs(name) == [""] + r;
      assert ([""] + r)[1..] == r;
      assert Words(name) == Words(rest);
      assert FirstVisible(rest, k - 1) by {
        forall j | 0 <= j < k - 1
          ensures Text.IsWhitespace(rest[j])
        {
          assert rest[j] == name[j + 1];
        }
      }
      FirstWordStart(rest, k - 1);
    }
  }

  /** A non-blank name gives exactly two characters of the name, both visible,
      upper-cased; the first is the name's first visible character. */
  lemma {:induction false} TwoVisibleCharacters(name: string)
    requires !Text.IsBlank(name)
    ensures exists x, y ::
      && x in name && y in name && !Text.IsWhitespace(x) && !Text.IsWhitespace(y)
      && GetInitials(name) == [Text.ToUpperAscii(x), Text.ToUpperAscii(y)]
    ensures exists k :: FirstVisible(name, k) && GetInitials(name)[0] == Text.ToUpperAscii(name[k])
  {
    WordsEmptyIff(name);
    WordsChars(name);
    var parts := Words(name);
    var x := parts[0][0];
    var y := if |parts| > 1 then parts[|parts| - 1][0] else x;
    assert GetInitials(name) == [Text.ToUpperAscii(x), Text.ToUpperAscii(y)];
    FirstVisibleExists(name);
    var k :| FirstVisible(name, k);
    FirstWordStart(name, k);
  }
}
