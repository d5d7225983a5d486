/**
 * HeaderExamples: the header pattern on the header forms the source documents,
 * and on two inputs where its behaviour is easy to misread.
 */
module HeaderExamples {
  import opened Wrappers
  import opened Text
  import opened HeaderScanner

  const Plain: string := "## 1. Intro"
  const Nested: string := "### 2.1 Details"
  const Marked: string := "## \U{00A7}1 Title"
  const Untitled: string := "## 1\n## 2. Two"
  const TooDeep: string := "##### 1. X"
  const Split: string := "##\n1. X"

  /** A match at the start of a text, assembled from what each stage of the recogniser finds. */
  lemma HeaderFromStages(text: string, a: nat, b: nat, c: nat, d: nat, e: nat, f: nat, y: nat, le: nat)
    requires HashEnd(text, 0) == a && 2 <= a <= 4
    requires Lead(text, a) == Some((b, c, d)) && d < |text| && IsDigit(text[d])
    requires Reference(text, d) == (e, f) && f <= |text|
    requires TitleStart(text, f) == Some(y) && y <= |text| && LineEnd(text, y) == le
    requires d <= e && y <= le <= |text|
    ensures MatchAt(text, 0) == Some(Header(text[d..e], Strip(text[y..le]), a, 0, le))
  {
  }

  lemma PlainLead()
    ensures HashEnd(Plain, 0) == 2 && Lead(Plain, 2) == Some((3, 3, 3))
  {
    RunEndsAt(Plain, 0, 2, Hash);
    RunEndsAt(Plain, 2, 3, Space);
    RunEndsAt(Plain, 3, 3, Space);
  }

  lemma PlainReference()
    ensures Reference(Plain, 3) == (4, 5)
  {
    RunEndsAt(Plain, 3, 5, RefChar);
  }

  lemma PlainTitle()
    ensures TitleStart(Plain, 5) == Some(6) && LineEnd(Plain, 6) == 11
  {
    RunEndsAt(Plain, 5, 6, Space);
    RunEndsAt(Plain, 6, 11, NotNewline);
  }

  lemma PlainGroups()
    ensures Plain[3..4] == "1" && Strip(Plain[6..11]) == "Intro"
  {
    assert Plain[6..11] == "Intro";
    StripTrimmed("Intro");
  }

  /** `## 1. Intro`: the trailing dot of the number is not part of the reference. */
  lemma PlainHeader()
    ensures MatchAt(Plain, 0) == Some(Header("1", "Intro", 2, 0, 11))
  {
    PlainLead();
    PlainReference();
    PlainTitle();
    PlainGroups();
    HeaderFromStages(Plain, 2, 3, 3, 3, 4, 5, 6, 11);
  }

  lemma NestedLead()
    ensures HashEnd(Nested, 0) == 3 && Lead(Nested, 3) == Some((4, 4, 4))
  {
    RunEndsAt(Nested, 0, 3, Hash);
    RunEndsAt(Nested, 3, 4, Space);
    RunEndsAt(Nested, 4, 4, Space);
  }

  lemma NestedReference()
    ensures Reference(Nested, 4) == (7, 7)
  {
    RunEndsAt(Nested, 4, 7, RefChar);
  }

  lemma NestedTitle()
    ensures TitleStart(Nested, 7) == Some(8) && LineEnd(Nested, 8) == 15
  {
    RunEndsAt(Nested, 7, 8, Space);
    RunEndsAt(Nested, 8, 15, NotNewline);
  }

  lemma NestedGroups()
    ensures Nested[4..7] == "2.1" && Strip(Nested[8..15]) == "Details"
  {
    assert Nested[8..15] == "Details";
    StripTrimmed("Details");
  }

  /** `### 2.1 Details`: a subsection, level 3, with a dotted reference. */
  lemma NestedHeader()
    ensures MatchAt(Nested, 0) == Some(Header("2.1", "Details", 3, 0, 15))
  {
    NestedLead();
    NestedReference();
    NestedTitle();
    NestedGroups();
    HeaderFromStages(Nested, 3, 4, 4, 4, 7, 7, 8, 15);
  }

  lemma MarkedLead()
    ensures HashEnd(Marked, 0) == 2 && Lead(Marked, 2) == Some((3, 4, 4))
  {
    RunEndsAt(Marked, 0, 2, Hash);
    RunEndsAt(Marked, 2, 3, Space);
    RunEndsAt(Marked, 4, 4, Space);
  }

  lemma MarkedReference()
    ensures Reference(Marked, 4) == (5, 5)
  {
    RunEndsAt(Marked, 4, 5, RefChar);
  }

  lemma MarkedTitle()
    ensures TitleStart(Marked, 5) == Some(6) && LineEnd(Marked, 6) == 11
  {
    RunEndsAt(Marked, 5, 6, Space);
    RunEndsAt(Marked, 6, 11, NotNewline);
  }

  lemma MarkedGroups()
    ensures Marked[4..5] == "1" && Strip(Marked[6..11]) == "Title"
  {
    assert Marked[6..11] == "Title";
    StripTrimmed("Title");
  }

  /** A section sign before the number, as in `Marked`, is skipped and is not part of the reference. */
  lemma MarkedHeader()
    ensures MatchAt(Marked, 0) == Some(Header("1", "Title", 2, 0, 11))
  {
    MarkedLead();
    MarkedReference();
    MarkedTitle();
    MarkedGroups();
    HeaderFromStages(Marked, 2, 3, 4, 4, 5, 5, 6, 11);
  }

  lemma UntitledLead()
    ensures HashEnd(Untitled, 0) == 2 && Lead(Untitled, 2) == Some((3, 3, 3))
  {
    RunEndsAt(Untitled, 0, 2, Hash);
    RunEndsAt(Untitled, 2, 3, Space);
    RunEndsAt(Untitled, 3, 3, Space);
  }

  lemma UntitledReference()
    ensures Reference(Untitled, 3) == (4, 4)
  {
    RunEndsAt(Untitled, 3, 4, RefChar);
  }

  lemma UntitledTitle()
    ensures TitleStart(Untitled, 4) == Some(5) && LineEnd(Untitled, 5) == 14
  {
    RunEndsAt(Untitled, 4, 5, Space);
    RunEndsAt(Untitled, 5, 14, NotNewline);
  }

  lemma UntitledGroups()
    ensures Untitled[3..4] == "1" && Strip(Untitled[5..14]) == "## 2. Two"
  {
    assert Untitled[5..14] == "## 2. Two";
    StripTrimmed("## 2. Two");
  }

  /**
   * A header line with no title takes the next line as its title, since `\s+` also
   * matches a newline: the match runs to the end of the second line.
   */
  lemma UntitledTakesNextLine()
    ensures MatchAt(Untitled, 0) == Some(Header("1", "## 2. Two", 2, 0, 14))
  {
    UntitledLead();
    UntitledReference();
    UntitledTitle();
    UntitledGroups();
    HeaderFromStages(Untitled, 2, 3, 3, 3, 4, 4, 5, 14);
  }

  lemma SplitLead()
    ensures HashEnd(Split, 0) == 2 && Lead(Split, 2) == Some((3, 3, 3))
  {
    RunEndsAt(Split, 0, 2, Hash);
    RunEndsAt(Split, 2, 3, Space);
    RunEndsAt(Split, 3, 3, Space);
  }

  lemma SplitReference()
    ensures Reference(Split, 3) == (4, 5)
  {
    RunEndsAt(Split, 3, 5, RefChar);
  }

  lemma SplitTitle()
    ensures TitleStart(Split, 5) == Some(6) && LineEnd(Split, 6) == 7
  {
    RunEndsAt(Split, 5, 6, Space);
    RunEndsAt(Split, 6, 7, NotNewline);
  }

  lemma SplitGroups()
    ensures Split[3..4] == "1" && Strip(Split[6..7]) == "X"
  {
    assert Split[6..7] == "X";
    StripTrimmed("X");
  }

  /**
   * Hash marks alone on a line, followed by a numbered line, are one header: the
   * `\s*` after the hash marks also matches the newline between them.
   */
  lemma SplitAcrossLines()
    ensures MatchAt(Split, 0) == Some(Header("1", "X", 2, 0, 7))
  {
    SplitLead();
    SplitReference();
    SplitTitle();
    SplitGroups();
    HeaderFromStages(Split, 2, 3, 3, 3, 4, 5, 6, 7);
  }

  /** Five hash marks are never a header: `#{2,4}` must take the whole run. */
  lemma TooDeepIsNoHeader()
    ensures MatchAt(TooDeep, 0) == None
  {
    RunEndsAt(TooDeep, 0, 5, Hash);
  }
}
