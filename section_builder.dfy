/**
 * SectionBuilder: turns the header records of a document into sections.
 *
 * A section runs from its header's start to the start of the next header at the
 * same or a shallower level (fewer or as many hash marks), or to the end of the
 * text when no such header follows. `parse_sections` collects the headers and then
 * stores each section's end into its record in place.
 */
module SectionBuilder {
  import opened Wrappers
  import opened Text
  import opened HeaderScanner

  /** A header record together with the end of the section it opens. */
  datatype Section = Section(header: Header, end: nat)

  /**
   * The index of the first header from index j on whose level is at most lvl, or
   * |hs| when there is none: the inner search of `parse_sections`.
   */
  function CloserFrom(hs: seq<Header>, lvl: nat, j: nat): (k: nat)
    requires j <= |hs|
    ensures j <= k <= |hs|
    ensures forall m :: j <= m < k ==> hs[m].level > lvl
    ensures k < |hs| ==> hs[k].level <= lvl
    decreases |hs| - j
  {
    if j == |hs| || hs[j].level <= lvl then j else CloserFrom(hs, lvl, j + 1)
  }

  /**
   * Where the section opened by hs[i] ends, in a text of length n: the start of the
   * first later header at the same or a shallower level, or n when there is none.
   */
  function SectionEnd(hs: seq<Header>, i: nat, n: nat): nat
    requires i < |hs|
  {
    var k := CloserFrom(hs, hs[i].level, i + 1);
    if k == |hs| then n else hs[k].start
  }

  /** The sections of a text of length n whose headers are hs. */
  function Build(hs: seq<Header>, n: nat): (secs: seq<Section>)
    ensures |secs| == |hs|
  {
    seq(|hs|, i requires 0 <= i < |hs| => Section(hs[i], SectionEnd(hs, i, n)))
  }

  /** The sections of a document, as `parse_sections` returns them. */
  function Sections(text: string): seq<Section> {
    Build(Headers(text), |text|)
  }

  /** Every header match lies within a text of length n. */
  ghost predicate WithinText(hs: seq<Header>, n: nat) {
    forall i :: 0 <= i < |hs| ==> hs[i].start < hs[i].matchEnd <= n
  }

  /** A section takes in at least its own header line and stays inside the text. */
  lemma SpanBounds(hs: seq<Header>, n: nat, i: nat)
    requires InOrder(hs) && WithinText(hs, n) && i < |hs|
    ensures hs[i].start < hs[i].matchEnd <= SectionEnd(hs, i, n) <= n
  {
    var k := CloserFrom(hs, hs[i].level, i + 1);
    if k < |hs| {
      assert hs[i].matchEnd <= hs[k].start;
    }
  }

  /**
   * Sections nest like a tree: a header that starts inside the section of hs[i] is
   * deeper than hs[i], and its own section ends no later than that of hs[i].
   */
  lemma Nested(hs: seq<Header>, n: nat, i: nat, k: nat)
    requires InOrder(hs) && WithinText(hs, n)
    requires i < k < |hs| && hs[k].start < SectionEnd(hs, i, n)
    ensures hs[k].level > hs[i].level
    ensures SectionEnd(hs, k, n) <= SectionEnd(hs, i, n)
  {
    var c := CloserFrom(hs, hs[i].level, i + 1);
    var c' := CloserFrom(hs, hs[k].level, k + 1);
    if c < |hs| {
      assert c' <= c;
      if c' < c {
        assert hs[c'].start <= hs[c].start;
      }
    } else {
      SpanBounds(hs, n, k);
    }
  }

  /** Every section of a document starts at its header, covers the header line and ends inside the text. */
  lemma SectionsBounded(text: string)
    ensures forall i :: 0 <= i < |Sections(text)| ==>
      Sections(text)[i].header.start < Sections(text)[i].header.matchEnd <= Sections(text)[i].end <= |text|
  {
    var hs := Headers(text);
    HeadersOrdered(text);
    HeadersWithin(text);
    forall i | 0 <= i < |hs|
      ensures Sections(text)[i].header.start < Sections(text)[i].header.matchEnd <= Sections(text)[i].end <= |text|
    {
      SpanBounds(hs, |text|, i);
    }
  }

  /**
   * The end of a section, stated without the search: the start of the first later
   * header whose level is the same or shallower, or n when every later header is
   * deeper.
   */
  lemma EndIsFirstCloser(hs: seq<Header>, i: nat, n: nat)
    requires i < |hs|
    ensures (forall j :: i < j < |hs| ==> hs[j].level > hs[i].level) ==> SectionEnd(hs, i, n) == n
    ensures forall k: nat :: FirstCloser(hs, i, k) ==> SectionEnd(hs, i, n) == hs[k].start
  {
  }

  /** hs[k] is the first header after hs[i] at the same or a shallower level. */
  ghost predicate FirstCloser(hs: seq<Header>, i: nat, k: nat) {
    && i < k < |hs| && hs[k].level <= hs[i].level
    && forall j :: i < j < k ==> hs[j].level > hs[i].level
  }

  /**
   * The sections of a document nest: a section that starts inside another is a
   * deeper one and ends no later.
   */
  lemma SectionsNest(text: string, i: nat, k: nat)
    requires i < k < |Sections(text)| && Sections(text)[k].header.start < Sections(text)[i].end
    ensures Sections(text)[k].header.level > Sections(text)[i].header.level
    ensures Sections(text)[k].end <= Sections(text)[i].end
  {
    HeadersOrdered(text);
    HeadersWithin(text);
    Nested(Headers(text), |text|, i, k);
  }

  /**
   * What a section of a document looks like: its header line opens with a run of
   * exactly level hash marks, level being 2 to 4, and lies inside the section; its
   * reference is a digit followed by digits and dots.
   */
  lemma SectionShape(text: string, i: nat)
    requires i < |Sections(text)|
    ensures var s := Sections(text)[i]; var h := s.header;
      && 2 <= h.level <= 4 && h.start + h.level < h.matchEnd <= s.end <= |text|
      && (forall k :: h.start <= k < h.start + h.level ==> text[k] == '#') && text[h.start + h.level] != '#'
      && |h.ref| > 0 && IsDigit(h.ref[0])
      && (forall k :: 0 <= k < |h.ref| ==> In(RefChar, h.ref[k]))
  {
    var h := Sections(text)[i].header;
    SectionsBounded(text);
    HeadersSound(text);
    assert MatchAt(text, h.start) == Some(h);
    MatchShape(text, h.start);
  }

  /** Header matches of a document lie inside it. */
  lemma HeadersWithin(text: string)
    ensures WithinText(Headers(text), |text|)
  {
    var hs := Headers(text);
    HeadersSound(text);
    forall i | 0 <= i < |hs| ensures hs[i].start < hs[i].matchEnd <= |text| {
      assert MatchAt(text, hs[i].start) == Some(hs[i]);
    }
  }

  /**
   * `parse_sections`: collect the headers, then for each one search the later
   * headers for the first at the same or a shallower level and store its start as
   * the section's end (the end of the text if the search finds none).
   */
  method ParseSections(text: string) returns (secs: seq<Section>)
    ensures secs == Sections(text)
  {
    var hs := ScanHeaders(text);
    var a := new Section[|hs|](i requires 0 <= i < |hs| => Section(hs[i], |text|));
    for i := 0 to |hs|
      invariant forall k :: 0 <= k < |hs| ==> a[k].header == hs[k]
      invariant forall k :: 0 <= k < i ==> a[k].end == SectionEnd(hs, k, |text|)
    {
      var end := EndOf(a, i, |text|, hs);
      a[i] := a[i].(end := end);
    }
    secs := a[..];
    assert forall k :: 0 <= k < |hs| ==> secs[k] == Build(hs, |text|)[k];
  }

  /** The inner search of `parse_sections` for the record at index i. */
  method EndOf(a: array<Section>, i: nat, n: nat, ghost hs: seq<Header>) returns (end: nat)
    requires i < a.Length == |hs|
    requires forall k :: 0 <= k < |hs| ==> a[k].header == hs[k]
    ensures end == SectionEnd(hs, i, n)
  {
    end := n;
    var j := i + 1;
    while j < a.Length
      invariant i + 1 <= j <= |hs|
      invariant CloserFrom(hs, hs[i].level, j) == CloserFrom(hs, hs[i].level, i + 1)
      invariant end == n
    {
      if a[j].header.level <= a[i].header.level {
        end := a[j].header.start;
        break;
      }
      j := j + 1;
    }
  }
}
