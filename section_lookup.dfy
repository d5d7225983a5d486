/**
 * SectionLookup: `get_section`, which resolves a file name and a section reference
 * to the text of that section, or to a diagnostic that says what is available.
 *
 * The blob store is a parameter: `read` gives the text stored under a name (None
 * when the store has no such file or cannot be read), and `listing` is the list of
 * file names the store reports.
 */
module SectionLookup {
  import opened Wrappers
  import opened Text
  import opened HeaderScanner
  import opened SectionBuilder

  /** The longest section content returned before it is cut. */
  const MaxContent: nat := 8000

  /** What a cut section ends with. */
  const TruncationMarker: string := "\n\n[... truncated \U{2014} request a more specific sub-section]"

  /** What `get_section` returns: the content, or an error with the files or sections there are. */
  datatype Lookup =
    | Content(content: string)
    | FileNotFound(error: string, availableFiles: seq<string>)
    | SectionNotFound(error: string, availableSections: seq<string>)

  /** The store name for a requested file: `.txt` becomes `.md`, `.md` stays, anything else gains `.md`. */
  function NormalizeName(name: string): (r: string)
    ensures EndsWith(r, ".md")
    ensures EndsWith(name, ".txt") ==> r == name[..|name| - 4] + ".md"
    ensures !EndsWith(name, ".txt") && EndsWith(name, ".md") ==> r == name
    ensures !EndsWith(name, ".txt") && !EndsWith(name, ".md") ==> r == name + ".md"
  {
    if EndsWith(name, ".txt") then name[..|name| - 4] + ".md"
    else if EndsWith(name, ".md") then name
    else name + ".md"
  }

  /** Normalising a name that is already normal changes nothing. */
  lemma NormalizeIdempotent(name: string)
    ensures NormalizeName(NormalizeName(name)) == NormalizeName(name)
  {
    var r := NormalizeName(name);
    assert r[|r| - 1] == 'd';
  }

  /** The guard against huge sections: content over the limit keeps its first MaxContent characters and gains the marker. */
  function Truncate(c: string): (r: string)
    ensures |c| <= MaxContent ==> r == c
    ensures |c| > MaxContent ==> |r| == MaxContent + |TruncationMarker|
    ensures |c| > MaxContent ==> r[..MaxContent] == c[..MaxContent] && r[MaxContent..] == TruncationMarker
  {
    if |c| > MaxContent then c[..MaxContent] + TruncationMarker else c
  }

  /** No content returned is longer than the limit plus the marker, and what is kept is a prefix of the section. */
  lemma TruncateBounded(c: string)
    ensures |Truncate(c)| <= MaxContent + |TruncationMarker|
    ensures var kept := if |c| <= MaxContent then |c| else MaxContent;
      kept <= |Truncate(c)| && Truncate(c)[..kept] == c[..kept]
  {
  }

  /** The content of a section: its span of the text, stripped of surrounding whitespace. */
  function Extract(text: string, sec: Section): string
    requires sec.header.start <= sec.end <= |text|
  {
    Strip(text[sec.header.start..sec.end])
  }

  /**
   * c is what remains of text[p..end] once stripped, when that span opens with L
   * hash marks: a slice that begins at p and keeps the hash marks, followed in the
   * span by whitespace only.
   */
  ghost predicate OpensSpan(text: string, p: nat, end: nat, L: nat, c: string) {
    && p + |c| <= end <= |text|
    && c == text[p..p + |c|]
    && L <= |c| && (forall k :: 0 <= k < L ==> c[k] == '#')
    && (forall k :: p + |c| <= k < end ==> IsSpace(text[k]))
  }

  /**
   * The content of a document's section is a slice of its span that begins at the
   * header, so it opens with the header's hash marks, and what follows it in the
   * span is whitespace.
   */
  lemma ExtractedSection(text: string, i: nat)
    requires i < |Sections(text)|
    ensures Sections(text)[i].header.start <= Sections(text)[i].end <= |text|
    ensures OpensSpan(text, Sections(text)[i].header.start, Sections(text)[i].end, Sections(text)[i].header.level,
                      Extract(text, Sections(text)[i]))
  {
    var s := Sections(text)[i];
    SectionShape(text, i);
    StripFromHashes(text, s.header.start, s.end, s.header.level);
  }

  /** Stripping a span that opens with L hash marks keeps them and drops only trailing whitespace. */
  lemma StripFromHashes(text: string, p: nat, end: nat, L: nat)
    requires 0 < L && p + L <= end <= |text|
    requires forall k :: p <= k < p + L ==> text[k] == '#'
    ensures OpensSpan(text, p, end, L, Strip(text[p..end]))
  {
    var span := text[p..end];
    StripKeeps(span, 0);
    StripKeeps(span, L - 1);
    var c := Strip(span);
    forall k | p + |c| <= k < end ensures IsSpace(text[k]) {
      assert span[k - p] == text[k];
    }
  }

  /** The entry for one section in the list of available sections. */
  function ListingEntry(sec: Section): string {
    "§" + sec.header.ref + " " + sec.header.title
  }

  /** The available sections, one entry per section in document order. */
  function AvailableSections(secs: seq<Section>): (r: seq<string>)
    ensures |r| == |secs|
  {
    seq(|secs|, i requires 0 <= i < |secs| => ListingEntry(secs[i]))
  }

  /**
   * An entry names its section's reference: it is what stands between the section
   * sign and the first space, since a reference has no spaces.
   */
  lemma ListingNamesRef(sec: Section)
    requires forall k :: 0 <= k < |sec.header.ref| ==> In(RefChar, sec.header.ref[k])
    ensures var e := ListingEntry(sec); var n := |sec.header.ref|;
      && n + 2 <= |e| && e[0] == '§' && e[1..n + 1] == sec.header.ref && e[n + 1] == ' '
      && (forall k :: 1 <= k <= n ==> e[k] != ' ')
  {
    var e := ListingEntry(sec);
    forall k | 1 <= k <= |sec.header.ref| ensures e[k] != ' ' {
      assert e[k] == sec.header.ref[k - 1];
    }
  }

  /**
   * The first section from index j on whose reference is exactly target: the
   * first-hit loop of `get_section`.
   */
  function FirstFrom(secs: seq<Section>, target: string, j: nat): (r: Option<nat>)
    requires j <= |secs|
    ensures r.Some? ==> j <= r.value < |secs| && secs[r.value].header.ref == target
    ensures r.Some? ==> forall k :: j <= k < r.value ==> secs[k].header.ref != target
    ensures r.None? ==> forall k :: j <= k < |secs| ==> secs[k].header.ref != target
    decreases |secs| - j
  {
    if j == |secs| then None
    else if secs[j].header.ref == target then Some(j)
    else FirstFrom(secs, target, j + 1)
  }

  /** The first section, in document order, whose reference is exactly target. */
  function FirstWithRef(secs: seq<Section>, target: string): Option<nat> {
    FirstFrom(secs, target, 0)
  }

  /**
   * Every reference in the list of available sections can be requested as it stands:
   * it finds a section with that reference, the listed one or an earlier one.
   */
  lemma ListedRefsResolve(text: string, i: nat)
    requires i < |Sections(text)|
    ensures var secs := Sections(text); var ref := secs[i].header.ref;
      && Strip(ref) == ref
      && FirstWithRef(secs, Strip(ref)).Some?
      && FirstWithRef(secs, Strip(ref)).value <= i
      && secs[FirstWithRef(secs, Strip(ref)).value].header.ref == ref
  {
    var ref := Sections(text)[i].header.ref;
    SectionShape(text, i);
    assert In(RefChar, ref[|ref| - 1]);
    StripTrimmed(ref);
  }

  /** The whole of `get_section`, as a function of the store, the listing and the request. */
  function Resolve(read: string -> Option<string>, listing: seq<string>, fileName: string, sectionRef: string): Lookup {
    var name := NormalizeName(fileName);
    match read(name)
    case None => FileNotFound("File '" + name + "' not found.", listing)
    case Some(text) =>
      var secs := Sections(text);
      match FirstWithRef(secs, Strip(sectionRef))
      case None =>
        SectionNotFound("Section '" + sectionRef + "' not found in '" + name + "'.", AvailableSections(secs))
      case Some(i) =>
        SectionsBounded(text);
        Content(Truncate(Extract(text, secs[i])))
  }

  /**
   * A request succeeds exactly when the file is in the store and one of its sections
   * has the stripped reference; the store listing is returned exactly when the
   * file is missing. The file error names the normalised file; the section error
   * names the request as given and lists every section of the file.
   */
  lemma ResolveOutcome(read: string -> Option<string>, listing: seq<string>, fileName: string, sectionRef: string)
    ensures var r := Resolve(read, listing, fileName, sectionRef);
      var stored := read(NormalizeName(fileName));
      && (r.FileNotFound? <==> stored.None?)
      && (r.FileNotFound? ==> r.availableFiles == listing)
      && (r.FileNotFound? ==> r.error == "File '" + NormalizeName(fileName) + "' not found.")
      && (r.SectionNotFound? ==> r.availableSections == AvailableSections(Sections(stored.value)))
      && (r.SectionNotFound? ==>
            r.error == "Section '" + sectionRef + "' not found in '" + NormalizeName(fileName) + "'.")
      && (r.Content? <==>
            (stored.Some? &&
             exists i :: 0 <= i < |Sections(stored.value)| && Sections(stored.value)[i].header.ref == Strip(sectionRef)))
  {
    var stored := read(NormalizeName(fileName));
    if stored.Some? {
      var secs := Sections(stored.value);
      var hit := FirstWithRef(secs, Strip(sectionRef));
      if hit.Some? {
        assert secs[hit.value].header.ref == Strip(sectionRef);
      }
    }
  }

  /**
   * c is what is returned for section i of text: the section's span, stripped and
   * cut to the limit, so no longer than the limit plus the marker, and opening with
   * all of the header's hash marks.
   */
  ghost predicate Serves(text: string, i: nat, c: string) {
    && i < |Sections(text)|
    && var s := Sections(text)[i];
    && s.header.start <= s.end <= |text|
    && c == Truncate(Strip(text[s.header.start..s.end]))
    && |c| <= MaxContent + |TruncationMarker|
    && s.header.level <= |c|
    && (forall k :: 0 <= k < s.header.level ==> c[k] == '#')
  }

  /** The returned content of every section of a document is bounded and opens with its hash marks. */
  lemma SectionContent(text: string, i: nat)
    requires i < |Sections(text)|
    ensures Sections(text)[i].header.start <= Sections(text)[i].end <= |text|
    ensures Serves(text, i, Truncate(Extract(text, Sections(text)[i])))
  {
    var s := Sections(text)[i];
    ExtractedSection(text, i);
    SectionShape(text, i);
    TruncateBounded(Extract(text, s));
  }

  /**
   * Returned content is that of the first section whose reference is the stripped
   * request: its span of the text, stripped and cut to the limit.
   */
  lemma ResolveContent(read: string -> Option<string>, listing: seq<string>, fileName: string, sectionRef: string)
    requires Resolve(read, listing, fileName, sectionRef).Content?
    ensures read(NormalizeName(fileName)).Some?
    ensures FirstWithRef(Sections(read(NormalizeName(fileName)).value), Strip(sectionRef)).Some?
    ensures Serves(read(NormalizeName(fileName)).value,
                   FirstWithRef(Sections(read(NormalizeName(fileName)).value), Strip(sectionRef)).value,
                   Resolve(read, listing, fileName, sectionRef).content)
  {
    var text := read(NormalizeName(fileName)).value;
    SectionContent(text, FirstWithRef(Sections(text), Strip(sectionRef)).value);
  }

  /** The first-hit loop: the index of the first section whose reference is target. */
  method FindSection(secs: seq<Section>, target: string) returns (matched: Option<nat>)
    ensures matched == FirstWithRef(secs, target)
  {
    matched := None;
    for i := 0 to |secs|
      invariant FirstFrom(secs, target, i) == FirstWithRef(secs, target)
    {
      if secs[i].header.ref == target {
        matched := Some(i);
        break;
      }
    }
  }

  /**
   * `get_section`: normalise the name, read the file, parse its sections, take the
   * first whose reference equals the stripped request, and return its stripped
   * text, cut to the limit; or say which files or sections there are.
   */
  method GetSection(read: string -> Option<string>, listing: seq<string>, fileName: string, sectionRef: string)
    returns (r: Lookup)
    ensures r == Resolve(read, listing, fileName, sectionRef)
  {
    var name := NormalizeName(fileName);
    var stored := read(name);
    if stored.None? {
      return FileNotFound("File '" + name + "' not found.", listing);
    }
    var text := stored.value;
    var secs := ParseSections(text);
    var target := Strip(sectionRef);
    var matched := FindSection(secs, target);
    if matched.None? {
      return SectionNotFound("Section '" + sectionRef + "' not found in '" + name + "'.", AvailableSections(secs));
    }
    SectionsBounded(text);
    var content := Extract(text, secs[matched.value]);
    if |content| > MaxContent {
      content := content[..MaxContent] + TruncationMarker;
    }
    return Content(content);
  }
}
