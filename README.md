# Section resolution for the Mosaic reference-file server

This project models, in Dafny, the section-resolution engine of the MCP server in
`mcp-server/function_app.py`. That server answers one tool call, `get_section`.
The call names a reference file (a Markdown document in blob storage) and a
numbered section such as `2.1`, and gets back the text of that section.

The engine has three parts, and each is one module:

- **HeaderScanner** (`header_scanner.dfy`) finds the numbered Markdown headers
  with the pattern `^(#{2,4})\s*[§S]?\s*(\d[\d.]*?)\.?\s+(.+)$` in multi-line
  mode. It records each header's reference, title, level, start and match end,
  as the first loop of `parse_sections` does with `finditer`. The pattern is
  written out by hand:
  - `IsParse` says what any way of matching it at a line start is.
  - `Recognise` computes the match a backtracking engine reports: a lazy
    reference, a greedy `\s+` that gives characters back, and the whole run of
    hash marks.
  - Proofs show that `Recognise` is sound and complete for `IsParse`.
  - `ScanFrom` repeats the search over a table of attempts, one per position.
    After a match it resumes where that match ended, as `finditer` does.
- **SectionBuilder** (`section_builder.dfy`) gives each header the end of its
  section: the start of the first later header at the same or a shallower level,
  or the end of the text. `ParseSections` keeps the source's nested search with
  `break`, and its in-place update of each record, over an array.
- **SectionLookup** (`section_lookup.dfy`) is `get_section`:
  - It normalises the file name to `.md` and reads the file.
  - It takes the first section whose reference equals the stripped request.
  - It strips that section's span and cuts it to 8000 characters plus a fixed
    marker.
  - On a miss it returns the store's file listing or the list of available
    sections.

`text.dfy` holds Python's notion of whitespace (`str.isspace()`, which is also
what `\s` matches on `str`) and `str.strip()`. `header_examples.dfy` proves what the
pattern gives on the header forms the source comments document, and on three inputs
that are easy to misread. `wrappers.dfy` holds `Option`.

The blob store is a parameter. `read` maps a file name to its text, or `None`
for a missing or unreadable file. `listing` is the list of names the store
reports.

## Model

| member | source | states |
|---|---|---|
| `Text.IsSpace` | mcp-server/function_app.py:51 | the 29 code points for which `str.isspace()` holds, which are also what `\s` matches on `str`; `Strip`, `TitleStart` and `Lead` are stated in terms of it |
| `Text.IsDigit` | mcp-server/function_app.py:51 | `\d`, taken as ASCII `0`-`9`; `Lead`, `Reference` and `MatchShape` are stated in terms of it |
| `Text.Strip` | mcp-server/function_app.py:69 | `str.strip()`: the result is a slice of the input; everything removed before and after it is whitespace; it neither starts nor ends with whitespace |
| `Text.EndsWith` | mcp-server/function_app.py:93-95 | `str.endswith`; `NormalizeName` is stated in terms of it |
| `Text.StripIdempotent` | mcp-server/function_app.py:109 | stripping twice gives what stripping once gives |
| `Text.StripKeeps` | mcp-server/function_app.py:125 | `strip()` keeps every non-whitespace character, in place |
| `HeaderScanner.IsParse` | mcp-server/function_app.py:51-52 | the ways the whole pattern can match at a line start, group by group; `RecogniseSound`, `RecogniseComplete`, `SearchMatchesPattern` and `DeepRunIsNoHeader` are stated against it |
| `HeaderScanner.IsLineStart` | mcp-server/function_app.py:51-52 | `^` in multi-line mode: the start of the text or just after a newline; `SearchMatchesPattern` states that attempts succeed only there |
| `HeaderScanner.IsSectionMark` | mcp-server/function_app.py:51 | `[§S]`, the optional sign before the number; `Lead` and `LeadComplete` are stated through `LeadPart`, which uses it |
| `HeaderScanner.Lead` | mcp-server/function_app.py:51 | the lead-in `\s*[§S]?\s*` that it finds is a valid split of the text and is followed by a digit |
| `HeaderScanner.LeadComplete` | mcp-server/function_app.py:51 | every valid way of matching the lead-in ends at the same digit, and `Lead` finds it |
| `HeaderScanner.Reference` | mcp-server/function_app.py:51 | the reference group is a digit followed by digits and dots; the optional dot after it is a dot; what follows is not a digit or dot |
| `HeaderScanner.ReferenceComplete` | mcp-server/function_app.py:51 | any reference split that `\s+` can follow ends where `Reference` ends, and the lazy group is no longer than it |
| `HeaderScanner.TitleStart` | mcp-server/function_app.py:51-52 | the title starts after one or more whitespace characters, on a character that is not a newline, and as late as possible (greedy `\s+` giving back) |
| `HeaderScanner.GiveBack` | mcp-server/function_app.py:51 | backing off from the end of the whitespace run finds the latest start `.+` accepts, or none |
| `HeaderScanner.HashEnd` | mcp-server/function_app.py:51 | the run of hash marks ends at the first character that is not `#` |
| `HeaderScanner.LineEnd` | mcp-server/function_app.py:51-52 | `.+$` ends at the first newline or at the end of the text |
| `HeaderScanner.RecogniseSound` | mcp-server/function_app.py:50-53 | what the recogniser reports is a way of matching the whole pattern at that line start |
| `HeaderScanner.RecogniseComplete` | mcp-server/function_app.py:50-53 | whenever the pattern can match at a line start, the recogniser finds a match there: the same hash run and digit, the shortest reference and the latest title start |
| `HeaderScanner.LeadOpensClean` | mcp-server/function_app.py:51 | the lead-in never starts with `#`, so `#{2,4}` must take the whole run of hash marks |
| `HeaderScanner.MatchAt` | mcp-server/function_app.py:66-73 | a match at p starts at p and ends within the text, after p, on a character that is not a newline |
| `HeaderScanner.MatchShape` | mcp-server/function_app.py:51-57 | a header's level is 2 to 4 and is the length of the run of `#` at its start: the first `level` characters are `#` and the next one is not; its reference is non-empty, starts with a digit and holds only digits and dots; its match ends at a line end |
| `HeaderScanner.SearchAt` | mcp-server/function_app.py:66 | one attempt of the search at a position; `SearchMatchesPattern` characterises when it succeeds |
| `HeaderScanner.SearchMatchesPattern` | mcp-server/function_app.py:51-52 | the attempt `SearchAt` makes at a position succeeds exactly when that position is a line start and the pattern, as `IsParse` defines it, can match there |
| `HeaderScanner.DeepRunIsNoHeader` | mcp-server/function_app.py:51 | for every text, a line that opens with five or more hash marks is no header: no way of matching the pattern exists there |
| `HeaderScanner.Recognise` | mcp-server/function_app.py:51-52 | the match the engine reports at a line start; `RecogniseSound` and `RecogniseComplete` characterise it against `IsParse` |
| `HeaderScanner.AfterHashes` | mcp-server/function_app.py:51 | the part of the match after `#{2,4}`; `RecogniseSound` and `RecogniseComplete` characterise it through `Recognise` |
| `HeaderScanner.HeaderOf` | mcp-server/function_app.py:67-73 | the record built from a match (groups 2 and 3, the length of group 1, `m.start()`, `m.end()`); `MatchShape` states what such a record looks like |
| `HeaderScanner.ScanFrom` | mcp-server/function_app.py:66 | `finditer` from a position, resuming at the end of each match; `ScanSound`, `ScanOrdered` and `ScanComplete` characterise its output |
| `HeaderScanner.Table` | mcp-server/function_app.py:66 | there is one attempt per position of the text |
| `HeaderScanner.TableOfText` | mcp-server/function_app.py:66 | each successful attempt starts where it was tried and ends after that, within the text |
| `HeaderScanner.ScanSound` | mcp-server/function_app.py:66-73 | every reported match is the successful attempt at its own start, at or after where the search began |
| `HeaderScanner.ScanOrdered` | mcp-server/function_app.py:66-73 | reported matches are in strictly increasing start order, and each ends no later than the next one starts |
| `HeaderScanner.ScanComplete` | mcp-server/function_app.py:66-73 | every successful attempt is reported or lies inside a reported match |
| `HeaderScanner.ScanUnique` | mcp-server/function_app.py:66-73 | soundness, order and coverage determine the scan: any list of matches that are attempts from p, in order without overlap, and cover every successful attempt, is exactly what `ScanFrom` reports |
| `HeaderScanner.HeadersSound` | mcp-server/function_app.py:66-73 | every header record of a document is the pattern's match at a line start |
| `HeaderScanner.HeadersOrdered` | mcp-server/function_app.py:66-73 | header records come in document order, and matches never overlap |
| `HeaderScanner.HeadersComplete` | mcp-server/function_app.py:66-73 | every line start where the pattern matches is a header start or lies inside an earlier header's match |
| `HeaderScanner.Headers` | mcp-server/function_app.py:65-73 | the header records of a document; `HeadersSound`, `HeadersOrdered` and `HeadersComplete` characterise them |
| `HeaderScanner.ScanHeaders` | mcp-server/function_app.py:65-73 | the append loop over `finditer` collects exactly the document's header records, in order |
| `HeaderExamples.PlainHeader` | mcp-server/function_app.py:46 | the input `## 1. Intro` is a level-2 header with reference `1` and title `Intro` |
| `HeaderExamples.NestedHeader` | mcp-server/function_app.py:47 | the input `### 2.1 Details` is a level-3 header with reference `2.1` |
| `HeaderExamples.MarkedHeader` | mcp-server/function_app.py:48 | on the input `Marked` (two hash marks, a space, the section sign, `1 Title`) the header has reference `1` and title `Title`; the sign is not part of the reference |
| `HeaderExamples.SplitAcrossLines` | mcp-server/function_app.py:51-52 | on the input `##`, a newline, then `1. X`, the match spans both lines: reference `1`, title `X`, level 2, match end 7, because `\s*` matches the newline |
| `HeaderExamples.TooDeepIsNoHeader` | mcp-server/function_app.py:51 | the input `##### 1. X` is not a header (an instance of `HeaderScanner.DeepRunIsNoHeader`) |
| `HeaderExamples.UntitledTakesNextLine` | mcp-server/function_app.py:51-52 | on the input `## 1` followed by a newline and `## 2. Two`, the first line has no title of its own, so the match takes the second line as its title and ends at 14, because `\s+` matches a newline |
| `SectionBuilder.CloserFrom` | mcp-server/function_app.py:78-81 | the search stops at the first header whose level is at most the given one, and every header it passes is deeper |
| `SectionBuilder.EndIsFirstCloser` | mcp-server/function_app.py:75-82 | a section ends at the start of the first later header at the same or a shallower level, or at the end of the text when there is none |
| `SectionBuilder.SectionEnd` | mcp-server/function_app.py:76-82 | the end the source stores for a section; `EndIsFirstCloser` characterises it through `FirstCloser`, and `SpanBounds` and `Nested` bound it |
| `SectionBuilder.SpanBounds` | mcp-server/function_app.py:71-82 | `start < match_end <= end <= len(text)` for every header in order |
| `SectionBuilder.SectionsBounded` | mcp-server/function_app.py:60-84 | every section of a document contains its own header line and ends inside the text |
| `SectionBuilder.Nested` | mcp-server/function_app.py:75-82 | a header inside another section is deeper than that section's header, and its section ends no later |
| `SectionBuilder.SectionsNest` | mcp-server/function_app.py:75-82 | the sections of a document nest like a tree |
| `SectionBuilder.SectionShape` | mcp-server/function_app.py:51-57 | each section opens with a run of exactly `level` hash marks, `level` being 2 to 4, and its reference is a digit followed by digits and dots |
| `SectionBuilder.HeadersWithin` | mcp-server/function_app.py:69-72 | every header match lies inside the document |
| `SectionBuilder.EndOf` | mcp-server/function_app.py:76-82 | the inner `for j ... break` search yields the end of section i |
| `SectionBuilder.Build` | mcp-server/function_app.py:76-82 | the second loop of `parse_sections` over all headers: one section per header, each ending at `SectionEnd`, which `EndIsFirstCloser` characterises |
| `SectionBuilder.Sections` | mcp-server/function_app.py:60-84 | what `parse_sections` returns; `SectionsBounded`, `SectionsNest`, `SectionShape` and `EndIsFirstCloser` characterise it |
| `SectionBuilder.ParseSections` | mcp-server/function_app.py:60-84 | `parse_sections` returns exactly the document's sections, each with the end the first-closer rule gives |
| `SectionLookup.NormalizeName` | mcp-server/function_app.py:93-96 | `.txt` is replaced by `.md`; a `.md` name is unchanged; any other name gets `.md`; the result always ends in `.md` |
| `SectionLookup.NormalizeIdempotent` | mcp-server/function_app.py:93-96 | normalising a name twice gives what normalising once gives |
| `SectionLookup.Truncate` | mcp-server/function_app.py:127-129 | content of at most 8000 characters is unchanged; longer content keeps its first 8000 characters, then the marker, for exactly 8000 plus the marker's length |
| `SectionLookup.TruncateBounded` | mcp-server/function_app.py:127-129 | returned content is never longer than 8000 plus the marker, and what is kept is a prefix of the section |
| `SectionLookup.Extract` | mcp-server/function_app.py:125 | the stripped span of a section; `ExtractedSection` and `StripFromHashes` characterise it |
| `SectionLookup.ExtractedSection` | mcp-server/function_app.py:124-125 | the content is a slice of the span that starts at the header, opens with its hash marks, and is followed in the span by whitespace only |
| `SectionLookup.StripFromHashes` | mcp-server/function_app.py:125 | stripping a span that opens with hash marks keeps them and drops only trailing whitespace |
| `SectionLookup.ListingEntry` | mcp-server/function_app.py:118 | the entry for one section; `ListingNamesRef` states where the reference sits in it |
| `SectionLookup.AvailableSections` | mcp-server/function_app.py:118 | there is one entry per section |
| `SectionLookup.ListingNamesRef` | mcp-server/function_app.py:118 | an entry is `§`, then the reference, then a space, with no space inside the reference |
| `SectionLookup.FirstFrom` | mcp-server/function_app.py:111-115 | the index found is the first whose reference equals the target; with none found, no reference equals it |
| `SectionLookup.ListedRefsResolve` | mcp-server/function_app.py:108-122 | every listed reference is unchanged by strip and, requested as listed, finds a section with that reference, the listed one or an earlier one |
| `SectionLookup.ResolveOutcome` | mcp-server/function_app.py:98-122 | the file-not-found result comes exactly when the store has no such file; it names the normalised file and carries the listing; content comes exactly when some section's reference equals the stripped request; the section-not-found result names the request as given and the file, and lists every section of the file |
| `SectionLookup.Resolve` | mcp-server/function_app.py:87-131 | the whole of `get_section` as a function; `ResolveOutcome` and `ResolveContent` characterise its results |
| `SectionLookup.SectionContent` | mcp-server/function_app.py:124-129 | the content returned for any section of a document is its span stripped and cut to the limit, at most 8000 plus the marker's length, and opens with all of the header's hash marks |
| `SectionLookup.ResolveContent` | mcp-server/function_app.py:106-131 | returned content comes from a stored file and is that of the first section whose reference is the stripped request: its span, stripped and cut to the limit, bounded, opening with all of its hash marks |
| `SectionLookup.FirstWithRef` | mcp-server/function_app.py:111-115 | the first-match rule; the contract of `FirstFrom` characterises it |
| `SectionLookup.FindSection` | mcp-server/function_app.py:111-115 | the first-hit loop returns the first section whose reference equals the target |
| `SectionLookup.GetSection` | mcp-server/function_app.py:87-131 | `get_section` returns what `Resolve` gives: the file error with the listing, the section error with the unstripped request and the section list, or the truncated content of the first matching section |

## Left out

- The blob helpers `get_blob_client`, `list_available_files` and `read_file`
  (mcp-server/function_app.py:17-38) are foreign SDK calls. They become the
  parameters `read` and `listing`. The store sorts its listing; the model takes
  the listing as given and does not require it sorted. Any read failure counts
  as a missing file, as in the source.
- The JSON-RPC handlers, the tool descriptor, the dispatch table and
  `_error_response` (mcp-server/function_app.py:138-222) are left out. So are the
  HTTP endpoint (mcp-server/function_app.py:229-258), JSON encoding, logging and
  environment settings. The result dictionary becomes the datatype `Lookup`.
- `\d` is modelled as ASCII `0`-`9`. Python's `\d` on `str` also matches the
  decimal digits of other scripts; a header numbered in those digits is not
  found by the model.
- `\s` and `str.strip()` are modelled exactly on code points: the 29 characters
  for which `str.isspace()` holds. The model follows Python in letting `\s`
  match a newline. So `##\n1. X` is a header (`HeaderExamples.SplitAcrossLines`), and a header line with no title
  takes the next line as its title (`HeaderExamples.UntitledTakesNextLine` proves
  this for one input).
- The comment at mcp-server/function_app.py:108 speaks of normalising leading
  zeros, but the code only strips whitespace. The model follows the code: `01`
  and `1` are different references.
- `parse_sections` mutates each record dictionary in place. The model keeps the
  records in an array of values and updates the `end` of element i in place. It
  does not model other references to the same dictionaries, since nothing else
  holds them.
