/**
 * HeaderScanner: finds the numbered Markdown headers of a document.
 *
 * The source recognises a header with one multi-line regular expression,
 *
 *     ^(#{2,4})\s*[§S]?\s*(\d[\d.]*?)\.?\s+(.+)$
 *
 * and collects every match that `finditer` reports. This module writes that one
 * pattern out by hand: `IsParse` says what a way of matching it at a line start
 * is, `Recognise` picks the match a backtracking engine reports, and `ScanFrom`
 * repeats the search the way `finditer` does, resuming where the last match ended.
 */
module HeaderScanner {
  import opened Wrappers
  import opened Text

  /** One match: the captured reference and title, the header level and where the match starts and ends. */
  datatype Header = Header(ref: string, title: string, level: nat, start: nat, matchEnd: nat)

  /** The optional prefix glyph: the section sign or the letter S. */
  predicate IsSectionMark(c: char) { c == '§' || c == 'S' }

  /** Positions where `^` holds in multi-line mode. */
  predicate IsLineStart(text: string, p: nat) {
    p == 0 || (0 < p <= |text| && text[p - 1] == '\n')
  }

  /**
   * Boundaries of one way of matching the pattern from p: text[p..a] is `#{2,4}`,
   * text[a..b] and text[c..d] are the two `\s*`, text[b..c] is `[§S]?`, text[d..e] is
   * the reference group, text[e..f] is `\.?`, text[f..y] is `\s+`, text[y..le] is the
   * title group, and `$` holds at le.
   */
  datatype Parse = Parse(a: nat, b: nat, c: nat, d: nat, e: nat, f: nat, y: nat, le: nat)

  /** text[p..a] is `#{2,4}`. */
  ghost predicate HashesPart(text: string, p: nat, a: nat) {
    p + 2 <= a <= p + 4 && a <= |text| && All(text, p, a, Hash)
  }

  /** text[a..d] is `\s*[§S]?\s*` split at b and c, and text[d] is the `\d` that opens the reference. */
  ghost predicate LeadPart(text: string, a: nat, b: nat, c: nat, d: nat) {
    && a <= b <= c <= d < |text|
    && All(text, a, b, Space)
    && (c == b || (c == b + 1 && IsSectionMark(text[b])))
    && All(text, c, d, Space)
    && IsDigit(text[d])
  }

  /** text[d..e] is `\d[\d.]*?` and text[e..f] is `\.?`. */
  ghost predicate RefPart(text: string, d: nat, e: nat, f: nat) {
    && d < e <= f <= |text|
    && IsDigit(text[d]) && All(text, d + 1, e, RefChar)
    && (f == e || (f == e + 1 && text[e] == '.'))
  }

  /** text[f..y] is `\s+`, text[y..le] is `.+` and `$` holds at le. */
  ghost predicate TitlePart(text: string, f: nat, y: nat, le: nat) {
    && f < y < le <= |text|
    && All(text, f, y, Space)
    && All(text, y, le, NotNewline)
    && (le == |text| || text[le] == '\n')
  }

  /** m is a way of matching the whole pattern at p. */
  ghost predicate IsParse(text: string, p: nat, m: Parse) {
    && IsLineStart(text, p)
    && HashesPart(text, p, m.a)
    && LeadPart(text, m.a, m.b, m.c, m.d)
    && RefPart(text, m.d, m.e, m.f)
    && TitlePart(text, m.f, m.y, m.le)
  }

  /** Where the run of hash marks at p ends; `#{2,4}` only succeeds when it takes all of them. */
  function HashEnd(text: string, p: nat): (a: nat)
    requires p <= |text|
    ensures p <= a <= |text| && All(text, p, a, Hash)
    ensures a == |text| || text[a] != '#'
  {
    RunEnd(text, p, Hash)
  }

  /** The lead-in from a: greedy `\s*`, the glyph if there is one, greedy `\s*`; then a digit must follow. */
  function Lead(text: string, a: nat): (r: Option<(nat, nat, nat)>)
    requires a <= |text|
    ensures r.Some? ==> LeadPart(text, a, r.value.0, r.value.1, r.value.2)
  {
    var b := RunEnd(text, a, Space);
    var c := if b < |text| && IsSectionMark(text[b]) then b + 1 else b;
    var d := RunEnd(text, c, Space);
    if d == |text| || !IsDigit(text[d]) then None else Some((b, c, d))
  }

  /**
   * Any way of matching the lead-in reaches the same digit: backtracking into the
   * `\s*` or dropping the glyph never puts a digit where `\d` is tried.
   */
  lemma {:induction false} LeadComplete(text: string, a: nat, b: nat, c: nat, d: nat)
    requires LeadPart(text, a, b, c, d)
    ensures Lead(text, a).Some? && Lead(text, a).value.2 == d
  {
    var b' := RunEnd(text, a, Space);
    if b' < |text| && IsSectionMark(text[b']) {
      RunEndsAt(text, c, d, Space);
    } else {
      RunEndsAt(text, b', d, Space);
    }
  }

  /**
   * The reference from the digit at d: the lazy `[\d.]*?` stops at the first place where
   * `\.?\s+` can follow, which is the end of the whole run of digits and dots, less
   * one trailing dot if the run ends in one. Returns the ends of the group and of `\.?`.
   */
  function Reference(text: string, d: nat): (r: (nat, nat))
    requires d < |text| && IsDigit(text[d])
    ensures RefPart(text, d, r.0, r.1)
    ensures r.1 == |text| || !In(RefChar, text[r.1])
  {
    var x := RunEnd(text, d, RefChar);
    if text[x - 1] == '.' then (x - 1, x) else (x, x)
  }

  /** Any way of matching the reference that `\s+` can follow ends where `Reference` does, and no earlier. */
  lemma {:induction false} ReferenceComplete(text: string, d: nat, e: nat, f: nat)
    requires RefPart(text, d, e, f) && f < |text| && IsSpace(text[f])
    ensures Reference(text, d).1 == f && Reference(text, d).0 <= e
  {
    assert All(text, d, f, RefChar) by {
      forall k | d <= k < f ensures In(RefChar, text[k]) {
        if k > d && k < e { assert In(RefChar, text[k]); }
      }
    }
    RunEndsAt(text, d, f, RefChar);
  }

  /**
   * Where the title group starts when `\s+` begins at x: the engine tries the longest
   * whitespace run first and gives characters back until `.+` can match at least one
   * character that is not a newline.
   */
  function TitleStart(text: string, x: nat): (t: Option<nat>)
    requires x <= |text|
    ensures t.Some? ==> x < t.value < |text| && text[t.value] != '\n' && All(text, x, t.value, Space)
    ensures forall z :: x < z < |text| && All(text, x, z, Space) && text[z] != '\n' ==> t.Some? && z <= t.value
  {
    GiveBack(text, x, RunEnd(text, x, Space))
  }

  /** Tries the `\s+` that ends at w, then the one ending at w - 1, and so on down to x + 1. */
  function GiveBack(text: string, x: nat, w: nat): (t: Option<nat>)
    requires x <= w <= |text| && All(text, x, w, Space)
    ensures t.Some? ==> x < t.value <= w && t.value < |text| && text[t.value] != '\n'
    ensures forall z :: x < z <= w && z < |text| && text[z] != '\n' ==> t.Some? && z <= t.value
    decreases w
  {
    if w == x then None
    else if w < |text| && text[w] != '\n' then Some(w)
    else GiveBack(text, x, w - 1)
  }

  /** Where `.+$` stops when it starts at y: the end of the line. */
  function LineEnd(text: string, y: nat): (le: nat)
    requires y <= |text|
    ensures y <= le <= |text| && All(text, y, le, NotNewline)
    ensures le == |text| || text[le] == '\n'
  {
    RunEnd(text, y, NotNewline)
  }

  /** The match the regular expression engine reports at line start p, as boundaries. */
  function Recognise(text: string, p: nat): Option<Parse>
    requires IsLineStart(text, p)
  {
    var a := HashEnd(text, p);
    if a - p < 2 || a - p > 4 then None else AfterHashes(text, a)
  }

  /** The rest of the match once `#{2,4}` has taken the hash marks up to a. */
  function AfterHashes(text: string, a: nat): Option<Parse>
    requires a <= |text|
  {
    match Lead(text, a)
    case None => None
    case Some(lead) =>
      var ref := Reference(text, lead.2);
      match TitleStart(text, ref.1)
      case None => None
      case Some(y) => Some(Parse(a, lead.0, lead.1, lead.2, ref.0, ref.1, y, LineEnd(text, y)))
  }

  /** What the recogniser reports is a way of matching the pattern. */
  lemma RecogniseSound(text: string, p: nat)
    requires IsLineStart(text, p) && Recognise(text, p).Some?
    ensures IsParse(text, p, Recognise(text, p).value)
  {
  }

  /** The lead-in never starts with a hash mark, so `#{2,4}` must take the whole run of them. */
  lemma LeadOpensClean(text: string, a: nat, b: nat, c: nat, d: nat)
    requires LeadPart(text, a, b, c, d)
    ensures a < |text| && text[a] != '#'
  {
    if a < b {
      assert In(Space, text[a]);
    } else if a < c {
      assert IsSectionMark(text[a]);
    } else if a < d {
      assert In(Space, text[a]);
    }
  }

  /**
   * The recogniser misses no match and picks the one the engine reports: whenever the
   * pattern can match at p in some way, `Recognise` finds a match with the same level
   * and the same first digit, the shortest reference (the lazy `*?`) and the latest
   * title start (the greedy `\s+`).
   */
  lemma {:induction false} RecogniseComplete(text: string, p: nat, m: Parse)
    requires IsParse(text, p, m)
    ensures Recognise(text, p).Some?
    ensures Recognise(text, p).value.a == m.a && Recognise(text, p).value.d == m.d
    ensures Recognise(text, p).value.f == m.f
    ensures Recognise(text, p).value.e <= m.e
    ensures Recognise(text, p).value.y >= m.y
  {
    LeadOpensClean(text, m.a, m.b, m.c, m.d);
    RunEndsAt(text, p, m.a, Hash);
    assert HashEnd(text, p) == m.a;
    LeadComplete(text, m.a, m.b, m.c, m.d);
    assert In(Space, text[m.f]);
    ReferenceComplete(text, m.d, m.e, m.f);
    assert In(NotNewline, text[m.y]);
    assert TitleStart(text, m.f).Some?;
  }

  /** The header record of a match: groups 2 and 3 (the title stripped), the length of group 1, m.start() and m.end(). */
  function HeaderOf(text: string, p: nat, m: Parse): Header
    requires IsParse(text, p, m)
  {
    Header(text[m.d..m.e], Strip(text[m.y..m.le]), m.a - p, p, m.le)
  }

  /** The header found at line start p, if the pattern matches there. */
  function MatchAt(text: string, p: nat): (h: Option<Header>)
    requires IsLineStart(text, p)
    ensures h.Some? ==> h.value.start == p < h.value.matchEnd <= |text|
    ensures h.Some? ==> text[h.value.matchEnd - 1] != '\n'
  {
    match Recognise(text, p)
    case None => None
    case Some(m) =>
      RecogniseSound(text, p);
      assert In(NotNewline, text[m.le - 1]);
      Some(HeaderOf(text, p, m))
  }

  /**
   * What a header found at p looks like: a run of exactly level hash marks at p, with
   * level 2 to 4; a reference that is a digit followed by digits and dots; and a match
   * that ends where the line does.
   */
  lemma MatchShape(text: string, p: nat)
    requires IsLineStart(text, p) && MatchAt(text, p).Some?
    ensures var h := MatchAt(text, p).value;
      && 2 <= h.level <= 4 && p + h.level < h.matchEnd
      && (forall k :: p <= k < p + h.level ==> text[k] == '#') && text[p + h.level] != '#'
      && |h.ref| > 0 && IsDigit(h.ref[0])
      && (forall k :: 0 <= k < |h.ref| ==> In(RefChar, h.ref[k]))
      && (h.matchEnd == |text| || text[h.matchEnd] == '\n')
  {
    RecogniseSound(text, p);
    var m := Recognise(text, p).value;
    LeadOpensClean(text, m.a, m.b, m.c, m.d);
    assert forall k :: p <= k < m.a ==> In(Hash, text[k]);
    forall k | 0 <= k < m.e - m.d ensures In(RefChar, text[m.d..m.e][k]) {
      if k > 0 { assert In(RefChar, text[m.d + k]); }
    }
  }

  /**
   * What `re.match` of the pattern at position p gives: `^` fails except at line
   * starts, so this is `MatchAt` there and no match anywhere else.
   */
  function SearchAt(text: string, p: nat): (h: Option<Header>)
    ensures h.Some? ==> IsLineStart(text, p) && h == MatchAt(text, p)
    ensures IsLineStart(text, p) ==> h == MatchAt(text, p)
  {
    if IsLineStart(text, p) then MatchAt(text, p) else None
  }

  /**
   * An attempt at p succeeds exactly when p is a line start and the pattern can
   * match there in some way.
   */
  lemma SearchMatchesPattern(text: string, p: nat)
    ensures SearchAt(text, p).Some? <==> IsLineStart(text, p) && exists m :: IsParse(text, p, m)
  {
    if IsLineStart(text, p) {
      if Recognise(text, p).Some? {
        RecogniseSound(text, p);
      } else if m :| IsParse(text, p, m) {
        RecogniseComplete(text, p, m);
      }
    }
  }

  /** A run of five or more hash marks at a line start is never a header: `#{2,4}` must take the whole run. */
  lemma DeepRunIsNoHeader(text: string, p: nat)
    requires IsLineStart(text, p) && p + 5 <= |text|
    requires forall k :: p <= k < p + 5 ==> text[k] == '#'
    ensures MatchAt(text, p) == None
    ensures forall m :: !IsParse(text, p, m)
  {
    assert HashEnd(text, p) >= p + 5;
    forall m | IsParse(text, p, m) ensures false {
      LeadOpensClean(text, m.a, m.b, m.c, m.d);
    }
  }

  /** The outcome of trying the pattern at each position of the text, in order. */
  function Table(text: string): (ms: seq<Option<Header>>)
    ensures |ms| == |text|
  {
    seq(|text|, p requires 0 <= p < |text| => SearchAt(text, p))
  }

  /**
   * A table of attempts: the attempt at p, when it succeeds, starts at p and ends
   * after p, no later than the end of the text.
   */
  ghost predicate TableOk(ms: seq<Option<Header>>) {
    forall p :: 0 <= p < |ms| && ms[p].Some? ==> ms[p].value.start == p < ms[p].value.matchEnd <= |ms|
  }

  lemma TableOfText(text: string)
    ensures TableOk(Table(text))
  {
    var ms := Table(text);
    forall p | 0 <= p < |ms| && ms[p].Some?
      ensures ms[p].value.start == p < ms[p].value.matchEnd <= |ms|
    {
      assert ms[p] == SearchAt(text, p);
    }
  }

  /**
   * The matches `finditer` reports when its search is at p: it tries the pattern at
   * each position in turn and, after a match, resumes where that match ended (so no
   * two reported matches overlap).
   */
  function ScanFrom(ms: seq<Option<Header>>, p: nat): seq<Header>
    requires TableOk(ms) && p <= |ms|
    decreases |ms| - p
  {
    if p == |ms| then []
    else match ms[p]
      case None => ScanFrom(ms, p + 1)
      case Some(h) => [h] + ScanFrom(ms, h.matchEnd)
  }

  /** The header records of a whole document, as `parse_sections` collects them. */
  function Headers(text: string): seq<Header> {
    TableOfText(text);
    ScanFrom(Table(text), 0)
  }

  /** Each of hs is the successful attempt in ms at its own start, which is at or after p. */
  ghost predicate AttemptsFrom(ms: seq<Option<Header>>, p: nat, hs: seq<Header>) {
    forall i :: 0 <= i < |hs| ==> p <= hs[i].start < |ms| && ms[hs[i].start] == Some(hs[i])
  }

  /** The matches hs are in text order and do not overlap. */
  ghost predicate InOrder(hs: seq<Header>) {
    forall i, j :: 0 <= i < j < |hs| ==> hs[i].start < hs[i].matchEnd <= hs[j].start
  }

  /** Every match reported is the successful attempt at its own start, at or after p. */
  lemma {:induction false} ScanSound(ms: seq<Option<Header>>, p: nat)
    requires TableOk(ms) && p <= |ms|
    ensures AttemptsFrom(ms, p, ScanFrom(ms, p))
    decreases |ms| - p
  {
    if p < |ms| {
      match ms[p]
      case None =>
        ScanSound(ms, p + 1);
      case Some(h) =>
        ScanSound(ms, h.matchEnd);
        var hs, tail := ScanFrom(ms, p), ScanFrom(ms, h.matchEnd);
        assert hs == [h] + tail;
        forall i | 0 <= i < |hs|
          ensures p <= hs[i].start < |ms| && ms[hs[i].start] == Some(hs[i])
        {
          if i > 0 {
            assert hs[i] == tail[i - 1];
          }
        }
    }
  }

  /** Matches come out in text order and do not overlap. */
  lemma {:induction false} ScanOrdered(ms: seq<Option<Header>>, p: nat)
    requires TableOk(ms) && p <= |ms|
    ensures InOrder(ScanFrom(ms, p))
    decreases |ms| - p
  {
    if p < |ms| {
      match ms[p]
      case None =>
        ScanOrdered(ms, p + 1);
      case Some(h) =>
        ScanOrdered(ms, h.matchEnd);
        ScanSound(ms, h.matchEnd);
        var hs, tail := ScanFrom(ms, p), ScanFrom(ms, h.matchEnd);
        assert hs == [h] + tail;
        forall i, j | 0 <= i < j < |hs|
          ensures hs[i].start < hs[i].matchEnd <= hs[j].start
        {
          assert hs[j] == tail[j - 1];
          if i > 0 {
            assert hs[i] == tail[i - 1];
          }
        }
    }
  }

  /** Position q lies inside one of the matches hs. */
  ghost predicate Covered(hs: seq<Header>, q: nat) {
    exists i :: 0 <= i < |hs| && hs[i].start <= q < hs[i].matchEnd
  }

  /** No match is missed: every successful attempt at or after p is reported or lies inside a reported match. */
  lemma {:induction false} ScanComplete(ms: seq<Option<Header>>, p: nat)
    requires TableOk(ms) && p <= |ms|
    ensures forall q :: p <= q < |ms| && ms[q].Some? ==> Covered(ScanFrom(ms, p), q)
    decreases |ms| - p
  {
    if p < |ms| {
      var hs := ScanFrom(ms, p);
      match ms[p]
      case None =>
        ScanComplete(ms, p + 1);
      case Some(h) =>
        ScanComplete(ms, h.matchEnd);
        var tail := ScanFrom(ms, h.matchEnd);
        assert hs == [h] + tail;
        forall q | p <= q < |ms| && ms[q].Some? ensures Covered(hs, q) {
          if q < h.matchEnd {
            assert hs[0].start <= q < hs[0].matchEnd;
          } else {
            var i :| 0 <= i < |tail| && tail[i].start <= q < tail[i].matchEnd;
            assert hs[i + 1] == tail[i];
          }
        }
    }
  }

  /** Every successful attempt in ms at or after p lies inside one of hs. */
  ghost predicate CoversAttempts(ms: seq<Option<Header>>, p: nat, hs: seq<Header>) {
    forall q :: p <= q < |ms| && ms[q].Some? ==> Covered(hs, q)
  }

  /**
   * Soundness, order and coverage fix the scan's output: any list of matches with
   * the three properties is the one `ScanFrom` reports.
   */
  lemma {:induction false} ScanUnique(ms: seq<Option<Header>>, p: nat, hs: seq<Header>)
    requires TableOk(ms) && p <= |ms|
    requires AttemptsFrom(ms, p, hs) && InOrder(hs) && CoversAttempts(ms, p, hs)
    ensures hs == ScanFrom(ms, p)
    decreases |ms| - p
  {
    if p < |ms| {
      match ms[p]
      case None =>
        SkipFailedAttempt(ms, p, hs);
        ScanUnique(ms, p + 1, hs);
      case Some(h) =>
        FirstIsAttempt(ms, p, hs);
        RestAfterFirst(ms, p, hs);
        RestCovers(ms, p, hs);
        ScanUnique(ms, h.matchEnd, hs[1..]);
        assert hs == [h] + hs[1..];
    }
  }

  /** With no match at p, the same list starts its matches after p. */
  lemma SkipFailedAttempt(ms: seq<Option<Header>>, p: nat, hs: seq<Header>)
    requires TableOk(ms) && p < |ms| && ms[p].None?
    requires AttemptsFrom(ms, p, hs) && CoversAttempts(ms, p, hs)
    ensures AttemptsFrom(ms, p + 1, hs) && CoversAttempts(ms, p + 1, hs)
  {
    forall i | 0 <= i < |hs| ensures p + 1 <= hs[i].start {
      assert ms[hs[i].start] == Some(hs[i]);
    }
  }

  /** With a match at p, a sound, ordered, covering list reports it first. */
  lemma FirstIsAttempt(ms: seq<Option<Header>>, p: nat, hs: seq<Header>)
    requires TableOk(ms) && p < |ms| && ms[p].Some?
    requires AttemptsFrom(ms, p, hs) && InOrder(hs) && CoversAttempts(ms, p, hs)
    ensures |hs| > 0 && hs[0] == ms[p].value
  {
    assert Covered(hs, p);
    var i :| 0 <= i < |hs| && hs[i].start <= p < hs[i].matchEnd;
  }

  /** The rest of such a list is sound and ordered from the end of the first match. */
  lemma RestAfterFirst(ms: seq<Option<Header>>, p: nat, hs: seq<Header>)
    requires TableOk(ms) && p < |ms|
    requires AttemptsFrom(ms, p, hs) && InOrder(hs) && |hs| > 0
    ensures AttemptsFrom(ms, hs[0].matchEnd, hs[1..]) && InOrder(hs[1..])
  {
    var tail := hs[1..];
    forall j | 0 <= j < |tail|
      ensures hs[0].matchEnd <= tail[j].start < |ms| && ms[tail[j].start] == Some(tail[j])
    {
      assert tail[j] == hs[j + 1];
    }
  }

  /** The rest of a covering, ordered list covers every attempt from the end of its first match. */
  lemma RestCovers(ms: seq<Option<Header>>, p: nat, hs: seq<Header>)
    requires p < |ms| && |hs| > 0 && hs[0].start <= p < hs[0].matchEnd
    requires InOrder(hs) && CoversAttempts(ms, p, hs)
    ensures CoversAttempts(ms, hs[0].matchEnd, hs[1..])
  {
    var tail := hs[1..];
    forall q | hs[0].matchEnd <= q < |ms| && ms[q].Some? ensures Covered(tail, q) {
      assert Covered(hs, q);
      var k :| 0 <= k < |hs| && hs[k].start <= q < hs[k].matchEnd;
      assert tail[k - 1] == hs[k];
    }
  }

  /**
   * Every header record is the match at a line start, and has the shape of one:
   * 2 to 4 hash marks, a reference of digits and dots opening with a digit, and a
   * match that ends where its line does.
   */
  lemma HeadersSound(text: string)
    ensures forall i :: 0 <= i < |Headers(text)| ==>
      IsLineStart(text, Headers(text)[i].start) && MatchAt(text, Headers(text)[i].start) == Some(Headers(text)[i])
  {
    var ms := Table(text);
    TableOfText(text);
    ScanSound(ms, 0);
    var hs := Headers(text);
    forall i | 0 <= i < |hs|
      ensures IsLineStart(text, hs[i].start) && MatchAt(text, hs[i].start) == Some(hs[i])
    {
      assert ms[hs[i].start] == SearchAt(text, hs[i].start);
    }
  }

  /** Header records are in document order, and each match ends before the next header starts. */
  lemma HeadersOrdered(text: string)
    ensures InOrder(Headers(text))
  {
    TableOfText(text);
    ScanOrdered(Table(text), 0);
  }

  /** Every line start where the pattern matches is a header's start or lies inside an earlier header's match. */
  lemma HeadersComplete(text: string)
    ensures forall q: nat :: IsLineStart(text, q) && MatchAt(text, q).Some? ==> Covered(Headers(text), q)
  {
    var ms := Table(text);
    TableOfText(text);
    ScanComplete(ms, 0);
    forall q: nat | IsLineStart(text, q) && MatchAt(text, q).Some? ensures Covered(Headers(text), q) {
      assert ms[q] == SearchAt(text, q);
    }
  }

  /** `parse_sections`' first loop: every header `finditer` reports, in order. */
  method ScanHeaders(text: string) returns (hs: seq<Header>)
    ensures hs == Headers(text)
  {
    TableOfText(text);
    hs := [];
    var p := 0;
    while p < |text|
      invariant p <= |text|
      invariant hs + ScanFrom(Table(text), p) == Headers(text)
      decreases |text| - p
    {
      assert Table(text)[p] == SearchAt(text, p);
      match SearchAt(text, p)
      case None =>
        p := p + 1;
      case Some(h) =>
        hs := hs + [h];
        p := h.matchEnd;
    }
  }
}
