/**
 * Character classes and string helpers with the meaning Python gives them on `str`:
 * `\s` in a regular expression and `str.isspace()` accept the same code points,
 * and `str.strip()` with no argument removes exactly those from both ends.
 */
module Text {

  /** The code points for which Python's `str.isspace()` holds (and which `\s` matches). */
  predicate IsSpace(c: char) {
    ('\t' <= c <= '\r') || ('\U{1C}' <= c <= '\U{1F}') || c == ' ' ||
    c == '\U{85}' || c == '\U{A0}' || c == '\U{1680}' ||
    ('\U{2000}' <= c <= '\U{200A}') || c == '\U{2028}' || c == '\U{2029}' ||
    c == '\U{202F}' || c == '\U{205F}' || c == '\U{3000}'
  }

  /** Decimal digits, ASCII only (Python's `\d` also accepts the digits of other scripts). */
  predicate IsDigit(c: char) {
    '0' <= c <= '9'
  }

  /** The character classes the header pattern is built from. */
  datatype Class = Space | Hash | RefChar | NotNewline

  /** Whether c belongs to class cls: `\s`, `#`, `[\d.]`, and `.` (anything but a newline). */
  predicate In(cls: Class, c: char) {
    match cls
    case Space => IsSpace(c)
    case Hash => c == '#'
    case RefChar => IsDigit(c) || c == '.'
    case NotNewline => c != '\n'
  }

  /** Every character of s[i..j] belongs to cls. */
  ghost predicate All(s: string, i: nat, j: nat, cls: Class)
    requires i <= j <= |s|
  {
    forall k :: i <= k < j ==> In(cls, s[k])
  }

  /** Where the longest run of characters of class cls that starts at p ends. */
  function RunEnd(s: string, p: nat, cls: Class): (q: nat)
    requires p <= |s|
    ensures p <= q <= |s|
    ensures forall k :: p <= k < q ==> In(cls, s[k])
    ensures q == |s| || !In(cls, s[q])
    decreases |s| - p
  {
    if p == |s| || !In(cls, s[p]) then p else RunEnd(s, p + 1, cls)
  }

  /** Where the longest run of characters of class cls that ends just before q starts. */
  function RunStart(s: string, q: nat, cls: Class): (p: nat)
    requires q <= |s|
    ensures p <= q
    ensures forall k :: p <= k < q ==> In(cls, s[k])
    ensures p == 0 || !In(cls, s[p - 1])
  {
    if q == 0 || !In(cls, s[q - 1]) then q else RunStart(s, q - 1, cls)
  }

  /** A run is determined by where it stops: if s[i..z] is all of class cls and s[z] is not, the run from i ends at z. */
  lemma RunEndsAt(s: string, i: nat, z: nat, cls: Class)
    requires i <= z <= |s|
    requires All(s, i, z, cls)
    requires z == |s| || !In(cls, s[z])
    ensures RunEnd(s, i, cls) == z
  {
  }

  /** Position of the first character that `str.strip()` keeps (|s| when s is all whitespace). */
  function StripStart(s: string): nat {
    RunEnd(s, 0, Space)
  }

  /** Python's `s.strip()`: s without its leading and trailing whitespace. */
  function Strip(s: string): (r: string)
    ensures StripStart(s) + |r| <= |s|
    ensures r == s[StripStart(s)..StripStart(s) + |r|]
    ensures forall k :: 0 <= k < StripStart(s) ==> IsSpace(s[k])
    ensures forall k :: StripStart(s) + |r| <= k < |s| ==> IsSpace(s[k])
    ensures r == [] || (!IsSpace(r[0]) && !IsSpace(r[|r| - 1]))
  {
    var a := RunEnd(s, 0, Space);
    if a == |s| then []
    else
      var b := RunStart(s, |s|, Space);
      assert !In(Space, s[a]);
      s[a..b]
  }

  /** A string that neither starts nor ends with whitespace is left alone by `strip()`. */
  lemma StripTrimmed(s: string)
    requires s == [] || (!IsSpace(s[0]) && !IsSpace(s[|s| - 1]))
    ensures Strip(s) == s
  {
    if s != [] {
      assert StripStart(s) == 0;
    }
  }

  /** `strip()` keeps every character that is not whitespace, in place. */
  lemma StripKeeps(s: string, k: nat)
    requires k < |s| && !IsSpace(s[k])
    ensures StripStart(s) <= k < StripStart(s) + |Strip(s)|
  {
  }

  /** `strip()` is idempotent. */
  lemma StripIdempotent(s: string)
    ensures Strip(Strip(s)) == Strip(s)
  {
    StripTrimmed(Strip(s));
  }

  /** Python's `s.endswith(suffix)`. */
  predicate EndsWith(s: string, suffix: string) {
    |suffix| <= |s| && s[|s| - |suffix|..] == suffix
  }
}
