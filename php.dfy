/**
 * The few PHP built-ins the candidate pages rely on, stated over Dafny
 * strings: `isset`/`??` (as Option), `trim`, `empty` on a string,
 * `strlen` (which counts UTF-8 bytes, not characters) and `implode`.
 */
module Php {

  /** A request field that may be missing (`isset`), or a nullable column. */
  datatype Option<T> = None | Some(value: T) {

    /** PHP's `$x ?? $default`. */
    function OrElse(default: T): T {
      if Some? then value else default
    }
  }

  /** The characters `trim()` strips when it is given no character list:
      space, tab, line feed, carriage return, NUL and vertical tab. */
  predicate IsTrimChar(c: char) {
    c == ' ' || c == '\t' || c == '\n' || c == '\r' || c == '\0' || c == '\U{000B}'
  }

  /** Neither end of `s` is a character that `trim()` would strip. */
  predicate IsTrimmed(s: string) {
    s == [] || (!IsTrimChar(s[0]) && !IsTrimChar(s[|s| - 1]))
  }

  /** `ltrim()`: the longest suffix of `s` that does not start with a trim character. */
  function TrimStart(s: string): (r: string)
    ensures |r| <= |s| && r == s[|s| - |r|..]
    ensures r == [] || !IsTrimChar(r[0])
    ensures forall i :: 0 <= i < |s| - |r| ==> IsTrimChar(s[i])
  {
    if s != [] && IsTrimChar(s[0]) then TrimStart(s[1..]) else s
  }

  /** `rtrim()`: the longest prefix of `s` that does not end with a trim character. */
  function TrimEnd(s: string): (r: string)
    ensures |r| <= |s| && r == s[..|r|]
    ensures r == [] || !IsTrimChar(r[|r| - 1])
    ensures forall i :: |r| <= i < |s| ==> IsTrimChar(s[i])
  {
    if s != [] && IsTrimChar(s[|s| - 1]) then TrimEnd(s[..|s| - 1]) else s
  }

  /** How many trim characters `trim()` removes from the front of `s`. */
  function LeadingTrim(s: string): (n: nat)
    ensures n <= |s|
  {
    |s| - |TrimStart(s)|
  }

  /** `trim()`: `s` without its leading and trailing trim characters. */
  function Trim(s: string): (r: string)
    ensures IsTrimmed(r) && |r| <= |s|
  {
    TrimEnd(TrimStart(s))
  }

  /** What `trim()` keeps is the slice of `s` between two runs of trim
      characters: it removes nothing else. */
  lemma TrimIsSlice(s: string)
    ensures LeadingTrim(s) + |Trim(s)| <= |s|
    ensures Trim(s) == s[LeadingTrim(s)..LeadingTrim(s) + |Trim(s)|]
    ensures forall k :: 0 <= k < LeadingTrim(s) ==> IsTrimChar(s[k])
    ensures forall k :: LeadingTrim(s) + |Trim(s)| <= k < |s| ==> IsTrimChar(s[k])
  {
  }

  /** Trimming a string that is already trimmed leaves it as it is, so
      `trim()` is idempotent. */
  lemma TrimKeepsTrimmed(s: string)
    requires IsTrimmed(s)
    ensures Trim(s) == s
  {
  }

  lemma TrimIdempotent(s: string)
    ensures Trim(Trim(s)) == Trim(s)
  {
    TrimKeepsTrimmed(Trim(s));
  }

  /** PHP's `empty()` applied to a string: true for "" and, notably, for "0". */
  predicate IsEmpty(s: string) {
    s == "" || s == "0"
  }

  /** The number of bytes the UTF-8 encoding of `c` takes. */
  function Utf8Width(c: char): (n: nat)
    ensures 1 <= n <= 4
  {
    if c as int < 0x80 then 1
    else if c as int < 0x800 then 2
    else if c as int < 0x1_0000 then 3
    else 4
  }

  /** `strlen()`: the length in bytes of the UTF-8 encoding of `s`, which
      is at least its number of characters. */
  function Utf8Length(s: string): (n: nat)
    ensures |s| <= n <= 4 * |s|
  {
    if s == [] then 0 else Utf8Width(s[0]) + Utf8Length(s[1..])
  }

  /** `implode($separator, $parts)`. */
  function Implode(separator: string, parts: seq<string>): (r: string)
  {
    if parts == [] then ""
    else if |parts| == 1 then parts[0]
    else parts[0] + separator + Implode(separator, parts[1..])
  }

  /** How often `c` occurs in `s`. */
  function Occurrences(s: string, c: char): nat {
    multiset(s)[c]
  }

  /** Occurrences in a concatenation add up. */
  lemma OccurrencesAppend(a: string, b: string, c: char)
    ensures Occurrences(a + b, c) == Occurrences(a, c) + Occurrences(b, c)
  {
    assert multiset(a + b) == multiset(a) + multiset(b);
  }

  /** A character that is not in `s` occurs in it zero times. */
  lemma NoOccurrences(s: string, c: char)
    requires c !in s
    ensures Occurrences(s, c) == 0
  {
  }

  /** The total number of occurrences of `c` in all of `parts`. */
  function OccurrencesIn(parts: seq<string>, c: char): nat {
    if parts == [] then 0 else Occurrences(parts[0], c) + OccurrencesIn(parts[1..], c)
  }

  /** Counting over a list of parts that grew by one part at the end. */
  lemma {:induction false} OccurrencesInAppend(parts: seq<string>, p: string, c: char)
    ensures OccurrencesIn(parts + [p], c) == OccurrencesIn(parts, c) + Occurrences(p, c)
  {
    if parts != [] {
      assert (parts + [p])[1..] == parts[1..] + [p];
      OccurrencesInAppend(parts[1..], p, c);
    }
  }

  /** Joining with a separator that does not contain `c` adds no `c`:
      the occurrences of `c` in the joined string are those of the parts. */
  lemma {:induction false} ImplodeOccurrences(separator: string, parts: seq<string>, c: char)
    requires Occurrences(separator, c) == 0
    ensures Occurrences(Implode(separator, parts), c) == OccurrencesIn(parts, c)
  {
    if |parts| > 1 {
      ImplodeOccurrences(separator, parts[1..], c);
    }
  }

  /** The decimal digits of `n`, as PHP writes an integer into a string. */
  function Decimal(n: nat): (r: string)
    ensures r != []
    ensures forall i :: 0 <= i < |r| ==> '0' <= r[i] <= '9'
  {
    var digit := ['0' + (n % 10) as char];
    if n < 10 then digit else Decimal(n / 10) + digit
  }
}
