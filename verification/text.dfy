/**
 * The JavaScript string operations the portal relies on: `trim`, case mapping,
 * `includes`, `split`/`join`, `replace` of a literal pattern and `slice`.
 * Strings are sequences of characters; case mapping covers the ASCII letters.
 */
module Text {
  import opened Wrappers

  /** JavaScript's WhiteSpace and LineTerminator characters, the set `trim` removes. */
  predicate IsSpace(c: char) {
    || c == '\t' || c == '\n' || c == '\U{000B}' || c == '\U{000C}' || c == '\r' || c == ' '
    || c == '\U{00A0}' || c == '\U{1680}' || ('\U{2000}' <= c <= '\U{200A}')
    || c == '\U{2028}' || c == '\U{2029}' || c == '\U{202F}' || c == '\U{205F}'
    || c == '\U{3000}' || c == '\U{FEFF}'
  }

  /** Every character of `s` is white space (so `s.trim()` is falsy). */
  predicate IsBlank(s: string) {
    forall k :: 0 <= k < |s| ==> IsSpace(s[k])
  }

  predicate IsDigit(c: char) {
    '0' <= c <= '9'
  }

  predicate IsAsciiLetter(c: char) {
    ('a' <= c <= 'z') || ('A' <= c <= 'Z')
  }

  /** The character class `[A-Z0-9]` under the `i` flag. */
  predicate IsAlnum(c: char) {
    IsAsciiLetter(c) || IsDigit(c)
  }

  predicate AllAlnum(s: string) {
    forall k :: 0 <= k < |s| ==> IsAlnum(s[k])
  }

  function LowerChar(c: char): char {
    if 'A' <= c <= 'Z' then (c as int + 32) as char else c
  }

  function UpperChar(c: char): char {
    if 'a' <= c <= 'z' then (c as int - 32) as char else c
  }

  /** `s.toLowerCase()`. */
  function ToLower(s: string): (r: string)
    ensures |r| == |s|
  {
    seq(|s|, i requires 0 <= i < |s| => LowerChar(s[i]))
  }

  /** `s.toUpperCase()`. */
  function ToUpper(s: string): (r: string)
    ensures |r| == |s|
  {
    seq(|s|, i requires 0 <= i < |s| => UpperChar(s[i]))
  }

  /** No lower-case ASCII letter is left after `toUpperCase`. */
  predicate NoLowerCase(s: string) {
    forall k :: 0 <= k < |s| ==> !('a' <= s[k] <= 'z')
  }

  lemma UpperHasNoLowerCase(s: string)
    ensures NoLowerCase(ToUpper(s))
  {
  }

  /** Upper-casing twice is upper-casing once. */
  lemma ToUpperIdempotent(s: string)
    ensures ToUpper(ToUpper(s)) == ToUpper(s)
  {
  }

  /** Case-insensitive equality (`a.toLowerCase() === b.toLowerCase()`) is an equivalence. */
  lemma LowerEqualityIsEquivalence(a: string, b: string, c: string)
    ensures ToLower(a) == ToLower(a)
    ensures ToLower(a) == ToLower(b) ==> ToLower(b) == ToLower(a)
    ensures ToLower(a) == ToLower(b) && ToLower(b) == ToLower(c) ==> ToLower(a) == ToLower(c)
  {
  }

  /** `s.trimStart()`: drops the leading white space and nothing else. */
  function TrimStart(s: string): (r: string)
    ensures |r| <= |s| && r == s[|s| - |r|..]
    ensures forall k :: 0 <= k < |s| - |r| ==> IsSpace(s[k])
    ensures r == [] || !IsSpace(r[0])
    decreases |s|
  {
    if |s| > 0 && IsSpace(s[0]) then TrimStart(s[1..]) else s
  }

  /** `s.trimEnd()`: drops the trailing white space and nothing else. */
  function TrimEnd(s: string): (r: string)
    ensures |r| <= |s| && r == s[..|r|]
    ensures forall k :: |r| <= k < |s| ==> IsSpace(s[k])
    ensures r == [] || !IsSpace(r[|r| - 1])
    decreases |s|
  {
    if |s| > 0 && IsSpace(s[|s| - 1]) then TrimEnd(s[..|s| - 1]) else s
  }

  /** `s.trim()`: empty exactly when `s` is blank, and never starts or ends with white space. */
  function Trim(s: string): (r: string)
    ensures |r| <= |s|
    ensures r == [] <==> IsBlank(s)
    ensures r == [] || (!IsSpace(r[0]) && !IsSpace(r[|r| - 1]))
  {
    var t := TrimStart(s);
    var r := TrimEnd(t);
    assert r == [] ==> t == [];
    assert |r| > 0 ==> !IsSpace(r[0]) by {
      if |r| > 0 {
        assert r[0] == t[0];
      }
    }
    r
  }

  /** Trimming is idempotent. */
  lemma TrimIdempotent(s: string)
    ensures Trim(Trim(s)) == Trim(s)
  {
    var r := Trim(s);
    if r != [] {
      assert TrimStart(r) == r;
      assert TrimEnd(r) == r;
    }
  }

  /** `pat` occurs in `hay` at index `i`. */
  predicate OccursAt(hay: string, pat: string, i: int) {
    0 <= i && i + |pat| <= |hay| && hay[i..i + |pat|] == pat
  }

  /** `hay.includes(pat)`. */
  predicate Contains(hay: string, pat: string) {
    exists i | 0 <= i <= |hay| - |pat| :: OccursAt(hay, pat, i)
  }

  /** `hay.startsWith(pat)`. */
  predicate StartsWith(hay: string, pat: string) {
    |pat| <= |hay| && hay[..|pat|] == pat
  }

  /** The first index at or after `from` where `pat` occurs (`hay.indexOf(pat, from)`). */
  function FindFrom(hay: string, pat: string, from: nat): (r: Option<nat>)
    ensures r.Some? ==> from <= r.value && OccursAt(hay, pat, r.value)
    ensures r.Some? ==> forall j :: from <= j < r.value ==> !OccursAt(hay, pat, j)
    ensures r.None? ==> forall j :: from <= j ==> !OccursAt(hay, pat, j)
    decreases |hay| - from
  {
    if from + |pat| > |hay| then None
    else if OccursAt(hay, pat, from) then Some(from)
    else FindFrom(hay, pat, from + 1)
  }

  /** `s.replace(pat, rep)` with a literal pattern: only the first occurrence is replaced. */
  function ReplaceFirst(s: string, pat: string, rep: string): (r: string)
    ensures !Contains(s, pat) ==> r == s
    ensures forall i :: OccursAt(s, pat, i) && (forall j :: 0 <= j < i ==> !OccursAt(s, pat, j))
              ==> r == s[..i] + rep + s[i + |pat|..]
  {
    match FindFrom(s, pat, 0)
    case None => s
    case Some(i) => s[..i] + rep + s[i + |pat|..]
  }

  /** The index of the first `c` in `s` (`s.indexOf(c)`). */
  function IndexOfChar(s: string, c: char): (r: Option<nat>)
    ensures r.None? <==> c !in s
    ensures r.Some? ==> r.value < |s| && s[r.value] == c && c !in s[..r.value]
  {
    if |s| == 0 then None
    else if s[0] == c then Some(0)
    else match IndexOfChar(s[1..], c)
      case None => None
      case Some(i) => assert s[1..][..i] == s[1..i + 1]; Some(i + 1)
  }

  /** The index of the last `c` in `s` (`s.lastIndexOf(c)`). */
  function LastIndexOfChar(s: string, c: char): (r: Option<nat>)
    ensures r.None? <==> c !in s
    ensures r.Some? ==> r.value < |s| && s[r.value] == c && c !in s[r.value + 1..]
    ensures r.Some? ==> forall j :: 0 <= j < |s| && s[j] == c ==> j <= r.value
    decreases |s|
  {
    if |s| == 0 then None
    else if s[|s| - 1] == c then Some(|s| - 1)
    else
      var r := LastIndexOfChar(s[..|s| - 1], c);
      assert r.Some? ==> s[r.value + 1..] == s[..|s| - 1][r.value + 1..] + [s[|s| - 1]];
      assert s == s[..|s| - 1] + [s[|s| - 1]];
      assert forall j :: 0 <= j < |s| - 1 ==> s[..|s| - 1][j] == s[j];
      r
  }

  /** `s.split(c)` for a one-character separator. */
  function Split(s: string, c: char): (parts: seq<string>)
    ensures |parts| >= 1
    ensures forall k :: 0 <= k < |parts| ==> c !in parts[k]
    decreases |s|
  {
    match IndexOfChar(s, c)
    case None => [s]
    case Some(i) => [s[..i]] + Split(s[i + 1..], c)
  }

  /** `parts.join(c)` for a one-character separator. */
  function Join(parts: seq<string>, c: char): string
    decreases |parts|
  {
    if |parts| == 0 then ""
    else if |parts| == 1 then parts[0]
    else parts[0] + [c] + Join(parts[1..], c)
  }

  /** `parts.join(sep)` for a string separator. */
  function JoinWith(parts: seq<string>, sep: string): string
    decreases |parts|
  {
    if |parts| == 0 then ""
    else if |parts| == 1 then parts[0]
    else parts[0] + sep + JoinWith(parts[1..], sep)
  }

  /** Joining the pieces of a split with the same separator gives back the string. */
  lemma {:induction false} JoinSplit(s: string, c: char)
    ensures Join(Split(s, c), c) == s
    decreases |s|
  {
    match IndexOfChar(s, c)
    case None =>
    case Some(i) =>
      var rest := Split(s[i + 1..], c);
      JoinSplit(s[i + 1..], c);
      assert Split(s, c) == [s[..i]] + rest;
      assert s == s[..i] + [c] + s[i + 1..];
  }

  /**
   * `s.split(c)` has at least two pieces exactly when `c` occurs in `s`; then the
   * first piece is the text before the first `c` and the other pieces, joined
   * again with `c`, are the text after it.
   */
  lemma SplitAtFirst(s: string, c: char)
    ensures |Split(s, c)| >= 2 <==> c in s
    ensures c in s ==> IndexOfChar(s, c).Some?
    ensures c in s ==>
      var i := IndexOfChar(s, c).value;
      Split(s, c)[0] == s[..i] && Join(Split(s, c)[1..], c) == s[i + 1..]
  {
    match IndexOfChar(s, c)
    case None =>
    case Some(i) =>
      JoinSplit(s[i + 1..], c);
      assert Split(s, c)[1..] == Split(s[i + 1..], c);
  }

  /** `s.replace(/c/g, "")`: every `c` removed, the other characters kept in order. */
  function RemoveAll(s: string, c: char): (r: string)
    ensures c !in r
    ensures |r| <= |s|
    ensures c !in s ==> r == s
    ensures forall x :: x in r <==> x in s && x != c
  {
    if |s| == 0 then ""
    else if s[0] == c then RemoveAll(s[1..], c)
    else [s[0]] + RemoveAll(s[1..], c)
  }

  /** `s.slice(0, n)` for `n >= 0`. */
  function Take(s: string, n: nat): (r: string)
    ensures |r| == if n < |s| then n else |s|
    ensures StartsWith(s, r)
  {
    if n < |s| then s[..n] else s
  }

  /** `s.slice(-n)` for `n > 0`: the last `n` characters, or all of `s` when shorter. */
  function TakeLast(s: string, n: nat): (r: string)
    ensures |r| == if n < |s| then n else |s|
    ensures r == s[|s| - |r|..]
  {
    if n < |s| then s[|s| - n..] else s
  }

  /** An optional string is truthy in JavaScript: present and not empty. */
  predicate Present(o: Option<string>) {
    o.Some? && o.value != ""
  }

  /** `x || ""` for an optional string. */
  function OrEmpty(o: Option<string>): (r: string)
    ensures r == "" <==> !Present(o)
    ensures Present(o) ==> r == o.value
  {
    if Present(o) then o.value else ""
  }

  /** A string without white space at either end is its own trim. */
  lemma TrimTrimmed(s: string)
    requires s == [] || (!IsSpace(s[0]) && !IsSpace(s[|s| - 1]))
    ensures Trim(s) == s
  {
    assert TrimStart(s) == s;
    assert TrimEnd(s) == s;
  }

  /** Upper-casing neither creates nor removes white space. */
  lemma UpperKeepsSpace(s: string)
    ensures forall k :: 0 <= k < |s| ==> (IsSpace(ToUpper(s)[k]) <==> IsSpace(s[k]))
  {
  }

  /** No upper-case ASCII letter occurs in `s`. */
  predicate NoUpperCase(s: string) {
    forall k :: 0 <= k < |s| ==> !('A' <= s[k] <= 'Z')
  }

  /** Lower-casing undoes upper-casing on text that had no capitals. */
  lemma LowerUndoesUpper(s: string)
    requires NoUpperCase(s)
    ensures ToLower(ToUpper(s)) == s
  {
  }

  /** A string without the separator splits into itself alone. */
  lemma SplitWithout(s: string, c: char)
    requires c !in s
    ensures Split(s, c) == [s]
  {
  }

  /** Splitting at a separator that first occurs after `x` yields `x` and the split of the rest. */
  lemma SplitAfter(x: string, c: char, y: string)
    requires c !in x
    ensures Split(x + [c] + y, c) == [x] + Split(y, c)
  {
    var s := x + [c] + y;
    assert s[|x|] == c;
    assert s[..|x|] == x;
    assert s[|x| + 1..] == y;
    assert c !in s[..|x|];
  }

  /** Text appended after a first occurrence of `c` does not move it. */
  lemma IndexInPrefix(x: string, suffix: string, c: char)
    requires c in x
    ensures IndexOfChar(x + suffix, c) == IndexOfChar(x, c)
  {
    var s := x + suffix;
    var i := IndexOfChar(x, c).value;
    var j := IndexOfChar(s, c).value;
    assert s[i] == c;
    assert x[..i] == s[..i];
  }

  /** Splitting at a separator after which no separator occurs yields the split of `x` and then `y`. */
  lemma {:induction false} SplitBefore(x: string, c: char, y: string)
    requires c !in y
    ensures Split(x + [c] + y, c) == Split(x, c) + [y]
    decreases |x|
  {
    var s := x + [c] + y;
    match IndexOfChar(x, c)
    case None =>
      SplitAfter(x, c, y);
      SplitWithout(y, c);
      SplitWithout(x, c);
    case Some(i) =>
      assert s == x + ([c] + y);
      IndexInPrefix(x, [c] + y, c);
      assert s[..i] == x[..i];
      assert s[i + 1..] == x[i + 1..] + [c] + y;
      SplitBefore(x[i + 1..], c, y);
      assert Split(s, c) == [x[..i]] + Split(x[i + 1..] + [c] + y, c);
      assert Split(x, c) == [x[..i]] + Split(x[i + 1..], c);
  }

  /** Four separator-free pieces joined with the separator split back into those pieces. */
  lemma SplitFour(a: string, b: string, d: string, e: string, c: char)
    requires c !in a && c !in b && c !in d && c !in e
    ensures Split(a + [c] + b + [c] + d + [c] + e, c) == [a, b, d, e]
  {
    SplitWithout(a, c);
    SplitBefore(a, c, b);
    SplitBefore(a + [c] + b, c, d);
    SplitBefore(a + [c] + b + [c] + d, c, e);
  }
}
