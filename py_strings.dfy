/**
 * The few Python `str` operations the back end relies on, with Python's
 * semantics: `sep in s`, `s.split(sep)`, `sep.join(parts)` and `s.strip()`.
 * A Python string is a sequence of code points, as a Dafny `string` is.
 */
module PyStrings {
  import opened Wrappers

  /** Python's `str.isspace()` on one code point: the characters `s.strip()` removes. */
  predicate IsSpace(c: char)
  {
    ('\t' <= c <= '\r') || ('\U{1C}' <= c <= ' ') || c == '\U{85}' || c == '\U{A0}' ||
    c == '\U{1680}' || ('\U{2000}' <= c <= '\U{200A}') || c == '\U{2028}' || c == '\U{2029}' ||
    c == '\U{202F}' || c == '\U{205F}' || c == '\U{3000}'
  }

  /** `sep` occurs in `s` starting at index `k`. */
  predicate OccursAt(s: string, sep: string, k: int)
  {
    0 <= k && k + |sep| <= |s| && s[k..k + |sep|] == sep
  }

  /** The index of the leftmost occurrence of `sep` in `s`, as `s.find(sep)`. */
  function Find(s: string, sep: string): (r: Option<nat>)
    ensures r.Some? ==> OccursAt(s, sep, r.value)
    ensures r.Some? ==> forall k :: 0 <= k < r.value ==> !OccursAt(s, sep, k)
    ensures r.None? ==> forall k :: !OccursAt(s, sep, k)
    decreases |s|
  {
    if |s| < |sep| then None
    else if s[..|sep|] == sep then Some(0)
    else
      var r' := Find(s[1..], sep);
      ShiftOccurrence(s, sep);
      match r'
      case None => None
      case Some(k) => Some(k + 1)
  }

  /** Occurrences in the tail of `s` are the occurrences in `s` past index 0, one place back. */
  lemma ShiftOccurrence(s: string, sep: string)
    requires |s| > 0
    ensures forall k :: OccursAt(s[1..], sep, k) ==> OccursAt(s, sep, k + 1)
    ensures forall k :: 0 < k && OccursAt(s, sep, k) ==> OccursAt(s[1..], sep, k - 1)
  {
    forall k | OccursAt(s[1..], sep, k)
      ensures OccursAt(s, sep, k + 1)
    {
      assert s[1..][k..k + |sep|] == s[k + 1..k + 1 + |sep|];
    }
    forall k | 0 < k && OccursAt(s, sep, k)
      ensures OccursAt(s[1..], sep, k - 1)
    {
      assert s[1..][k - 1..k - 1 + |sep|] == s[k..k + |sep|];
    }
  }

  /** Python's `sep in s`. */
  predicate Contains(s: string, sep: string): (b: bool)
    ensures b <==> exists k :: OccursAt(s, sep, k)
  {
    Find(s, sep).Some?
  }

  /** The text of `s` before the first `sep`, or all of `s` when there is none. */
  function UpTo(s: string, sep: string): (r: string)
    requires |sep| > 0
    ensures !Contains(r, sep)
    ensures |r| <= |s| && r == s[..|r|]
    ensures !Contains(s, sep) ==> r == s
    ensures Contains(s, sep) ==> OccursAt(s, sep, |r|) && forall k :: 0 <= k < |r| ==> !OccursAt(s, sep, k)
  {
    match Find(s, sep)
    case None => s
    case Some(k) =>
      NothingBeforeFirst(s, sep);
      s[..k]
  }

  /** The text of `s` after the first `sep`. */
  function After(s: string, sep: string): (r: string)
    requires |sep| > 0 && Contains(s, sep)
    ensures s == UpTo(s, sep) + sep + r
  {
    var k := Find(s, sep).value;
    assert s == s[..k] + s[k..k + |sep|] + s[k + |sep|..];
    s[k + |sep|..]
  }

  /** An occurrence in a prefix of `s` is an occurrence in `s`. */
  lemma PrefixOccurrence(s: string, sep: string, n: nat)
    requires n <= |s|
    ensures forall k :: OccursAt(s[..n], sep, k) ==> OccursAt(s, sep, k)
  {
    forall k | OccursAt(s[..n], sep, k)
      ensures OccursAt(s, sep, k)
    {
      assert s[..n][k..k + |sep|] == s[k..k + |sep|];
    }
  }

  /** The text before the first occurrence of `sep` holds no occurrence of it. */
  lemma NothingBeforeFirst(s: string, sep: string)
    requires |sep| > 0 && Contains(s, sep)
    ensures !Contains(s[..Find(s, sep).value], sep)
  {
    var k := Find(s, sep).value;
    PrefixOccurrence(s, sep, k);
  }

  /** Python's `sep.join(parts)`. */
  function Join(parts: seq<string>, sep: string): (r: string)
    ensures parts == [] ==> r == ""
    ensures parts != [] ==> |parts[0]| <= |r| && r[..|parts[0]|] == parts[0]
    decreases |parts|
  {
    if |parts| == 0 then ""
    else if |parts| == 1 then parts[0]
    else parts[0] + sep + Join(parts[1..], sep)
  }

  /**
   * Python's `s.split(sep)` for a non-empty separator (Python raises
   * `ValueError` on an empty one): the pieces between leftmost
   * non-overlapping occurrences of `sep`.
   */
  function Split(s: string, sep: string): (parts: seq<string>)
    requires |sep| > 0
    ensures |parts| >= 1
    ensures |parts| >= 2 <==> Contains(s, sep)
    ensures forall i :: 0 <= i < |parts| ==> !Contains(parts[i], sep)
    ensures parts[0] == UpTo(s, sep)
    ensures Contains(s, sep) ==> parts[1] == UpTo(After(s, sep), sep)
    decreases |s|
  {
    match Find(s, sep)
    case None => [s]
    case Some(k) =>
      NothingBeforeFirst(s, sep);
      [s[..k]] + Split(s[k + |sep|..], sep)
  }

  /** Joining the pieces of a split with the same separator gives back the string. */
  lemma {:induction false} JoinSplit(s: string, sep: string)
    requires |sep| > 0
    ensures Join(Split(s, sep), sep) == s
    decreases |s|
  {
    match Find(s, sep)
    case None =>
    case Some(k) =>
      var rest := s[k + |sep|..];
      var parts := Split(rest, sep);
      JoinSplit(rest, sep);
      assert Split(s, sep) == [s[..k]] + parts;
      assert ([s[..k]] + parts)[1..] == parts;
      assert s == s[..k] + sep + rest;
  }

  /**
   * With a one-character separator that occurs in none of the parts,
   * splitting the join gives back the parts.
   */
  lemma {:induction false} SplitJoin(parts: seq<string>, sep: string)
    requires |parts| >= 1 && |sep| == 1
    requires forall i :: 0 <= i < |parts| ==> !Contains(parts[i], sep)
    ensures Split(Join(parts, sep), sep) == parts
    decreases |parts|
  {
    if |parts| > 1 {
      var head, tail := parts[0], Join(parts[1..], sep);
      var s := head + sep + tail;
      assert OccursAt(s, sep, |head|);
      assert !Contains(head, sep);
      forall k | 0 <= k < |head|
        ensures !OccursAt(s, sep, k)
      {
        assert head[k..k + 1] == s[k..k + 1];
        assert !OccursAt(head, sep, k);
      }
      assert Find(s, sep) == Some(|head|);
      assert s[|head| + 1..] == tail;
      SplitJoin(parts[1..], sep);
    }
  }

  /** `s` without its leading whitespace. */
  function TrimStart(s: string): (r: string)
    ensures |r| <= |s| && r == s[|s| - |r|..]
    ensures forall i :: 0 <= i < |s| - |r| ==> IsSpace(s[i])
    ensures r == [] || !IsSpace(r[0])
    decreases |s|
  {
    if |s| > 0 && IsSpace(s[0]) then TrimStart(s[1..]) else s
  }

  /** `s` without its trailing whitespace. */
  function TrimEnd(s: string): (r: string)
    ensures |r| <= |s| && r == s[..|r|]
    ensures forall i :: |r| <= i < |s| ==> IsSpace(s[i])
    ensures r == [] || !IsSpace(r[|r| - 1])
    decreases |s|
  {
    if |s| > 0 && IsSpace(s[|s| - 1]) then TrimEnd(s[..|s| - 1]) else s
  }

  /**
   * Python's `s.strip()`: `s` without leading and trailing whitespace. The
   * result is a slice of `s` that neither starts nor ends with whitespace,
   * and only whitespace lies outside it.
   */
  function Strip(s: string): (r: string)
    ensures |r| <= |TrimStart(s)|
    ensures var a := |s| - |TrimStart(s)|;
      && s[a..a + |r|] == r
      && (forall i :: 0 <= i < a ==> IsSpace(s[i]))
      && (forall i :: a + |r| <= i < |s| ==> IsSpace(s[i]))
    ensures r == [] || (!IsSpace(r[0]) && !IsSpace(r[|r| - 1]))
  {
    TrimEnd(TrimStart(s))
  }

  /** Stripping twice is stripping once. */
  lemma StripIdempotent(s: string)
    ensures Strip(Strip(s)) == Strip(s)
  {
    var r := Strip(s);
    if r != [] {
      assert TrimStart(r) == r;
      assert TrimEnd(r) == r;
    }
  }
}
