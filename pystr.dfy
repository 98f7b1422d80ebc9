/** The parts of Python's `str` that the core relies on: `isspace`, `strip`,
    `split(sep)` with a one-character separator, and `endswith`. */
module PyStr {

  /** Python's `str.isspace` for a single character: exactly the characters
      that `str.strip()` with no argument removes. */
  predicate IsSpace(c: char) {
    c in Whitespace
  }

  const Whitespace: set<char> := {
    '\t', '\n', '\U{0B}', '\U{0C}', '\r', '\U{1C}', '\U{1D}', '\U{1E}', '\U{1F}', ' ',
    '\U{85}', '\U{A0}', '\U{1680}',
    '\U{2000}', '\U{2001}', '\U{2002}', '\U{2003}', '\U{2004}', '\U{2005}',
    '\U{2006}', '\U{2007}', '\U{2008}', '\U{2009}', '\U{200A}',
    '\U{2028}', '\U{2029}', '\U{202F}', '\U{205F}', '\U{3000}'
  }

  /** True when every character of `s` is whitespace (also for ""). */
  predicate AllSpace(s: string) {
    forall i :: 0 <= i < |s| ==> IsSpace(s[i])
  }

  /** The first index at or after `i` that does not hold whitespace. */
  function SpaceRunEnd(s: string, i: nat): (k: nat)
    requires i <= |s|
    ensures i <= k <= |s|
    ensures forall j :: i <= j < k ==> IsSpace(s[j])
    ensures k < |s| ==> !IsSpace(s[k])
    decreases |s| - i
  {
    if i < |s| && IsSpace(s[i]) then SpaceRunEnd(s, i + 1) else i
  }

  /** The last index `k` in `lo..e` such that `s[k..e]` is whitespace only. */
  function SpaceRunStart(s: string, lo: nat, e: nat): (k: nat)
    requires lo <= e <= |s|
    ensures lo <= k <= e
    ensures forall j :: k <= j < e ==> IsSpace(s[j])
    ensures k > lo ==> !IsSpace(s[k - 1])
    decreases e
  {
    if e > lo && IsSpace(s[e - 1]) then SpaceRunStart(s, lo, e - 1) else e
  }

  /** Where `s.strip()` begins: after the leading whitespace. */
  function StripStart(s: string): (k: nat)
    ensures k <= |s|
  {
    SpaceRunEnd(s, 0)
  }

  /** Where `s.strip()` ends: before the trailing whitespace. */
  function StripEnd(s: string): (k: nat)
    ensures StripStart(s) <= k <= |s|
  {
    SpaceRunStart(s, StripStart(s), |s|)
  }

  /** Python's `s.strip()` with no argument: `s` without its leading and
      trailing whitespace. */
  function Strip(s: string): (r: string)
    ensures |r| <= |s|
  {
    s[StripStart(s)..StripEnd(s)]
  }

  /** `Strip` removes whitespace only: what lies before and after the kept
      slice is whitespace, and the slice neither starts nor ends with it. */
  lemma StripFacts(s: string)
    ensures AllSpace(s[..StripStart(s)]) && AllSpace(s[StripEnd(s)..])
    ensures Strip(s) == s[StripStart(s)..StripStart(s) + |Strip(s)|]
    ensures Strip(s) != [] ==> !IsSpace(Strip(s)[0]) && !IsSpace(Strip(s)[|Strip(s)| - 1])
  {
    var k, e := StripStart(s), StripEnd(s);
    assert forall j :: 0 <= j < k ==> s[..k][j] == s[j];
    assert forall j :: 0 <= j < |s| - e ==> s[e..][j] == s[e + j];
    if k < e {
      assert Strip(s)[0] == s[k];
      assert Strip(s)[|Strip(s)| - 1] == s[e - 1];
    }
  }

  /** The stripped text is empty exactly when the text is whitespace only. */
  lemma StripEmptyIff(s: string)
    ensures Strip(s) == [] <==> AllSpace(s)
  {
    var k := StripStart(s);
    if Strip(s) == [] {
      assert StripEnd(s) == k;
      // Otherwise `s[k]` would be both kept and trailing whitespace.
      if k < |s| {
        assert false;
      }
    } else {
      assert k < |s|;
    }
  }

  /** Index of the first occurrence of `c` in `s`, or `|s|` when there is none
      (Python's `s.find(c)`, with `|s|` in place of -1). */
  function Find(s: string, c: char): (i: nat)
    ensures i <= |s|
    ensures i < |s| ==> s[i] == c
    ensures forall k :: 0 <= k < i ==> s[k] != c
  {
    if s == [] then 0
    else if s[0] == c then 0
    else 1 + Find(s[1..], c)
  }

  /** `c in s`, stated through `Find`. */
  predicate Contains(s: string, c: char) {
    Find(s, c) < |s|
  }

  lemma ContainsIff(s: string, c: char)
    ensures Contains(s, c) <==> c in s
  {
  }

  /** Python's `s.split(sep)` for a one-character separator: the pieces between
      consecutive occurrences of `sep`; never empty (`"".split("=")` is `[""]`). */
  function Split(s: string, sep: char): (parts: seq<string>)
    ensures |parts| >= 1
    decreases |s|
  {
    var i := Find(s, sep);
    if i == |s| then [s] else [s[..i]] + Split(s[i + 1..], sep)
  }

  /** `sep.join(parts)`, the inverse of `Split`. */
  function Join(parts: seq<string>, sep: char): string
    requires |parts| >= 1
  {
    if |parts| == 1 then parts[0] else parts[0] + [sep] + Join(parts[1..], sep)
  }

  /** The text after the first occurrence of `c` up to the next one (or the end). */
  function Between(s: string, c: char): string
    requires Contains(s, c)
  {
    var rest := s[Find(s, c) + 1..];
    rest[..Find(rest, c)]
  }

  /** No piece contains the separator, and there is more than one piece
      exactly when the text contains the separator. */
  lemma {:induction false} SplitPieces(s: string, sep: char)
    ensures forall i :: 0 <= i < |Split(s, sep)| ==> !Contains(Split(s, sep)[i], sep)
    ensures |Split(s, sep)| == 1 <==> !Contains(s, sep)
    decreases |s|
  {
    var i := Find(s, sep);
    if i < |s| {
      SplitPieces(s[i + 1..], sep);
      NoneBefore(s, sep);
    }
  }

  /** The text before the first separator has no separator. */
  lemma NoneBefore(s: string, sep: char)
    ensures !Contains(s[..Find(s, sep)], sep)
  {
    var p := s[..Find(s, sep)];
    NotFound(p, sep);
  }

  /** A text none of whose characters is `c` has `Find` at its end. */
  lemma {:induction false} NotFound(s: string, c: char)
    requires forall k :: 0 <= k < |s| ==> s[k] != c
    ensures Find(s, c) == |s|
  {
    if s != [] {
      NotFound(s[1..], c);
    }
  }

  /** Splitting and joining again gives back the original text. */
  lemma {:induction false} JoinSplit(s: string, sep: char)
    ensures Join(Split(s, sep), sep) == s
    decreases |s|
  {
    var i := Find(s, sep);
    if i < |s| {
      JoinSplit(s[i + 1..], sep);
      JoinSplitStep(s, sep, i);
    }
  }

  /** The step of `JoinSplit`: splitting at the first separator and joining
      back gives `s` once the rest after it round-trips. */
  lemma JoinSplitStep(s: string, sep: char, i: nat)
    requires i == Find(s, sep) < |s|
    requires Join(Split(s[i + 1..], sep), sep) == s[i + 1..]
    ensures Join(Split(s, sep), sep) == s
  {
    SplitAtFirst(s, sep, i);
    JoinCons(s[..i], Split(s[i + 1..], sep), sep);
    Reassemble(s, i);
  }

  /** Splitting at the first separator, found at `i`, gives the piece before
      it followed by the split of the rest. */
  lemma SplitAtFirst(s: string, sep: char, i: nat)
    requires i == Find(s, sep) < |s|
    ensures Split(s, sep) == [s[..i]] + Split(s[i + 1..], sep)
  {
  }

  /** A string is the part before index `i`, the character at `i` and the rest. */
  lemma Reassemble(s: string, i: nat)
    requires i < |s|
    ensures s[..i] + [s[i]] + s[i + 1..] == s
  {
  }

  /** Joining a piece in front of at least one more joins it with a separator. */
  lemma JoinCons(head: string, tail: seq<string>, sep: char)
    requires |tail| >= 1
    ensures Join([head] + tail, sep) == head + [sep] + Join(tail, sep)
  {
    assert ([head] + tail)[1..] == tail;
  }

  /** The first separator of `p + [sep] + t`, when `p` has none, is at `|p|`. */
  lemma {:induction false} FindAfterPiece(p: string, sep: char, t: string)
    requires !Contains(p, sep)
    ensures Find(p + [sep] + t, sep) == |p|
    decreases |p|
  {
    if p != [] {
      assert (p + [sep] + t)[1..] == p[1..] + [sep] + t;
      FindAfterPiece(p[1..], sep, t);
    }
  }

  /** Joining separator-free pieces and splitting again gives back the pieces. */
  lemma {:induction false} SplitJoin(parts: seq<string>, sep: char)
    requires |parts| >= 1
    requires forall i :: 0 <= i < |parts| ==> !Contains(parts[i], sep)
    ensures Split(Join(parts, sep), sep) == parts
    decreases |parts|
  {
    if |parts| == 1 {
      assert Join(parts, sep) == parts[0];
    } else {
      var tail := parts[1..];
      var t := Join(tail, sep);
      var s := parts[0] + [sep] + t;
      assert Join(parts, sep) == s;
      FindAfterPiece(parts[0], sep, t);
      assert s[..|parts[0]|] == parts[0];
      assert s[|parts[0]| + 1..] == t;
      assert Split(s, sep) == [parts[0]] + Split(t, sep);
      SplitJoin(tail, sep);
      assert parts == [parts[0]] + tail;
    }
  }

  /** The first piece of `Split` is the text before the first separator and,
      when there is a separator, the second piece is the text `Between` the
      first separator and the next. */
  lemma SplitFirstPieces(s: string, sep: char)
    ensures Split(s, sep)[0] == s[..Find(s, sep)]
    ensures Contains(s, sep) ==> |Split(s, sep)| >= 2 && Split(s, sep)[1] == Between(s, sep)
  {
    if Contains(s, sep) {
      var rest := s[Find(s, sep) + 1..];
      assert Split(s, sep) == [s[..Find(s, sep)]] + Split(rest, sep);
    } else {
      assert s[..|s|] == s;
    }
  }

  /** An ASCII decimal digit, the characters `int` reads here. */
  predicate IsDigit(c: char) {
    '0' <= c <= '9'
  }

  /** The value of a decimal digit. */
  function DigitValue(c: char): (v: int)
    requires IsDigit(c)
    ensures 0 <= v <= 9
  {
    c as int - '0' as int
  }

  /** Python's `s.endswith(suffix)`. */
  predicate EndsWith(s: string, suffix: string) {
    |suffix| <= |s| && s[|s| - |suffix|..] == suffix
  }
}
