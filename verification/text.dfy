/** String searching and splitting as the source uses them:
    `String.prototype.includes`, an unanchored regular expression over
    literal alternatives (with and without the `i` flag) and
    `String.prototype.split` on a one-character separator. */
module Text {
  import opened Wrappers

  /** Canonical form used by a case-insensitive regular expression without
      the `u` flag. Only ASCII letters are folded: a non-ASCII character
      never canonicalises to an ASCII one, and every pattern of the source
      is ASCII, so this comparison agrees with the engine's on those patterns. */
  function Fold(c: char): char
  {
    if 'a' <= c <= 'z' then (c as int - 32) as char else c
  }

  predicate SameChar(a: char, b: char, ignoreCase: bool)
  {
    if ignoreCase then Fold(a) == Fold(b) else a == b
  }

  /** `pat` occurs in `text` starting at index `i`. */
  predicate MatchAt(text: string, pat: string, i: int, ignoreCase: bool)
  {
    0 <= i && i + |pat| <= |text| &&
    forall k :: 0 <= k < |pat| ==> SameChar(text[i + k], pat[k], ignoreCase)
  }

  /** Reference meaning of an unanchored search: some position matches. */
  ghost predicate Occurs(text: string, pat: string, ignoreCase: bool)
  {
    exists i :: MatchAt(text, pat, i, ignoreCase)
  }

  /** First position at or after `from` where `pat` occurs. */
  function IndexOfFrom(text: string, pat: string, from: nat, ignoreCase: bool): (r: Option<nat>)
    decreases |text| + 1 - from
    ensures r.Some? ==> from <= r.value && MatchAt(text, pat, r.value, ignoreCase)
    ensures r.Some? ==> forall j :: from <= j < r.value ==> !MatchAt(text, pat, j, ignoreCase)
    ensures r.None? ==> forall j :: from <= j ==> !MatchAt(text, pat, j, ignoreCase)
  {
    if from + |pat| > |text| then None
    else if MatchAt(text, pat, from, ignoreCase) then Some(from)
    else IndexOfFrom(text, pat, from + 1, ignoreCase)
  }

  /** First occurrence of `pat` in `text`, if any. */
  function IndexOf(text: string, pat: string, ignoreCase: bool): (r: Option<nat>)
    ensures r.None? <==> !Occurs(text, pat, ignoreCase)
    ensures r.Some? ==> MatchAt(text, pat, r.value, ignoreCase)
    ensures r.Some? ==> forall j :: 0 <= j < r.value ==> !MatchAt(text, pat, j, ignoreCase)
  {
    IndexOfFrom(text, pat, 0, ignoreCase)
  }

  /** `text.includes(pat)`: case-sensitive substring test. */
  function Contains(text: string, pat: string): (b: bool)
    ensures b <==> Occurs(text, pat, false)
  {
    IndexOf(text, pat, false).Some?
  }

  /** `/pat/i.test(text)` for a pattern made of literal characters. */
  function ContainsCI(text: string, pat: string): (b: bool)
    ensures b <==> Occurs(text, pat, true)
  {
    IndexOf(text, pat, true).Some?
  }

  /** No character of `text` equals `c` up to ASCII letter case. */
  predicate LacksCI(text: string, c: char)
  {
    forall p :: 0 <= p < |text| ==> !SameChar(text[p], c, true)
  }

  /** An occurrence of `pre + p` contains an occurrence of `p`. */
  lemma TailOccurrence(text: string, pre: string, p: string, ignoreCase: bool)
    requires Occurs(text, pre + p, ignoreCase)
    ensures Occurs(text, p, ignoreCase)
  {
    var i :| MatchAt(text, pre + p, i, ignoreCase);
    forall k | 0 <= k < |p|
      ensures SameChar(text[i + |pre| + k], p[k], ignoreCase)
    {
      assert (pre + p)[|pre| + k] == p[k];
    }
    assert MatchAt(text, p, i + |pre|, ignoreCase);
  }

  /** A pattern cannot occur where one of its characters never does. */
  lemma AbsentCharBlocksMatch(text: string, pat: string, k: nat)
    requires k < |pat| && LacksCI(text, pat[k])
    ensures !Occurs(text, pat, true)
  {
    forall i | 0 <= i && i + |pat| <= |text|
      ensures !MatchAt(text, pat, i, true)
    {
      assert !SameChar(text[i + k], pat[k], true);
    }
  }

  predicate StartsWith(s: string, prefix: string)
  {
    |prefix| <= |s| && s[..|prefix|] == prefix
  }

  /** `s.split(sep)`: the maximal separator-free pieces, including empty
      ones before, between and after separators. */
  function Split(s: string, sep: char): (parts: seq<string>)
    ensures |parts| >= 1
    ensures forall i :: 0 <= i < |parts| ==> sep !in parts[i]
  {
    if |s| == 0 then [""]
    else
      var rest := Split(s[1..], sep);
      if s[0] == sep then [""] + rest
      else [[s[0]] + rest[0]] + rest[1..]
  }

  /** `parts.join(sep)`, the inverse of `Split`. */
  function Join(parts: seq<string>, sep: char): string
    requires |parts| >= 1
  {
    if |parts| == 1 then parts[0]
    else parts[0] + [sep] + Join(parts[1..], sep)
  }

  lemma {:induction false} SplitThenJoin(s: string, sep: char)
    ensures Join(Split(s, sep), sep) == s
  {
    if |s| > 0 {
      var rest := Split(s[1..], sep);
      SplitThenJoin(s[1..], sep);
      if s[0] == sep {
        assert ([""] + rest)[1..] == rest;
      } else {
        var parts := [[s[0]] + rest[0]] + rest[1..];
        assert parts[1..] == rest[1..];
        if |rest| == 1 {
          assert Join(parts, sep) == [s[0]] + rest[0];
        } else {
          assert Join(rest, sep) == rest[0] + [sep] + Join(rest[1..], sep);
          assert Join(parts, sep) == [s[0]] + (rest[0] + [sep] + Join(rest[1..], sep));
        }
        assert s == [s[0]] + s[1..];
      }
    }
  }

  /** A separator-free prefix followed by a separator splits off as one piece. */
  lemma {:induction false} SplitAfterPiece(a: string, sep: char, b: string)
    requires sep !in a
    ensures Split(a + [sep] + b, sep) == [a] + Split(b, sep)
  {
    if |a| == 0 {
      assert a + [sep] + b == [sep] + b;
      assert ([sep] + b)[1..] == b;
    } else {
      var s := a + [sep] + b;
      assert s[0] == a[0];
      assert s[1..] == a[1..] + [sep] + b;
      SplitAfterPiece(a[1..], sep, b);
      assert [a[0]] + a[1..] == a;
    }
  }

  lemma {:induction false} SplitOfPiece(a: string, sep: char)
    requires sep !in a
    ensures Split(a, sep) == [a]
  {
    if |a| > 0 {
      SplitOfPiece(a[1..], sep);
      assert [a[0]] + a[1..] == a;
    }
  }

  /** Splitting a join of separator-free pieces gives the pieces back. */
  lemma {:induction false} JoinThenSplit(parts: seq<string>, sep: char)
    requires |parts| >= 1
    requires forall i :: 0 <= i < |parts| ==> sep !in parts[i]
    ensures Split(Join(parts, sep), sep) == parts
  {
    if |parts| == 1 {
      SplitOfPiece(parts[0], sep);
    } else {
      JoinThenSplit(parts[1..], sep);
      SplitAfterPiece(parts[0], sep, Join(parts[1..], sep));
      assert [parts[0]] + parts[1..] == parts;
    }
  }
}
