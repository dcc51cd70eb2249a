/**
  String helpers the backend relies on: lower-casing (`String.prototype.toLowerCase`
  and the database's case-insensitive comparison), substring search (the
  database's `contains` filter) and whitespace trimming (the validator's
  `trim()` sanitizer).
 */
module Text {

  predicate IsUpper(c: char) {
    'A' <= c <= 'Z'
  }

  function LowerChar(c: char): char {
    if IsUpper(c) then (c as int + 32) as char else c
  }

  /** A string with no upper-case letter. */
  ghost predicate IsLowerCase(s: string) {
    forall i :: 0 <= i < |s| ==> !IsUpper(s[i])
  }

  /** Lower-cases the letters A-Z and leaves every other character alone. */
  function ToLower(s: string): (r: string)
    ensures |r| == |s|
    ensures IsLowerCase(r)
    ensures IsLowerCase(s) ==> r == s
    ensures forall i :: 0 <= i < |s| && !IsUpper(s[i]) ==> r[i] == s[i]
    ensures forall i :: 0 <= i < |s| && IsUpper(s[i]) ==> r[i] == (s[i] as int + 32) as char
  {
    if s == [] then [] else [LowerChar(s[0])] + ToLower(s[1..])
  }

  lemma ToLowerIdempotent(s: string)
    ensures ToLower(ToLower(s)) == ToLower(s)
  {
  }

  /** `needle` occurs in `hay` starting at index `i`. */
  ghost predicate OccursAt(needle: string, hay: string, i: int) {
    0 <= i && i + |needle| <= |hay| && hay[i..i + |needle|] == needle
  }

  ghost predicate Occurs(needle: string, hay: string) {
    exists i :: OccursAt(needle, hay, i)
  }

  lemma {:induction false} OccursShift(needle: string, hay: string)
    requires hay != []
    requires !OccursAt(needle, hay, 0)
    ensures Occurs(needle, hay) <==> Occurs(needle, hay[1..])
  {
    if Occurs(needle, hay) {
      var i :| OccursAt(needle, hay, i);
      assert i > 0;
      assert hay[1..][i - 1..i - 1 + |needle|] == hay[i..i + |needle|];
      assert OccursAt(needle, hay[1..], i - 1);
    }
    if Occurs(needle, hay[1..]) {
      var j :| OccursAt(needle, hay[1..], j);
      assert hay[j + 1..j + 1 + |needle|] == hay[1..][j..j + |needle|];
      assert OccursAt(needle, hay, j + 1);
    }
  }

  /** Substring search: true exactly when `needle` occurs somewhere in `hay`. */
  function Contains(hay: string, needle: string): (b: bool)
    ensures b <==> Occurs(needle, hay)
    decreases |hay|
  {
    if |needle| > |hay| then
      assert forall i :: !OccursAt(needle, hay, i);
      false
    else if hay[..|needle|] == needle then
      assert OccursAt(needle, hay, 0);
      true
    else
      OccursShift(needle, hay);
      Contains(hay[1..], needle)
  }

  /** The characters of the whitespace class `\s` of JavaScript regular
      expressions, which the validator's `trim()` strips. */
  const SpaceChars: seq<char> := [
    ' ', '\t', '\n', '\U{000B}', '\U{000C}', '\r', '\U{00A0}', '\U{1680}',
    '\U{2000}', '\U{2001}', '\U{2002}', '\U{2003}', '\U{2004}', '\U{2005}',
    '\U{2006}', '\U{2007}', '\U{2008}', '\U{2009}', '\U{200A}',
    '\U{2028}', '\U{2029}', '\U{202F}', '\U{205F}', '\U{3000}', '\U{FEFF}'
  ]

  predicate IsSpace(c: char) {
    c in SpaceChars
  }

  /** Every character is whitespace (the empty string included). */
  ghost predicate Blank(s: string) {
    forall i :: 0 <= i < |s| ==> IsSpace(s[i])
  }

  /** Drops the leading whitespace: the result is the suffix of `s` that
      starts at its first non-space character. */
  function TrimStart(s: string): (r: string)
    ensures |r| <= |s| && r == s[|s| - |r|..]
    ensures forall i :: 0 <= i < |s| - |r| ==> IsSpace(s[i])
    ensures r != [] ==> !IsSpace(r[0])
    decreases |s|
  {
    if s != [] && IsSpace(s[0]) then TrimStart(s[1..]) else s
  }

  /** Drops the trailing whitespace: the result is the prefix of `s` that
      ends at its last non-space character. */
  function TrimEnd(s: string): (r: string)
    ensures |r| <= |s| && r == s[..|r|]
    ensures forall i :: |r| <= i < |s| ==> IsSpace(s[i])
    ensures r != [] ==> !IsSpace(r[|r| - 1])
    decreases |s|
  {
    if s != [] && IsSpace(s[|s| - 1]) then TrimEnd(s[..|s| - 1]) else s
  }

  /** Whitespace trimmed from both ends, right trim applied after left trim. */
  function Trim(s: string): (r: string)
    ensures r == [] <==> Blank(s)
    ensures r != [] ==> !IsSpace(r[0]) && !IsSpace(r[|r| - 1])
    ensures |r| <= |s|
  {
    var l := TrimStart(s);
    var r := TrimEnd(l);
    TrimmedPieces(s, |s| - |l|, l, r);
    r
  }

  /** `Trim` removes only whitespace: its result is the slice of `s` that
      starts at the first non-whitespace character, with only whitespace
      before and after it. */
  lemma TrimIsSlice(s: string)
    ensures var k := |s| - |TrimStart(s)|;
      && k + |Trim(s)| <= |s|
      && Trim(s) == s[k..k + |Trim(s)|]
      && (forall i :: 0 <= i < k ==> IsSpace(s[i]))
      && (forall i :: k + |Trim(s)| <= i < |s| ==> IsSpace(s[i]))
  {
    TrimKeepsMiddle(s);
    TrimDropsBlankPrefix(s);
    TrimDropsBlankSuffix(s);
  }

  /** The characters `Trim` keeps, one by one. */
  lemma TrimKeepsMiddle(s: string)
    ensures var k := |s| - |TrimStart(s)|;
      k + |Trim(s)| <= |s| && forall i :: 0 <= i < |Trim(s)| ==> Trim(s)[i] == s[k + i]
  {
    var l := TrimStart(s);
    TrimmedMiddle(s, |s| - |l|, l, TrimEnd(l));
  }

  /** What `Trim` drops in front is whitespace. */
  lemma TrimDropsBlankPrefix(s: string)
    ensures var k := |s| - |TrimStart(s)|; forall i :: 0 <= i < k ==> IsSpace(s[i])
  {
  }

  /** What `Trim` drops at the end is whitespace. */
  lemma TrimDropsBlankSuffix(s: string)
    ensures var k := |s| - |TrimStart(s)|;
      k + |Trim(s)| <= |s| && forall i :: k + |Trim(s)| <= i < |s| ==> IsSpace(s[i])
  {
    var l := TrimStart(s);
    TrimmedMiddle(s, |s| - |l|, l, TrimEnd(l));
  }

  /** With `l` the part of `s` from `k` on, and `r` a prefix of `l` followed
      only by whitespace: `r` is the slice of `s` at `k`, and everything
      after it is whitespace. */
  lemma TrimmedMiddle(s: string, k: nat, l: string, r: string)
    requires k <= |s| && l == s[k..]
    requires |r| <= |l| && r == l[..|r|]
    requires forall i :: |r| <= i < |l| ==> IsSpace(l[i])
    ensures r == s[k..k + |r|]
    ensures forall i :: k + |r| <= i < |s| ==> IsSpace(s[i])
  {
    forall i | k + |r| <= i < |s|
      ensures IsSpace(s[i])
    {
      assert s[i] == l[i - k];
    }
  }

  /** `s` is blank up to `k`, its rest `l` is `r` followed by blanks, and `r`
      does not start with a space: `r` is empty exactly when `s` is blank. */
  lemma TrimmedPieces(s: string, k: nat, l: string, r: string)
    requires k <= |s| && l == s[k..]
    requires forall i :: 0 <= i < k ==> IsSpace(s[i])
    requires |r| <= |l| && r == l[..|r|]
    requires forall i :: |r| <= i < |l| ==> IsSpace(l[i])
    requires r != [] ==> !IsSpace(r[0])
    ensures r == [] <==> Blank(s)
  {
    if r == [] {
      forall i | 0 <= i < |s|
        ensures IsSpace(s[i])
      {
        if i >= k {
          assert s[i] == l[i - k];
        }
      }
    } else {
      assert s[k] == r[0];
    }
  }

  /** U+FE0E and U+FE0F, the variation selectors that the validator's
      `isLength` leaves out of its count. */
  predicate IsVariationSelector(c: char) {
    c == '\U{FE0E}' || c == '\U{FE0F}'
  }

  /** The length `isLength` measures: the characters (code points) of `s`
      other than the two variation selectors. */
  function Length(s: string): (n: nat)
    ensures n <= |s|
    ensures n == 0 <==> forall i :: 0 <= i < |s| ==> IsVariationSelector(s[i])
    ensures (forall i :: 0 <= i < |s| ==> !IsVariationSelector(s[i])) ==> n == |s|
    ensures n == |s| - multiset(s)['\U{FE0E}'] - multiset(s)['\U{FE0F}']
  {
    if s == [] then 0
    else
      assert s == [s[0]] + s[1..];
      (if IsVariationSelector(s[0]) then 0 else 1) + Length(s[1..])
  }

  /** Trimming keeps the characters `isLength` counts, except the
      whitespace at the ends: without variation selectors in `s`, the trimmed
      value's length by that count is its plain length. */
  lemma TrimLength(s: string)
    ensures (forall i :: 0 <= i < |s| ==> !IsVariationSelector(s[i])) ==> Length(Trim(s)) == |Trim(s)|
  {
    var l := TrimStart(s);
    var t := TrimEnd(l);
    assert t == Trim(s);
    if forall i :: 0 <= i < |s| ==> !IsVariationSelector(s[i]) {
      forall j | 0 <= j < |t| ensures !IsVariationSelector(t[j]) {
        assert t[j] == l[j] == s[|s| - |l| + j];
      }
    }
  }

  /** A trimmed string is its own trim: sanitizing twice changes nothing. */
  lemma TrimIdempotent(s: string)
    ensures Trim(Trim(s)) == Trim(s)
  {
    var t := Trim(s);
    if t != [] {
      assert TrimStart(t) == t;
      assert TrimEnd(t) == t;
    }
  }
}
