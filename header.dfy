/** `getUserInitials` of the page header: the avatar letters derived from
    the signed-in user's display name. */
module Header {
  import opened Tasks

  /** Upper-case of one character; only the ASCII letters are mapped. */
  function UpperChar(c: char): char {
    if 'a' <= c <= 'z' then (c as int - 32) as char else c
  }

  function ToUpper(s: string): (r: string)
    ensures |r| == |s| && forall i :: 0 <= i < |s| ==> r[i] == UpperChar(s[i])
  {
    if s == [] then [] else [UpperChar(s[0])] + ToUpper(s[1..])
  }

  /** `s.split(" ")`: the text between single spaces, empty parts included,
      so there is always one part more than there are spaces. */
  function Split(s: string): (parts: seq<string>)
    ensures |parts| >= 1
  {
    if s == [] then [[]]
    else
      var rest := Split(s[1..]);
      if s[0] == ' ' then [[]] + rest else [[s[0]] + rest[0]] + rest[1..]
  }

  /** `parts.join(" ")`, the inverse of `Split`. */
  function JoinWithSpace(parts: seq<string>): string {
    if |parts| == 0 then []
    else if |parts| == 1 then parts[0]
    else parts[0] + [' '] + JoinWithSpace(parts[1..])
  }

  /** `part.charAt(0)`: the first character, or "" for an empty part. */
  function CharAt0(part: string): (r: string)
    ensures |r| <= 1
  {
    if part == [] then [] else [part[0]]
  }

  function FirstChars(parts: seq<string>): seq<string> {
    if parts == [] then [] else [CharAt0(parts[0])] + FirstChars(parts[1..])
  }

  /** `parts.join("")` */
  function Concat(parts: seq<string>): string {
    if parts == [] then [] else parts[0] + Concat(parts[1..])
  }

  /** `s.slice(0, n)` for n >= 0. */
  function Take(s: string, n: nat): (r: string)
    ensures |r| <= n && |r| <= |s|
  {
    if |s| <= n then s else s[..n]
  }

  /** `getUserInitials()`; `name` is `session?.user?.name`. */
  function GetUserInitials(name: Option<string>): string {
    if !ToBoolean(OptionalString(name)) then "?"
    else Take(ToUpper(Concat(FirstChars(Split(name.value)))), 2)
  }

  /** The characters of `s` that begin a word: not a space, and first in `s`
      (when `atStart`) or right after a space. An independent description of
      what `split`, `charAt(0)` and `join` compute together. */
  function WordStarts(s: string, atStart: bool): string {
    if s == [] then []
    else (if atStart && s[0] != ' ' then [s[0]] else []) + WordStarts(s[1..], s[0] == ' ')
  }

  // ---------------------------------------------------------------------

  /** Splitting on spaces and joining with spaces gives the name back, and no
      part holds a space. */
  lemma {:induction false} SplitJoinRoundTrip(s: string)
    ensures JoinWithSpace(Split(s)) == s
    ensures forall p :: p in Split(s) ==> ' ' !in p
  {
    if s != [] {
      SplitJoinRoundTrip(s[1..]);
      var rest := Split(s[1..]);
      assert s == [s[0]] + s[1..];
      if s[0] == ' ' {
        assert ([[]] + rest)[1..] == rest;
      } else {
        var parts := [[s[0]] + rest[0]] + rest[1..];
        assert parts[1..] == rest[1..];
        assert rest == [rest[0]] + rest[1..];
        assert rest[0] in rest;
        forall p | p in parts ensures ' ' !in p {
          if p != parts[0] { assert p in rest; }
        }
      }
    }
  }

  lemma {:induction false} WordStartsOfSplit(s: string, atStart: bool)
    ensures WordStarts(s, atStart) ==
      (if atStart then CharAt0(Split(s)[0]) else []) + Concat(FirstChars(Split(s)[1..]))
  {
    if s != [] {
      var rest := Split(s[1..]);
      if s[0] == ' ' {
        WordStartsOfSplit(s[1..], true);
        assert ([[]] + rest)[1..] == rest;
        assert rest == [rest[0]] + rest[1..];
      } else {
        WordStartsOfSplit(s[1..], false);
        assert ([[s[0]] + rest[0]] + rest[1..])[1..] == rest[1..];
      }
    }
  }

  /** The joined first characters are exactly the word starts of the name. */
  lemma FirstCharsAreWordStarts(s: string)
    ensures Concat(FirstChars(Split(s))) == WordStarts(s, true)
  {
    WordStartsOfSplit(s, true);
    var parts := Split(s);
    assert parts == [parts[0]] + parts[1..];
  }

  /** A missing or empty name gives "?"; any other name the upper-cased first
      (at most) two word starts. */
  lemma InitialsSpec(name: Option<string>)
    ensures !(name.Some? && name.value != "") ==> GetUserInitials(name) == "?"
    ensures name.Some? && name.value != "" ==>
      GetUserInitials(name) == Take(ToUpper(WordStarts(name.value, true)), 2)
  {
    if name.Some? { FirstCharsAreWordStarts(name.value); }
  }

  /** The result never has more than two characters. */
  lemma InitialsAtMostTwo(name: Option<string>)
    ensures |GetUserInitials(name)| <= 2
  {
  }

  lemma {:induction false} WordStartsOfSpaces(s: string, atStart: bool)
    requires forall i :: 0 <= i < |s| ==> s[i] == ' '
    ensures WordStarts(s, atStart) == []
  {
    if s != [] { WordStartsOfSpaces(s[1..], true); }
  }

  /** Empty parts contribute nothing: a name of spaces only yields "". */
  lemma OnlySpacesGiveEmpty(name: string)
    requires name != [] && forall i :: 0 <= i < |name| ==> name[i] == ' '
    ensures GetUserInitials(Some(name)) == ""
  {
    InitialsSpec(Some(name));
    WordStartsOfSpaces(name, true);
  }

  lemma {:induction false} WordStartsInsideWord(s: string)
    requires ' ' !in s
    ensures WordStarts(s, false) == []
  {
    if s != [] {
      assert s[1..] <= s[1..] && forall c :: c in s[1..] ==> c in s;
      WordStartsInsideWord(s[1..]);
    }
  }

  /** A one-word name yields exactly its upper-cased first character. */
  lemma OneWordGivesOneChar(name: string)
    requires name != [] && ' ' !in name
    ensures GetUserInitials(Some(name)) == [UpperChar(name[0])]
  {
    InitialsSpec(Some(name));
    assert name[0] in name;
    WordStartsInsideWord(name[1..]);
  }

  /** Position `i` of `s` begins a word; `atStart` says whether the start of
      `s` counts as following a space. */
  predicate BeginsWord(s: string, i: int, atStart: bool)
    requires 0 <= i < |s|
  {
    s[i] != ' ' && (if i == 0 then atStart else s[i - 1] == ' ')
  }

  lemma {:induction false} WordStartsDependOnStartsOnly(a: string, b: string, atStart: bool)
    requires |a| == |b|
    requires forall i :: 0 <= i < |a| ==> (a[i] == ' ' <==> b[i] == ' ')
    requires forall i :: 0 <= i < |a| && BeginsWord(a, i, atStart) ==> a[i] == b[i]
    ensures WordStarts(a, atStart) == WordStarts(b, atStart)
  {
    if a != [] {
      assert a[0] == ' ' <==> b[0] == ' ';
      assert atStart && a[0] != ' ' ==> BeginsWord(a, 0, atStart);
      forall i | 0 <= i < |a[1..]| && BeginsWord(a[1..], i, a[0] == ' ') ensures a[1..][i] == b[1..][i] {
        assert BeginsWord(a, i + 1, atStart);
      }
      forall i | 0 <= i < |a[1..]| ensures (a[1..][i] == ' ' <==> b[1..][i] == ' ') {
        assert a[i + 1] == ' ' <==> b[i + 1] == ' ';
      }
      WordStartsDependOnStartsOnly(a[1..], b[1..], a[0] == ' ');
    }
  }

  /** Characters after the first of each part do not affect the initials:
      two names with spaces in the same places and the same word starts
      give the same result. */
  lemma LaterCharsIrrelevant(a: string, b: string)
    requires |a| == |b|
    requires forall i :: 0 <= i < |a| ==> (a[i] == ' ' <==> b[i] == ' ')
    requires forall i :: 0 <= i < |a| && BeginsWord(a, i, true) ==> a[i] == b[i]
    ensures GetUserInitials(Some(a)) == GetUserInitials(Some(b))
  {
    InitialsSpec(Some(a));
    InitialsSpec(Some(b));
    WordStartsDependOnStartsOnly(a, b, true);
  }
}
