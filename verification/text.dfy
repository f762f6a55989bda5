/** The string case operations the program relies on (`str.lower`, `str.title`),
    restricted to ASCII letters and the one other character whose lower-case
    form is an ASCII letter: U+212A KELVIN SIGN, which lowers to 'k'. */
module Text {

  const Kelvin: char := '\U{212A}'

  predicate IsUpper(c: char) { 'A' <= c <= 'Z' || c == Kelvin }

  predicate IsLower(c: char) { 'a' <= c <= 'z' }

  /** A character that has an upper- and a lower-case form. */
  predicate IsCased(c: char) { IsUpper(c) || IsLower(c) }

  function LowerChar(c: char): char
  {
    if 'A' <= c <= 'Z' then (c as int + 32) as char
    else if c == Kelvin then 'k'
    else c
  }

  function UpperChar(c: char): char
  {
    if IsLower(c) then (c as int - 32) as char else c
  }

  /** The ASCII capital a character is a case form of ('a', 'A' -> 'A';
      the Kelvin sign -> 'K'), or the character itself when it has none. */
  function CaseClass(c: char): char
  {
    if c == Kelvin then 'K' else UpperChar(c)
  }

  /** `s.lower()`: every upper-case letter replaced by its lower-case form.
      The result keeps each character's case class and holds no upper-case
      letter, which determines it (`LowerUnique`). */
  function Lower(s: string): (r: string)
    ensures |r| == |s|
    ensures forall i :: 0 <= i < |r| ==> !IsUpper(r[i])
    ensures forall i :: 0 <= i < |r| ==> CaseClass(r[i]) == CaseClass(s[i])
    ensures forall i :: 0 <= i < |r| ==> (r[i] == s[i] <==> !IsUpper(s[i]))
  {
    seq(|s|, i requires 0 <= i < |s| => LowerChar(s[i]))
  }

  /** Any string of the same length with no upper-case letter and the same
      case class at every position is `Lower(s)`. */
  lemma {:induction false} LowerUnique(s: string, t: string)
    requires |t| == |s|
    requires forall i :: 0 <= i < |t| ==> !IsUpper(t[i])
    requires forall i :: 0 <= i < |t| ==> CaseClass(t[i]) == CaseClass(s[i])
    ensures t == Lower(s)
  {
  }

  /** The Kelvin sign lowers to the ASCII letter 'k'. */
  lemma {:induction false} KelvinLowersToK()
    ensures Lower([Kelvin]) == "k"
  {
  }

  /** `str.title` from a position whose predecessor was (or was not) a cased
      character: a cased character after a cased one is lowered, any other
      cased character is raised, uncased characters are kept. */
  function TitleFrom(s: string, afterCased: bool): (r: string)
    ensures |r| == |s|
    ensures forall i :: 0 <= i < |r| ==> CaseClass(r[i]) == CaseClass(s[i])
  {
    if |s| == 0 then ""
    else
      var c := if afterCased then LowerChar(s[0]) else UpperChar(s[0]);
      [c] + TitleFrom(s[1..], IsCased(s[0]))
  }

  /** `s.title()`: only the case of letters changes. */
  function Title(s: string): (r: string)
    ensures |r| == |s|
    ensures forall i :: 0 <= i < |r| ==> CaseClass(r[i]) == CaseClass(s[i])
  {
    TitleFrom(s, false)
  }

  predicate AllLower(s: string)
  {
    forall i :: 0 <= i < |s| ==> IsLower(s[i])
  }

  lemma {:induction false} TitleKeepsLowerTail(s: string)
    requires AllLower(s)
    ensures TitleFrom(s, true) == s
  {
    if |s| > 0 {
      TitleKeepsLowerTail(s[1..]);
    }
  }

  /** A single lower-case word comes out of `title` with only its first letter
      raised: `"friday".title() == "Friday"`. */
  lemma {:induction false} TitleOfLowerWord(s: string)
    requires |s| > 0 && AllLower(s)
    ensures Title(s) == [UpperChar(s[0])] + s[1..]
    ensures IsUpper(Title(s)[0])
  {
    TitleKeepsLowerTail(s[1..]);
  }
}
