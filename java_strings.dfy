/**
 * The few java.lang.String and Spring StringUtils operations the core relies on,
 * with the Java semantics that matter for its edge cases: split drops trailing
 * empty pieces, trim strips every character up to the space character, and
 * hasText looks for a non-whitespace character.
 */
module JavaStrings {
  import opened Common

  /** Character.isWhitespace restricted to the ASCII range. */
  predicate IsWhitespace(c: char) {
    c == ' ' || c == '\t' || c == '\n' || c == '\r' || c == '\U{B}' || c == '\U{C}'
    || ('\U{1C}' <= c <= '\U{1F}')
  }

  /** StringUtils.hasText: present, and some character of it is not whitespace. */
  function HasText(s: Option<string>): (r: bool)
    ensures r ==> s.Some? && s.value != []
    ensures s.Some? && (exists i :: 0 <= i < |s.value| && !IsWhitespace(s.value[i])) ==> r
    ensures s.Some? && (forall i :: 0 <= i < |s.value| ==> IsWhitespace(s.value[i])) ==> !r
  {
    s.Some? && exists i :: 0 <= i < |s.value| && !IsWhitespace(s.value[i])
  }

  predicate StartsWith(s: string, prefix: string) {
    |prefix| <= |s| && s[..|prefix|] == prefix
  }

  /** SQL LIKE '%sub%' without wildcards in the pattern: sub occurs somewhere in s. */
  predicate Contains(s: string, sub: string) {
    exists i :: 0 <= i <= |s| - |sub| && OccursAt(s, sub, i)
  }

  predicate OccursAt(s: string, sub: string, i: int) {
    0 <= i <= |s| - |sub| && s[i..i + |sub|] == sub
  }

  /** String.trim drops leading and trailing characters whose code is at most U+0020. */
  predicate Blank(c: char) { c <= ' ' }

  function TrimStart(s: string): (r: string)
    ensures |r| <= |s| && r == s[|s| - |r|..]
    ensures r != [] ==> !Blank(r[0])
    ensures forall i :: 0 <= i < |s| - |r| ==> Blank(s[i])
  {
    if s != [] && Blank(s[0]) then TrimStart(s[1..]) else s
  }

  function TrimEnd(s: string): (r: string)
    ensures |r| <= |s| && r == s[..|r|]
    ensures r != [] ==> !Blank(r[|r| - 1])
    ensures forall i :: |r| <= i < |s| ==> Blank(s[i])
  {
    if s != [] && Blank(s[|s| - 1]) then TrimEnd(s[..|s| - 1]) else s
  }

  /** The trimmed string is the slice s[lo..hi] with only blanks outside it and non-blanks at its ends. */
  function Trim(s: string): (r: string)
    ensures exists lo, hi ::
      (0 <= lo <= hi <= |s| && r == s[lo..hi]
      && (forall i :: 0 <= i < lo ==> Blank(s[i]))
      && (forall i :: hi <= i < |s| ==> Blank(s[i])))
    ensures r != [] ==> !Blank(r[0]) && !Blank(r[|r| - 1])
  {
    var t := TrimStart(s);
    var u := TrimEnd(t);
    CutBothEnds(s, t, u);
    u
  }

  /** Cutting blanks from the front of s and then from the back leaves a slice of s with only blanks cut away. */
  lemma CutBothEnds(s: string, t: string, u: string)
    requires |t| <= |s| && t == s[|s| - |t|..] && forall i :: 0 <= i < |s| - |t| ==> Blank(s[i])
    requires |u| <= |t| && u == t[..|u|] && forall i :: |u| <= i < |t| ==> Blank(t[i])
    ensures u == s[|s| - |t|..|s| - |t| + |u|]
    ensures forall i :: |s| - |t| + |u| <= i < |s| ==> Blank(s[i])
    ensures u != [] ==> u[0] == t[0]
  {
    var lo := |s| - |t|;
    forall i | lo + |u| <= i < |s| ensures Blank(s[i]) {
      assert s[i] == t[i - lo];
    }
  }

  /** Index of the first occurrence of c in s. */
  function IndexOf(s: string, c: char): (r: Option<nat>)
    ensures r.None? <==> c !in s
    ensures r.Some? ==> r.value < |s| && s[r.value] == c && c !in s[..r.value]
  {
    if s == [] then None
    else if s[0] == c then Some(0)
    else match IndexOf(s[1..], c)
      case None => None
      case Some(k) => Some(k + 1)
  }

  /** Index of the last occurrence of c in s. */
  function LastIndexOf(s: string, c: char): (r: Option<nat>)
    ensures r.None? <==> c !in s
    ensures r.Some? ==> r.value < |s| && s[r.value] == c && c !in s[r.value + 1..]
  {
    if s == [] then None
    else if s[|s| - 1] == c then Some(|s| - 1)
    else LastIndexOf(s[..|s| - 1], c)
  }

  /** String.toLowerCase on the ASCII letters. */
  function ToLower(s: string): (r: string)
    ensures |r| == |s|
    ensures forall i :: 0 <= i < |s| ==> r[i] == LowerChar(s[i])
  {
    if s == [] then [] else [LowerChar(s[0])] + ToLower(s[1..])
  }

  function LowerChar(c: char): char {
    if 'A' <= c <= 'Z' then (c as int + 32) as char else c
  }

  /** Every piece between separators, empty pieces included. */
  function Pieces(s: string, sep: char): (r: seq<string>)
    ensures |r| >= 1
    ensures forall i :: 0 <= i < |r| ==> sep !in r[i]
  {
    match IndexOf(s, sep)
      case None => [s]
      case Some(k) => [s[..k]] + Pieces(s[k + 1..], sep)
  }

  /** Joining the pieces with the separator again. */
  function Join(ps: seq<string>, sep: char): string
    requires |ps| >= 1
  {
    if |ps| == 1 then ps[0] else ps[0] + [sep] + Join(ps[1..], sep)
  }

  /** Pieces and Join are inverse: splitting loses nothing. */
  lemma {:induction false} JoinPieces(s: string, sep: char)
    ensures Join(Pieces(s, sep), sep) == s
  {
    match IndexOf(s, sep)
      case None =>
      case Some(k) =>
        var rest := Pieces(s[k + 1..], sep);
        assert Pieces(s, sep) == [s[..k]] + rest;
        assert ([s[..k]] + rest)[1..] == rest;
        JoinPieces(s[k + 1..], sep);
        assert s == s[..k] + [sep] + s[k + 1..];
  }

  function DropTrailingEmpty(ps: seq<string>): (r: seq<string>)
    ensures |r| <= |ps| && r == ps[..|r|]
    ensures r != [] ==> r[|r| - 1] != ""
    ensures forall i :: |r| <= i < |ps| ==> ps[i] == ""
  {
    if ps != [] && ps[|ps| - 1] == "" then DropTrailingEmpty(ps[..|ps| - 1]) else ps
  }

  /**
   * String.split with a one-character separator: a string without the separator
   * splits into itself; otherwise trailing empty pieces are dropped.
   */
  function Split(s: string, sep: char): (r: seq<string>)
    ensures sep !in s ==> r == [s]
    ensures forall i :: 0 <= i < |r| ==> sep !in r[i]
    ensures sep in s && r != [] ==> r[|r| - 1] != ""
    ensures sep in s ==> |r| <= |Pieces(s, sep)| && r == Pieces(s, sep)[..|r|]
    ensures sep in s ==> forall i :: |r| <= i < |Pieces(s, sep)| ==> Pieces(s, sep)[i] == ""
  {
    if sep !in s then [s] else DropTrailingEmpty(Pieces(s, sep))
  }

  predicate OnlySeparators(s: string, sep: char) {
    forall i :: 0 <= i < |s| ==> s[i] == sep
  }

  predicate AllEmpty(ps: seq<string>) {
    forall i :: 0 <= i < |ps| ==> ps[i] == ""
  }

  /** All pieces of a string made only of separators are empty, and conversely. */
  lemma {:induction false} PiecesAllEmpty(s: string, sep: char)
    ensures AllEmpty(Pieces(s, sep)) <==> OnlySeparators(s, sep)
  {
    match IndexOf(s, sep)
      case None =>
        assert Pieces(s, sep) == [s];
        if s != [] {
          assert s[0] != sep;
          assert !AllEmpty([s]) by { assert [s][0] != ""; }
        }
      case Some(k) =>
        assert Pieces(s, sep) == [s[..k]] + Pieces(s[k + 1..], sep);
        PiecesAllEmpty(s[k + 1..], sep);
        AllEmptyCons(s[..k], Pieces(s[k + 1..], sep));
        SeparatorsCons(s, sep, k);
  }

  lemma AllEmptyCons(head: string, rest: seq<string>)
    ensures AllEmpty([head] + rest) <==> head == "" && AllEmpty(rest)
  {
    var ps := [head] + rest;
    if head == "" && AllEmpty(rest) {
      forall i | 0 <= i < |ps| ensures ps[i] == "" { if i > 0 { assert ps[i] == rest[i - 1]; } }
    }
    if AllEmpty(ps) {
      assert ps[0] == head;
      forall i | 0 <= i < |rest| ensures rest[i] == "" { assert rest[i] == ps[i + 1]; }
    }
  }

  lemma NoSeparatorBefore(s: string, sep: char, k: nat)
    requires k <= |s| && sep !in s[..k]
    ensures forall j :: 0 <= j < k ==> s[j] != sep
  {
    forall j | 0 <= j < k ensures s[j] != sep { assert s[j] == s[..k][j]; }
  }

  /** A string is all separators exactly when its first separator is at 0 and the rest is all separators. */
  lemma SeparatorsCons(s: string, sep: char, k: nat)
    requires k < |s| && s[k] == sep && sep !in s[..k]
    ensures OnlySeparators(s, sep) <==> s[..k] == "" && OnlySeparators(s[k + 1..], sep)
  {
    var t := s[k + 1..];
    NoSeparatorBefore(s, sep, k);
    if OnlySeparators(s, sep) {
      assert s[0] == sep;
      forall i | 0 <= i < |t| ensures t[i] == sep { assert t[i] == s[k + 1 + i]; }
    }
    if s[..k] == "" && OnlySeparators(t, sep) {
      forall i | 0 <= i < |s| ensures s[i] == sep { if i > 0 { assert s[i] == t[i - 1]; } }
    }
  }

  /**
   * What split(",")[0] reads: the array is empty exactly when the (non-empty)
   * string is made only of separators; otherwise its first element is the text
   * before the first separator.
   */
  lemma SplitHead(s: string, sep: char)
    requires s != []
    ensures Split(s, sep) == [] <==> OnlySeparators(s, sep)
    ensures Split(s, sep) != [] ==> Split(s, sep)[0] == (match IndexOf(s, sep) case None => s case Some(k) => s[..k])
  {
    if sep in s {
      var ps := Pieces(s, sep);
      PiecesAllEmpty(s, sep);
      var r := DropTrailingEmpty(ps);
      if r == [] {
        assert AllEmpty(ps);
      } else {
        assert r[0] == ps[0];
        assert r[|r| - 1] == ps[|r| - 1];
      }
    } else {
      assert s[0] != sep;
    }
  }

  /** Text longer than max is cut to its first max characters followed by "...". */
  function Truncate(text: string, max: nat): (r: string)
    ensures |text| <= max ==> r == text
    ensures |text| > max ==> |r| == max + 3 && r[..max] == text[..max] && r[max..] == "..."
  {
    if |text| > max then text[..max] + "..." else text
  }

  predicate IsDigit(c: char) { '0' <= c <= '9' }

  function Digit(d: nat): (c: char)
    requires d < 10
    ensures IsDigit(c) && c as int - '0' as int == d
  {
    ('0' as int + d) as char
  }

  /** The decimal text of a non-negative integer, as string concatenation renders a long. */
  function Decimal(n: nat): (r: string)
    ensures |r| >= 1 && forall i :: 0 <= i < |r| ==> IsDigit(r[i])
    ensures n >= 10 ==> r[0] != '0'
  {
    if n < 10 then [Digit(n)] else Decimal(n / 10) + [Digit(n % 10)]
  }

  /** The number a string of decimal digits denotes. */
  function DigitsValue(s: string): nat
    requires forall i :: 0 <= i < |s| ==> IsDigit(s[i])
  {
    if s == [] then 0
    else
      assert IsDigit(s[|s| - 1]);
      DigitsValue(s[..|s| - 1]) * 10 + (s[|s| - 1] as int - '0' as int)
  }

  /** Reading the rendered digits back gives the number. */
  lemma {:induction false} DecimalRoundTrip(n: nat)
    ensures DigitsValue(Decimal(n)) == n
  {
    if n >= 10 {
      DecimalRoundTrip(n / 10);
      var s := Decimal(n);
      assert s[..|s| - 1] == Decimal(n / 10);
    }
  }
}
