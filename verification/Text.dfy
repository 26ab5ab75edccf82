/** Text as a sequence of runes, with the white-space handling of Go's `strings` package. */
module Text {

  /** unicode.IsSpace */
  predicate IsSpace(c: char) {
    var n := c as int;
    || 0x09 <= n <= 0x0D || n == 0x20 || n == 0x85 || n == 0xA0 || n == 0x1680
    || 0x2000 <= n <= 0x200A || n == 0x2028 || n == 0x2029 || n == 0x202F || n == 0x205F || n == 0x3000
  }

  /** The four runes of the cut set " \t\n\r". */
  predicate IsBlank(c: char) {
    c == ' ' || c == '\t' || c == '\n' || c == '\r'
  }

  predicate IsNewline(c: char) {
    c == '\n'
  }

  predicate IsSpaceOrTab(c: char) {
    c == ' ' || c == '\t'
  }

  /** Number of leading runes that satisfy p. */
  function Leading(s: string, p: char -> bool): (n: nat)
    ensures n <= |s|
  {
    if s == "" || !p(s[0]) then 0 else 1 + Leading(s[1..], p)
  }

  lemma {:induction false} LeadingIs(s: string, p: char -> bool)
    ensures var n := Leading(s, p); (n < |s| ==> !p(s[n])) && forall i :: 0 <= i < n ==> p(s[i])
  {
    if s != "" && p(s[0]) {
      LeadingIs(s[1..], p);
    }
  }

  /** Length that is left once trailing runes that satisfy p are cut off. */
  function Kept(s: string, p: char -> bool): (n: nat)
    ensures n <= |s|
  {
    if s == "" || !p(s[|s| - 1]) then |s| else Kept(s[..|s| - 1], p)
  }

  lemma {:induction false} KeptIs(s: string, p: char -> bool)
    ensures var n := Kept(s, p); (0 < n ==> !p(s[n - 1])) && forall i :: n <= i < |s| ==> p(s[i])
  {
    if s != "" && p(s[|s| - 1]) {
      KeptIs(s[..|s| - 1], p);
    }
  }

  /** Trimming on the right keeps every rune that does not satisfy p. */
  lemma {:induction false} KeptCovers(s: string, p: char -> bool, i: nat)
    requires i < |s| && !p(s[i])
    ensures i < Kept(s, p)
  {
    if p(s[|s| - 1]) {
      KeptCovers(s[..|s| - 1], p, i);
    }
  }

  function TrimRight(s: string, p: char -> bool): string {
    s[..Kept(s, p)]
  }

  /** strings.TrimSpace */
  function TrimSpace(s: string): string {
    var r := TrimRight(s, IsSpace);
    r[Leading(r, IsSpace)..]
  }

  /** A string that starts with a rune that is not white space is trimmed on the right only. */
  lemma TrimSpaceFromInk(s: string)
    requires s != "" && !IsSpace(s[0])
    ensures TrimSpace(s) == s[..Kept(s, IsSpace)] && 0 < Kept(s, IsSpace)
  {
    KeptCovers(s, IsSpace, 0);
    hide Kept, IsSpace;
  }

  lemma TrimSpaceTwice(s: string)
    ensures TrimSpace(TrimSpace(s)) == TrimSpace(s)
  {
    var r := TrimRight(s, IsSpace);
    var t := TrimSpace(s);
    KeptIs(s, IsSpace);
    LeadingIs(r, IsSpace);
    hide IsSpace;
    if t != "" {
      assert t[|t| - 1] == r[|r| - 1] == s[Kept(s, IsSpace) - 1];
      assert Kept(t, IsSpace) == |t| && t[..|t|] == t;
      assert Leading(t, IsSpace) == 0;
    }
  }

  /** A trimmed string does not start with white space. */
  lemma TrimmedStartsInInk(s: string)
    requires s != "" && TrimSpace(s) == s
    ensures !IsSpace(s[0])
  {
    var r := TrimRight(s, IsSpace);
    LeadingIs(r, IsSpace);
    hide IsSpace, Kept;
    assert |r| == |s| && Leading(r, IsSpace) == 0 && r == s;
  }

  /** A string with ink at both ends is trimmed already. */
  lemma NoSpaceAround(s: string)
    requires s != "" && !IsSpace(s[0]) && !IsSpace(s[|s| - 1])
    ensures TrimSpace(s) == s
  {
  }

  /** Trimming leaves nothing exactly of white space. */
  lemma TrimsToNothingIff(s: string)
    ensures TrimSpace(s) == "" <==> forall i :: 0 <= i < |s| ==> IsSpace(s[i])
  {
    var r := TrimRight(s, IsSpace);
    KeptIs(s, IsSpace);
    LeadingIs(r, IsSpace);
    hide Kept, Leading, IsSpace;
    if r != "" {
      assert r[|r| - 1] == s[|r| - 1];
    }
  }

  /** r is s without the white space around it. */
  ghost predicate Trims(s: string, r: string) {
    exists i, j :: 0 <= i <= j <= |s| && TrimsTo(s, i, j) && r == s[i..j]
  }

  ghost predicate TrimsTo(s: string, i: nat, j: nat)
    requires i <= j <= |s|
  {
    && (forall k :: 0 <= k < i || j <= k < |s| ==> IsSpace(s[k]))
    && (i < j ==> !IsSpace(s[i]) && !IsSpace(s[j - 1]))
  }

  /** strings.TrimSpace takes off white space and nothing else. */
  lemma TrimSpaceTrims(s: string)
    ensures Trims(s, TrimSpace(s))
  {
    var r := TrimRight(s, IsSpace);
    KeptIs(s, IsSpace);
    LeadingIs(r, IsSpace);
    hide Kept, Leading, IsSpace;
    assert TrimsTo(s, Leading(r, IsSpace), |r|);
  }
}
