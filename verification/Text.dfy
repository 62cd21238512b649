// The searches of std::string_view that the parser uses. A byte of text is a
// char. The "not found" value is the length of the searched text.
module Text {

  type Byte = char

  const NUL: Byte := '\0'
  const CRLF: string := "\r\n"
  const BLANK_LINE: string := "\r\n\r\n"

  predicate OccursAt(s: string, p: string, i: nat) {
    i + |p| <= |s| && s[i..i + |p|] == p
  }

  /** s.find(p): the first place where p occurs. */
  function Find(s: string, p: string): (r: nat)
    requires p != []
    ensures r <= |s| && (r < |s| ==> OccursAt(s, p, r))
    ensures forall j :: 0 <= j < r ==> !OccursAt(s, p, j)
  {
    FindFrom(s, p, 0)
  }

  function FindFrom(s: string, p: string, i: nat): (r: nat)
    requires p != [] && i <= |s|
    ensures i <= r <= |s| && (r < |s| ==> OccursAt(s, p, r))
    ensures forall j :: i <= j < r ==> !OccursAt(s, p, j)
    decreases |s| - i
  {
    if i == |s| || OccursAt(s, p, i) then i else FindFrom(s, p, i + 1)
  }

  /** s.find_first_of(any, pos): the first byte at or after pos that is in `any`. */
  function FindFirstOf(s: string, any: set<Byte>, pos: nat): (r: nat)
    ensures r <= |s| && (r < |s| ==> pos <= r && s[r] in any)
    ensures pos <= |s| ==> pos <= r
    ensures forall j :: pos <= j < r ==> s[j] !in any
    decreases |s| - pos
  {
    if pos >= |s| then |s| else if s[pos] in any then pos else FindFirstOf(s, any, pos + 1)
  }

  /** s.find_first_not_of(any, pos). */
  function FindFirstNotOf(s: string, any: set<Byte>, pos: nat): (r: nat)
    ensures r <= |s| && (r < |s| ==> pos <= r && s[r] !in any)
    ensures forall j :: pos <= j < r ==> s[j] in any
    decreases |s| - pos
  {
    if pos >= |s| then |s| else if s[pos] !in any then pos else FindFirstNotOf(s, any, pos + 1)
  }

  /** The end of s.find_last_not_of(any): one past the last byte not in `any`, 0 if there is none. */
  function EndNotOf(s: string, any: set<Byte>): (r: nat)
    ensures r <= |s| && (r > 0 ==> s[r - 1] !in any)
    ensures forall j :: r <= j < |s| ==> s[j] in any
  {
    if s == [] || s[|s| - 1] !in any then |s| else EndNotOf(s[..|s| - 1], any)
  }

  /** No byte of s is in `any`. */
  predicate Free(s: string, any: set<Byte>) {
    forall i :: 0 <= i < |s| ==> s[i] !in any
  }

  predicate Only(s: string, any: set<Byte>) {
    forall i :: 0 <= i < |s| ==> s[i] in any
  }

  /** A place with the defining property of a search result is the search result. */
  lemma FindFirstOfIs(s: string, any: set<Byte>, pos: nat, r: nat)
    requires pos <= r <= |s| && (r < |s| ==> s[r] in any)
    requires forall j :: pos <= j < r ==> s[j] !in any
    ensures FindFirstOf(s, any, pos) == r
  {
  }

  lemma FindIs(s: string, p: string, r: nat)
    requires p != [] && OccursAt(s, p, r) && forall j :: 0 <= j < r ==> !OccursAt(s, p, j)
    ensures Find(s, p) == r
  {
  }

  /** Text added at the end cannot change where something was first found. */
  lemma FindIsStable(s: string, more: string, p: string)
    requires p != [] && Find(s, p) < |s|
    ensures Find(s + more, p) == Find(s, p)
  {
    var r := Find(s, p);
    assert (s + more)[r..r + |p|] == s[r..r + |p|];
    forall j | 0 <= j < r ensures !OccursAt(s + more, p, j) {
      assert j + |p| <= |s| && (s + more)[j..j + |p|] == s[j..j + |p|];
      assert !OccursAt(s, p, j);
    }
    FindIs(s + more, p, r);
  }

  /** Searching from pos is searching the rest of the text. */
  lemma {:induction false} FindFirstOfShift(s: string, any: set<Byte>, base: nat, pos: nat)
    requires base <= pos <= |s|
    ensures FindFirstOf(s, any, pos) == base + FindFirstOf(s[base..], any, pos - base)
    decreases |s| - pos
  {
    if pos < |s| {
      assert s[base..][pos - base] == s[pos];
      FindFirstOfShift(s, any, base, pos + 1);
    }
  }

  /** A C string ends at its first NUL. */
  function CStr(s: string): (r: string)
    ensures NUL !in r && r <= s
    ensures |r| < |s| ==> s[|r|] == NUL
  {
    if s == [] || s[0] == NUL then [] else [s[0]] + CStr(s[1..])
  }

  lemma CStrWhole(s: string)
    requires NUL !in s
    ensures CStr(s) == s
  {
  }
}
