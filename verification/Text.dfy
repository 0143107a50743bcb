/** Trimming and ASCII case folding of `str`. */
module Text {
  predicate IsSpace(c: char) {
    c in {' ', '\t', '\n', '\r', '\U{B}', '\U{C}', '\U{85}', '\U{A0}',
          '\U{1680}', '\U{2028}', '\U{2029}', '\U{202F}', '\U{205F}', '\U{3000}'} ||
    '\U{2000}' <= c <= '\U{200A}'
  }

  /** Where the white space from `i` on ends. */
  function SpaceEnd(s: string, i: nat): (e: nat)
    requires i <= |s|
    ensures i <= e <= |s| && (e < |s| ==> !IsSpace(s[e]))
    ensures forall k :: i <= k < e ==> IsSpace(s[k])
    decreases |s| - i
  {
    if i < |s| && IsSpace(s[i]) then SpaceEnd(s, i + 1) else i
  }

  /** Where the white space up to `i` begins. */
  function SpaceBegin(s: string, i: nat): (b: nat)
    requires i <= |s|
    ensures b <= i && (b > 0 ==> !IsSpace(s[b - 1]))
    ensures forall k :: b <= k < i ==> IsSpace(s[k])
  {
    if i > 0 && IsSpace(s[i - 1]) then SpaceBegin(s, i - 1) else i
  }

  function TrimStart(s: string): (r: string)
    ensures |r| <= |s| && r == s[|s| - |r|..]
    ensures r == "" || !IsSpace(r[0])
    ensures forall i :: 0 <= i < |s| - |r| ==> IsSpace(s[i])
  {
    s[SpaceEnd(s, 0)..]
  }

  function TrimEnd(s: string): (r: string)
    ensures r <= s
    ensures r == "" || !IsSpace(r[|r| - 1])
    ensures forall i :: |r| <= i < |s| ==> IsSpace(s[i])
  {
    s[..SpaceBegin(s, |s|)]
  }

  function Trim(s: string): (r: string)
    ensures |r| <= |s|
    ensures r == "" || !IsSpace(r[0])
    ensures r == "" || !IsSpace(r[|r| - 1])
  {
    TrimEnd(TrimStart(s))
  }

  predicate HasSpace(s: string) {
    exists i :: 0 <= i < |s| && IsSpace(s[i])
  }

  function UpperChar(c: char): char {
    if 'a' <= c <= 'z' then (c as int - 32) as char else c
  }

  function Upper(s: string): (r: string)
    ensures |r| == |s| && forall i :: 0 <= i < |s| ==> r[i] == UpperChar(s[i])
  {
    seq(|s|, i requires 0 <= i < |s| => UpperChar(s[i]))
  }

  function LowerChar(c: char): char {
    if 'A' <= c <= 'Z' then (c as int + 32) as char else c
  }

  function Lower(s: string): (r: string)
    ensures |r| == |s| && forall i :: 0 <= i < |s| ==> r[i] == LowerChar(s[i])
  {
    seq(|s|, i requires 0 <= i < |s| => LowerChar(s[i]))
  }

  // ---------- words, whatever their case ----------

  /** The same letter in either case, or the same character. */
  predicate SameLetter(c: char, d: char) {
    c == d || ('a' <= c <= 'z' && d as int == c as int - 32) || ('a' <= d <= 'z' && c as int == d as int - 32)
  }

  predicate SameWord(s: string, word: string) {
    |s| == |word| && forall i :: 0 <= i < |s| ==> SameLetter(s[i], word[i])
  }

  predicate StartsWith(s: string, word: string) {
    |word| <= |s| && SameWord(s[..|word|], word)
  }

  /** The same letters, none of them a capital. */
  predicate IsLower(s: string, lower: string) {
    SameWord(s, lower) && forall i :: 0 <= i < |lower| ==> !('A' <= lower[i] <= 'Z')
  }

  predicate AllSpace(s: string) {
    forall i :: 0 <= i < |s| ==> IsSpace(s[i])
  }

  predicate IsWord(s: string) {
    s != "" && forall i :: 0 <= i < |s| ==> !IsSpace(s[i])
  }

  predicate IsTrimmed(s: string) {
    s == "" || (!IsSpace(s[0]) && !IsSpace(s[|s| - 1]))
  }

  /** A text in capitals is what another is in capitals when the two are the same but for the case. */
  lemma UpperWord(s: string, word: string)
    requires forall i :: 0 <= i < |word| ==> !('a' <= word[i] <= 'z')
    ensures Upper(s) == word <==> SameWord(s, word)
    ensures word <= Upper(s) <==> StartsWith(s, word)
  {
    if SameWord(s, word) { assert Upper(s) == word; }
    if |word| <= |s| {
      var head := s[..|word|];
      assert Upper(head) == Upper(s)[..|word|];
      if SameWord(head, word) { assert Upper(head) == word; }
    }
  }

  lemma LowerIsLower(s: string)
    ensures IsLower(s, Lower(s)) && Lower(Upper(s)) == Lower(s)
  {
  }
}
