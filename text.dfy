/** String operations the request handlers rely on: JavaScript's `trim`, and the
    case-insensitive "contains" test that an unanchored `RegExp(text, "i")` performs
    on text without regular-expression metacharacters. */
module Text {

  /** The characters `String.prototype.trim` removes: the ECMAScript WhiteSpace
      and LineTerminator code points. */
  predicate IsSpace(c: char) {
    || c == '\t' || c == '\n' || c == '\U{B}' || c == '\U{C}' || c == '\r' || c == ' '
    || c == '\U{A0}' || c == '\U{1680}' || ('\U{2000}' <= c <= '\U{200A}')
    || c == '\U{2028}' || c == '\U{2029}' || c == '\U{202F}' || c == '\U{205F}'
    || c == '\U{3000}' || c == '\U{FEFF}'
  }

  /** Empty or made only of white space. */
  predicate IsBlank(s: string) {
    forall i :: 0 <= i < |s| ==> IsSpace(s[i])
  }

  /** `s` without its leading white space. */
  function TrimStart(s: string): (r: string)
    ensures |r| <= |s| && r == s[|s| - |r|..]
    ensures IsBlank(s[..|s| - |r|])
    ensures |r| > 0 ==> !IsSpace(r[0])
    ensures r == "" <==> IsBlank(s)
  {
    if |s| > 0 && IsSpace(s[0]) then TrimStart(s[1..]) else s
  }

  /** `s` without its trailing white space. */
  function TrimEnd(s: string): (r: string)
    ensures |r| <= |s| && r == s[..|r|]
    ensures IsBlank(s[|r|..])
    ensures |r| > 0 ==> !IsSpace(r[|r| - 1])
    ensures r == "" <==> IsBlank(s)
  {
    if |s| > 0 && IsSpace(s[|s| - 1]) then TrimEnd(s[..|s| - 1]) else s
  }

  /** JavaScript's `s.trim()`: "" exactly for blank strings, which is the test
      behind `search.trim()` and `name.trim().length === 0`. */
  function Trim(s: string): (r: string)
    ensures |r| <= |s|
    ensures r == "" <==> IsBlank(s)
    ensures |r| > 0 ==> !IsSpace(r[0]) && !IsSpace(r[|r| - 1])
  {
    TrimEnd(TrimStart(s))
  }

  /** A string cut from a blank prefix and then from a blank suffix is the middle
      of the original with blank margins. */
  lemma MiddleWithBlankMargins(s: string, t: string, r: string)
    requires |t| <= |s| && t == s[|s| - |t|..] && IsBlank(s[..|s| - |t|])
    requires |r| <= |t| && r == t[..|r|] && IsBlank(t[|r|..])
    ensures exists i :: 0 <= i <= |s| - |r| && r == s[i..i + |r|] && IsBlank(s[..i]) && IsBlank(s[i + |r|..])
  {
    var i := |s| - |t|;
    assert t[|r|..] == s[i + |r|..];
    assert r == s[i..i + |r|];
  }

  /** The trimmed string is the middle of `s`, and what was cut off on both sides is white space. */
  lemma TrimIsCore(s: string)
    ensures exists i :: 0 <= i <= |s| - |Trim(s)| && Trim(s) == s[i..i + |Trim(s)|]
                        && IsBlank(s[..i]) && IsBlank(s[i + |Trim(s)|..])
  {
    MiddleWithBlankMargins(s, TrimStart(s), Trim(s));
  }

  /** Trimming twice removes nothing more. */
  lemma TrimIdempotent(s: string)
    ensures Trim(Trim(s)) == Trim(s)
  {
    var r := Trim(s);
    if |r| > 0 {
      assert TrimStart(r) == r;
      assert TrimEnd(r) == r;
    }
  }

  /** ASCII case folding, the part of the `i` flag that the model captures. */
  function Fold(c: char): (d: char)
    ensures 'A' <= c <= 'Z' ==> d as int == c as int + 32
    ensures !('A' <= c <= 'Z') ==> d == c
  {
    if 'A' <= c <= 'Z' then (c as int + 32) as char else c
  }

  function FoldStr(s: string): (r: string)
    ensures |r| == |s|
    ensures forall i :: 0 <= i < |s| ==> r[i] == Fold(s[i])
  {
    seq(|s|, i requires 0 <= i < |s| => Fold(s[i]))
  }

  /** Folding is idempotent: folded text is its own folded form. */
  lemma FoldStrIdempotent(s: string)
    ensures FoldStr(FoldStr(s)) == FoldStr(s)
  {
  }

  /** `p` occurs in `s` starting at position `i`. */
  predicate OccursAt(p: string, s: string, i: int) {
    0 <= i <= |s| - |p| && s[i..i + |p|] == p
  }

  /** `p` occurs in `s` somewhere. */
  predicate IsSubstring(p: string, s: string)
    decreases |s|
  {
    p <= s || (|s| > 0 && IsSubstring(p, s[1..]))
  }

  /** An occurrence in the tail is an occurrence one position further on in `s`. */
  lemma OccursInTail(p: string, s: string, i: int)
    requires |s| > 0 && OccursAt(p, s[1..], i)
    ensures OccursAt(p, s, i + 1)
  {
    assert s[i + 1..i + 1 + |p|] == s[1..][i..i + |p|];
  }

  /** An occurrence past the head is an occurrence one position earlier in the tail. */
  lemma OccursPastHead(p: string, s: string, i: int)
    requires OccursAt(p, s, i) && i > 0
    ensures OccursAt(p, s[1..], i - 1)
  {
    assert s[1..][i - 1..i - 1 + |p|] == s[i..i + |p|];
  }

  /** An occurrence at the start is a prefix. */
  lemma OccursAtStart(p: string, s: string)
    requires OccursAt(p, s, 0)
    ensures p <= s
  {
    assert s[..|p|] == p;
  }

  /** The recursive test agrees with "there is a position where `p` starts". */
  lemma {:induction false} SubstringAt(p: string, s: string)
    ensures IsSubstring(p, s) <==> exists i :: OccursAt(p, s, i)
    decreases |s|
  {
    if p <= s {
      assert OccursAt(p, s, 0);
    } else {
      if |s| > 0 {
        SubstringAt(p, s[1..]);
        if IsSubstring(p, s[1..]) {
          var i :| OccursAt(p, s[1..], i);
          OccursInTail(p, s, i);
        }
      }
      if exists i :: OccursAt(p, s, i) {
        var i :| OccursAt(p, s, i);
        if i == 0 {
          OccursAtStart(p, s);
        } else {
          OccursPastHead(p, s, i);
        }
      }
    }
  }

  /** The case-insensitive "contains" test: `p` occurs in `t` once both are folded. */
  predicate ContainsFold(t: string, p: string) {
    IsSubstring(FoldStr(p), FoldStr(t))
  }

  /** The text itself never needs to be folded by the caller: a match only depends
      on the folded forms of text and pattern. */
  lemma ContainsFoldOfFolded(t: string, p: string)
    ensures ContainsFold(FoldStr(t), FoldStr(p)) == ContainsFold(t, p)
  {
    FoldStrIdempotent(t);
    FoldStrIdempotent(p);
  }

  /** Every text contains itself, whatever the case of either. */
  lemma {:induction false} ContainsFoldSelf(t: string)
    ensures ContainsFold(t, t)
  {
    assert FoldStr(t) <= FoldStr(t);
  }
}
