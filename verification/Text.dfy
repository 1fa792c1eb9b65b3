/** Python's `str.strip`, whitespace class and the text normalisation of domain/scrape_fingerprints.py. */
module Text {

  const NBSP := '\U{00A0}'

  /** `str.isspace` on one character, which is also the regex class `\s`. */
  predicate IsSpace(c: char) {
    var n := c as int;
    || 0x09 <= n <= 0x0D || 0x1C <= n <= 0x20 || n == 0x85 || n == 0xA0 || n == 0x1680
    || 0x2000 <= n <= 0x200A || n == 0x2028 || n == 0x2029 || n == 0x202F || n == 0x205F || n == 0x3000
  }

  function StripLeft(s: string): string {
    if s != [] && IsSpace(s[0]) then StripLeft(s[1..]) else s
  }

  function StripRight(s: string): string {
    if s != [] && IsSpace(s[|s| - 1]) then StripRight(s[..|s| - 1]) else s
  }

  function Strip(s: string): string {
    StripRight(StripLeft(s))
  }

  function ReplaceNbsp(s: string): string {
    seq(|s|, i requires 0 <= i < |s| => if s[i] == NBSP then ' ' else s[i])
  }

  /** `re.sub(r"\s+", " ", s)`: each run of whitespace becomes one space. */
  function Collapse(s: string): string {
    if s == [] then []
    else if !IsSpace(s[0]) then [s[0]] + Collapse(s[1..])
    else if |s| > 1 && IsSpace(s[1]) then Collapse(s[1..])
    else " " + Collapse(s[1..])
  }

  /** `normalize_text` on a string, with `""` for `None`. */
  function NormalizeString(s: string): string {
    Strip(Collapse(ReplaceNbsp(s)))
  }

  // ----- the reference reading: the words of the text, one space apart

  /** The length of the word `s` starts with. */
  function InkLength(s: string): (n: nat)
    ensures n <= |s|
  {
    if s == [] || IsSpace(s[0]) then 0 else 1 + InkLength(s[1..])
  }

  function Words(s: string): seq<string>
    decreases |s|
  {
    if s == [] then []
    else if IsSpace(s[0]) then Words(s[1..])
    else [s[..InkLength(s)]] + Words(s[InkLength(s)..])
  }

  function JoinWords(ws: seq<string>): string {
    if ws == [] then []
    else if |ws| == 1 then ws[0]
    else ws[0] + " " + JoinWords(ws[1..])
  }

  lemma {:induction false} InkHasNoSpace(s: string)
    ensures forall i :: 0 <= i < InkLength(s) ==> !IsSpace(s[i])
    ensures InkLength(s) < |s| ==> IsSpace(s[InkLength(s)])
  {
    if s != [] && !IsSpace(s[0]) {
      InkHasNoSpace(s[1..]);
      forall i | 0 <= i < InkLength(s) ensures !IsSpace(s[i]) { if i > 0 { assert s[i] == s[1..][i - 1]; } }
    }
  }

  lemma {:induction false} CollapseKeepsInk(s: string)
    ensures Collapse(s) == s[..InkLength(s)] + Collapse(s[InkLength(s)..])
  {
    if s == [] || IsSpace(s[0]) {
      assert s[0..] == s;
    } else {
      var n := InkLength(s[1..]);
      CollapseKeepsInk(s[1..]);
      assert s[1..][n..] == s[n + 1..] && [s[0]] + s[1..][..n] == s[..n + 1];
    }
  }

  /** Collapsing after a run of leading spaces leaves one space and then the rest. */
  lemma {:induction false} CollapseLeadingSpace(s: string)
    requires s != [] && IsSpace(s[0])
    ensures Collapse(s) == " " + Collapse(StripLeft(s)) && Words(s) == Words(StripLeft(s))
  {
    if |s| > 1 && IsSpace(s[1]) {
      CollapseLeadingSpace(s[1..]);
    }
  }

  lemma {:induction false} StripLeftStartsWithInk(s: string)
    ensures StripLeft(s) != [] ==> !IsSpace(StripLeft(s)[0])
    ensures |StripLeft(s)| <= |s|
  {
    if s != [] && IsSpace(s[0]) { StripLeftStartsWithInk(s[1..]); }
  }

  lemma {:induction false} StripRightPrefix(a: string, b: string)
    requires b != [] && !IsSpace(b[0])
    ensures StripRight(a + b) == a + StripRight(b) && StripRight(b) != []
  {
    if IsSpace(b[|b| - 1]) {
      assert (a + b)[..|a + b| - 1] == a + b[..|b| - 1];
      StripRightPrefix(a, b[..|b| - 1]);
    }
  }

  /** One word, then a gap, then the rest. */
  lemma WordThenGap(s: string, n: nat, next: string)
    requires s != [] && !IsSpace(s[0]) && n == InkLength(s) < |s| && next == StripLeft(s[n..])
    ensures Collapse(s) == s[..n] + " " + Collapse(next) && Words(s) == [s[..n]] + Words(next)
    ensures |next| < |s| && (next != [] ==> !IsSpace(next[0])) && 0 < n && !IsSpace(s[n - 1])
  {
    InkHasNoSpace(s);
    CollapseKeepsInk(s);
    CollapseLeadingSpace(s[n..]);
    StripLeftStartsWithInk(s[n..]);
  }

  lemma LastWord(s: string)
    requires s != [] && !IsSpace(s[0]) && InkLength(s) == |s|
    ensures Collapse(s) == s && Words(s) == [s] && !IsSpace(s[|s| - 1])
  {
    InkHasNoSpace(s);
    CollapseKeepsInk(s);
    assert s[|s|..] == [] && s[..|s|] == s;
  }

  lemma {:induction false} CollapsedWords(s: string)
    requires s != [] ==> !IsSpace(s[0])
    ensures StripRight(Collapse(s)) == JoinWords(Words(s))
    ensures s != [] ==> Collapse(s) != [] && Collapse(s)[0] == s[0]
    decreases |s|
  {
    if s != [] {
      var n := InkLength(s);
      if n == |s| {
        LastWord(s);
      } else {
        var w, next := s[..n], StripLeft(s[n..]);
        WordThenGap(s, n, next);
        CollapsedWords(next);
        if next == [] {
          assert Collapse(s) == w + " ";
        } else {
          StripRightPrefix(w + " ", Collapse(next));
          assert |Words(s)| > 1 && Words(s)[1..] == Words(next);
        }
      }
    }
  }

  /** Normalised text is the words of the input joined by single spaces. */
  lemma NormalizeStringJoinsWords(s: string)
    ensures NormalizeString(s) == JoinWords(Words(s))
  {
    var t := ReplaceNbsp(s);
    SameWords(s);
    if t != [] && IsSpace(t[0]) {
      var ink := StripLeft(t);
      CollapseLeadingSpace(t);
      StripLeftStartsWithInk(t);
      CollapsedWords(ink);
      assert IsSpace(' ') && (" " + Collapse(ink))[1..] == Collapse(ink);
      assert StripLeft(" " + Collapse(ink)) == StripLeft(Collapse(ink)) == Collapse(ink);
    } else {
      CollapsedWords(t);
      assert StripLeft(Collapse(t)) == Collapse(t);
    }
  }

  lemma {:induction false} SameWords(s: string)
    ensures Words(ReplaceNbsp(s)) == Words(s)
    decreases |s|
  {
    if s != [] {
      var t := ReplaceNbsp(s);
      var n := if IsSpace(s[0]) then 1 else InkLength(s);
      SameInkLength(s);
      InkHasNoSpace(s);
      SameWords(s[n..]);
      assert t[n..] == ReplaceNbsp(s[n..]);
      assert !IsSpace(s[0]) ==> t[..n] == s[..n];
    }
  }

  lemma {:induction false} SameInkLength(s: string)
    ensures InkLength(ReplaceNbsp(s)) == InkLength(s)
  {
    if s != [] && !IsSpace(s[0]) {
      SameInkLength(s[1..]);
      assert ReplaceNbsp(s)[1..] == ReplaceNbsp(s[1..]);
    }
  }

  // ----- normal form

  /** The only whitespace is plain spaces, each followed by ink. */
  predicate SpacedAt(t: string, i: int)
    requires 0 <= i < |t|
  {
    IsSpace(t[i]) ==> t[i] == ' ' && i + 1 < |t| && !IsSpace(t[i + 1])
  }

  predicate Clean(t: string) {
    t != [] && !IsSpace(t[0]) && !IsSpace(t[|t| - 1]) && forall i :: 0 <= i < |t| ==> SpacedAt(t, i)
  }

  lemma CleanIsFixed(t: string)
    requires Clean(t)
    ensures NormalizeString(t) == t
  {
    forall i | 0 <= i < |t| ensures t[i] != NBSP { assert SpacedAt(t, i); }
    assert ReplaceNbsp(t) == t;
    SingleSpacedCollapses(t);
  }

  lemma {:induction false} SingleSpacedCollapses(t: string)
    requires forall i :: 0 <= i < |t| ==> SpacedAt(t, i)
    ensures Collapse(t) == t
  {
    if t != [] {
      assert SpacedAt(t, 0);
      forall i | 0 <= i < |t[1..]| ensures SpacedAt(t[1..], i) { assert SpacedAt(t, i + 1); }
      SingleSpacedCollapses(t[1..]);
    }
  }

  lemma {:induction false} WordsAreInk(s: string)
    ensures forall i :: 0 <= i < |Words(s)| ==> Words(s)[i] != [] && forall c :: c in Words(s)[i] ==> !IsSpace(c)
    decreases |s|
  {
    if s != [] {
      if IsSpace(s[0]) {
        WordsAreInk(s[1..]);
      } else {
        InkHasNoSpace(s);
        WordsAreInk(s[InkLength(s)..]);
      }
    }
  }

  lemma {:induction false} JoinedIsClean(ws: seq<string>)
    requires ws != []
    requires forall i :: 0 <= i < |ws| ==> ws[i] != [] && forall c :: c in ws[i] ==> !IsSpace(c)
    ensures Clean(JoinWords(ws))
  {
    if |ws| == 1 {
      assert forall i :: 0 <= i < |ws[0]| ==> ws[0][i] in ws[0];
    } else {
      var w, rest := ws[0], JoinWords(ws[1..]);
      var t := w + " " + rest;
      JoinedIsClean(ws[1..]);
      assert w[0] in w;
      forall i | 0 <= i < |t| ensures SpacedAt(t, i) {
        if i < |w| {
          assert w[i] in w;
        } else if i > |w| {
          assert SpacedAt(rest, i - |w| - 1);
        }
      }
    }
  }

  /** Normalised text is empty or clean, so normalising it again changes nothing. */
  lemma NormalizeStringIsClean(s: string)
    ensures NormalizeString(s) == [] || Clean(NormalizeString(s))
    ensures NormalizeString(NormalizeString(s)) == NormalizeString(s)
  {
    NormalizeStringJoinsWords(s);
    WordsAreInk(s);
    if Words(s) != [] {
      JoinedIsClean(Words(s));
      CleanIsFixed(NormalizeString(s));
    }
  }

  // ----- stripping

  predicate Blank(s: string) {
    forall c :: c in s ==> IsSpace(c)
  }

  lemma {:induction false} StripLeftDrops(left: string, s: string)
    requires Blank(left) && (s != [] ==> !IsSpace(s[0]))
    ensures StripLeft(left + s) == s
  {
    if left == [] {
      assert left + s == s;
    } else {
      assert left[0] in left && (left + s)[1..] == left[1..] + s;
      StripLeftDrops(left[1..], s);
    }
  }

  lemma {:induction false} StripRightDrops(s: string, right: string)
    requires Blank(right) && (s != [] ==> !IsSpace(s[|s| - 1]))
    ensures StripRight(s + right) == s
  {
    if right == [] {
      assert s + right == s;
    } else {
      assert right[|right| - 1] in right && (s + right)[..|s + right| - 1] == s + right[..|right| - 1];
      StripRightDrops(s, right[..|right| - 1]);
    }
  }

  /** Text that is empty or starts and ends with ink. */
  predicate Trimmed(s: string) {
    s == [] || (!IsSpace(s[0]) && !IsSpace(s[|s| - 1]))
  }

  /** Stripping takes away the whitespace around trimmed text, and nothing else. */
  lemma StripExactly(left: string, s: string, right: string)
    requires Blank(left) && Blank(right) && Trimmed(s)
    ensures Strip(left + s + right) == s
  {
    if s == [] {
      assert left + s + right == (left + right) + [];
      StripLeftDrops(left + right, []);
    } else {
      assert left + s + right == left + (s + right);
      StripLeftDrops(left, s + right);
      StripRightDrops(s, right);
    }
  }

  // ----- lower case

  /** `str.lower` on ASCII letters; no other character lowers to a letter of the words it is compared with here. */
  function Lower(s: string): string {
    seq(|s|, i requires 0 <= i < |s| => if 'A' <= s[i] <= 'Z' then ((s[i] as int) + 32) as char else s[i])
  }

  /** No capital is left, and what changed is as far from "a" as it was from "A". */
  lemma LowerLetters(s: string, i: nat)
    requires i < |s|
    ensures |Lower(s)| == |s| && !('A' <= Lower(s)[i] <= 'Z') && Lower(Lower(s)) == Lower(s)
    ensures Lower(s)[i] != s[i] ==>
              Lower(s)[i] as int - 'a' as int == s[i] as int - 'A' as int && 'A' <= s[i] <= 'Z'
  {
    forall j | 0 <= j < |s| ensures Lower(Lower(s))[j] == Lower(s)[j] {
      assert !('A' <= Lower(s)[j] <= 'Z');
    }
  }
}
