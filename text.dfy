/**
 * Character classes and the small string operations the dictionary
 * generator relies on: the regular-expression classes it uses, Python's
 * `str.strip()` and the character removals done by `str.replace` and
 * `re.sub`.
 */
module Text {

  datatype Option<+T> = None | Some(value: T) {
    /** The wrapped value, or `default` when there is none */
    function GetOr(default: T): T {
      match this
      case Some(v) => v
      case None => default
    }
  }

  /** A position at which an element of a sequence occurs */
  lemma IndexOf<T>(s: seq<T>, x: T) returns (j: nat)
    requires x in s
    ensures j < |s| && s[j] == x
  {
    j :| 0 <= j < |s| && s[j] == x;
  }

  /** `\w` as this model reads it: an ASCII letter, an ASCII digit or `_` */
  predicate IsWordChar(c: char) {
    ('a' <= c <= 'z') || ('A' <= c <= 'Z') || ('0' <= c <= '9') || c == '_'
  }

  /** The regular-expression class `[a-z]` */
  predicate IsLower(c: char) {
    'a' <= c <= 'z'
  }

  /** What `str.strip()` removes: the space and the ASCII controls tab to carriage return */
  predicate IsSpace(c: char) {
    c == ' ' || ('\t' <= c <= '\r')
  }

  /** The character classes the two patterns and `str.strip()` scan runs of */
  datatype CharClass =
    | Word      // `\w`
    | Space     // what `str.strip()` removes
    | FunName   // `[a-z0-9_]`, the tail of a function name
    | FunArg    // `[a-zA-Z0-9_, \{\}\]\[]`, the characters of an argument list
    | LineChar  // anything but a line break

  predicate Matches(k: CharClass, c: char) {
    match k
    case Word => IsWordChar(c)
    case Space => IsSpace(c)
    case FunName => IsLower(c) || ('0' <= c <= '9') || c == '_'
    case FunArg => IsWordChar(c) || c == ',' || c == ' ' || c == '{' || c == '}' || c == '[' || c == ']'
    case LineChar => c != '\n'
  }

  /** Every character of `s` is in class `k` */
  predicate All(s: string, k: CharClass) {
    forall i :: 0 <= i < |s| ==> Matches(k, s[i])
  }

  /** Length of the longest prefix of `s` made of characters satisfying `p` */
  function Span(s: string, k: CharClass): (n: nat)
    ensures n <= |s|
    ensures All(s[..n], k)
    ensures n < |s| ==> !Matches(k, s[n])
  {
    if s == [] || !Matches(k, s[0]) then 0
    else
      1 + Span(s[1..], k)
  }

  /** A run of `p`-characters followed by anything that does not continue it is measured exactly */
  lemma {:induction false} SpanOfRun(w: string, t: string, k: CharClass)
    requires All(w, k)
    requires t == [] || !Matches(k, t[0])
    ensures Span(w + t, k) == |w|
  {
    if w == [] {
      assert w + t == t;
    } else {
      assert (w + t)[0] == w[0] && (w + t)[1..] == w[1..] + t;
      assert All(w[1..], k) by {
        assert forall i :: 0 <= i < |w[1..]| ==> w[1..][i] == w[i + 1];
      }
      SpanOfRun(w[1..], t, k);
    }
  }

  /** A concatenation is in a class exactly when both parts are */
  lemma AllAppend(a: string, b: string, k: CharClass)
    ensures All(a + b, k) <==> All(a, k) && All(b, k)
  {
    if All(a + b, k) {
      assert forall i :: 0 <= i < |a| ==> (a + b)[i] == a[i];
      assert forall i :: 0 <= i < |b| ==> (a + b)[|a| + i] == b[i];
    }
  }

  /** A text is its prefix followed by the remainder */
  lemma PrefixSplit(p: string, s: string)
    requires p <= s
    ensures s == p + s[|p|..]
  {
  }

  /** A slice of a text in a class is in the class */
  lemma AllSlice(s: string, i: nat, j: nat, k: CharClass)
    requires i <= j <= |s| && All(s, k)
    ensures All(s[i..j], k)
  {
    assert forall n :: 0 <= n < j - i ==> s[i..j][n] == s[i + n];
  }

  /** No character of a word, a function name or an argument list is a line break */
  lemma NoLineBreak(s: string, k: CharClass)
    requires k == Word || k == FunName || k == FunArg
    requires All(s, k)
    ensures All(s, LineChar)
  {
    forall i | 0 <= i < |s|
      ensures Matches(LineChar, s[i])
    {
      assert Matches(k, s[i]);
    }
  }

  /** A `\[\w+\]` group: empty for "no group", else the word in brackets */
  function Bracketed(w: string): string {
    if w == [] then [] else "[" + w + "]"
  }

  /**
   * The word of the `\[\w+\]` group that `s` starts with, if it starts with
   * one. Such a group is unique: the word is the whole run of word characters
   * after the `[`, since `]` is not a word character.
   */
  function LeadingBracketWord(s: string): (r: Option<string>)
    ensures r.Some? ==> r.value != [] && All(r.value, Word) && Bracketed(r.value) <= s
  {
    if s == [] || s[0] != '[' then None
    else
      var n := Span(s[1..], Word);
      if 0 < n && 1 + n < |s| && s[1 + n] == ']' then
        assert s[1..][..n] == s[1..1 + n];
        assert Bracketed(s[1..1 + n]) == s[..n + 2];
        Some(s[1..1 + n])
      else None
  }

  /** When no group is recognised, `s` does not start with any bracketed word */
  lemma LeadingBracketWordNone(s: string, w: string)
    requires LeadingBracketWord(s).None?
    requires w != [] && All(w, Word)
    ensures !(Bracketed(w) <= s)
  {
    if Bracketed(w) <= s {
      BracketedPrefix(w, s);
    }
  }

  /** A text that starts with a bracketed word is recognised as starting with it */
  lemma BracketedPrefix(w: string, s: string)
    requires w != [] && All(w, Word) && Bracketed(w) <= s
    ensures LeadingBracketWord(s) == Some(w)
  {
    var t := s[|w| + 2..];
    assert s == Bracketed(w) + t;
    LeadingBracketWordOf(w, t);
  }

  /** The word of a leading `\[\w+\]` group, or the empty word when there is none */
  function LeadingGroup(s: string): (w: string)
    ensures Bracketed(w) <= s
    ensures w == [] || All(w, Word)
  {
    LeadingBracketWord(s).GetOr([])
  }

  /** A bracketed word is recognised at the start of any text */
  lemma LeadingBracketWordOf(w: string, t: string)
    requires w != [] && All(w, Word)
    ensures LeadingBracketWord(Bracketed(w) + t) == Some(w)
  {
    var s := Bracketed(w) + t;
    BracketedSplit(w, t);
    SpanOfRun(w, "]" + t, Word);
  }

  /** The pieces of a bracketed word followed by more text */
  lemma BracketedSplit(w: string, t: string)
    requires w != []
    ensures var s := Bracketed(w) + t;
            && s[0] == '[' && s[1..] == w + ("]" + t)
            && 1 + |w| < |s| && s[1 + |w|] == ']' && s[1..1 + |w|] == w
  {
    var s := Bracketed(w) + t;
    assert s == "[" + (w + ("]" + t));
  }

  /** Drop trailing whitespace */
  function TrimEnd(s: string): (r: string)
    ensures r <= s
    ensures All(s[|r|..], Space)
    ensures r == [] || !IsSpace(r[|r| - 1])
  {
    if s != [] && IsSpace(s[|s| - 1]) then
      TrimEnd(s[..|s| - 1])
    else s
  }

  /**
   * Python's `str.strip()`: `r` is `s` with the whitespace at both ends cut
   * off, and nothing else cut.
   */
  function Strip(s: string): (r: string)
    ensures r == [] || (!IsSpace(r[0]) && !IsSpace(r[|r| - 1]))
    ensures var i := Span(s, Space);
            i + |r| <= |s| && s[i..i + |r|] == r && All(s[..i], Space) && All(s[i + |r|..], Space)
  {
    var i := Span(s, Space);
    var r := TrimEnd(s[i..]);
    assert r == s[i..][..|r|];
    assert s[i + |r|..] == s[i..][|r|..];
    r
  }

  /** A text with no whitespace at either end is left as it is by stripping */
  lemma StripUnchanged(s: string)
    requires s == [] || (!IsSpace(s[0]) && !IsSpace(s[|s| - 1]))
    ensures Strip(s) == s
  {
    assert Span(s, Space) == 0;
    assert s[0..] == s;
  }

  /** `s` with every character in `cs` removed, the rest kept in order */
  function Remove(s: string, cs: set<char>): (r: string)
    ensures cs == {} ==> r == s
  {
    if s == [] then []
    else (if s[0] in cs then [] else [s[0]]) + Remove(s[1..], cs)
  }

  /** No character of `cs` is left */
  lemma {:induction false} RemoveDrops(s: string, cs: set<char>)
    ensures forall i :: 0 <= i < |Remove(s, cs)| ==> Remove(s, cs)[i] !in cs
  {
    if s != [] {
      RemoveDrops(s[1..], cs);
    }
  }

  /** Every character outside `cs` survives removal as often as it occurs */
  lemma {:induction false} RemoveKeeps(s: string, cs: set<char>, c: char)
    requires c !in cs
    ensures multiset(Remove(s, cs))[c] == multiset(s)[c]
  {
    if s != [] {
      assert s == [s[0]] + s[1..];
      RemoveKeeps(s[1..], cs, c);
    }
  }

  /** Removal works character by character, so it distributes over concatenation */
  lemma {:induction false} RemoveAppend(a: string, b: string, cs: set<char>)
    ensures Remove(a + b, cs) == Remove(a, cs) + Remove(b, cs)
  {
    if a == [] {
      assert a + b == b;
    } else {
      var head := if a[0] in cs then [] else [a[0]];
      assert (a + b)[0] == a[0] && (a + b)[1..] == a[1..] + b;
      assert Remove(a + b, cs) == head + Remove(a[1..] + b, cs);
      RemoveAppend(a[1..], b, cs);
      assert Remove(a, cs) == head + Remove(a[1..], cs);
    }
  }

  /** Removal leaves a text without any of the removed characters unchanged */
  lemma {:induction false} RemoveNothing(s: string, cs: set<char>)
    requires forall i :: 0 <= i < |s| ==> s[i] !in cs
    ensures Remove(s, cs) == s
  {
    if s != [] {
      RemoveNothing(s[1..], cs);
    }
  }

  /** Removal keeps every character class the text was in */
  lemma {:induction false} RemoveAll(s: string, cs: set<char>, k: CharClass)
    requires All(s, k)
    ensures All(Remove(s, cs), k)
  {
    if s != [] {
      var head := if s[0] in cs then [] else [s[0]];
      AllSlice(s, 1, |s|, k);
      RemoveAll(s[1..], cs, k);
      AllAppend(head, Remove(s[1..], cs), k);
    }
  }

  /** Stripping keeps every character class the text was in */
  lemma StripAll(s: string, k: CharClass)
    requires All(s, k)
    ensures All(Strip(s), k)
  {
    var i := Span(s, Space);
    AllSlice(s, i, i + |Strip(s)|, k);
  }
}
