/**
 * The command-line recogniser of the dictionary generator: a prefix match of
 * `:(\[\w+\])?(?P<word>[a-z]\w*(\[\w+\])?)` against a help-file line, whose
 * `word` group, with `[` and `]` removed, is the command token
 * (`:bd[elete]` gives `bdelete`, `:[N]bnext` gives `bnext`).
 *
 * The match is written as a parser into the parts of a command line and a
 * renderer back from them; the two are proved inverse, which pins down the
 * recogniser independently of how it scans.
 */
module CommandLines {
  import opened Text

  /**
   * A line that starts with a command reference: `:`, the word of an optional
   * leading `[range]`-style group (empty when absent), the command name, the
   * word of an optional `[suffix]` group (empty when absent), and the rest.
   */
  datatype CmdLine = CmdLine(range: string, name: string, suffix: string, rest: string)

  /**
   * The parts a match can produce. The name is the whole run of word
   * characters, and when there is no suffix group the rest could not have
   * started one.
   */
  predicate WellFormed(c: CmdLine) {
    && All(c.range, Word)
    && c.name != [] && IsLower(c.name[0]) && All(c.name, Word)
    && All(c.suffix, Word)
    && (c.suffix == [] ==> (c.rest == [] || !IsWordChar(c.rest[0])) && LeadingBracketWord(c.rest).None?)
  }

  /** The text after the leading group: the name, the suffix group and the rest */
  function WordText(c: CmdLine): string {
    c.name + (Bracketed(c.suffix) + c.rest)
  }

  function Render(c: CmdLine): string {
    ":" + (Bracketed(c.range) + WordText(c))
  }

  /** The text of the `word` group: the name and its suffix group, brackets included */
  function WordGroup(c: CmdLine): string {
    c.name + Bracketed(c.suffix)
  }

  /**
   * The prefix match: `:`, then a leading bracketed word if there is one,
   * then the command word.
   */
  function Parse(line: string): (r: Option<CmdLine>)
    ensures r.Some? ==> line != [] && line[0] == ':'
  {
    if line == [] || line[0] != ':' then None
    else
      var range := LeadingGroup(line[1..]);
      ParseWord(range, line[1 + |Bracketed(range)|..])
  }

  /**
   * The `word` group, matched at the start of `s`: a lower-case letter, the
   * longest run of word characters after it, then a bracketed word if one
   * follows.
   */
  function ParseWord(range: string, s: string): Option<CmdLine> {
    if s == [] || !IsLower(s[0]) then None
    else
      var n := Span(s, Word);
      Some(ParseSuffix(range, s[..n], s[n..]))
  }

  /** The optional suffix group at the start of `t`, which follows the command name */
  function ParseSuffix(range: string, name: string, t: string): CmdLine {
    var suffix := LeadingGroup(t);
    CmdLine(range, name, suffix, t[|Bracketed(suffix)|..])
  }

  /** The command token of a help-file line, if the line starts with a command reference */
  function CommandToken(line: string): (r: Option<string>)
    ensures r.Some? ==> line != [] && line[0] == ':'
  {
    match Parse(line)
    case None => None
    case Some(c) => Some(Remove(Remove(WordGroup(c), {'['}), {']'}))
  }

  /* ---- Parsing inverts rendering ---- */

  /** Rendering a well-formed command line and matching it gives back its parts */
  lemma ParseRender(c: CmdLine)
    requires WellFormed(c)
    ensures Parse(Render(c)) == Some(c)
  {
    RenderSplit(c);
    RangeOfRender(c);
    ParseStep(Render(c));
    ParseWordRender(c);
  }

  /** Whatever a match produces is well formed and renders back to the line */
  lemma RenderParse(line: string)
    requires Parse(line).Some?
    ensures WellFormed(Parse(line).value) && Render(Parse(line).value) == line
  {
    ParseStep(line);
    SplitAfterColon(line);
    var range := LeadingGroup(line[1..]);
    RenderParseWord(range, line[1 + |Bracketed(range)|..]);
  }

  /** Matching the line is matching the `word` group after the leading group */
  lemma ParseStep(line: string)
    requires line != [] && line[0] == ':'
    ensures Parse(line) == ParseWord(LeadingGroup(line[1..]), line[1 + |Bracketed(LeadingGroup(line[1..]))|..])
  {
  }

  /** A line starting with `:` is the colon, its leading group and the text after it */
  lemma SplitAfterColon(line: string)
    requires line != [] && line[0] == ':'
    ensures var b := Bracketed(LeadingGroup(line[1..]));
            line == ":" + (b + line[1 + |b|..])
  {
    var after := line[1..];
    var b := Bracketed(LeadingGroup(after));
    PrefixSplit(b, after);
    assert after[|b|..] == line[1 + |b|..];
    assert line == [line[0]] + after;
  }

  /** A rendered line is the colon, the leading group and the text after it */
  lemma RenderSplit(c: CmdLine)
    ensures Render(c) != [] && Render(c)[0] == ':'
    ensures Render(c)[1..] == Bracketed(c.range) + WordText(c)
    ensures Render(c)[1 + |Bracketed(c.range)|..] == WordText(c)
  {
    var after := Bracketed(c.range) + WordText(c);
    assert (":" + after)[1..] == after;
  }

  /** The leading group of a rendered line is its range word */
  lemma RangeOfRender(c: CmdLine)
    requires WellFormed(c)
    ensures LeadingGroup(Bracketed(c.range) + WordText(c)) == c.range
  {
    if c.range != [] {
      LeadingBracketWordOf(c.range, WordText(c));
    } else {
      assert Bracketed(c.range) + WordText(c) == WordText(c);
      assert WordText(c)[0] == c.name[0];
    }
  }

  /** The `word` group of a well-formed line is matched back into its parts */
  lemma ParseWordRender(c: CmdLine)
    requires WellFormed(c)
    ensures ParseWord(c.range, WordText(c)) == Some(c)
  {
    NameSpan(c);
    SuffixOfRender(c);
    var t := Bracketed(c.suffix) + c.rest;
    assert WordText(c)[..|c.name|] == c.name && WordText(c)[|c.name|..] == t;
  }

  /** The name of a well-formed line is the whole run of word characters it starts with */
  lemma NameSpan(c: CmdLine)
    requires WellFormed(c)
    ensures Span(WordText(c), Word) == |c.name|
    ensures WordText(c)[0] == c.name[0]
  {
    var t := Bracketed(c.suffix) + c.rest;
    if c.suffix != [] {
      assert t[0] == '[';
    } else {
      assert t == c.rest;
    }
    SpanOfRun(c.name, t, Word);
  }

  /** After the name, the suffix group and the rest are matched back */
  lemma SuffixOfRender(c: CmdLine)
    requires WellFormed(c)
    ensures ParseSuffix(c.range, c.name, Bracketed(c.suffix) + c.rest) == c
  {
    var t := Bracketed(c.suffix) + c.rest;
    if c.suffix != [] {
      LeadingBracketWordOf(c.suffix, c.rest);
    } else {
      assert t == c.rest;
    }
    assert t[|Bracketed(c.suffix)|..] == c.rest;
  }

  /** What the `word` group matches is well formed and renders back to its text */
  lemma RenderParseWord(range: string, s: string)
    requires All(range, Word)
    requires ParseWord(range, s).Some?
    ensures var c := ParseWord(range, s).value;
            WellFormed(c) && c.range == range && WordText(c) == s
  {
    var n := Span(s, Word);
    ParseWordStep(range, s);
    NameOfSpan(s);
    SuffixSplit(range, s[..n], s[n..]);
  }

  /** Matching the `word` group is splitting off the name and matching the suffix group */
  lemma ParseWordStep(range: string, s: string)
    requires s != [] && IsLower(s[0])
    ensures ParseWord(range, s) == Some(ParseSuffix(range, s[..Span(s, Word)], s[Span(s, Word)..]))
  {
  }

  /** The name is the whole run of word characters, so what follows is not a word character */
  lemma NameOfSpan(s: string)
    requires s != [] && IsLower(s[0])
    ensures var n := Span(s, Word);
            && s[..n] != [] && IsLower(s[..n][0]) && All(s[..n], Word)
            && (s[n..] == [] || !IsWordChar(s[n..][0]))
            && s == s[..n] + s[n..]
  {
  }

  /** The text after the name splits into its suffix group and the rest */
  lemma SuffixSplit(range: string, name: string, t: string)
    requires t == [] || !IsWordChar(t[0])
    ensures var c := ParseSuffix(range, name, t);
            && c.range == range && c.name == name
            && t == Bracketed(c.suffix) + c.rest && All(c.suffix, Word)
            && (c.suffix == [] ==> (c.rest == [] || !IsWordChar(c.rest[0])) && LeadingBracketWord(c.rest).None?)
  {
    var b := Bracketed(LeadingGroup(t));
    assert b <= t;
    assert t == b + t[|b|..];
  }

  /* ---- What the token is ---- */

  /**
   * A line has command token `t` exactly when it is a well-formed command
   * line whose name followed by its suffix word is `t`.
   */
  lemma CommandTokenMeaning(line: string, t: string)
    ensures CommandToken(line) == Some(t) <==>
            exists c :: WellFormed(c) && Render(c) == line && c.name + c.suffix == t
  {
    if CommandToken(line) == Some(t) {
      var c := Parse(line).value;
      RenderParse(line);
      TokenOfParts(c);
    }
    if exists c :: WellFormed(c) && Render(c) == line && c.name + c.suffix == t {
      var c :| WellFormed(c) && Render(c) == line && c.name + c.suffix == t;
      ParseRender(c);
      TokenOfParts(c);
    }
  }

  /** The token of a rendered command line is its name followed by its suffix word */
  lemma TokenOfRender(c: CmdLine)
    requires WellFormed(c)
    ensures CommandToken(Render(c)) == Some(c.name + c.suffix)
  {
    ParseRender(c);
    TokenOfParts(c);
  }

  /** Removing the brackets from the `word` group leaves the name followed by the suffix word */
  lemma TokenOfParts(c: CmdLine)
    requires WellFormed(c)
    ensures Remove(Remove(WordGroup(c), {'['}), {']'}) == c.name + c.suffix
  {
    if c.suffix == [] {
      assert WordGroup(c) == c.name;
      NoBrackets(c.name);
      assert c.name + c.suffix == c.name;
    } else {
      assert WordGroup(c) == c.name + ("[" + (c.suffix + "]"));
      RemoveSuffixBrackets(c.name, c.suffix);
    }
  }

  /** Bracket removal turns `name[suffix]` into `namesuffix` */
  lemma RemoveSuffixBrackets(name: string, suffix: string)
    requires All(name, Word) && All(suffix, Word)
    ensures Remove(Remove(name + ("[" + (suffix + "]")), {'['}), {']'}) == name + suffix
  {
    var close := suffix + "]";
    assert Remove(close, {'['}) == close by {
      RemoveAppend(suffix, "]", {'['});
      NoBrackets(suffix);
      assert Remove("]", {'['}) == "]";
    }
    assert Remove("[" + close, {'['}) == close by {
      RemoveAppend("[", close, {'['});
      assert Remove("[", {'['}) == [];
      assert [] + close == close;
    }
    var open := Remove(name + ("[" + close), {'['});
    assert open == name + close by {
      RemoveAppend(name, "[" + close, {'['});
      NoBrackets(name);
    }
    assert Remove(close, {']'}) == suffix by {
      RemoveAppend(suffix, "]", {']'});
      NoBrackets(suffix);
      assert Remove("]", {']'}) == [];
      assert suffix + [] == suffix;
    }
    assert Remove(name + close, {']'}) == name + suffix by {
      RemoveAppend(name, close, {']'});
      NoBrackets(name);
    }
  }

  /** Word characters are left alone by both bracket removals */
  lemma NoBrackets(w: string)
    requires All(w, Word)
    ensures Remove(w, {'['}) == w && Remove(w, {']'}) == w
  {
    RemoveNothing(w, {'['});
    RemoveNothing(w, {']'});
  }

  /**
   * A token only comes from a line starting with `:`; it is a non-empty run
   * of word characters starting with a lower-case letter, so it holds no
   * bracket.
   */
  lemma CommandTokenShape(line: string)
    requires CommandToken(line).Some?
    ensures line[0] == ':'
    ensures var t := CommandToken(line).value;
            t != [] && IsLower(t[0]) && All(t, Word) && '[' !in t && ']' !in t
  {
    var c := Parse(line).value;
    RenderParse(line);
    TokenOfParts(c);
    AllAppend(c.name, c.suffix, Word);
    WordNoBracket(c.name + c.suffix);
  }

  /** A run of word characters holds no bracket */
  lemma WordNoBracket(w: string)
    requires All(w, Word)
    ensures '[' !in w && ']' !in w
  {
  }

  /** A line starting with `:` and a lower-case letter always yields a token, starting with that letter */
  lemma CommandTokenPresent(line: string)
    requires |line| >= 2 && line[0] == ':' && IsLower(line[1])
    ensures CommandToken(line).Some? && CommandToken(line).value != [] && CommandToken(line).value[0] == line[1]
  {
    var tail := line[1..];
    assert line == ":" + tail;
    TailStep(tail);
    RenderParseWord([], tail);
    var c := ParseWord([], tail).value;
    TokenOfParts(c);
    NameStart([], tail);
  }

  /** The name matched in the `word` group starts with the text's first letter */
  lemma NameStart(range: string, s: string)
    requires s != [] && IsLower(s[0])
    ensures var c := ParseWord(range, s).value;
            c.name + c.suffix != [] && (c.name + c.suffix)[0] == s[0]
  {
    ParseWordStep(range, s);
    NameOfSpan(s);
  }

  /** Text that does not start with `[` has no leading group, and the word starts right away */
  lemma NoLeadingGroup(s: string)
    requires s == [] || s[0] != '['
    ensures LeadingGroup(s) == [] && s[|Bracketed(LeadingGroup(s))|..] == s
  {
  }

  /** A leading bracketed word such as `[N]` is never part of the token */
  lemma RangeIgnored(w: string, tail: string)
    requires w != [] && All(w, Word)
    requires tail == [] || tail[0] != '['
    ensures CommandToken(":" + (Bracketed(w) + tail)) == CommandToken(":" + tail)
  {
    RangeStep(w, tail);
    TailStep(tail);
    ParseWordRange(w, [], tail);
  }

  /** A line with a leading group matches the `word` group after it */
  lemma RangeStep(w: string, tail: string)
    requires w != [] && All(w, Word)
    ensures Parse(":" + (Bracketed(w) + tail)) == ParseWord(w, tail)
  {
    var line := ":" + (Bracketed(w) + tail);
    assert line[1..] == Bracketed(w) + tail;
    LeadingBracketWordOf(w, tail);
    assert line[1 + |Bracketed(w)|..] == tail;
    ParseStep(line);
  }

  /** A line without a leading group matches the `word` group right after the colon */
  lemma TailStep(tail: string)
    requires tail == [] || tail[0] != '['
    ensures Parse(":" + tail) == ParseWord([], tail)
  {
    var line := ":" + tail;
    assert line[1..] == tail;
    NoLeadingGroup(tail);
    ParseStep(line);
  }

  /** The leading group only fills in the range of the parts */
  lemma ParseWordRange(r1: string, r2: string, s: string)
    ensures ParseWord(r1, s).Some? == ParseWord(r2, s).Some?
    ensures ParseWord(r1, s).Some? ==> WordGroup(ParseWord(r1, s).value) == WordGroup(ParseWord(r2, s).value)
  {
  }

  /** `:bd[elete]` yields `bdelete` */
  lemma ExampleSuffix()
    ensures CommandToken(":bd[elete]") == Some("bdelete")
  {
    var c := CmdLine([], "bd", "elete", []);
    assert WellFormed(c);
    assert Render(c) == ":bd[elete]";
    assert c.name + c.suffix == "bdelete";
    TokenOfRender(c);
  }

  /** `:[N]bnext` yields `bnext` */
  lemma ExampleRange()
    ensures CommandToken(":[N]bnext") == Some("bnext")
  {
    var c := CmdLine("N", "bnext", [], []);
    assert WellFormed(c);
    assert Render(c) == ":[N]bnext";
    assert c.name + c.suffix == "bnext";
    TokenOfRender(c);
  }

  /** `:[N]bdelete[!]` yields `bdelete`: `[!]` is not a bracketed word */
  lemma ExampleBang()
    ensures CommandToken(":[N]bdelete[!]") == Some("bdelete")
  {
    var c := CmdLine("N", "bdelete", [], "[!]");
    assert WellFormed(c);
    assert Render(c) == ":[N]bdelete[!]";
    assert c.name + c.suffix == "bdelete";
    TokenOfRender(c);
  }
}
