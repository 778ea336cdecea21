/**
 * The function-line recogniser of the dictionary generator: a prefix match of
 * `([a-z][a-z0-9_]*)\(([a-zA-Z0-9_, \{\}\]\[]*?)\)` against a line of the
 * builtin-function help file, turned into a dictionary entry
 * `function! name(args)` whose arguments are stripped of surrounding
 * whitespace and then of braces (`abs({expr})` gives `function! abs(expr)`).
 *
 * Neither `(` nor `)` is in the class before it, so the greedy name and the
 * lazy argument list both take the longest run of their class; the match is
 * written as a parser into the parts of a line and a renderer back from them,
 * proved inverse.
 */
module FunctionLines {
  import opened Text

  /** A line that starts with a call: the function name, the text between the parentheses, the rest */
  datatype FunLine = FunLine(name: string, args: string, rest: string)

  /** The parts a match can produce */
  predicate WellFormed(f: FunLine) {
    && f.name != [] && IsLower(f.name[0]) && All(f.name, FunName)
    && All(f.args, FunArg)
  }

  function Render(f: FunLine): string {
    f.name + ("(" + (f.args + (")" + f.rest)))
  }

  /** The prefix match: the name, `(`, the argument characters, `)` */
  function Parse(line: string): (r: Option<FunLine>)
    ensures r.Some? ==> line != [] && IsLower(line[0])
  {
    if line == [] || !IsLower(line[0]) then None
    else
      var n := Span(line, FunName);
      var s := line[n..];
      if s == [] || s[0] != '(' then None
      else ParseArgs(line[..n], s[1..])
  }

  /** The argument list after the `(`: the run of argument characters, which must end at `)` */
  function ParseArgs(name: string, t: string): Option<FunLine> {
    var m := Span(t, FunArg);
    if m < |t| && t[m] == ')' then Some(FunLine(name, t[..m], t[m + 1..]))
    else None
  }

  /** The arguments as the entry shows them: surrounding whitespace cut off first, then braces removed */
  function NormaliseArgs(raw: string): (r: string)
    ensures '{' !in r && '}' !in r
  {
    RemoveDrops(Strip(raw), {'{', '}'});
    Remove(Strip(raw), {'{', '}'})
  }

  /** The dictionary entry for a function and its normalised arguments */
  function Entry(name: string, args: string): string {
    "function! " + (name + ("(" + (args + ")")))
  }

  /** The dictionary entry of a help-file line, if the line starts with a call */
  function FunctionEntry(line: string): (r: Option<string>)
    ensures r.Some? ==> line != [] && IsLower(line[0])
  {
    match Parse(line)
    case None => None
    case Some(f) => Some(Entry(f.name, NormaliseArgs(f.args)))
  }

  /* ---- Parsing inverts rendering ---- */

  /** Rendering a well-formed line and matching it gives back its parts */
  lemma ParseRender(f: FunLine)
    requires WellFormed(f)
    ensures Parse(Render(f)) == Some(f)
  {
    var t := f.args + (")" + f.rest);
    ParseNameStep(f.name, "(" + t);
    assert ("(" + t)[1..] == t;
    ArgsStep(f.name, f.args, ")" + f.rest);
    assert (")" + f.rest)[1..] == f.rest;
  }

  /**
   * After a whole run of name characters, the match goes on only if `(`
   * follows, and then with the argument list.
   */
  lemma ParseNameStep(name: string, s: string)
    requires name != [] && IsLower(name[0]) && All(name, FunName)
    requires s == [] || !Matches(FunName, s[0])
    ensures Parse(name + s) == if s != [] && s[0] == '(' then ParseArgs(name, s[1..]) else None
  {
    var line := name + s;
    SpanOfRun(name, s, FunName);
    assert line[0] == name[0] && line[..|name|] == name && line[|name|..] == s;
  }

  /**
   * After a whole run of argument characters, the match succeeds exactly
   * when `)` follows.
   */
  lemma ArgsStep(name: string, a: string, t: string)
    requires All(a, FunArg)
    requires t == [] || !Matches(FunArg, t[0])
    ensures ParseArgs(name, a + t) == if t != [] && t[0] == ')' then Some(FunLine(name, a, t[1..])) else None
  {
    var s := a + t;
    SpanOfRun(a, t, FunArg);
    assert s[..|a|] == a && s[|a|..] == t;
    if t != [] {
      assert s[|a|] == t[0] && s[|a| + 1..] == t[1..];
    }
  }

  /** Whatever a match produces is well formed and renders back to the line */
  lemma RenderParse(line: string)
    requires Parse(line).Some?
    ensures WellFormed(Parse(line).value) && Render(Parse(line).value) == line
  {
    var n := Span(line, FunName);
    var s := line[n..];
    assert line == line[..n] + s;
    assert s == "(" + s[1..];
    RenderParseArgs(line[..n], s[1..]);
  }

  /** What the argument list matches renders back to the text after the `(` */
  lemma RenderParseArgs(name: string, t: string)
    requires ParseArgs(name, t).Some?
    ensures var f := ParseArgs(name, t).value;
            f.name == name && All(f.args, FunArg) && f.args + (")" + f.rest) == t
  {
    var m := Span(t, FunArg);
    assert t == t[..m] + ([t[m]] + t[m + 1..]);
  }

  /* ---- What the entry is ---- */

  /**
   * A line has dictionary entry `e` exactly when it is a well-formed line
   * whose name and normalised arguments make up `e`.
   */
  lemma FunctionEntryMeaning(line: string, e: string)
    ensures FunctionEntry(line) == Some(e) <==>
            exists f :: WellFormed(f) && Render(f) == line && e == Entry(f.name, NormaliseArgs(f.args))
  {
    if FunctionEntry(line) == Some(e) {
      RenderParse(line);
    }
    if exists f :: WellFormed(f) && Render(f) == line && e == Entry(f.name, NormaliseArgs(f.args)) {
      var f :| WellFormed(f) && Render(f) == line && e == Entry(f.name, NormaliseArgs(f.args));
      ParseRender(f);
    }
  }

  /** The entry of a rendered line is built from its name and its normalised arguments */
  lemma EntryOfRender(f: FunLine)
    requires WellFormed(f)
    ensures FunctionEntry(Render(f)) == Some(Entry(f.name, NormaliseArgs(f.args)))
  {
    ParseRender(f);
  }

  /**
   * Normalised arguments hold no brace, and every other character of the
   * stripped argument text occurs in them as often as before.
   */
  lemma NormaliseArgsBraces(raw: string)
    ensures var r := NormaliseArgs(raw);
            '{' !in r && '}' !in r
    ensures var r := NormaliseArgs(raw);
            forall c :: c != '{' && c != '}' ==> multiset(r)[c] == multiset(Strip(raw))[c]
  {
    var r := NormaliseArgs(raw);
    RemoveDrops(Strip(raw), {'{', '}'});
    forall c | c != '{' && c != '}'
      ensures multiset(r)[c] == multiset(Strip(raw))[c]
    {
      RemoveKeeps(Strip(raw), {'{', '}'}, c);
    }
  }

  /** Arguments without braces are only stripped */
  lemma NormaliseArgsPlain(raw: string)
    requires '{' !in raw && '}' !in raw
    ensures NormaliseArgs(raw) == Strip(raw)
  {
    var i := Span(raw, Space);
    var r := Strip(raw);
    assert r == raw[i..i + |r|];
    RemoveNothing(r, {'{', '}'});
  }

  /**
   * Whitespace is cut before braces are removed, so whitespace just inside a
   * brace survives: `{ w}` becomes ` w`, where removing the braces first and
   * then cutting whitespace would give `w`.
   */
  lemma NormaliseArgsOrder(w: string)
    requires w != [] && All(w, Word)
    ensures NormaliseArgs("{" + (" " + (w + "}"))) == " " + w
    ensures Strip(Remove("{" + (" " + (w + "}")), {'{', '}'})) == w
  {
    var braces := {'{', '}'};
    var a := "{" + (" " + (w + "}"));
    StripUnchanged(a);
    RemoveAppend("{", " " + (w + "}"), braces);
    RemoveAppend(" ", w + "}", braces);
    RemoveAppend(w, "}", braces);
    NoBraces(w);
    assert Remove(a, braces) == " " + w;
    SpaceThenWord(w);
  }

  /** Stripping ` w`, for a word `w`, gives `w` */
  lemma SpaceThenWord(w: string)
    requires w != [] && All(w, Word)
    ensures Strip(" " + w) == w
  {
    var s := " " + w;
    assert Span(s, Space) == 1 by {
      assert s[1..] == w;
      assert !IsSpace(w[0]) by { assert Matches(Word, w[0]); }
    }
    assert !IsSpace(w[|w| - 1]) by { assert Matches(Word, w[|w| - 1]); }
    assert s[1..] == w;
  }

  /** Word characters hold no brace */
  lemma NoBraces(w: string)
    requires All(w, Word)
    ensures Remove(w, {'{', '}'}) == w
  {
    RemoveNothing(w, {'{', '}'});
  }

  /** A single argument in braces is shown without them: `name({w})` gives `function! name(w)` */
  lemma SingleArgument(name: string, w: string, rest: string)
    requires name != [] && IsLower(name[0]) && All(name, FunName)
    requires All(w, Word)
    ensures FunctionEntry(Render(FunLine(name, "{" + (w + "}"), rest))) == Some(Entry(name, w))
  {
    BracedArg(w);
    EntryOfRender(FunLine(name, "{" + (w + "}"), rest));
  }

  /**
   * An argument list without braces and without whitespace at its ends is
   * shown as it is: `add(list, item)` gives `function! add(list, item)`.
   */
  lemma PlainArguments(name: string, args: string, rest: string)
    requires name != [] && IsLower(name[0]) && All(name, FunName)
    requires All(args, FunArg) && '{' !in args && '}' !in args
    requires args == [] || (!IsSpace(args[0]) && !IsSpace(args[|args| - 1]))
    ensures FunctionEntry(Render(FunLine(name, args, rest))) == Some(Entry(name, args))
  {
    StripUnchanged(args);
    NormaliseArgsPlain(args);
    EntryOfRender(FunLine(name, args, rest));
  }

  /** A word in braces is an argument list, normalised to the word */
  lemma BracedArg(w: string)
    requires All(w, Word)
    ensures All("{" + (w + "}"), FunArg)
    ensures NormaliseArgs("{" + (w + "}")) == w
  {
    var braces := {'{', '}'};
    var a := "{" + (w + "}");
    WordIsArg(w);
    AllAppend(w, "}", FunArg);
    AllAppend("{", w + "}", FunArg);
    StripUnchanged(a);
    RemoveAppend("{", w + "}", braces);
    RemoveAppend(w, "}", braces);
    NoBraces(w);
    assert Remove("{", braces) == [] && Remove("}", braces) == [];
    assert [] + (w + []) == w;
  }

  /** Word characters are argument characters */
  lemma WordIsArg(w: string)
    requires All(w, Word)
    ensures All(w, FunArg)
  {
    forall i | 0 <= i < |w|
      ensures Matches(FunArg, w[i])
    {
      assert Matches(Word, w[i]);
    }
  }

  /** A name not followed by `(` gives no entry */
  lemma NoOpenParen(name: string, c: char, rest: string)
    requires name != [] && IsLower(name[0]) && All(name, FunName)
    requires !Matches(FunName, c) && c != '('
    ensures FunctionEntry(name + ([c] + rest)) == None
  {
    ParseNameStep(name, [c] + rest);
  }

  /**
   * An argument list cut short by a character outside its class, other than
   * `)`, gives no entry: the lazy group cannot reach past that character.
   */
  lemma NoCloseParen(name: string, a: string, c: char, rest: string)
    requires name != [] && IsLower(name[0]) && All(name, FunName)
    requires All(a, FunArg) && !Matches(FunArg, c) && c != ')'
    ensures FunctionEntry(name + ("(" + (a + ([c] + rest)))) == None
  {
    var t := a + ([c] + rest);
    ParseNameStep(name, "(" + t);
    assert ("(" + t)[1..] == t;
    ArgsStep(name, a, [c] + rest);
  }

  /**
   * An entry reads `function! `, the function name, and the normalised
   * arguments in parentheses; it holds no line break and no brace.
   */
  lemma FunctionEntryShape(line: string)
    requires FunctionEntry(line).Some?
    ensures var e := FunctionEntry(line).value;
            "function! " <= e && e[|e| - 1] == ')' && All(e, LineChar) && '{' !in e && '}' !in e
  {
    RenderParse(line);
    var f := Parse(line).value;
    var args := NormaliseArgs(f.args);
    StripAll(f.args, FunArg);
    RemoveAll(Strip(f.args), {'{', '}'}, FunArg);
    NormaliseArgsBraces(f.args);
    EntryShape(f.name, args);
  }

  /** The shape of an entry built from a name and brace-free argument characters */
  lemma EntryShape(name: string, args: string)
    requires All(name, FunName) && All(args, FunArg) && '{' !in args && '}' !in args
    ensures var e := Entry(name, args);
            "function! " <= e && e[|e| - 1] == ')' && All(e, LineChar) && '{' !in e && '}' !in e
  {
    var e := Entry(name, args);
    NoLineBreak(name, FunName);
    NoLineBreak(args, FunArg);
    var close := args + ")";
    var open := "(" + close;
    var tail := name + open;
    AllAppend(args, ")", LineChar);
    AllAppend("(", close, LineChar);
    AllAppend(name, open, LineChar);
    AllAppend("function! ", tail, LineChar);
    NameNoBrace(name);
  }

  /** A function name holds no brace */
  lemma NameNoBrace(name: string)
    requires All(name, FunName)
    ensures '{' !in name && '}' !in name
  {
  }
}
