/**
 * The dictionary generator itself: it collects the lines of the regular
 * files of the help directory whose names do not start with `os` or `tags`,
 * gathers the command token of every line that has one into a set, writes
 * that set as the command dictionary, then does the same with the function
 * entries of the lines of `eval.txt`.
 *
 * The directory is a listing of entries in the order the system lists them,
 * and files are their text. A set is written in whatever order iterating it
 * yields, which the model leaves open: writing a set picks some ordering of
 * it.
 */
module Generate {
  import opened Text
  import CommandLines
  import FunctionLines
  import opened DictFile

  /** An entry of a directory listing: its name, whether it is a regular file, and its text */
  datatype DirEntry = DirEntry(name: string, isFile: bool, content: string)

  /** The prefixes of the help files left out of the command scan */
  const CommandIgnore: seq<string> := ["os", "tags"]

  /** The help file the function scan reads */
  const EvalName: string := "eval.txt"

  /* ---- Lines of a directory ---- */

  /** Whether `name` starts with one of `prefixes` */
  function StartsWithAny(name: string, prefixes: seq<string>): (r: bool)
    ensures r <==> exists p :: p in prefixes && p <= name
  {
    if prefixes == [] then false
    else if prefixes[0] <= name then
      assert prefixes[0] in prefixes;
      true
    else
      assert forall p :: p in prefixes <==> p == prefixes[0] || p in prefixes[1..];
      StartsWithAny(name, prefixes[1..])
  }

  /** An entry whose lines are collected: a regular file whose name has none of the prefixes */
  predicate Selected(e: DirEntry, prefixes: seq<string>) {
    !StartsWithAny(e.name, prefixes) && e.isFile
  }

  /** The lines an entry contributes */
  function EntryLines(e: DirEntry, prefixes: seq<string>): seq<string> {
    if Selected(e, prefixes) then ReadLines(e.content) else []
  }

  /** The lines of the selected entries, in listing order */
  function DirLines(dir: seq<DirEntry>, prefixes: seq<string>): (r: seq<string>)
    ensures (forall e :: e in dir ==> !Selected(e, prefixes)) ==> r == []
  {
    if dir == [] then []
    else DirLines(dir[..|dir| - 1], prefixes) + EntryLines(dir[|dir| - 1], prefixes)
  }

  /** The texts of the selected entries, one after the other in listing order */
  function SelectedText(dir: seq<DirEntry>, prefixes: seq<string>): string {
    if dir == [] then []
    else SelectedText(dir[..|dir| - 1], prefixes) + (if Selected(dir[|dir| - 1], prefixes) then dir[|dir| - 1].content else [])
  }

  /** Collects the lines of every selected entry of the listing */
  method LinesInDir(dir: seq<DirEntry>, prefixes: seq<string>) returns (lines: seq<string>)
    ensures lines == DirLines(dir, prefixes)
  {
    lines := [];
    for i := 0 to |dir|
      invariant lines == DirLines(dir[..i], prefixes)
    {
      var entry := dir[i];
      assert dir[..i + 1][..i] == dir[..i];
      if StartsWithAny(entry.name, prefixes) {
        continue;
      }
      if !entry.isFile {
        continue;
      }
      lines := lines + ReadLines(entry.content);
    }
    assert dir[..|dir|] == dir;
  }

  /** The collected lines, put together, are exactly the texts of the selected entries */
  lemma {:induction false} DirLinesText(dir: seq<DirEntry>, prefixes: seq<string>)
    ensures Concat(DirLines(dir, prefixes)) == SelectedText(dir, prefixes)
  {
    if dir != [] {
      var init := dir[..|dir| - 1];
      var e := dir[|dir| - 1];
      DirLinesText(init, prefixes);
      ConcatAppend(DirLines(init, prefixes), EntryLines(e, prefixes));
      if Selected(e, prefixes) {
        ConcatReadLines(e.content);
      }
    }
  }

  /** Concatenation of lines distributes over joining the lists */
  lemma {:induction false} ConcatAppend(a: seq<string>, b: seq<string>)
    ensures Concat(a + b) == Concat(a) + Concat(b)
  {
    if a != [] {
      assert (a + b)[0] == a[0] && (a + b)[1..] == a[1..] + b;
      ConcatAppend(a[1..], b);
    } else {
      assert a + b == b;
    }
  }

  /** A line is collected exactly when it is a line of some selected entry */
  lemma DirLinesMember(dir: seq<DirEntry>, prefixes: seq<string>, l: string)
    ensures l in DirLines(dir, prefixes) <==>
            exists i :: 0 <= i < |dir| && Selected(dir[i], prefixes) && l in ReadLines(dir[i].content)
  {
    if l in DirLines(dir, prefixes) {
      var i := DirLinesSource(dir, prefixes, l);
    }
    if exists i :: 0 <= i < |dir| && Selected(dir[i], prefixes) && l in ReadLines(dir[i].content) {
      var i :| 0 <= i < |dir| && Selected(dir[i], prefixes) && l in ReadLines(dir[i].content);
      DirLinesHas(dir, prefixes, i, l);
    }
  }

  /** A collected line comes from some selected entry */
  lemma DirLinesSource(dir: seq<DirEntry>, prefixes: seq<string>, l: string) returns (i: nat)
    requires l in DirLines(dir, prefixes)
    ensures i < |dir| && Selected(dir[i], prefixes) && l in ReadLines(dir[i].content)
  {
    i := DirLinesEntry(dir, prefixes, l);
  }

  /** A collected line is contributed by some entry */
  lemma {:induction false} DirLinesEntry(dir: seq<DirEntry>, prefixes: seq<string>, l: string) returns (i: nat)
    requires l in DirLines(dir, prefixes)
    ensures i < |dir| && l in EntryLines(dir[i], prefixes)
  {
    var init := dir[..|dir| - 1];
    var last := EntryLines(dir[|dir| - 1], prefixes);
    assert DirLines(dir, prefixes) == DirLines(init, prefixes) + last;
    if l in DirLines(init, prefixes) {
      i := DirLinesEntry(init, prefixes, l);
      assert init[i] == dir[i];
    } else {
      i := |dir| - 1;
    }
  }

  /** Every line of a selected entry is collected */
  lemma DirLinesHas(dir: seq<DirEntry>, prefixes: seq<string>, i: nat, l: string)
    requires i < |dir| && Selected(dir[i], prefixes) && l in ReadLines(dir[i].content)
    ensures l in DirLines(dir, prefixes)
  {
    assert l in EntryLines(dir[i], prefixes);
    DirLinesHasEntry(dir, prefixes, i, l);
  }

  /** Every line an entry contributes is collected */
  lemma {:induction false} DirLinesHasEntry(dir: seq<DirEntry>, prefixes: seq<string>, i: nat, l: string)
    requires i < |dir| && l in EntryLines(dir[i], prefixes)
    ensures l in DirLines(dir, prefixes)
  {
    var init := dir[..|dir| - 1];
    var last := EntryLines(dir[|dir| - 1], prefixes);
    assert DirLines(dir, prefixes) == DirLines(init, prefixes) + last;
    if i < |init| {
      assert init[i] == dir[i];
      DirLinesHasEntry(init, prefixes, i, l);
    }
  }

  /** Help files named `os...` or `tags...`, and entries that are not regular files, are passed over */
  lemma CommandIgnoreExamples(text: string)
    ensures !Selected(DirEntry("os_unix.txt", true, text), CommandIgnore)
    ensures !Selected(DirEntry("tags", true, text), CommandIgnore)
    ensures !Selected(DirEntry("usr_41.txt", false, text), CommandIgnore)
    ensures Selected(DirEntry("eval.txt", true, text), CommandIgnore)
  {
    assert "os" <= "os_unix.txt";
    assert "tags" <= "tags";
    assert !("os" <= "eval.txt") && !("tags" <= "eval.txt");
    assert !("os" <= "usr_41.txt") && !("tags" <= "usr_41.txt");
  }

  /* ---- Gathering entries ---- */

  /** The two scans: command tokens of help-file lines, function entries of `eval.txt` lines */
  datatype Scan = Commands | Functions

  /** What a scan gathers from one line, if anything */
  function Recognise(k: Scan, line: string): Option<string> {
    match k
    case Commands => CommandLines.CommandToken(line)
    case Functions => FunctionLines.FunctionEntry(line)
  }

  /** What a scan yields for each line, in order */
  function Recognised(lines: seq<string>, k: Scan): (rs: seq<Option<string>>)
    ensures |rs| == |lines|
  {
    seq(|lines|, i requires 0 <= i < |lines| => Recognise(k, lines[i]))
  }

  /** The values of the results that have one */
  function Gather(rs: seq<Option<string>>): set<string> {
    if rs == [] then {}
    else
      var found := rs[|rs| - 1];
      Gather(rs[..|rs| - 1]) + (if found.Some? then {found.value} else {})
  }

  /** Everything a scan gathers from the lines */
  function Harvest(lines: seq<string>, k: Scan): (r: set<string>)
    ensures |r| <= |lines|
  {
    GatherSize(Recognised(lines, k));
    Gather(Recognised(lines, k))
  }

  /** At most one value per result */
  lemma {:induction false} GatherSize(rs: seq<Option<string>>)
    ensures |Gather(rs)| <= |rs|
  {
    if rs != [] {
      GatherSize(rs[..|rs| - 1]);
    }
  }

  /** An entry is gathered exactly when some line yields it */
  lemma HarvestMember(lines: seq<string>, k: Scan, t: string)
    ensures t in Harvest(lines, k) <==> exists i :: 0 <= i < |lines| && Recognise(k, lines[i]) == Some(t)
  {
    var rs := Recognised(lines, k);
    GatherMember(rs, t);
    if t in Harvest(lines, k) {
      var i :| 0 <= i < |rs| && rs[i] == Some(t);
    }
    if exists i :: 0 <= i < |lines| && Recognise(k, lines[i]) == Some(t) {
      var i :| 0 <= i < |lines| && Recognise(k, lines[i]) == Some(t);
      assert rs[i] == Some(t);
    }
  }

  /** A value is gathered exactly when some result holds it */
  lemma {:induction false} GatherMember(rs: seq<Option<string>>, t: string)
    ensures t in Gather(rs) <==> exists i :: 0 <= i < |rs| && rs[i] == Some(t)
  {
    if rs != [] {
      var last := |rs| - 1;
      var init := rs[..last];
      GatherMember(init, t);
      if t in Gather(rs) && t in Gather(init) {
        var i :| 0 <= i < |init| && init[i] == Some(t);
        assert rs[i] == Some(t);
      }
      if exists i :: 0 <= i < |rs| && rs[i] == Some(t) {
        var i :| 0 <= i < |rs| && rs[i] == Some(t);
        if i < last {
          assert init[i] == Some(t);
        }
      }
    }
  }

  /**
   * A command is gathered from the help directory exactly when it is the
   * token of some line of some selected entry.
   */
  lemma CommandSetMember(dir: seq<DirEntry>, t: string)
    ensures t in CommandSet(dir) <==>
            exists i, j :: 0 <= i < |dir| && Selected(dir[i], CommandIgnore) &&
                           0 <= j < |ReadLines(dir[i].content)| &&
                           CommandLines.CommandToken(ReadLines(dir[i].content)[j]) == Some(t)
  {
    if t in CommandSet(dir) {
      var i, j := CommandSource(dir, t);
    }
    if exists i, j :: 0 <= i < |dir| && Selected(dir[i], CommandIgnore) &&
                      0 <= j < |ReadLines(dir[i].content)| &&
                      CommandLines.CommandToken(ReadLines(dir[i].content)[j]) == Some(t) {
      var i, j :| 0 <= i < |dir| && Selected(dir[i], CommandIgnore) &&
                  0 <= j < |ReadLines(dir[i].content)| &&
                  CommandLines.CommandToken(ReadLines(dir[i].content)[j]) == Some(t);
      CommandFrom(dir, i, j, t);
    }
  }

  /** A gathered command is the token of a line of a selected entry */
  lemma CommandSource(dir: seq<DirEntry>, t: string) returns (i: nat, j: nat)
    requires t in CommandSet(dir)
    ensures i < |dir| && Selected(dir[i], CommandIgnore) && j < |ReadLines(dir[i].content)|
    ensures CommandLines.CommandToken(ReadLines(dir[i].content)[j]) == Some(t)
  {
    var lines := DirLines(dir, CommandIgnore);
    HarvestMember(lines, Commands, t);
    var n :| 0 <= n < |lines| && Recognise(Commands, lines[n]) == Some(t);
    var l := lines[n];
    DirLinesMember(dir, CommandIgnore, l);
    i :| 0 <= i < |dir| && Selected(dir[i], CommandIgnore) && l in ReadLines(dir[i].content);
    j := IndexOf(ReadLines(dir[i].content), l);
  }

  /** The token of a line of a selected entry is gathered */
  lemma CommandFrom(dir: seq<DirEntry>, i: nat, j: nat, t: string)
    requires i < |dir| && Selected(dir[i], CommandIgnore) && j < |ReadLines(dir[i].content)|
    requires CommandLines.CommandToken(ReadLines(dir[i].content)[j]) == Some(t)
    ensures t in CommandSet(dir)
  {
    var lines := DirLines(dir, CommandIgnore);
    var l := ReadLines(dir[i].content)[j];
    DirLinesMember(dir, CommandIgnore, l);
    var n := IndexOf(lines, l);
    HarvestMember(lines, Commands, t);
    assert Recognise(Commands, lines[n]) == Some(t);
  }

  /** Gathers the command token of every line that has one */
  method CollectCommands(lines: seq<string>) returns (cmds: set<string>)
    ensures cmds == Harvest(lines, Commands)
  {
    cmds := {};
    for i := 0 to |lines|
      invariant cmds == Harvest(lines[..i], Commands)
    {
      assert lines[..i + 1][..i] == lines[..i];
      assert Recognised(lines[..i + 1], Commands) == Recognised(lines[..i], Commands) + [CommandLines.CommandToken(lines[i])];
      var m := CommandLines.CommandToken(lines[i]);
      if m.None? {
        continue;
      }
      cmds := cmds + {m.value};
    }
    assert lines[..|lines|] == lines;
  }

  /** Gathers the function entry of every line that has one */
  method CollectFunctions(lines: seq<string>) returns (funs: set<string>)
    ensures funs == Harvest(lines, Functions)
  {
    funs := {};
    for i := 0 to |lines|
      invariant funs == Harvest(lines[..i], Functions)
    {
      assert lines[..i + 1][..i] == lines[..i];
      assert Recognised(lines[..i + 1], Functions) == Recognised(lines[..i], Functions) + [FunctionLines.FunctionEntry(lines[i])];
      var m := FunctionLines.FunctionEntry(lines[i]);
      if m.None? {
        continue;
      }
      funs := funs + {m.value};
    }
    assert lines[..|lines|] == lines;
  }

  /** No gathered entry holds a line break, so each takes one line of a dictionary */
  lemma HarvestSingleLine(lines: seq<string>, k: Scan)
    ensures forall t :: t in Harvest(lines, k) ==> All(t, LineChar)
  {
    forall t | t in Harvest(lines, k)
      ensures All(t, LineChar)
    {
      HarvestMember(lines, k, t);
      var i :| 0 <= i < |lines| && Recognise(k, lines[i]) == Some(t);
      RecognisedSingleLine(k, lines[i]);
    }
  }

  /** A gathered entry holds no line break */
  lemma RecognisedSingleLine(k: Scan, line: string)
    requires Recognise(k, line).Some?
    ensures All(Recognise(k, line).value, LineChar)
  {
    match k
    case Commands =>
      CommandLines.CommandTokenShape(line);
      NoLineBreak(Recognise(k, line).value, Word);
    case Functions =>
      FunctionLines.FunctionEntryShape(line);
  }

  /* ---- Writing a set ---- */

  /** `order` lists every element of `s` exactly once */
  predicate IsOrdering(order: seq<string>, s: set<string>) {
    && |order| == |s|
    && (forall i, j :: 0 <= i < j < |order| ==> order[i] != order[j])
    && (forall x :: x in s ==> x in order)
    && (forall i :: 0 <= i < |order| ==> order[i] in s)
  }

  /** Iterating a set: its elements in some order */
  method Enumerate(s: set<string>) returns (order: seq<string>)
    ensures IsOrdering(order, s)
  {
    order := [];
    var rest := s;
    while rest != {}
      invariant |order| + |rest| == |s|
      invariant forall i, j :: 0 <= i < j < |order| ==> order[i] != order[j]
      invariant rest <= s
      invariant forall x :: x in s ==> x in order || x in rest
      invariant forall i :: 0 <= i < |order| ==> order[i] in s && order[i] !in rest
      decreases |rest|
    {
      var x :| x in rest;
      order := order + [x];
      rest := rest - {x};
    }
  }

  /** `text` is the dictionary file of `s`, written in some order */
  ghost predicate IsDictionary(text: string, s: set<string>) {
    exists order :: IsOrdering(order, s) && text == WriteList(order)
  }

  /** Writes a set as a dictionary file */
  method WriteSet(s: set<string>) returns (text: string)
    ensures IsDictionary(text, s)
  {
    var order := Enumerate(s);
    text := WriteList(order);
  }

  /**
   * Reading back the dictionary of a non-empty set of one-line entries gives
   * one line per element, each an element followed by a line break, and every
   * element on one of them.
   */
  lemma DictionaryLines(text: string, s: set<string>)
    requires IsDictionary(text, s)
    requires s != {} && forall x :: x in s ==> All(x, LineChar)
    ensures |ReadLines(text)| == |s|
    ensures forall i :: 0 <= i < |ReadLines(text)| ==>
              var l := ReadLines(text)[i];
              l != [] && l[|l| - 1] == '\n' && l[..|l| - 1] in s
    ensures forall x :: x in s ==> x + "\n" in ReadLines(text)
  {
    var order :| IsOrdering(order, s) && text == WriteList(order);
    OrderingSingleLine(order, s);
    ReadWriteList(order);
    TerminatedLines(order, s);
  }

  /** An ordering of a non-empty set of one-line entries is a non-empty list of one-line entries */
  lemma OrderingSingleLine(order: seq<string>, s: set<string>)
    requires IsOrdering(order, s)
    requires s != {} && forall x :: x in s ==> All(x, LineChar)
    ensures order != [] && SingleLine(order)
  {
    var y :| y in s;
    assert y in order;
  }

  /** The terminated entries of an ordering are its elements, each on its own line */
  lemma TerminatedLines(order: seq<string>, s: set<string>)
    requires IsOrdering(order, s)
    ensures |Terminated(order)| == |s|
    ensures forall i :: 0 <= i < |Terminated(order)| ==>
              var l := Terminated(order)[i];
              l != [] && l[|l| - 1] == '\n' && l[..|l| - 1] in s
    ensures forall x :: x in s ==> x + "\n" in Terminated(order)
  {
    TerminatedIndex(order);
    forall x | x in s
      ensures x + "\n" in Terminated(order)
    {
      var i := IndexOf(order, x);
      assert Terminated(order)[i] == x + "\n";
    }
  }

  /** The i-th line of the terminated entries is the i-th entry and a line break */
  lemma {:induction false} TerminatedIndex(es: seq<string>)
    ensures |Terminated(es)| == |es|
    ensures forall i :: 0 <= i < |es| ==>
              var l := Terminated(es)[i];
              l == es[i] + "\n" && l[..|l| - 1] == es[i] && l[|l| - 1] == '\n'
  {
    if es != [] {
      TerminatedIndex(es[1..]);
      var head := es[0] + "\n";
      assert head[..|head| - 1] == es[0];
    }
  }

  /** The dictionary of the empty set is a single line break */
  lemma EmptyDictionary(text: string)
    requires IsDictionary(text, {})
    ensures text == "\n"
  {
    var order :| IsOrdering(order, {}) && text == WriteList(order);
    assert order == [];
    WriteEmpty();
  }

  /* ---- The whole run ---- */

  /** The first listing entry named `name`, if there is one */
  function FindEntry(dir: seq<DirEntry>, name: string): (r: Option<DirEntry>)
    ensures r.Some? ==> r.value in dir && r.value.name == name
    ensures r.None? ==> forall e :: e in dir ==> e.name != name
  {
    if dir == [] then None
    else if dir[0].name == name then Some(dir[0])
    else FindEntry(dir[1..], name)
  }

  /** No two entries of the listing share a name, as with `os.listdir` */
  predicate DistinctNames(dir: seq<DirEntry>) {
    forall i, j :: 0 <= i < j < |dir| ==> dir[i].name != dir[j].name
  }

  /** In a listing with distinct names, looking up an entry's name finds that entry */
  lemma {:induction false} FindDistinct(dir: seq<DirEntry>, e: DirEntry)
    requires DistinctNames(dir) && e in dir
    ensures FindEntry(dir, e.name) == Some(e)
  {
    if dir[0] != e {
      var k :| 0 <= k < |dir| && dir[k] == e;
      assert dir[0].name != dir[k].name;
      assert e in dir[1..] by {
        assert dir[1..][k - 1] == e;
      }
      FindDistinct(dir[1..], e);
    }
  }

  /** In a listing with distinct names, the lookup of `eval.txt` finds every entry of that name */
  lemma EvalUnique(dir: seq<DirEntry>)
    ensures DistinctNames(dir) ==>
            forall e :: e in dir && e.name == EvalName ==> FindEntry(dir, EvalName) == Some(e)
  {
    if DistinctNames(dir) {
      forall e | e in dir && e.name == EvalName
        ensures FindEntry(dir, EvalName) == Some(e)
      {
        FindDistinct(dir, e);
      }
    }
  }

  /** The lines of `eval.txt`, unless there is no such regular file to open */
  function EvalLines(dir: seq<DirEntry>): (r: Option<seq<string>>)
    ensures r.Some? ==> exists e :: e in dir && e.name == EvalName && e.isFile && r.value == ReadLines(e.content)
    ensures (forall e :: e in dir ==> e.name != EvalName) ==> r.None?
    ensures DistinctNames(dir) ==>
            forall e :: e in dir && e.name == EvalName && e.isFile ==> r == Some(ReadLines(e.content))
  {
    EvalUnique(dir);
    match FindEntry(dir, EvalName)
    case Some(e) => if e.isFile then Some(ReadLines(e.content)) else None
    case None => None
  }

  /**
   * What a run leaves behind: both dictionaries, or only the command
   * dictionary when `eval.txt` cannot be opened and the run stops there.
   */
  datatype Outcome =
    | Written(commands: string, functions: string)
    | EvalMissing(commands: string)

  /** The command set gathered from the help directory */
  function CommandSet(dir: seq<DirEntry>): set<string> {
    Harvest(DirLines(dir, CommandIgnore), Commands)
  }

  /** The function set gathered from the lines of `eval.txt` */
  function FunctionSet(evalLines: seq<string>): set<string> {
    Harvest(evalLines, Functions)
  }

  /** Scans the help directory and writes the command and function dictionaries */
  method Run(dir: seq<DirEntry>) returns (out: Outcome)
    ensures IsDictionary(out.commands, CommandSet(dir))
    ensures out.Written? <==> EvalLines(dir).Some?
    ensures DistinctNames(dir) ==>
            (out.Written? <==> exists e :: e in dir && e.name == EvalName && e.isFile)
    ensures out.Written? ==> IsDictionary(out.functions, FunctionSet(EvalLines(dir).value))
  {
    var cmdLines := LinesInDir(dir, CommandIgnore);
    var cmds := CollectCommands(cmdLines);
    var cmdText := WriteSet(cmds);
    var evalEntry := FindEntry(dir, EvalName);
    if evalEntry.None? || !evalEntry.value.isFile {
      return EvalMissing(cmdText);
    }
    var funs := CollectFunctions(ReadLines(evalEntry.value.content));
    var funText := WriteSet(funs);
    out := Written(cmdText, funText);
  }
}
