# Builtin dictionary generator of vim-vimlcmpl, in Dafny

`autoload/generate_builtin_dicts.py` builds two completion dictionaries from
Vim's help directory:

- `builtincmds.dict` holds the command names. Every regular help file whose
  name does not start with `os` or `tags` is read line by line. Each line that
  starts with a command reference such as `:bd[elete]` or `:[N]bnext`
  contributes its command token (`bdelete`, `bnext`).
- `builtinfuncs.dict` holds the builtin functions. Every line of `eval.txt`
  that starts with a call such as `abs({expr})` contributes an entry
  `function! abs(expr)`.

Both dictionaries are sets written one entry per line, with a final line
break.

The project models this in five modules:

| file | module | what it holds |
|---|---|---|
| `text.dfy` | `Text` | The character classes of the two patterns. Runs of a class (`Span`). The optional `[word]` group. Python's `str.strip()` (`Strip`). Character removal (`Remove`), which stands for `str.replace` and `re.sub`. |
| `commands.dfy` | `CommandLines` | The command pattern as a parser (`Parse`) into the parts of a command line, with a renderer back (`Render`). The token (`CommandToken`). |
| `functions.dfy` | `FunctionLines` | The function pattern as a parser and renderer. The argument normalisation (`NormaliseArgs`). The entry (`FunctionEntry`). |
| `dictfile.dfy` | `DictFile` | `writelist`'s text (`WriteList`). Python's `readlines` (`ReadLines`). |
| `generate.dfy` | `Generate` | The directory walk (`LinesInDir`), the two scanning loops (`CollectCommands`, `CollectFunctions`), writing a set (`Enumerate`, `WriteSet`) and the whole run (`Run`). |

### Modelling choices

- **The two patterns.** Each is written as a parser plus a renderer, and the
  two are proved to be inverses. That says exactly which lines match and
  what the groups capture, without a regular-expression engine.
- **Why maximal munch is exact.** In both patterns, the character that ends
  a run (`[`, `(`, `)`) is outside the run's class. So backtracking never
  changes the result, and "the longest run" is exactly what the pattern
  matches. This includes the lazy `*?` of the argument list.
- **The directory.** It is a sequence of entries, each with a name, a
  regular-file flag and a text, in the order the listing returns them.
  `eval.txt` is the entry with that name. A real listing never repeats a
  name (`DistinctNames`). The lookup of `eval.txt` is specified for such
  listings; for a sequence with repeated names it takes the first one.
- **Writing a set.** Python iterates a set in an unspecified order. The
  model has `Enumerate` pick some ordering, and states the result with
  `IsDictionary`: the text is `WriteList` of *some* ordering of the set.
- **A missing `eval.txt`.** The model reads `eval.txt` only when the
  listing holds a regular file of that name. Otherwise it takes `open` on
  line 43 to raise an error; special files are the exception (see "Left
  out"). By then the command dictionary is already written, and `Run`
  returns `EvalMissing` carrying that dictionary.
- **Order of normalisation.** Line 47 strips the argument text first and
  removes braces second. So `{ w}` becomes ` w`, not `w`
  (`FunctionLines.NormaliseArgsOrder`).
- **What a command token is.** Line 35 drops only the brackets from the
  `word` group and keeps the suffix word inside them. So `:bd[elete]` gives
  `bdelete`.

## Model

| member | source | states |
|---|---|---|
| Text.Span | autoload/generate_builtin_dicts.py:27 | The length of the longest prefix in a class: everything before it is in the class and the next character is not. This is how `\w*`, `[a-z0-9_]*` and the argument class are read. |
| Text.LeadingGroup | autoload/generate_builtin_dicts.py:27 | The optional `(\[\w+\])?` group: either empty, or a word whose bracketed form is a prefix of the text. |
| Text.LeadingBracketWordOf | autoload/generate_builtin_dicts.py:27 | Any bracketed word at the front of a text is recognised as that word, whatever follows. |
| Text.LeadingBracketWordNone | autoload/generate_builtin_dicts.py:27 | When no group is recognised, the text starts with no bracketed word at all. |
| Text.Strip | autoload/generate_builtin_dicts.py:47 | `strip()`: the result has no whitespace at either end, and it is the text with only whitespace cut from both ends. |
| Text.Remove | autoload/generate_builtin_dicts.py:47 | Removing no characters leaves the text as it is. What removal drops and keeps is stated by `RemoveDrops` and `RemoveKeeps`. |
| Text.RemoveDrops | autoload/generate_builtin_dicts.py:47 | After removal, none of the removed characters is left. |
| Text.RemoveKeeps | autoload/generate_builtin_dicts.py:47 | Every other character survives removal as often as it occurred. |
| Text.RemoveAppend | autoload/generate_builtin_dicts.py:35 | Removal works character by character, so it distributes over concatenation. |
| CommandLines.Parse | autoload/generate_builtin_dicts.py:31-32 | A line matches the command pattern only if it starts with `:`. |
| CommandLines.ParseRender | autoload/generate_builtin_dicts.py:27 | Matching a rendered well-formed command line gives back its range word, name, suffix word and rest. |
| CommandLines.RenderParse | autoload/generate_builtin_dicts.py:27 | Whatever the pattern matches is well formed and renders back to the line. |
| CommandLines.CommandToken | autoload/generate_builtin_dicts.py:31-35 | A token comes only from a line starting with `:`. Which token it is, is stated by `CommandTokenMeaning`. |
| CommandLines.CommandTokenMeaning | autoload/generate_builtin_dicts.py:31-35 | A line yields token `t` if and only if it is a well-formed command line whose name followed by its suffix word is `t`. |
| CommandLines.TokenOfRender | autoload/generate_builtin_dicts.py:33-35 | The token of a command line is its name followed by its suffix word, with the brackets gone. |
| CommandLines.TokenOfParts | autoload/generate_builtin_dicts.py:35 | Removing `[` and then `]` from the `word` group leaves the name followed by the suffix word. |
| CommandLines.CommandTokenShape | autoload/generate_builtin_dicts.py:31-35 | A token comes only from a line starting with `:`. It is non-empty, starts with a lower-case letter, has only word characters and no bracket. |
| CommandLines.CommandTokenPresent | autoload/generate_builtin_dicts.py:27 | Every line starting with `:` and a lower-case letter yields a token starting with that letter. |
| CommandLines.RangeIgnored | autoload/generate_builtin_dicts.py:27 | A leading bracketed word after `:` does not change the token, when the text after it does not start with `[`. (`:[N][M]bnext` yields nothing.) |
| CommandLines.ExampleSuffix | autoload/generate_builtin_dicts.py:35 | `:bd[elete]` yields `bdelete`. |
| CommandLines.ExampleRange | autoload/generate_builtin_dicts.py:27 | `:[N]bnext` yields `bnext`. |
| CommandLines.ExampleBang | autoload/generate_builtin_dicts.py:27 | `:[N]bdelete[!]` yields `bdelete`, because `[!]` is not a bracketed word. |
| FunctionLines.Parse | autoload/generate_builtin_dicts.py:45 | `fun_rx.match` succeeds only on a line starting with a lower-case letter. What it captures is stated by `ParseRender` and `RenderParse`. |
| FunctionLines.ParseRender | autoload/generate_builtin_dicts.py:41 | Matching a rendered well-formed function line gives back its name, arguments and rest. |
| FunctionLines.RenderParse | autoload/generate_builtin_dicts.py:41 | Whatever the function pattern matches is well formed and renders back to the line. |
| FunctionLines.ParseNameStep | autoload/generate_builtin_dicts.py:41 | After the whole run of name characters, the match continues only if `(` follows. |
| FunctionLines.ArgsStep | autoload/generate_builtin_dicts.py:41 | After the whole run of argument characters, the match succeeds exactly when `)` follows. |
| FunctionLines.FunctionEntry | autoload/generate_builtin_dicts.py:45-48 | An entry comes only from a line starting with a lower-case letter. Which entry it is, is stated by `FunctionEntryMeaning`. |
| FunctionLines.FunctionEntryMeaning | autoload/generate_builtin_dicts.py:45-48 | A line yields entry `e` if and only if it is a well-formed function line and `e` is `function! ` + name + `(` + normalised arguments + `)`. |
| FunctionLines.EntryOfRender | autoload/generate_builtin_dicts.py:45-48 | The entry of a function line is built from its name and its normalised arguments. |
| FunctionLines.NormaliseArgs | autoload/generate_builtin_dicts.py:47 | The normalised arguments hold no brace. |
| FunctionLines.NormaliseArgsBraces | autoload/generate_builtin_dicts.py:47 | Normalised arguments hold no brace. Every other character of the stripped text, brackets and commas included, occurs in them as often as before. |
| FunctionLines.NormaliseArgsPlain | autoload/generate_builtin_dicts.py:47 | Arguments without braces are only stripped. |
| FunctionLines.NormaliseArgsOrder | autoload/generate_builtin_dicts.py:47 | Stripping comes before brace removal: `{ w}` becomes ` w`, while the other order would give `w`. |
| FunctionLines.SingleArgument | autoload/generate_builtin_dicts.py:47-48 | `name({w})` yields `function! name(w)`. |
| FunctionLines.PlainArguments | autoload/generate_builtin_dicts.py:47-48 | An argument list without braces and without whitespace at its ends is shown as it is, e.g. `add(list, item)`. |
| FunctionLines.NoOpenParen | autoload/generate_builtin_dicts.py:45-46 | A name not followed by `(` yields nothing. |
| FunctionLines.NoCloseParen | autoload/generate_builtin_dicts.py:45-46 | An argument list cut short by a character outside its class, other than `)`, yields nothing. |
| FunctionLines.FunctionEntryShape | autoload/generate_builtin_dicts.py:47-48 | An entry starts with `function! `, ends with `)`, and holds no line break and no brace. |
| DictFile.WriteList | autoload/generate_builtin_dicts.py:9 | The text written, `'\n'.join` of the entries plus `'\n'`, always ends with a line break. |
| DictFile.ReadWriteList | autoload/generate_builtin_dicts.py:7-9 | Reading back the text of a non-empty list of one-line entries gives each entry, in order, on a line of its own. |
| DictFile.WriteEmpty | autoload/generate_builtin_dicts.py:7-9 | The empty list is written as a single line break, which reads back as one empty line. |
| DictFile.LineBreaks | autoload/generate_builtin_dicts.py:7-9 | The text holds one line break per one-line entry, and exactly one when the list is empty. |
| DictFile.ReadLines | autoload/generate_builtin_dicts.py:21 | An empty file has no lines, and any other file has at least one. |
| DictFile.ConcatReadLines | autoload/generate_builtin_dicts.py:20-21 | The lines that `readlines` returns, put back together, are the file's text. |
| DictFile.ReadLinesShape | autoload/generate_builtin_dicts.py:20-21 | Every line read is non-empty, and a line break can occur only at its end. |
| DictFile.ReadLinesBreaks | autoload/generate_builtin_dicts.py:21 | Every line read but the last ends with a line break, and the last one does exactly when the file's text does. |
| Generate.StartsWithAny | autoload/generate_builtin_dicts.py:15 | A name is passed over exactly when one of the ignored prefixes is a prefix of it. |
| Generate.DirLines | autoload/generate_builtin_dicts.py:12-22 | When no entry is selected, no line is collected. Which lines are collected is stated by `DirLinesMember` and `DirLinesText`. |
| Generate.LinesInDir | autoload/generate_builtin_dicts.py:12-22 | The loop collects the lines of the selected entries in listing order. Selected means a regular file with no ignored prefix. |
| Generate.DirLinesText | autoload/generate_builtin_dicts.py:13-21 | The collected lines, put together, are the texts of the selected entries, one after the other in listing order. |
| Generate.DirLinesMember | autoload/generate_builtin_dicts.py:14-21 | A line is collected exactly when it is a line of some selected entry. |
| Generate.CommandIgnoreExamples | autoload/generate_builtin_dicts.py:29 | `os_unix.txt`, `tags` and non-regular entries are passed over for the command scan; `eval.txt` is read. |
| Generate.CollectCommands | autoload/generate_builtin_dicts.py:28-37 | The loop gathers exactly the tokens of the lines. |
| Generate.CollectFunctions | autoload/generate_builtin_dicts.py:42-48 | The loop gathers exactly the entries of the lines. |
| Generate.Harvest | autoload/generate_builtin_dicts.py:30-37 | A scan gathers at most one entry per line, for commands here and for functions on lines 44-48. Which entries it gathers is stated by `HarvestMember`. |
| Generate.HarvestMember | autoload/generate_builtin_dicts.py:30-37 | An entry is in the set exactly when some line yields it. Lines that yield nothing add nothing, and repeats collapse. |
| Generate.CommandSetMember | autoload/generate_builtin_dicts.py:28-37 | A command is gathered exactly when it is the token of some line of some selected help file. |
| Generate.HarvestSingleLine | autoload/generate_builtin_dicts.py:35 | No gathered command or function entry holds a line break, so each fills one line of its dictionary. |
| Generate.Enumerate | autoload/generate_builtin_dicts.py:9 | Iterating a set lists each element exactly once, with as many items as the set has elements. |
| Generate.WriteSet | autoload/generate_builtin_dicts.py:7-9 | The text written for a set is `WriteList` of some ordering of it. |
| Generate.DictionaryLines | autoload/generate_builtin_dicts.py:7-9 | A written non-empty set of one-line entries reads back as one line per element. Each line is an element plus a line break, and every element is on one of them. |
| Generate.EmptyDictionary | autoload/generate_builtin_dicts.py:7-9 | An empty set is written as a single line break. |
| Generate.FindEntry | autoload/generate_builtin_dicts.py:43 | Looking up `eval.txt` finds a listing entry with that name, or there is none. |
| Generate.FindDistinct | autoload/generate_builtin_dicts.py:43 | In a listing whose names are distinct, looking up an entry's name finds exactly that entry. |
| Generate.EvalLines | autoload/generate_builtin_dicts.py:43-44 | `eval.txt` yields lines only when the listing holds a regular file of that name, and then they are the lines of its text. A listing without `eval.txt` yields none. In a listing with distinct names, a regular file `eval.txt` is always read, and its lines are the result. |
| Generate.Run | autoload/generate_builtin_dicts.py:25-49 | The command dictionary lists the tokens of the selected help files. The function dictionary is written exactly when `EvalLines` reads `eval.txt`; in a listing with distinct names, that is exactly when the listing holds a regular file `eval.txt`. It lists the entries of those lines. |

## Left out

- File-system access is not modelled. `os.listdir`, `os.path.isfile`,
  `os.path.join`, `open`, `readlines` and the file writes are replaced by a
  listing of entries with their texts, and by returned strings. Failures
  other than a missing `eval.txt` are out of scope, such as an unreadable
  file or a failed write.
- The command-line handling is not modelled (lines 52-64): `usage_quit`,
  the argument and directory checks, printing to standard error, and the
  exit status.
- `\w` and `strip()` are ASCII only. `\w` is read as ASCII letters, digits
  and `_`. `strip()` cuts the space and the controls from tab to carriage
  return. These are exactly Python 2's sets for byte strings, which the
  `__future__` import of line 1 points to. Python 3 differs in two ways:
  - Its `strip()` also cuts `\x1c` to `\x1f` and Unicode whitespace. This
    changes no result, because the argument class of line 41 admits no
    whitespace but the space.
  - Its `\w` takes Unicode word characters. This does change command
    tokens on lines with non-ASCII word characters. Under Python 3,
    `:café` yields `café`, where the model yields `caf`. And `:[é]bnext`
    yields `bnext`, where the model yields no token, because `[é]` is not
    an ASCII bracketed word.
- Generate.EvalLines: an `eval.txt` that is neither a regular file nor a
  directory, such as a FIFO or a device, would open on line 43. The model
  treats every entry that is not a regular file as missing.
- Line breaks are `\n` only. Texts are taken to use `\n`, as Python's
  universal-newline reading would give. `\r\n` translation and text
  decoding are not modelled.
- The `except IndexError` branch (lines 36-37) is not modelled. The `word`
  group always exists when the pattern matches, so the branch is dead.
- The order in which a set is iterated is left open, as noted above.
