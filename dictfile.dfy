/**
 * Dictionary files and help files as text. A dictionary is written as its
 * entries joined by line breaks with one more line break at the end; a help
 * file is read as a list of lines, each keeping its line break.
 */
module DictFile {
  import opened Text

  /** The entries separated by line breaks */
  function Join(entries: seq<string>): string {
    if entries == [] then []
    else if |entries| == 1 then entries[0]
    else entries[0] + ("\n" + Join(entries[1..]))
  }

  /** The text of a dictionary file: the joined entries and a final line break */
  function WriteList(entries: seq<string>): (r: string)
    ensures r != [] && r[|r| - 1] == '\n'
  {
    Join(entries) + "\n"
  }

  /** The lines of a text, each with its line break; only the last may lack one */
  function ReadLines(text: string): (r: seq<string>)
    ensures r == [] <==> text == []
    decreases |text|
  {
    if text == [] then []
    else
      var n := Span(text, LineChar);
      if n == |text| then [text]
      else [text[..n + 1]] + ReadLines(text[n + 1..])
  }

  /** Each entry followed by a line break */
  function Terminated(entries: seq<string>): seq<string> {
    if entries == [] then [] else [entries[0] + "\n"] + Terminated(entries[1..])
  }

  /** The lines concatenated back together */
  function Concat(lines: seq<string>): string {
    if lines == [] then [] else lines[0] + Concat(lines[1..])
  }

  /** No entry holds a line break */
  predicate SingleLine(entries: seq<string>) {
    forall i :: 0 <= i < |entries| ==> All(entries[i], LineChar)
  }

  /* ---- Reading a dictionary back ---- */

  /**
   * Reading back a dictionary of one-line entries gives each entry, in
   * order, on a line of its own.
   */
  lemma {:induction false} ReadWriteList(entries: seq<string>)
    requires entries != [] && SingleLine(entries)
    ensures ReadLines(WriteList(entries)) == Terminated(entries)
  {
    var e := entries[0];
    var tail := entries[1..];
    assert All(e, LineChar);
    if |entries| == 1 {
      assert WriteList(entries) == e + ("\n" + []);
      ReadEntryLine(e, []);
      assert ReadLines([]) == [];
      assert Terminated(entries) == [e + "\n"];
    } else {
      assert SingleLine(tail) by {
        assert forall i :: 0 <= i < |tail| ==> tail[i] == entries[i + 1];
      }
      WriteListCons(entries);
      ReadEntryLine(e, WriteList(tail));
      ReadWriteList(tail);
    }
  }

  /** A dictionary of several entries is the first entry's line followed by the rest's dictionary */
  lemma WriteListCons(entries: seq<string>)
    requires |entries| >= 2
    ensures WriteList(entries) == entries[0] + ("\n" + WriteList(entries[1..]))
  {
  }

  /** Reading a one-line entry and its line break splits off exactly that line */
  lemma ReadEntryLine(e: string, more: string)
    requires All(e, LineChar)
    ensures ReadLines(e + ("\n" + more)) == [e + "\n"] + ReadLines(more)
  {
    var text := e + ("\n" + more);
    SpanOfRun(e, "\n" + more, LineChar);
    assert text[..|e| + 1] == e + "\n";
    assert text[|e| + 1..] == more;
  }

  /** The empty dictionary is a single empty line */
  lemma WriteEmpty()
    ensures WriteList([]) == "\n"
    ensures ReadLines(WriteList([])) == ["\n"]
  {
    ReadEntryLine([], []);
    assert [] + ("\n" + []) == "\n";
  }

  /** A dictionary of one-line entries has one line break per entry, and one when empty */
  lemma {:induction false} LineBreaks(entries: seq<string>)
    requires SingleLine(entries)
    ensures multiset(WriteList(entries))['\n'] == if entries == [] then 1 else |entries|
  {
    if entries != [] {
      if |entries| == 1 {
        NoBreakCount(entries[0]);
      } else {
        var tail := entries[1..];
        assert SingleLine(tail) by {
          assert forall i :: 0 <= i < |tail| ==> tail[i] == entries[i + 1];
        }
        WriteListCons(entries);
        NoBreakCount(entries[0]);
        LineBreaks(tail);
      }
    }
  }

  /** A one-line text holds no line break */
  lemma NoBreakCount(e: string)
    requires All(e, LineChar)
    ensures multiset(e)['\n'] == 0
  {
    assert '\n' !in e;
  }

  /* ---- Reading a file ---- */

  /** The lines of a text put back together are the text */
  lemma {:induction false} ConcatReadLines(text: string)
    ensures Concat(ReadLines(text)) == text
    decreases |text|
  {
    if text != [] {
      var n := Span(text, LineChar);
      if n < |text| {
        ConcatReadLines(text[n + 1..]);
        assert text == text[..n + 1] + text[n + 1..];
      }
    }
  }

  /** A line as `readlines` returns it: non-empty, with a line break at most at its end */
  predicate IsLine(l: string) {
    l != [] && All(l[..|l| - 1], LineChar)
  }

  /** Every line read is non-empty and holds a line break only at its end */
  lemma {:induction false} ReadLinesShape(text: string)
    ensures forall l :: l in ReadLines(text) ==> IsLine(l)
    decreases |text|
  {
    if text != [] {
      var n := Span(text, LineChar);
      if n < |text| {
        FirstLine(text);
        ReadLinesShape(text[n + 1..]);
      } else {
        AllSlice(text, 0, n - 1, LineChar);
      }
    }
  }

  /** A line that ends with a line break */
  predicate Broken(l: string) {
    l != [] && l[|l| - 1] == '\n'
  }

  /** Every line but the last is broken, and the last is exactly when `text` is */
  predicate LinesBroken(ls: seq<string>, text: string) {
    (forall i :: 0 <= i < |ls| - 1 ==> Broken(ls[i])) &&
    (ls != [] ==> (Broken(ls[|ls| - 1]) <==> Broken(text)))
  }

  /**
   * Every line read but the last ends with a line break, and the last one
   * does exactly when the text does.
   */
  lemma {:induction false} ReadLinesBreaks(text: string)
    ensures LinesBroken(ReadLines(text), text)
    decreases |text|
  {
    if text != [] {
      var n := Span(text, LineChar);
      if n < |text| {
        var rest := text[n + 1..];
        ReadLinesBreaks(rest);
        ReadLinesStep(text);
        BreakStep(text, n, ReadLines(rest));
      }
    }
  }

  /** A text with a line break is read as its first line, then the lines after it */
  lemma ReadLinesStep(text: string)
    requires Span(text, LineChar) < |text|
    ensures var n := Span(text, LineChar);
            ReadLines(text) == [text[..n + 1]] + ReadLines(text[n + 1..])
  {
  }

  /** A broken first line put before the lines of the rest keeps the claim */
  lemma BreakStep(text: string, n: nat, tail: seq<string>)
    requires n < |text| && text[n] == '\n'
    requires LinesBroken(tail, text[n + 1..])
    requires text[n + 1..] == [] <==> tail == []
    ensures LinesBroken([text[..n + 1]] + tail, text)
  {
    var ls := [text[..n + 1]] + tail;
    assert Broken(ls[0]);
    forall i | 1 <= i < |ls| - 1
      ensures Broken(ls[i])
    {
      assert ls[i] == tail[i - 1];
    }
    if tail != [] {
      assert ls[|ls| - 1] == tail[|tail| - 1];
      assert text[|text| - 1] == text[n + 1..][|text| - n - 2];
    }
  }

  /** The first line of a text with a line break runs up to and including it */
  lemma FirstLine(text: string)
    requires Span(text, LineChar) < |text|
    ensures IsLine(text[..Span(text, LineChar) + 1])
  {
    var n := Span(text, LineChar);
    assert text[..n + 1][..n] == text[..n];
  }
}
