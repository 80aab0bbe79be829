/** An append to the chat log that was cut off. The line end is written last, so some beginning of the line is
    left in the file of the day. */
module TornLog {
  import opened Lexicographic
  import opened Text
  import opened ChatLog

  /** A beginning of a line, neither empty nor all of it. */
  predicate Begins(p: string, line: string) { p != "" && p < line }

  /** What the grammar of JSON says of an object: it ends where its last brace closes it, so no beginning of
      one is one, nor is one with another behind it. */
  ghost predicate Delimited(c: Codec)
  {
    (forall e, p :: Begins(p, c.encode(e)) ==> c.decode(p).None? && !Blank(p)) &&
    forall e, d :: c.decode(c.encode(e) + c.encode(d)).None?
  }

  /** The files when `p` of the line of `e` was written: none of it still makes the file. */
  function Torn(files: map<string, string>, e: Entry, p: string): map<string, string>
    requires Dated(e)
  {
    files[FileOf(e) := TextOf(files, FileOf(e)) + p]
  }

  /** A log that reads back: ids in a row, and days that are files and never go back. */
  ghost predicate Orderly(entries: seq<Entry>)
  {
    AllDated(entries) && Consecutive(entries) && NeverBack(entries) && AllListed(entries)
  }

  function Rest(p: string): seq<string> { if p == "" then [] else [p] }

  lemma {:induction false} OpenLine(line: string, rest: string)
    requires '\n' !in rest
    ensures LinesFrom(line, rest) == Rest(line + rest)
    decreases |rest|
  {
    if rest == "" {
      assert line + rest == line;
    } else {
      assert rest[0] in rest;
      OpenLine(line + [rest[0]], rest[1..]);
      assert line + [rest[0]] + rest[1..] == line + rest;
    }
  }

  /** An unfinished line is read as a line all the same. */
  lemma {:induction false} TornLines(text: string, p: string)
    requires WholeLines(text) && '\n' !in p && (p != "" ==> !Blank(p))
    ensures NotBlank(Lines(text + p)) == NotBlank(Lines(text)) + Rest(p)
  {
    LinesSplit("", text, p);
    OpenLine("", p);
    assert "" + p == p;
    if p == "" {
      assert Lines(text) + [] == Lines(text);
    } else {
      NotBlankAppend(Lines(text), p);
    }
  }

  lemma {:induction false} LastOf(names: seq<string>, name: string)
    requires Increasing(names) && name in names && forall x :: x in names ==> Leq(x, name)
    ensures names[|names| - 1] == name
  {
    var k :| 0 <= k < |names| && names[k] == name;
    if k < |names| - 1 {
      assert Less(names[k], names[|names| - 1]);
      Antisymmetric(names[|names| - 1], name);
    }
  }

  lemma {:induction false} SameCollected(files: map<string, string>, files': map<string, string>, names: seq<string>)
    requires forall k :: 0 <= k < |names| ==> names[k] in files && names[k] in files' && files[names[k]] == files'[names[k]]
    ensures CollectedLines(files, names) == CollectedLines(files', names)
  {
    if names != [] { SameCollected(files, files', names[..|names| - 1]); }
  }

  /** The file of the latest entry is the last one read. */
  lemma {:induction false} LatestIsLast(c: Codec, files: map<string, string>, entries: seq<Entry>, names: seq<string>)
    requires Holds(c, files, entries) && SortedNames(files, names) && entries != []
    requires Orderly(entries)
    ensures names != [] && names[|names| - 1] == FileOf(entries[|entries| - 1])
  {
    var last := |entries| - 1;
    var name := FileOf(entries[last]);
    OfMembers(entries, name, entries[last]);
    assert name in names;
    forall x | x in names
      ensures Leq(x, name)
    {
      var e := Of(entries, x)[0];
      OfMembers(entries, x, e);
      var k :| 0 <= k < |entries| && entries[k] == e;
      Reflexive(name);
    }
    LastOf(names, name);
  }

  /** All lines of a log in order, the last of them by itself. */
  lemma {:induction false} WholeLog(c: Codec, files: map<string, string>, entries: seq<Entry>, names: seq<string>)
    requires Holds(c, files, entries) && SortedNames(files, names) && Orderly(entries)
    ensures CollectedLines(files, names) == Encoded(c, entries)
  {
    LinesOfFiles(c, files, entries, names);
    FilesOfEntries(c, files, entries, names);
    GatheredExactly(entries, names);
    WholeFront(entries);
  }

  /** What is read before the last line: the lines of all earlier entries. */
  lemma {:induction false} BeforeLast(c: Codec, whole: map<string, string>, entries: seq<Entry>, e: Entry, text: string,
                                      names: seq<string>)
    requires Dated(e) && Holds(c, whole, entries + [e]) && Orderly(entries + [e]) && SortedNames(whole, names)
    requires FileOf(e) in whole && NotBlank(Lines(whole[FileOf(e)])) == NotBlank(Lines(text)) + [c.encode(e)]
    ensures names != [] && names[|names| - 1] == FileOf(e) && InFiles(whole, names) && InFiles(whole, names[..|names| - 1])
    ensures CollectedLines(whole, names[..|names| - 1]) + NotBlank(Lines(text)) == Encoded(c, entries)
  {
    NamesAreFiles(whole, names);
    LatestIsLast(c, whole, entries + [e], names);
    WholeLog(c, whole, entries + [e], names);
    var before := CollectedLines(whole, names[..|names| - 1]);
    assert CollectedLines(whole, names) == before + NotBlank(Lines(text)) + [c.encode(e)];
    EncodedConcat(c, entries, [e]);
    Fronts(before + NotBlank(Lines(text)), Encoded(c, entries), c.encode(e));
  }

  ghost predicate InFiles(files: map<string, string>, names: seq<string>)
  {
    forall k :: 0 <= k < |names| ==> names[k] in files
  }

  lemma {:induction false} NamesAreFiles(files: map<string, string>, names: seq<string>)
    requires SortedNames(files, names)
    ensures InFiles(files, names) && (names != [] ==> InFiles(files, names[..|names| - 1]))
  {
    assert forall k :: 0 <= k < |names| ==> names[k] in names;
  }

  lemma {:induction false} Fronts(a: seq<string>, b: seq<string>, last: string)
    requires a + [last] == b + [last]
    ensures a == b
  {
    assert a == (a + [last])[..|a|] && b == (b + [last])[..|b|];
  }

  lemma {:induction false} WholeBefore(c: Codec, files: map<string, string>, entries: seq<Entry>, e: Entry,
                                       names: seq<string>)
    requires c.Faithful() && Holds(c, files, entries) && Dated(e) && Orderly(entries + [e])
    requires SortedNames(Appended(c, files, e), names)
    ensures names != [] && names[|names| - 1] == FileOf(e) && FileOf(e) !in names[..|names| - 1]
    ensures InFiles(Appended(c, files, e), names) && InFiles(Appended(c, files, e), names[..|names| - 1])
    ensures CollectedLines(Appended(c, files, e), names[..|names| - 1]) + NotBlank(Lines(TextOf(files, FileOf(e)))) ==
            Encoded(c, entries)
  {
    HoldsMore(c, files, entries, e);
    WholeText(c, files, entries, e);
    BeforeLast(c, Appended(c, files, e), entries, e, TextOf(files, FileOf(e)), names);
    LastIsNew(names);
  }

  /** Whatever lines the file of the latest entry is given, they come behind all earlier entries. */
  lemma {:induction false} WrittenLast(c: Codec, files: map<string, string>, entries: seq<Entry>, e: Entry, p: string,
                                       more: seq<string>, names: seq<string>)
    requires c.Faithful() && Holds(c, files, entries) && Dated(e) && Orderly(entries + [e])
    requires NotBlank(Lines(TextOf(files, FileOf(e)) + p)) == NotBlank(Lines(TextOf(files, FileOf(e)))) + more
    requires SortedNames(Torn(files, e, p), names)
    ensures CollectedLines(Torn(files, e, p), names) == Encoded(c, entries) + more
  {
    var lines := NotBlank(Lines(TextOf(files, FileOf(e))));
    SameNames(Torn(files, e, p), Appended(c, files, e), names);
    WholeBefore(c, files, entries, e, names);
    LastDiffers(Appended(c, files, e), Torn(files, e, p), names, FileOf(e), lines, more);
  }

  lemma {:induction false} SameNames(files: map<string, string>, files': map<string, string>, names: seq<string>)
    requires files.Keys == files'.Keys && SortedNames(files, names)
    ensures SortedNames(files', names)
  {
  }

  lemma {:induction false} LastDiffers(files: map<string, string>, files': map<string, string>, names: seq<string>,
                                       name: string, lines: seq<string>, more: seq<string>)
    requires InFiles(files, names) && names != [] && names[|names| - 1] == name && name !in names[..|names| - 1]
    requires files.Keys == files'.Keys && (forall x :: x in files && x != name ==> files'[x] == files[x])
    requires NotBlank(Lines(files'[name])) == lines + more
    ensures CollectedLines(files', names) == CollectedLines(files, names[..|names| - 1]) + lines + more
  {
    var front := names[..|names| - 1];
    forall k | 0 <= k < |front|
      ensures front[k] in files && front[k] in files' && files[front[k]] == files'[front[k]]
    {
      assert front[k] in front && names[k] in files;
    }
    SameCollected(files, files', front);
  }

  lemma {:induction false} WholeText(c: Codec, files: map<string, string>, entries: seq<Entry>, e: Entry)
    requires c.Faithful() && Holds(c, files, entries) && Dated(e)
    ensures var text := TextOf(files, FileOf(e));
            WholeLines(text) && NotBlank(Lines(text + (c.encode(e) + "\n"))) == NotBlank(Lines(text)) + [c.encode(e)]
  {
    assert c.decode(c.encode(e)) == Some(e);
    AppendedLine(TextOf(files, FileOf(e)), c.encode(e));
    NotBlankAppend(Lines(TextOf(files, FileOf(e))), c.encode(e));
  }

  lemma {:induction false} EarlierInRow(entries: seq<Entry>, e: Entry)
    requires Consecutive(entries + [e])
    ensures Consecutive(entries)
  {
    assert forall k :: 0 <= k < |entries| ==> (entries + [e])[k] == entries[k];
  }

  /** What is read when a last line does not decode. */
  lemma {:induction false} RefusedAtLast(c: Codec, entries: seq<Entry>, line: string, r: Answer)
    requires c.Faithful() && Consecutive(entries) && c.decode(line).None?
    requires ReadsAs(c, Encoded(c, entries) + [line], r)
    ensures r == Err(|entries|)
  {
    var lines := Encoded(c, entries) + [line];
    InPlaceIffConsecutive(c, entries);
    assert forall k :: 0 <= k < |entries| ==> lines[k] == Encoded(c, entries)[k];
    assert !Belongs(c, lines[|entries|], |entries|);
  }

  lemma {:induction false} UnfinishedLine(c: Codec, files: map<string, string>, entries: seq<Entry>, e: Entry,
                                          p: string, names: seq<string>)
    requires c.Faithful() && Delimited(c) && Holds(c, files, entries) && Dated(e) && p <= c.encode(e)
    requires Orderly(entries + [e]) && SortedNames(Torn(files, e, p), names)
    ensures CollectedLines(Torn(files, e, p), names) == Encoded(c, entries) + Rest(p)
  {
    assert c.decode(c.encode(e)) == Some(e) && '\n' !in p;
    assert p != "" && p != c.encode(e) ==> Begins(p, c.encode(e));
    WholeText(c, files, entries, e);
    TornLines(TextOf(files, FileOf(e)), p);
    WrittenLast(c, files, entries, e, p, Rest(p), names);
  }

  /** A log whose last append was cut off is never misread. It reads as before when nothing was written, as if
      appended when all but the line end was, and otherwise is refused at that very line. */
  lemma {:induction false} TornReads(c: Codec, files: map<string, string>, entries: seq<Entry>, e: Entry, p: string,
                                     names: seq<string>, r: Answer)
    requires c.Faithful() && Delimited(c) && Holds(c, files, entries) && Dated(e) && p <= c.encode(e)
    requires Orderly(entries + [e])
    requires SortedNames(Torn(files, e, p), names) && ReadsAs(c, CollectedLines(Torn(files, e, p), names), r)
    ensures r == if p == "" then Ok(entries) else if p == c.encode(e) then Ok(entries + [e]) else Err(|entries|)
  {
    UnfinishedLine(c, files, entries, e, p, names);
    TornAnswer(c, entries, e, p, r);
  }

  lemma {:induction false} TornAnswer(c: Codec, entries: seq<Entry>, e: Entry, p: string, r: Answer)
    requires c.Faithful() && Delimited(c) && p <= c.encode(e) && Consecutive(entries + [e])
    requires ReadsAs(c, Encoded(c, entries) + Rest(p), r)
    ensures r == if p == "" then Ok(entries) else if p == c.encode(e) then Ok(entries + [e]) else Err(|entries|)
  {
    EarlierInRow(entries, e);
    if p == "" {
      assert Encoded(c, entries) + [] == Encoded(c, entries);
      AnswerOfEncoded(c, entries, r);
    } else if p == c.encode(e) {
      assert Encoded(c, entries + [e]) == Encoded(c, entries) + [c.encode(e)];
      AnswerOfEncoded(c, entries + [e], r);
    } else {
      assert Begins(p, c.encode(e));
      RefusedAtLast(c, entries, p, r);
    }
  }

  lemma {:induction false} GluedLine(c: Codec, text: string, e: Entry, d: Entry)
    requires c.Faithful() && WholeLines(text)
    ensures var glued := c.encode(e) + c.encode(d);
            NotBlank(Lines(text + (glued + "\n"))) == NotBlank(Lines(text)) + [glued]
  {
    var glued := c.encode(e) + c.encode(d);
    assert c.decode(c.encode(e)) == Some(e) && c.decode(c.encode(d)) == Some(d);
    var k :| 0 <= k < |c.encode(e)| && !Whitespace(c.encode(e)[k]);
    assert glued[k] == c.encode(e)[k];
    AppendedLine(text, glued);
    NotBlankAppend(Lines(text), glued);
  }

  lemma {:induction false} GluedFile(c: Codec, files: map<string, string>, e: Entry, d: Entry)
    requires Dated(e) && Dated(d) && FileOf(d) == FileOf(e)
    ensures Appended(c, Torn(files, e, c.encode(e)), d) == Torn(files, e, c.encode(e) + c.encode(d) + "\n")
  {
    var text := TextOf(files, FileOf(e));
    assert text + c.encode(e) + (c.encode(d) + "\n") == text + (c.encode(e) + c.encode(d) + "\n");
  }

  lemma {:induction false} GluedLines(c: Codec, files: map<string, string>, entries: seq<Entry>, e: Entry, d: Entry,
                                      names: seq<string>)
    requires c.Faithful() && Holds(c, files, entries) && Dated(e) && Dated(d) && FileOf(d) == FileOf(e)
    requires Orderly(entries + [e]) && SortedNames(Appended(c, Torn(files, e, c.encode(e)), d), names)
    ensures CollectedLines(Appended(c, Torn(files, e, c.encode(e)), d), names) ==
            Encoded(c, entries) + [c.encode(e) + c.encode(d)]
  {
    var glued := c.encode(e) + c.encode(d);
    GluedFile(c, files, e, d);
    WholeText(c, files, entries, e);
    GluedLine(c, TextOf(files, FileOf(e)), e, d);
    WrittenLast(c, files, entries, e, glued + "\n", [glued], names);
  }

  /** A line without its end cannot be added to: the next message of the day is appended without an error, and
      the log is refused from then on, at the message that lacked its end. */
  lemma {:induction false} AppendedAfterTear(c: Codec, files: map<string, string>, entries: seq<Entry>, e: Entry,
                                             d: Entry, names: seq<string>, r: Answer)
    requires c.Faithful() && Delimited(c) && Holds(c, files, entries) && Dated(e) && Dated(d) && FileOf(d) == FileOf(e)
    requires Orderly(entries + [e]) && SortedNames(Appended(c, Torn(files, e, c.encode(e)), d), names)
    requires ReadsAs(c, CollectedLines(Appended(c, Torn(files, e, c.encode(e)), d), names), r)
    ensures r == Err(|entries|)
  {
    GluedLines(c, files, entries, e, d, names);
    EarlierInRow(entries, e);
    RefusedAtLast(c, entries, c.encode(e) + c.encode(d), r);
  }

  /** An append of which nothing was written can be made again. */
  lemma {:induction false} NothingIsTorn(c: Codec, files: map<string, string>, e: Entry)
    requires Dated(e)
    ensures Appended(c, Torn(files, e, ""), e) == Appended(c, files, e)
  {
    assert TextOf(files, FileOf(e)) + "" == TextOf(files, FileOf(e));
  }
}
