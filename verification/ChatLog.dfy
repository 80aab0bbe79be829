/** The chat log: a directory of day files with one line for each message, read back in the order of their
    names. A directory is modelled by the texts of its files. */
module ChatLog {
  import opened Lexicographic
  import opened Text
  import Timestamp

  datatype Option<T> = None | Some(value: T)

  /** A message: `body` stands for its kind, text and size. */
  datatype Entry = Entry(i: nat, date: string, body: string)

  /** How an entry is written as one line of JSON and read back. */
  datatype Codec = Codec(encode: Entry -> string, decode: string -> Option<Entry>)
  {
    ghost predicate Faithful()
    {
      forall e :: decode(encode(e)) == Some(e) && OneLine(encode(e)) && !Blank(encode(e))
    }
  }

  predicate OneLine(s: string) { '\n' !in s && '\r' !in s }

  // ---- Days and files ----

  /** What stands before the first `T`. */
  function Day(date: string): Option<string>
  {
    if date == "" then None
    else if date[0] == 'T' then Some("")
    else
      var rest := Day(date[1..]);
      if rest.None? then None else Some([date[0]] + rest.value)
  }

  /** The day ends before the first `T`, and a date without one is none. */
  lemma {:induction false} DayStands(date: string)
    ensures Day(date).Some? <==> 'T' in date
    ensures Day(date).Some? ==> 'T' !in Day(date).value && Day(date).value + "T" <= date
  {
    if date != "" && date[0] != 'T' { DayStands(date[1..]); }
  }

  const EXTENSION := ".jsonl"

  predicate Dated(e: Entry) { Day(e.date).Some? }

  function FileOf(e: Entry): string
    requires Dated(e)
  {
    Day(e.date).value + EXTENSION
  }

  /** A name that is nothing but the extension has none: such a file is not read. */
  predicate Listed(name: string) { |name| > |EXTENSION| && name[|name| - |EXTENSION|..] == EXTENSION }

  lemma {:induction false} ListedNames(name: string)
    ensures Listed(name) <==> exists stem: string :: stem != "" && name == stem + ".jsonl"
  {
    if Listed(name) {
      var stem := name[..|name| - |EXTENSION|];
      assert name == stem + EXTENSION;
    }
    if stem: string :| stem != "" && name == stem + ".jsonl" { assert name[|name| - |EXTENSION|..] == EXTENSION; }
  }

  // ---- Lines ----

  function StripReturn(line: string): string
  {
    if line != "" && line[|line| - 1] == '\r' then line[..|line| - 1] else line
  }

  /** The lines of a text behind the beginning of a line; an end of line at its end opens no further one. */
  function LinesFrom(line: string, text: string): seq<string>
    decreases |text|
  {
    if text == "" then (if line == "" then [] else [line])
    else if text[0] == '\n' then [StripReturn(line)] + LinesFrom("", text[1..])
    else LinesFrom(line + [text[0]], text[1..])
  }

  function Lines(text: string): seq<string> { LinesFrom("", text) }

  function NotBlank(lines: seq<string>): seq<string>
  {
    if lines == [] then [] else (if Blank(lines[0]) then [] else [lines[0]]) + NotBlank(lines[1..])
  }

  /** A text that was only ever appended whole lines to. */
  predicate WholeLines(text: string) { text == "" || text[|text| - 1] == '\n' }

  lemma {:induction false} LinesOfOne(line: string, rest: string)
    requires '\n' !in rest
    ensures LinesFrom(line, rest + "\n") == [StripReturn(line + rest)]
    decreases |rest|
  {
    if rest == "" {
      assert line + rest == line && rest + "\n" == "\n";
    } else {
      assert (rest + "\n")[1..] == rest[1..] + "\n" && rest[0] in rest;
      LinesOfOne(line + [rest[0]], rest[1..]);
      assert line + [rest[0]] + rest[1..] == line + rest;
    }
  }

  /** Whole lines do not see what comes behind them. */
  lemma {:induction false} LinesSplit(line: string, text: string, tail: string)
    requires WholeLines(text) && (text == "" ==> line == "")
    ensures LinesFrom(line, text + tail) == LinesFrom(line, text) + Lines(tail)
    decreases |text|
  {
    if text == "" {
      assert text + tail == tail;
    } else {
      assert (text + tail)[1..] == text[1..] + tail;
      if text[0] == '\n' {
        LinesSplit("", text[1..], tail);
      } else {
        LinesSplit(line + [text[0]], text[1..], tail);
      }
    }
  }

  /** A line appended to a text of whole lines is one more line. */
  lemma {:induction false} AppendedLine(text: string, line: string)
    requires WholeLines(text) && OneLine(line)
    ensures WholeLines(text + (line + "\n")) && Lines(text + (line + "\n")) == Lines(text) + [line]
  {
    LinesOfOne("", line);
    assert "" + line == line && (line != "" ==> line[|line| - 1] in line);
    LinesSplit("", text, line + "\n");
  }

  lemma {:induction false} NotBlankConcat(a: seq<string>, b: seq<string>)
    ensures NotBlank(a + b) == NotBlank(a) + NotBlank(b)
  {
    if a == [] {
      assert a + b == b;
    } else {
      assert (a + b)[1..] == a[1..] + b;
      NotBlankConcat(a[1..], b);
    }
  }

  lemma {:induction false} NotBlankAppend(a: seq<string>, line: string)
    ensures NotBlank(a + [line]) == NotBlank(a) + if Blank(line) then [] else [line]
  {
    NotBlankConcat(a, [line]);
    assert [line][1..] == [];
  }

  /** Lines that are nothing but white space are skipped, the others stay in their order. */
  lemma {:induction false} BlankIsSkipped(a: seq<string>, line: string, b: seq<string>)
    ensures var kept := if exists k :: 0 <= k < |line| && !Whitespace(line[k]) then [line] else [];
            NotBlank(a + ([line] + b)) == NotBlank(a) + (kept + NotBlank(b))
  {
    NotBlankConcat(a, [line] + b);
    assert ([line] + b)[1..] == b;
  }

  /** Lines with their ends: each closed by a line feed, with or without a carriage return before it. */
  function Closed(lines: seq<string>, withReturn: seq<bool>): string
    requires |withReturn| == |lines|
  {
    if lines == [] then ""
    else lines[0] + (if withReturn[0] then "\r\n" else "\n") + Closed(lines[1..], withReturn[1..])
  }

  lemma {:induction false} OpenLine(line: string, rest: string)
    requires '\n' !in rest
    ensures LinesFrom(line, rest) == if line + rest == "" then [] else [line + rest]
    decreases |rest|
  {
    if rest == "" {
      assert line + rest == line;
    } else {
      OpenLine(line + [rest[0]], rest[1..]);
      assert line + [rest[0]] + rest[1..] == line + rest;
    }
  }

  lemma {:induction false} ClosedLine(line: string, withReturn: bool, tail: string)
    requires OneLine(line)
    ensures Lines(line + (if withReturn then "\r\n" else "\n") + tail) == [line] + Lines(tail)
  {
    var closed := line + if withReturn then "\r" else "";
    assert line != "" ==> line[|line| - 1] in line;
    assert "" + closed == closed && StripReturn(closed) == line;
    LinesOfOne("", closed);
    LinesSplit("", closed + "\n", tail);
    assert line + (if withReturn then "\r\n" else "\n") == closed + "\n";
  }

  /** Lines read back from a text, the last one closed or not. */
  lemma {:induction false} LinesReadBack(lines: seq<string>, withReturn: seq<bool>, rest: string)
    requires |withReturn| == |lines| && '\n' !in rest && forall k :: 0 <= k < |lines| ==> OneLine(lines[k])
    ensures Lines(Closed(lines, withReturn) + rest) == lines + if rest == "" then [] else [rest]
  {
    if lines == [] {
      OpenLine("", rest);
      assert "" + rest == rest;
    } else {
      var head := lines[0] + if withReturn[0] then "\r\n" else "\n";
      var tail := Closed(lines[1..], withReturn[1..]);
      LinesReadBack(lines[1..], withReturn[1..], rest);
      ClosedLine(lines[0], withReturn[0], tail + rest);
      assert Closed(lines, withReturn) + rest == head + (tail + rest);
      assert lines == [lines[0]] + lines[1..];
    }
  }

  // ---- What a directory holds ----

  /** The entries whose day's file has the name, in order. */
  function Of(entries: seq<Entry>, name: string): seq<Entry>
    requires forall k :: 0 <= k < |entries| ==> Dated(entries[k])
  {
    if entries == [] then []
    else
      var last := entries[|entries| - 1];
      Of(entries[..|entries| - 1], name) + if FileOf(last) == name then [last] else []
  }

  predicate AllDated(entries: seq<Entry>) { forall k :: 0 <= k < |entries| ==> Dated(entries[k]) }

  function Encoded(c: Codec, entries: seq<Entry>): seq<string>
  {
    seq(|entries|, k requires 0 <= k < |entries| => c.encode(entries[k]))
  }

  /** The lines of each file are those of its day's entries, and there is no other file. */
  ghost predicate Holds(c: Codec, files: map<string, string>, entries: seq<Entry>)
  {
    AllDated(entries) &&
    (forall name :: name in files <==> Of(entries, name) != []) &&
    (forall name :: name in files ==>
       WholeLines(files[name]) && NotBlank(Lines(files[name])) == Encoded(c, Of(entries, name)))
  }

  lemma {:induction false} OfMore(entries: seq<Entry>, e: Entry, name: string)
    requires AllDated(entries) && Dated(e)
    ensures AllDated(entries + [e]) && Of(entries + [e], name) == Of(entries, name) + if FileOf(e) == name then [e] else []
  {
    assert (entries + [e])[..|entries|] == entries;
  }

  /** The text of a file not written yet is empty. */
  function TextOf(files: map<string, string>, name: string): string { if name in files then files[name] else "" }

  function Appended(c: Codec, files: map<string, string>, e: Entry): map<string, string>
    requires Dated(e)
  {
    files[FileOf(e) := TextOf(files, FileOf(e)) + (c.encode(e) + "\n")]
  }

  lemma {:induction false} FileGrows(c: Codec, text: string, entries: seq<Entry>, e: Entry)
    requires c.Faithful() && WholeLines(text) && NotBlank(Lines(text)) == Encoded(c, entries)
    ensures WholeLines(text + (c.encode(e) + "\n"))
    ensures NotBlank(Lines(text + (c.encode(e) + "\n"))) == Encoded(c, entries + [e])
  {
    assert c.decode(c.encode(e)) == Some(e);
    AppendedLine(text, c.encode(e));
    NotBlankAppend(Lines(text), c.encode(e));
    assert Encoded(c, entries + [e]) == Encoded(c, entries) + [c.encode(e)];
  }

  lemma {:induction false} HoldsMore(c: Codec, files: map<string, string>, entries: seq<Entry>, e: Entry)
    requires c.Faithful() && Holds(c, files, entries) && Dated(e)
    ensures Holds(c, Appended(c, files, e), entries + [e])
  {
    var name, after := FileOf(e), Appended(c, files, e);
    assert AllDated(entries + [e]);
    forall other
      ensures other in after <==> Of(entries + [e], other) != []
      ensures other in after ==>
                WholeLines(after[other]) && NotBlank(Lines(after[other])) == Encoded(c, Of(entries + [e], other))
    {
      OfMore(entries, e, other);
      if other == name {
        assert NotBlank(Lines(TextOf(files, name))) == Encoded(c, Of(entries, name));
        FileGrows(c, TextOf(files, name), Of(entries, name), e);
      } else {
        assert Of(entries + [e], other) == Of(entries, other);
      }
    }
  }

  // ---- Reading the files in the order of their names ----

  ghost predicate SortedNames(files: map<string, string>, names: seq<string>)
  {
    Increasing(names) && forall name :: name in names <==> name in files && Listed(name)
  }

  function CollectedLines(files: map<string, string>, names: seq<string>): seq<string>
    requires forall k :: 0 <= k < |names| ==> names[k] in files
  {
    if names == [] then []
    else CollectedLines(files, names[..|names| - 1]) + NotBlank(Lines(files[names[|names| - 1]]))
  }

  function Gathered(entries: seq<Entry>, names: seq<string>): seq<Entry>
    requires AllDated(entries)
  {
    if names == [] then [] else Gathered(entries, names[..|names| - 1]) + Of(entries, names[|names| - 1])
  }

  /** Every line is a message and stands where its id says. */
  predicate InPlace(c: Codec, lines: seq<string>)
  {
    forall k :: 0 <= k < |lines| ==> Belongs(c, lines[k], k)
  }

  predicate Belongs(c: Codec, line: string, k: nat) { c.decode(line).Some? && c.decode(line).value.i == k }

  /** A refusal tells how many messages stood before the line it refuses. */
  datatype Answer = Ok(entries: seq<Entry>) | Err(at: nat)

  lemma {:induction false} TakeNone(before: seq<Entry>, entries: seq<Entry>)
    ensures before + entries[..0] == before
  {
  }

  lemma {:induction false} TakeMore(before: seq<Entry>, entries: seq<Entry>, k: nat)
    requires k < |entries|
    ensures before + entries[..k + 1] == before + entries[..k] + [entries[k]]
  {
  }

  /** All lines as entries when each is one in its place; else where the first stands that is not. */
  ghost predicate ReadsAs(c: Codec, lines: seq<string>, r: Answer)
  {
    match r
    case Ok(entries) =>
      InPlace(c, lines) && |entries| == |lines| &&
      forall k :: 0 <= k < |lines| ==> c.decode(lines[k]) == Some(entries[k])
    case Err(at) =>
      at < |lines| && !Belongs(c, lines[at], at) && forall k :: 0 <= k < at ==> Belongs(c, lines[k], k)
  }

  class Log {
    var files: map<string, string>

    constructor ()
      ensures files == map[]
    {
      files := map[];
    }

    method AppendOne(c: Codec, ghost before: seq<Entry>, e: Entry)
      requires c.Faithful() && Holds(c, files, before) && Dated(e)
      modifies this
      ensures Holds(c, files, before + [e]) && files == Appended(c, old(files), e)
    {
      HoldsMore(c, files, before, e);
      files := Appended(c, files, e);
    }

    /** Appends one after the other; a date that is not one ends it, and what was appended before stays. */
    method Append(c: Codec, ghost before: seq<Entry>, entries: seq<Entry>) returns (appended: nat, ok: bool)
      requires c.Faithful() && Holds(c, files, before)
      modifies this
      ensures appended <= |entries| && forall k :: 0 <= k < appended ==> Dated(entries[k])
      ensures ok <==> appended == |entries|
      ensures !ok ==> !Dated(entries[appended])
      ensures Holds(c, files, before + entries[..appended])
    {
      appended := 0;
      ghost var held := before;
      TakeNone(before, entries);
      while appended < |entries|
        invariant appended <= |entries| && forall k :: 0 <= k < appended ==> Dated(entries[k])
        invariant held == before + entries[..appended] && Holds(c, files, held)
      {
        if !Dated(entries[appended]) { return appended, false; }
        AppendOne(c, held, entries[appended]);
        TakeMore(before, entries, appended);
        held := held + [entries[appended]];
        appended := appended + 1;
      }
      ok := true;
    }

    method ReadLines() returns (lines: seq<string>)
      ensures exists names :: SortedNames(files, names) && lines == CollectedLines(files, names)
    {
      var sorted := Sorted(set name | name in files && Listed(name));
      lines := [];
      for k := 0 to |sorted|
        invariant forall j :: 0 <= j < |sorted| ==> sorted[j] in sorted
        invariant lines == CollectedLines(files, sorted[..k])
      {
        lines := lines + NotBlank(Lines(files[sorted[k]]));
        assert sorted[..k + 1][..k] == sorted[..k];
      }
      assert sorted[..|sorted|] == sorted;
      assert SortedNames(files, sorted);
    }

    /** The whole log: whatever was appended with consecutive ids, the exact answer to it. */
    method Read(c: Codec) returns (r: Answer)
      ensures exists names :: SortedNames(files, names) && ReadsAs(c, CollectedLines(files, names), r)
      ensures forall entries :: c.Faithful() && Holds(c, files, entries) && Consecutive(entries) ==> Exact(r, entries)
    {
      ghost var names: seq<string>;
      r, names := Parse(c);
      forall entries | c.Faithful() && Holds(c, files, entries) && Consecutive(entries)
        ensures Exact(r, entries)
      {
        ReadsBack(c, files, entries, names, r);
      }
    }

    method Parse(c: Codec) returns (r: Answer, ghost names: seq<string>)
      ensures SortedNames(files, names) && ReadsAs(c, CollectedLines(files, names), r)
    {
      var lines := ReadLines();
      names :| SortedNames(files, names) && lines == CollectedLines(files, names);
      var entries := [];
      for k := 0 to |lines|
        invariant |entries| == k
        invariant forall j :: 0 <= j < k ==> Belongs(c, lines[j], j) && c.decode(lines[j]) == Some(entries[j])
      {
        var entry := c.decode(lines[k]);
        if entry.None? || entry.value.i != |entries| {
          assert ReadsAs(c, CollectedLines(files, names), Err(k));
          return Err(k), names;
        }
        entries := entries + [entry.value];
      }
      r := Ok(entries);
      assert ReadsAs(c, CollectedLines(files, names), r);
    }
  }

  // ---- What is read back ----

  lemma {:induction false} OfMembers(entries: seq<Entry>, name: string, e: Entry)
    requires AllDated(entries)
    ensures e in Of(entries, name) <==> e in entries && FileOf(e) == name
  {
    if entries != [] {
      var n := |entries| - 1;
      OfMembers(entries[..n], name, e);
      assert entries == entries[..n] + [entries[n]];
    }
  }

  lemma {:induction false} GatheredMembers(entries: seq<Entry>, names: seq<string>, e: Entry)
    requires AllDated(entries)
    ensures e in Gathered(entries, names) <==> e in entries && FileOf(e) in names
  {
    if names != [] {
      var n := |names| - 1;
      GatheredMembers(entries, names[..n], e);
      OfMembers(entries, names[n], e);
      assert names == names[..n] + [names[n]];
    }
  }

  lemma {:induction false} GatheredSorted(entries: seq<Entry>, names: seq<string>, i: nat, j: nat)
    requires AllDated(entries) && Increasing(names) && i < j < |Gathered(entries, names)|
    ensures Gathered(entries, names)[i] in entries && Gathered(entries, names)[j] in entries
    ensures Leq(FileOf(Gathered(entries, names)[i]), FileOf(Gathered(entries, names)[j]))
  {
    var g, n := Gathered(entries, names), |names| - 1;
    var front := Gathered(entries, names[..n]);
    GatheredMembers(entries, names, g[i]);
    GatheredMembers(entries, names, g[j]);
    assert names == names[..n] + [names[n]];
    if j < |front| {
      GatheredSorted(entries, names[..n], i, j);
    } else {
      assert g[j] in Of(entries, names[n]);
      OfMembers(entries, names[n], g[j]);
      var k :| 0 <= k < |names| && names[k] == FileOf(g[i]);
      Reflexive(names[n]);
      assert k < n ==> Less(names[k], names[n]);
    }
  }

  lemma {:induction false} GatherOthers(entries: seq<Entry>, e: Entry, names: seq<string>)
    requires AllDated(entries) && Dated(e) && FileOf(e) !in names
    ensures AllDated(entries + [e]) && Gathered(entries + [e], names) == Gathered(entries, names)
  {
    if names != [] {
      GatherOthers(entries, e, names[..|names| - 1]);
      OfMore(entries, e, names[|names| - 1]);
    }
  }

  lemma {:induction false} LastIsNew(names: seq<string>)
    requires Increasing(names) && names != []
    ensures names[|names| - 1] !in names[..|names| - 1]
  {
    assert forall k :: 0 <= k < |names| - 1 ==> Less(names[k], names[|names| - 1]);
  }

  lemma {:induction false} NothingBehind(entries: seq<Entry>, e: Entry, names: seq<string>)
    requires AllDated(entries) && Dated(e) && Increasing(names) && FileOf(e) in names && names[|names| - 1] != FileOf(e)
    requires forall x :: x in entries ==> Leq(FileOf(x), FileOf(e))
    ensures FileOf(e) in names[..|names| - 1] && Of(entries, names[|names| - 1]) == []
  {
    var n := |names| - 1;
    var k :| 0 <= k < n && names[k] == FileOf(e);
    assert names[..n][k] == FileOf(e) && Less(names[k], names[n]);
    if Of(entries, names[n]) != [] {
      var x := Of(entries, names[n])[0];
      OfMembers(entries, names[n], x);
      Antisymmetric(names[k], names[n]);
    }
  }

  /** An entry whose file no earlier entry stands behind is read last. */
  lemma {:induction false} GatherLast(entries: seq<Entry>, e: Entry, names: seq<string>)
    requires AllDated(entries) && Dated(e) && Increasing(names) && FileOf(e) in names
    requires forall x :: x in entries ==> Leq(FileOf(x), FileOf(e))
    ensures AllDated(entries + [e]) && Gathered(entries + [e], names) == Gathered(entries, names) + [e]
  {
    var n := |names| - 1;
    OfMore(entries, e, names[n]);
    if names[n] == FileOf(e) {
      LastIsNew(names);
      GatherOthers(entries, e, names[..n]);
    } else {
      NothingBehind(entries, e, names);
      GatherLast(entries, e, names[..n]);
    }
  }

  /** The files of the entries never go back, in the order of names. */
  ghost predicate NeverBack(entries: seq<Entry>)
    requires AllDated(entries)
  {
    forall i, j :: 0 <= i < j < |entries| ==> Leq(FileOf(entries[i]), FileOf(entries[j]))
  }

  lemma {:induction false} NeverBackGathers(entries: seq<Entry>, names: seq<string>)
    requires AllDated(entries) && NeverBack(entries) && Increasing(names)
    requires forall k :: 0 <= k < |entries| ==> FileOf(entries[k]) in names
    ensures Gathered(entries, names) == entries
  {
    if entries == [] {
      GatherNothing(names);
    } else {
      var n := |entries| - 1;
      var front := entries[..n];
      assert entries == front + [entries[n]];
      NeverBackGathers(front, names);
      forall x | x in front
        ensures Leq(FileOf(x), FileOf(entries[n]))
      {
        var k :| 0 <= k < n && front[k] == x;
      }
      GatherLast(front, entries[n], names);
    }
  }

  lemma {:induction false} GatherNothing(names: seq<string>)
    ensures Gathered([], names) == []
  {
    if names != [] { GatherNothing(names[..|names| - 1]); }
  }

  lemma {:induction false} EncodedConcat(c: Codec, a: seq<Entry>, b: seq<Entry>)
    ensures Encoded(c, a + b) == Encoded(c, a) + Encoded(c, b)
  {
  }

  lemma {:induction false} LinesAreEncoded(c: Codec, files: map<string, string>, entries: seq<Entry>,
                                           names: seq<string>)
    requires AllDated(entries) && forall k :: 0 <= k < |names| ==> names[k] in files
    requires forall k :: 0 <= k < |names| ==> NotBlank(Lines(files[names[k]])) == Encoded(c, Of(entries, names[k]))
    ensures CollectedLines(files, names) == Encoded(c, Gathered(entries, names))
  {
    if names != [] {
      var n := |names| - 1;
      LinesAreEncoded(c, files, entries, names[..n]);
      EncodedConcat(c, Gathered(entries, names[..n]), Of(entries, names[n]));
    }
  }

  predicate Consecutive(entries: seq<Entry>) { forall k :: 0 <= k < |entries| ==> entries[k].i == k }

  /** Entries in place are a prefix of what was appended. */
  lemma {:induction false} InPlaceIsPrefix(entries: seq<Entry>, names: seq<string>)
    requires AllDated(entries) && Consecutive(entries) && Consecutive(Gathered(entries, names))
    ensures Gathered(entries, names) <= entries
  {
    var g := Gathered(entries, names);
    forall k | 0 <= k < |g|
      ensures k < |entries| && g[k] == entries[k]
    {
      GatheredMembers(entries, names, g[k]);
    }
    if g != [] { var last := g[|g| - 1]; }
  }

  predicate AllListed(entries: seq<Entry>)
    requires AllDated(entries)
  {
    forall k :: 0 <= k < |entries| ==> Listed(FileOf(entries[k]))
  }

  /** How many entries stand before the first whose file is not listed. */
  function ListedFront(entries: seq<Entry>): (n: nat)
    requires AllDated(entries)
    ensures n <= |entries| && (forall k :: 0 <= k < n ==> Listed(FileOf(entries[k])))
    ensures n < |entries| ==> !Listed(FileOf(entries[n]))
  {
    if entries == [] || !Listed(FileOf(entries[0])) then 0 else 1 + ListedFront(entries[1..])
  }

  /** Only the last entries are in files that are not listed. */
  predicate UnlistedLast(entries: seq<Entry>)
    requires AllDated(entries)
  {
    forall k :: ListedFront(entries) <= k < |entries| ==> !Listed(FileOf(entries[k]))
  }

  /** Entries that all are in one of the files come out in their places exactly when their files never go
      back. */
  lemma {:induction false} GatheredInPlace(entries: seq<Entry>, names: seq<string>)
    requires AllDated(entries) && Consecutive(entries) && Increasing(names)
    requires forall k :: 0 <= k < |entries| ==> FileOf(entries[k]) in names
    ensures Consecutive(Gathered(entries, names)) <==> NeverBack(entries)
    ensures NeverBack(entries) ==> Gathered(entries, names) == entries
  {
    if NeverBack(entries) {
      NeverBackGathers(entries, names);
    } else if Consecutive(Gathered(entries, names)) {
      InPlaceIsPrefix(entries, names);
      EverythingGathered(entries, names);
      forall i, j | 0 <= i < j < |entries|
        ensures Leq(FileOf(entries[i]), FileOf(entries[j]))
      {
        GatheredSorted(entries, names, i, j);
      }
    }
  }

  /** Entries of files not read are as if they had not been appended. */
  lemma {:induction false} UnreadAreLeftOut(entries: seq<Entry>, names: seq<string>, n: nat)
    requires AllDated(entries) && n <= |entries| && forall k :: n <= k < |entries| ==> FileOf(entries[k]) !in names
    ensures Gathered(entries, names) == Gathered(entries[..n], names)
    decreases |entries|
  {
    if n < |entries| {
      var front, last := entries[..|entries| - 1], entries[|entries| - 1];
      assert entries == front + [last] && front[..n] == entries[..n];
      UnreadAreLeftOut(front, names, n);
      GatherOthers(front, last, names);
    } else {
      assert entries[..n] == entries;
    }
  }

  /** An entry behind one that is not read is not in its place. */
  lemma {:induction false} GapIsNoticed(entries: seq<Entry>, names: seq<string>, gap: nat, k: nat)
    requires AllDated(entries) && Consecutive(entries) && gap < k < |entries|
    requires FileOf(entries[gap]) !in names && FileOf(entries[k]) in names
    ensures !Consecutive(Gathered(entries, names))
  {
    var g := Gathered(entries, names);
    if Consecutive(g) {
      InPlaceIsPrefix(entries, names);
      GatheredMembers(entries, names, entries[k]);
      var j :| 0 <= j < |g| && g[j] == entries[k];
      assert g[gap] == entries[gap];
      GatheredMembers(entries, names, g[gap]);
    }
  }

  lemma {:induction false} GatheredExactly(entries: seq<Entry>, names: seq<string>)
    requires AllDated(entries) && Consecutive(entries) && Increasing(names)
    requires forall k :: 0 <= k < |entries| ==> (FileOf(entries[k]) in names <==> Listed(FileOf(entries[k])))
    ensures Consecutive(Gathered(entries, names)) <==> NeverBack(entries[..ListedFront(entries)]) && UnlistedLast(entries)
    ensures Consecutive(Gathered(entries, names)) ==> Gathered(entries, names) == entries[..ListedFront(entries)]
  {
    if UnlistedLast(entries) {
      FrontIsGathered(entries, names);
    } else {
      var n := ListedFront(entries);
      var k :| n <= k < |entries| && Listed(FileOf(entries[k]));
      GapIsNoticed(entries, names, n, k);
    }
  }

  lemma {:induction false} FrontIsGathered(entries: seq<Entry>, names: seq<string>)
    requires AllDated(entries) && Consecutive(entries) && Increasing(names) && UnlistedLast(entries)
    requires forall k :: 0 <= k < |entries| ==> (FileOf(entries[k]) in names <==> Listed(FileOf(entries[k])))
    ensures Consecutive(Gathered(entries, names)) <==> NeverBack(entries[..ListedFront(entries)])
    ensures Consecutive(Gathered(entries, names)) ==> Gathered(entries, names) == entries[..ListedFront(entries)]
  {
    var n := ListedFront(entries);
    UnreadAreLeftOut(entries, names, n);
    GatheredInPlace(entries[..n], names);
  }

  lemma {:induction false} AnswerOfEncoded(c: Codec, g: seq<Entry>, r: Answer)
    requires c.Faithful() && ReadsAs(c, Encoded(c, g), r)
    ensures r.Ok? <==> Consecutive(g)
    ensures r.Ok? ==> r.entries == g
  {
    InPlaceIffConsecutive(c, g);
    forall k | 0 <= k < |g|
      ensures c.decode(Encoded(c, g)[k]) == Some(g[k])
    {
      assert Encoded(c, g)[k] == c.encode(g[k]);
    }
  }

  /** The exact answer to reading the appended entries back. It is what was appended if and only if no file
      went back and every one is listed. It is no refusal if and only if the listed files never went back
      and the entries of files that are not listed came last; then it lacks those. */
  ghost predicate Exact(r: Answer, entries: seq<Entry>)
  {
    AllDated(entries) && (r == Ok(entries) <==> NeverBack(entries) && AllListed(entries)) &&
    (r.Ok? <==> NeverBack(entries[..ListedFront(entries)]) && UnlistedLast(entries)) &&
    (r.Ok? ==> r.entries == entries[..ListedFront(entries)])
  }

  lemma {:induction false} ReadsBack(c: Codec, files: map<string, string>, entries: seq<Entry>, names: seq<string>,
                                     r: Answer)
    requires c.Faithful() && Holds(c, files, entries) && SortedNames(files, names) && Consecutive(entries)
    requires ReadsAs(c, CollectedLines(files, names), r)
    ensures Exact(r, entries)
  {
    FilesOfEntries(c, files, entries, names);
    LinesOfFiles(c, files, entries, names);
    GatheredExactly(entries, names);
    AnswerOfEncoded(c, Gathered(entries, names), r);
    WholeFront(entries);
  }

  lemma {:induction false} WholeFront(entries: seq<Entry>)
    requires AllDated(entries)
    ensures entries[..ListedFront(entries)] == entries <==> AllListed(entries)
    ensures AllListed(entries) ==> UnlistedLast(entries)
  {
    var n := ListedFront(entries);
    assert |entries[..n]| == n;
    assert n == |entries| ==> entries[..n] == entries;
  }

  lemma {:induction false} LinesOfFiles(c: Codec, files: map<string, string>, entries: seq<Entry>, names: seq<string>)
    requires Holds(c, files, entries) && SortedNames(files, names)
    ensures CollectedLines(files, names) == Encoded(c, Gathered(entries, names))
  {
    assert forall k :: 0 <= k < |names| ==> names[k] in names;
    LinesAreEncoded(c, files, entries, names);
  }

  lemma {:induction false} FilesOfEntries(c: Codec, files: map<string, string>, entries: seq<Entry>, names: seq<string>)
    requires Holds(c, files, entries) && SortedNames(files, names)
    ensures forall k :: 0 <= k < |entries| ==> (FileOf(entries[k]) in names <==> Listed(FileOf(entries[k])))
  {
    forall k | 0 <= k < |entries|
      ensures FileOf(entries[k]) in names <==> Listed(FileOf(entries[k]))
    {
      OfMembers(entries, FileOf(entries[k]), entries[k]);
    }
  }

  /** A file is not listed exactly when the day is empty: the date begins with `T`. */
  lemma {:induction false} UnlistedIsEmptyDay(e: Entry)
    requires Dated(e)
    ensures Listed(FileOf(e)) <==> e.date[0] != 'T'
  {
    var day := Day(e.date).value;
    assert (day + EXTENSION)[|day|..] == EXTENSION;
  }

  lemma {:induction false} InPlaceIffConsecutive(c: Codec, g: seq<Entry>)
    requires c.Faithful()
    ensures InPlace(c, Encoded(c, g)) <==> Consecutive(g)
  {
    forall k | 0 <= k < |g|
      ensures c.decode(Encoded(c, g)[k]) == Some(g[k])
    {
      assert Encoded(c, g)[k] == c.encode(g[k]);
    }
  }

  lemma {:induction false} EverythingGathered(entries: seq<Entry>, names: seq<string>)
    requires AllDated(entries) && Consecutive(entries) && Gathered(entries, names) <= entries
    requires forall k :: 0 <= k < |entries| ==> FileOf(entries[k]) in names
    ensures Gathered(entries, names) == entries
  {
    if entries != [] {
      var last := entries[|entries| - 1];
      GatheredMembers(entries, names, last);
      var g := Gathered(entries, names);
      var k :| 0 <= k < |g| && g[k] == last;
      assert g[k] == entries[k];
    }
  }

  // ---- Dates from a clock ----

  /** A log whose dates came from a clock that never went back, in years of four digits, reads back. */
  lemma {:induction false} ClockedLogReadsBack(entries: seq<Entry>, clock: seq<int>, r: Answer)
    requires Exact(r, entries) && |clock| == |entries|
    requires forall k :: 0 <= k < |clock| ==> Timestamp.Printable(clock[k])
    requires forall k :: 0 <= k < |clock| ==> entries[k].date == Timestamp.Moment(clock[k])
    requires forall i, j :: 0 <= i < j < |clock| ==> clock[i] <= clock[j]
    ensures r == Ok(entries)
  {
    forall k | 0 <= k < |entries|
      ensures FileOf(entries[k]) == Timestamp.LocalDay(clock[k]) + EXTENSION && Listed(FileOf(entries[k]))
    {
      DayOfMoment(clock[k]);
    }
    forall i, j | 0 <= i < j < |entries|
      ensures Leq(FileOf(entries[i]), FileOf(entries[j]))
    {
      LaterFile(clock[i], clock[j]);
    }
    assert NeverBack(entries) && AllListed(entries);
  }

  lemma {:induction false} DayIsBeforeT(day: string, rest: string)
    requires 'T' !in day
    ensures Day(day + ("T" + rest)) == Some(day)
  {
    var date := day + ("T" + rest);
    if day != "" {
      assert date[1..] == day[1..] + ("T" + rest);
      DayIsBeforeT(day[1..], rest);
      assert day == [day[0]] + day[1..] && day[0] in day;
    }
  }

  lemma {:induction false} DayOfMoment(secs: int)
    requires Timestamp.Printable(secs)
    ensures Day(Timestamp.Moment(secs)) == Some(Timestamp.LocalDay(secs)) && |Timestamp.LocalDay(secs)| == 10
  {
    Timestamp.MomentShape(secs);
    assert 'T' !in Timestamp.Moment(secs)[..10];
    DayIsBeforeT(Timestamp.LocalDay(secs), Timestamp.ClockText(Timestamp.ClockOf(secs)));
  }

  lemma {:induction false} LaterFile(s: int, t: int)
    requires Timestamp.Printable(s) && Timestamp.Printable(t) && s <= t
    ensures Leq(Timestamp.LocalDay(s) + EXTENSION, Timestamp.LocalDay(t) + EXTENSION)
  {
    var a, b := Timestamp.LocalDay(s), Timestamp.LocalDay(t);
    DayOfMoment(s);
    DayOfMoment(t);
    if a == b {
      Reflexive(a + EXTENSION);
    } else {
      Timestamp.MomentOrder(s, t);
      Timestamp.LessPrefix(a, EXTENSION, b, EXTENSION);
    }
  }
}
