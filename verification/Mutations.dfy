/**
 File mutations under a basis (internal/adapter/mcp/edit_tools.go, basis.go, read_file.go, search.go):
 a file is only ever replaced by a caller who names a capture of exactly what the file still holds.

 SHA-256 is taken to be injective: a digest is the term `Sha256(content)`. Strings are byte strings.
 The outside world may change files between calls, not during one.
 */
module Mutations {
  import opened Wrappers
  import opened Replacement

  const MAX_OUTPUT_BYTES := 524288
  const NEW_FILE_MODE := 384

  datatype Node = File(content: string, mode: nat) | Directory

  type Files = map<string, Node>

  datatype Digest = Sha256(content: string)

  datatype BasisEntry = BasisEntry(path: string, digest: Digest, unread: bool)

  type Entries = map<string, BasisEntry>

  // ----- What has happened

  datatype How = ByReading | ByMutating | ByRejecting

  datatype Event =
    | Captured(basis: string, path: string, content: string, how: How)
    | ReadBack(basis: string)
    | Forgot
    | Replaced(path: string, before: string, after: string, basis: string, whole: bool)
    | Created(path: string, content: string)
    | Elsewhere(path: string, node: Option<Node>)

  function FileStep(files: Files, e: Event): Files {
    match e
    case Replaced(path, _, after, _, _) =>
      if path in files && files[path].File? then files[path := files[path].(content := after)] else files
    case Created(path, content) => files[path := File(content, NEW_FILE_MODE)]
    case Elsewhere(path, node) => if node.Some? then files[path := node.value] else files - {path}
    case _ => files
  }

  /** A capture that minted no label is not recorded; reading back only ever lifts the mark. */
  function EntryStep(entries: Entries, e: Event): Entries {
    match e
    case Captured(basis, path, content, how) =>
      if basis == "" then entries else entries[basis := BasisEntry(path, Sha256(content), how.ByRejecting?)]
    case ReadBack(basis) =>
      if basis in entries && entries[basis].unread then entries[basis := entries[basis].(unread := false)] else entries
    case Forgot => map[]
    case _ => entries
  }

  function FilesAfter(log: seq<Event>): Files {
    if log == [] then map[] else FileStep(FilesAfter(log[..|log| - 1]), log[|log| - 1])
  }

  function EntriesAfter(log: seq<Event>): Entries {
    if log == [] then map[] else EntryStep(EntriesAfter(log[..|log| - 1]), log[|log| - 1])
  }

  lemma OneMore(log: seq<Event>, e: Event)
    ensures FilesAfter(log + [e]) == FileStep(FilesAfter(log), e)
    ensures EntriesAfter(log + [e]) == EntryStep(EntriesAfter(log), e)
  {
    assert (log + [e])[..|log|] == log;
  }

  // ----- No blind overwrite

  /** The capture at `j` is what the basis stands for at `i`: of this path, not forgotten, not redone. */
  ghost predicate StandsFor(log: seq<Event>, j: nat, i: nat, basis: string) {
    && j < i <= |log| && log[j].Captured? && log[j].basis == basis
    && forall k | j < k < i :: !log[k].Forgot? && !(log[k].Captured? && log[k].basis == basis)
  }

  ghost predicate ReadSince(log: seq<Event>, j: nat, i: nat, basis: string) {
    exists k :: j < k < i <= |log| && log[k] == ReadBack(basis)
  }

  /** The content a basis stands for has been in front of the caller. */
  ghost predicate Seen(log: seq<Event>, j: nat, i: nat, basis: string)
    requires j < |log| && log[j].Captured?
  {
    !log[j].how.ByRejecting? || ReadSince(log, j, i, basis)
  }

  /** A replacement replaces what its basis captured of that path, and that is what the file held. */
  ghost predicate Informed(log: seq<Event>, i: nat)
    requires i < |log| && log[i].Replaced?
  {
    var e := log[i];
    var files := FilesAfter(log[..i]);
    && e.path in files && files[e.path].File? && files[e.path].content == e.before
    && exists j: nat :: StandsFor(log, j, i, e.basis) && log[j].path == e.path && log[j].content == e.before
                        && (e.whole ==> Seen(log, j, i, e.basis))
  }

  ghost predicate NoBlindOverwrite(log: seq<Event>) {
    && (forall i | 0 <= i < |log| && log[i].Replaced? :: Informed(log, i))
    && forall i | 0 <= i < |log| && log[i].Created? :: log[i].path !in FilesAfter(log[..i])
  }

  lemma StandsForLonger(log: seq<Event>, e: Event, j: nat, i: nat, basis: string)
    requires i <= |log|
    ensures StandsFor(log + [e], j, i, basis) <==> StandsFor(log, j, i, basis)
    ensures ReadSince(log + [e], j, i, basis) <==> ReadSince(log, j, i, basis)
  {
    assert forall k | 0 <= k < |log| :: (log + [e])[k] == log[k];
    if k :| j < k < i <= |log| && log[k] == ReadBack(basis) {
      assert (log + [e])[k] == ReadBack(basis);
    }
    if k :| j < k < i <= |log| && (log + [e])[k] == ReadBack(basis) {
      assert log[k] == ReadBack(basis);
    }
  }

  lemma {:induction false} NoEmptyLabel(log: seq<Event>)
    ensures "" !in EntriesAfter(log)
  {
    if log != [] {
      NoEmptyLabel(log[..|log| - 1]);
    }
  }

  /** A registered basis stands for exactly one capture; it is marked unread until that has been read back. */
  lemma {:induction false} EntryHasOrigin(log: seq<Event>, basis: string) returns (j: nat)
    requires basis in EntriesAfter(log)
    ensures StandsFor(log, j, |log|, basis)
    ensures EntriesAfter(log)[basis] == BasisEntry(log[j].path, Sha256(log[j].content), !Seen(log, j, |log|, basis))
  {
    var n := |log| - 1;
    var before, e := log[..n], log[n];
    assert log == before + [e];
    NoEmptyLabel(log);
    if e.Captured? && e.basis == basis {
      j := n;
    } else {
      j := EntryHasOrigin(before, basis);
      StandsForLonger(before, e, j, n, basis);
      if e == ReadBack(basis) {
        assert log[n] == ReadBack(basis);
      }
      if ReadSince(log, j, |log|, basis) {
        var k :| j < k < |log| && log[k] == ReadBack(basis);
        assert k < n ==> before[k] == ReadBack(basis);
      }
      if ReadSince(before, j, n, basis) {
        var k :| j < k < n && before[k] == ReadBack(basis);
        assert log[k] == ReadBack(basis);
      }
    }
  }

  /** Events that neither replace nor create keep every promise made so far. */
  lemma Extends(log: seq<Event>, e: Event)
    requires NoBlindOverwrite(log)
    requires e.Replaced? ==> Informed(log + [e], |log|)
    requires e.Created? ==> e.path !in FilesAfter(log)
    ensures NoBlindOverwrite(log + [e])
  {
    var longer := log + [e];
    assert longer[..|log|] == log;
    forall i | 0 <= i < |longer| && longer[i].Replaced?
      ensures Informed(longer, i)
    {
      if i < |log| {
        assert Informed(log, i);
        assert longer[..i] == log[..i];
        var j: nat :| StandsFor(log, j, i, log[i].basis) && log[j].path == log[i].path
            && log[j].content == log[i].before
                      && (log[i].whole ==> Seen(log, j, i, log[i].basis));
        StandsForLonger(log, e, j, i, log[i].basis);
      }
    }
    forall i | 0 <= i < |longer| && longer[i].Created?
      ensures longer[i].path !in FilesAfter(longer[..i])
    {
      if i < |log| {
        assert longer[..i] == log[..i];
      }
    }
  }

  /** A basis that is known for the path and fresh for its content justifies replacing it. */
  lemma FreshBasisInforms(log: seq<Event>, path: string, basis: string, after: string, whole: bool)
    requires path in FilesAfter(log) && FilesAfter(log)[path].File?
    requires basis in EntriesAfter(log)
    requires EntriesAfter(log)[basis].path == path
             && EntriesAfter(log)[basis].digest == Sha256(FilesAfter(log)[path].content)
    requires whole ==> !EntriesAfter(log)[basis].unread
    ensures var e := Replaced(path, FilesAfter(log)[path].content, after, basis, whole);
            Informed(log + [e], |log|)
  {
    var e := Replaced(path, FilesAfter(log)[path].content, after, basis, whole);
    var j := EntryHasOrigin(log, basis);
    assert (log + [e])[..|log|] == log;
    StandsForLonger(log, e, j, |log|, basis);
  }

  /** At any time a basis stands for one capture. */
  lemma StandsForOne(log: seq<Event>, j: nat, k: nat, i: nat, basis: string)
    requires StandsFor(log, j, i, basis) && StandsFor(log, k, i, basis)
    ensures j == k
  {
    assert log[j].Captured? && log[k].Captured? && log[j].basis == log[k].basis;
  }

  // ----- The tools

  datatype Io = Io(statOk: bool, readOk: bool, writeOk: bool)

  datatype Reply =
    | Refused                                   // an argument, size or I/O problem
    | Rejected(basis: string, current: string)  // recaptured under a fresh label
    | Gone                                      // the file was deleted since the basis
    | NotReadYet                                // the basis was minted by a rejection
    | Done(basis: string, replaced: nat)

  /** How many bytes the space character at the head takes in UTF-8, if there is one. */
  function SpaceLen(s: string): (n: nat)
    ensures n <= |s|
  {
    if s == "" then 0
    else if 0x09 as char <= s[0] <= 0x0d as char || s[0] == ' ' then 1
    else if |s| >= 2 && s[0] == 0xc2 as char && s[1] in {0x85 as char, 0xa0 as char} then 2
    else if |s| >= 3 && WideSpace(s[0] as int, s[1] as int, s[2] as int) then 3
    else 0
  }

  /** The encodings of U+1680, U+2000 to U+200A, U+2028, U+2029, U+202F, U+205F and U+3000. */
  predicate WideSpace(a: int, b: int, c: int) {
    || (a == 0xe1 && b == 0x9a && c == 0x80)
    || (a == 0xe2 && b == 0x80 && (0x80 <= c <= 0x8a || c in {0xa8, 0xa9, 0xaf}))
    || (a == 0xe2 && b == 0x81 && c == 0x9f)
    || (a == 0xe3 && b == 0x80 && c == 0x80)
  }

  /** Nothing is left once space is trimmed. */
  predicate Blank(s: string) {
    s == "" || (SpaceLen(s) > 0 && Blank(s[SpaceLen(s)..]))
  }

  /** Does the basis hold for this path and content? */
  predicate Holds(entries: Entries, basis: string, path: string, current: string) {
    !Blank(basis) && basis in entries && entries[basis].path == path && entries[basis].digest == Sha256(current)
  }

  /** What an edit makes of a content, if its anchor says unambiguously what to replace. */
  function Edited(content: string, sub: string, text: string, replaceAll: bool): Option<string>
    requires sub != ""
  {
    if Count(content, sub) == 0 || (Count(content, sub) > 1 && !replaceAll) then None
    else Some(JoinWith(Split(content, sub), text))
  }

  /** An anchor fails if it is nowhere, or in several places although only one is to be changed. */
  ghost predicate AnchorFails(content: string, sub: string, replaceAll: bool) {
    || (forall i :: !OccursAt(content, sub, i))
    || (!replaceAll && exists i, j :: Apart(content, sub, i, j))
  }

  /** When an edit is refused for its anchor, and what a single replacement changes. */
  lemma EditedIff(content: string, sub: string, text: string, replaceAll: bool)
    requires sub != ""
    ensures var edited := Edited(content, sub, text, replaceAll);
            && (edited.None? <==> AnchorFails(content, sub, replaceAll))
            && (edited.Some? && !replaceAll ==> exists i: nat :: ExchangesFirst(content, sub, text, i, edited.value))
            && (edited.Some? && replaceAll ==> ExchangesAll(content, sub, text, edited.value))
  {
    ReplacesAll(content, sub, text);
    CountsNothingIff(content, sub);
    CountsManyIff(content, sub);
    if Count(content, sub) == 1 {
      ReplacesTheOnlyOne(content, sub, text);
    }
  }

  // ----- Reading

  /** Text cut after every newline. */
  function Lines(content: string): seq<string> {
    if content == "" then []
    else
      var rest := Lines(content[1..]);
      if content[0] == '\n' || rest == [] then [content[..1]] + rest else [content[..1] + rest[0]] + rest[1..]
  }

  function Joined(lines: seq<string>): string {
    if lines == [] then "" else lines[0] + Joined(lines[1..])
  }

  /** Ends with its only newline, or has none. */
  predicate IsLine(l: string, last: bool) {
    && l != "" && (forall i | 0 <= i < |l| - 1 :: l[i] != '\n')
    && (!last ==> l[|l| - 1] == '\n')
  }

  ghost predicate AreLines(lines: seq<string>) {
    forall k | 0 <= k < |lines| :: IsLine(lines[k], k == |lines| - 1)
  }

  lemma LineCons(line: string, rest: seq<string>)
    requires AreLines(rest) && IsLine(line, rest == [])
    ensures AreLines([line] + rest)
  {
  }

  lemma LongerLine(c: char, line: string, last: bool)
    requires c != '\n' && IsLine(line, last)
    ensures IsLine([c] + line, last)
  {
  }

  /** Cut behind every newline, and nowhere else. */
  lemma {:induction false} LinesAreLines(content: string)
    ensures AreLines(Lines(content))
  {
    if content != "" {
      LinesAreLines(content[1..]);
      var rest := Lines(content[1..]);
      assert content[..1] == [content[0]];
      if content[0] == '\n' || rest == [] {
        LineCons(content[..1], rest);
      } else {
        LongerLine(content[0], rest[0], |rest| == 1);
        LineCons([content[0]] + rest[0], rest[1..]);
      }
    }
  }

  lemma {:induction false} JoinedConcat(a: seq<string>, b: seq<string>)
    ensures Joined(a + b) == Joined(a) + Joined(b)
  {
    if a == [] {
      assert a + b == b;
    } else {
      assert (a + b)[1..] == a[1..] + b;
      JoinedConcat(a[1..], b);
    }
  }

  /** Nothing is shown exactly when the first line asked for is past the end. */
  lemma RangeFails(content: string, startLine: int, endLine: int)
    requires SaneRange(startLine, endLine)
    ensures SliceLines(content, startLine, endLine).None?
            <==> (startLine > 1 || endLine > 0) && if startLine == 0 then content == ""
              else startLine > |Lines(content)|
  {
  }

  lemma TwoParts(lines: seq<string>, b: nat)
    requires b <= |lines|
    ensures Joined(lines[..b]) + Joined(lines[b..]) == Joined(lines)
  {
    JoinedConcat(lines[..b], lines[b..]);
    assert lines[..b] + lines[b..] == lines;
  }

  lemma FirstPart(lines: seq<string>, a: nat, b: nat)
    requires a <= b <= |lines|
    ensures Joined(lines[..a]) + Joined(lines[a..b]) == Joined(lines[..b])
  {
    TwoParts(lines[..b], a);
    assert lines[..b][..a] == lines[..a] && lines[..b][a..] == lines[a..b];
  }

  lemma ThreeParts(lines: seq<string>, a: nat, b: nat)
    requires a <= b <= |lines|
    ensures Joined(lines[..a]) + Joined(lines[a..b]) + Joined(lines[b..]) == Joined(lines)
  {
    TwoParts(lines, b);
    FirstPart(lines, a, b);
  }

  /** What a range shows is what is left of the content without the lines before and behind it. */
  lemma RangeShows(content: string, startLine: int, endLine: int)
    requires SaneRange(startLine, endLine) && SliceLines(content, startLine, endLine).Some?
    ensures var lines := Lines(content);
            var first := if startLine == 0 then 0 else startLine - 1;
            var upTo := if endLine == 0 || endLine > |lines| then |lines| else endLine;
            first <= upTo <= |lines|
            && Joined(lines[..first]) + SliceLines(content, startLine, endLine).value + Joined(lines[upTo..]) == content
  {
    var lines := Lines(content);
    var first := if startLine == 0 then 0 else startLine - 1;
    var upTo := if endLine == 0 || endLine > |lines| then |lines| else endLine;
    LinesJoin(content);
    if startLine <= 1 && endLine == 0 {
      NothingAround(content, lines);
    } else {
      ThreeParts(lines, first, upTo);
    }
  }

  lemma NothingAround(content: string, lines: seq<string>)
    ensures Joined(lines[..0]) + content + Joined(lines[|lines|..]) == content
  {
    assert lines[..0] == [] && lines[|lines|..] == [];
  }

  lemma JoinedCons(line: string, rest: seq<string>)
    ensures Joined([line] + rest) == line + Joined(rest)
  {
    assert ([line] + rest)[1..] == rest;
  }

  lemma Regroup(a: string, b: string, c: string)
    ensures a + b + c == a + (b + c)
  {
  }

  lemma {:induction false} LinesJoin(content: string)
    ensures Joined(Lines(content)) == content
  {
    if content != "" {
      LinesJoin(content[1..]);
      var rest := Lines(content[1..]);
      assert content == content[..1] + content[1..];
      if content[0] == '\n' || rest == [] {
        JoinedCons(content[..1], rest);
      } else {
        JoinedCons(content[..1] + rest[0], rest[1..]);
        Regroup(content[..1], rest[0], Joined(rest[1..]));
      }
    }
  }

  predicate SaneRange(startLine: int, endLine: int) {
    0 <= startLine && 0 <= endLine && (startLine > 0 && endLine > 0 ==> startLine <= endLine)
  }

  /** The lines asked for; zero means from the first or to the last. A first line past the end is an error. */
  function SliceLines(content: string, startLine: int, endLine: int): Option<string>
    requires SaneRange(startLine, endLine)
  {
    if startLine <= 1 && endLine == 0 then Some(content)
    else
      var lines := Lines(content);
      var first := if startLine == 0 then 1 else startLine;
      var last := if endLine == 0 || endLine > |lines| then |lines| else endLine;
      if first > |lines| then None else Some(Joined(lines[first - 1..last]))
  }

  /** What a read gets to see of a file: everything, or its first bytes up to the limit. */
  function Capped(content: string): string {
    if |content| > MAX_OUTPUT_BYTES then content[..MAX_OUTPUT_BYTES] else content
  }

  function ReadOf(files: Files, path: string, startLine: int, endLine: int, io: Io): Option<string> {
    if Blank(path) || !SaneRange(startLine, endLine) || !io.readOk || path !in files || files[path].Directory? then None
    else SliceLines(Capped(files[path].content), startLine, endLine)
  }

  /** The whole file, unless it is beyond the capture limit. */
  function ReadFull(files: Files, path: string, io: Io): Option<string> {
    if io.statOk && io.readOk && path in files && files[path].File? && |files[path].content| <= MAX_OUTPUT_BYTES
    then Some(files[path].content) else None
  }

  // ----- Runs

  /** A call of a tool, a session's end, or somebody else's change; `minted` is the label the capture gets, if any. */
  datatype Call =
    | Read(path: string, startLine: int, endLine: int, minted: string, io: Io)
    | Search(source: string, documentOrder: bool, hits: nat)
    | Edit(path: string, basis: string, oldString: string, newString: string, replaceAll: bool, minted: string, io: Io)
    | Write(path: string, basis: string, content: string, minted: string, io: Io)
    | Forget
    | Change(path: string, node: Option<Node>)

  function EditEvents(files: Files, entries: Entries, c: Call): seq<Event>
    requires c.Edit?
  {
    var current := ReadFull(files, c.path, c.io);
    if Blank(c.path) || c.oldString == "" || c.oldString == c.newString || current.None? then []
    else if !Holds(entries, c.basis, c.path, current.value)
      then [Captured(c.minted, c.path, current.value, ByRejecting)]
    else
      var edited := Edited(current.value, c.oldString, c.newString, c.replaceAll);
      if !c.io.writeOk || edited.None? || |edited.value| > MAX_OUTPUT_BYTES then []
      else [Replaced(c.path, current.value, edited.value, c.basis, false),
        Captured(c.minted, c.path, edited.value, ByMutating)]
  }

  function WriteEvents(files: Files, entries: Entries, c: Call): seq<Event>
    requires c.Write?
  {
    var current := ReadFull(files, c.path, c.io);
    if Blank(c.path) || |c.content| > MAX_OUTPUT_BYTES || !c.io.statOk then []
    else if c.path !in files then
      if !Blank(c.basis) || !c.io.writeOk then []
      else [Created(c.path, c.content), Captured(c.minted, c.path, c.content, ByMutating)]
    else if current.None? then []
    else if !Holds(entries, c.basis, c.path, current.value)
      then [Captured(c.minted, c.path, current.value, ByRejecting)]
    else if entries[c.basis].unread || !c.io.writeOk then []
    else [Replaced(c.path, current.value, c.content, c.basis, true), Captured(c.minted, c.path, c.content, ByMutating)]
  }

  /** What a call leaves in the log. */
  function Events(files: Files, entries: Entries, c: Call): seq<Event> {
    match c
    case Read(path, startLine, endLine, minted, io) =>
      if ReadOf(files, path, startLine, endLine, io).Some? && |files[path].content| <= MAX_OUTPUT_BYTES
      then [Captured(minted, path, files[path].content, ByReading)] else []
    case Search(source, documentOrder, hits) => if documentOrder && hits > 0 then [ReadBack(source)] else []
    case Edit(_, _, _, _, _, _, _) => EditEvents(files, entries, c)
    case Write(_, _, _, _, _) => WriteEvents(files, entries, c)
    case Forget => [Forgot]
    case Change(path, node) => [Elsewhere(path, node)]
  }

  /** The log of any sequence of calls, from a server that has just started. */
  function LogOf(calls: seq<Call>): seq<Event> {
    if calls == [] then []
    else
      var before := LogOf(calls[..|calls| - 1]);
      before + Events(FilesAfter(before), EntriesAfter(before), calls[|calls| - 1])
  }

  lemma Appended(log: seq<Event>, a: Event, b: Event)
    ensures log + [a] + [b] == log + [a, b]
  {
  }

  lemma ThenCaptures(log: seq<Event>, e: Event, c: Event)
    requires NoBlindOverwrite(log + [e]) && c.Captured?
    ensures NoBlindOverwrite(log + [e, c])
  {
    Extends(log + [e], c);
    Appended(log, e, c);
  }

  lemma EditKeeps(log: seq<Event>, c: Call)
    requires NoBlindOverwrite(log) && c.Edit?
    ensures NoBlindOverwrite(log + EditEvents(FilesAfter(log), EntriesAfter(log), c))
  {
    var events := EditEvents(FilesAfter(log), EntriesAfter(log), c);
    if |events| == 2 {
      FreshBasisInforms(log, c.path, c.basis, events[0].after, false);
      Extends(log, events[0]);
      ThenCaptures(log, events[0], events[1]);
    } else if |events| == 1 {
      Extends(log, events[0]);
    } else {
      assert log + events == log;
    }
  }

  lemma WriteKeeps(log: seq<Event>, c: Call)
    requires NoBlindOverwrite(log) && c.Write?
    ensures NoBlindOverwrite(log + WriteEvents(FilesAfter(log), EntriesAfter(log), c))
  {
    var events := WriteEvents(FilesAfter(log), EntriesAfter(log), c);
    if |events| == 2 {
      if events[0].Replaced? {
        FreshBasisInforms(log, c.path, c.basis, c.content, true);
      }
      Extends(log, events[0]);
      ThenCaptures(log, events[0], events[1]);
    } else if |events| == 1 {
      Extends(log, events[0]);
    } else {
      assert log + events == log;
    }
  }

  lemma CallKeeps(log: seq<Event>, c: Call)
    requires NoBlindOverwrite(log)
    ensures NoBlindOverwrite(log + Events(FilesAfter(log), EntriesAfter(log), c))
  {
    var events := Events(FilesAfter(log), EntriesAfter(log), c);
    if c.Edit? {
      EditKeeps(log, c);
    } else if c.Write? {
      WriteKeeps(log, c);
    } else if events == [] {
      assert log + events == log;
    } else {
      Extends(log, events[0]);
    }
  }

  /** No sequence of calls, with any changes by others in between, overwrites blindly. */
  lemma {:induction false} RunsKeepThePromise(calls: seq<Call>)
    ensures NoBlindOverwrite(LogOf(calls))
  {
    if calls != [] {
      RunsKeepThePromise(calls[..|calls| - 1]);
      CallKeeps(LogOf(calls[..|calls| - 1]), calls[|calls| - 1]);
    }
  }

  /**
   In any run, a replacement's basis stands for exactly one capture: of that very path, with the very
   content the file held when it was replaced; and a full overwrite's basis came from a read or a
   mutation, or was read back in between.
   */
  lemma EveryReplacementIsInformed(calls: seq<Call>, i: nat) returns (j: nat)
    requires i < |LogOf(calls)| && LogOf(calls)[i].Replaced?
    ensures var log := LogOf(calls);
            var e, files := log[i], FilesAfter(log[..i]);
            && StandsFor(log, j, i, e.basis) && (forall k: nat | StandsFor(log, k, i, e.basis) :: k == j)
            && log[j].path == e.path && log[j].content == e.before
            && e.path in files && files[e.path].File? && files[e.path].content == e.before
            && (e.whole ==> !log[j].how.ByRejecting? || ReadSince(log, j, i, e.basis))
  {
    RunsKeepThePromise(calls);
    var log := LogOf(calls);
    assert Informed(log, i);
    j :| StandsFor(log, j, i, log[i].basis) && log[j].path == log[i].path && log[j].content == log[i].before
         && (log[i].whole ==> Seen(log, j, i, log[i].basis));
    forall k: nat | StandsFor(log, k, i, log[i].basis)
      ensures k == j
    {
      StandsForOne(log, j, k, i, log[i].basis);
    }
  }

  /** In any run, a file is created only where there is none. */
  lemma CreatesOnlyWhereAbsent(calls: seq<Call>, i: nat)
    requires i < |LogOf(calls)| && LogOf(calls)[i].Created?
    ensures LogOf(calls)[i].path !in FilesAfter(LogOf(calls)[..i])
  {
    RunsKeepThePromise(calls);
  }

  // ----- The server

  class Server {
    var files: Files
    var entries: Entries
    ghost var log: seq<Event>

    constructor ()
      ensures Valid() && log == []
    {
      files, entries, log := map[], map[], [];
    }

    /** Files and registry are what the log says, and nothing in the log was overwritten blindly. */
    ghost predicate Valid()
      reads this
    {
      files == FilesAfter(log) && entries == EntriesAfter(log) && NoBlindOverwrite(log)
    }

    ghost method Log(e: Event)
      requires NoBlindOverwrite(log)
      requires e.Replaced? ==> Informed(log + [e], |log|)
      requires e.Created? ==> e.path !in FilesAfter(log)
      modifies this`log
      ensures log == old(log) + [e] && NoBlindOverwrite(log)
      ensures FilesAfter(log) == FileStep(FilesAfter(old(log)), e)
              && EntriesAfter(log) == EntryStep(EntriesAfter(old(log)), e)
    {
      Extends(log, e);
      OneMore(log, e);
      log := log + [e];
    }

    /** Somebody else changes, creates or deletes a file. */
    method ChangeElsewhere(path: string, node: Option<Node>)
      requires Valid()
      modifies this
      ensures Valid() && log == old(log) + [Elsewhere(path, node)]
    {
      files := if node.Some? then files[path := node.value] else files - {path};
      Log(Elsewhere(path, node));
    }

    /** A replaced session forgets all bases. */
    method ResetBases()
      requires Valid()
      modifies this
      ensures Valid() && log == old(log) + [Forgot] && files == old(files) && entries == map[]
    {
      entries := map[];
      Log(Forgot);
    }

    /** Registers what a capture with this label knows; a degraded capture has none. */
    method Record(basis: string, path: string, content: string, how: How)
      requires Valid()
      modifies this`entries, this`log
      ensures Valid() && log == old(log) + [Captured(basis, path, content, how)]
    {
      if basis != "" {
        entries := entries[basis := BasisEntry(path, Sha256(content), how.ByRejecting?)];
      }
      Log(Captured(basis, path, content, how));
    }

    method MarkRead(basis: string)
      requires Valid()
      modifies this`entries, this`log
      ensures Valid() && log == old(log) + [ReadBack(basis)]
    {
      if basis in entries && entries[basis].unread {
        entries := entries[basis := entries[basis].(unread := false)];
      }
      Log(ReadBack(basis));
    }

    /** A ranked search shows excerpts at best, and an empty page nothing: neither lifts the mark. */
    method SearchAnswered(source: string, documentOrder: bool, hits: nat)
      requires Valid()
      modifies this`entries, this`log
      ensures Valid() && log == old(log) + Events(files, old(entries), Search(source, documentOrder, hits))
    {
      if documentOrder && hits > 0 {
        MarkRead(source);
      }
    }

    /** A read that had to be cut short asserts nothing about the file; a range limits only what is shown. */
    method ReadFile(path: string, startLine: int, endLine: int, basis: string, io: Io) returns (visible: Option<string>)
      requires Valid()
      modifies this`entries, this`log
      ensures Valid()
      ensures visible == ReadOf(files, path, startLine, endLine, io)
      ensures log == old(log) + Events(files, old(entries), Read(path, startLine, endLine, basis, io))
    {
      if Blank(path) || !SaneRange(startLine, endLine) || !io.readOk || path !in files || files[path].Directory? {
        return None;
      }
      var full, truncated := files[path].content, false;
      if |full| > MAX_OUTPUT_BYTES {
        full, truncated := full[..MAX_OUTPUT_BYTES], true;
      }
      visible := SliceLines(full, startLine, endLine);
      if visible.None? {
        return;
      }
      if !truncated {
        Record(basis, path, full, ByReading);
      }
    }

    method Reject(path: string, current: string, minted: string) returns (reply: Reply)
      requires Valid()
      modifies this`entries, this`log
      ensures Valid() && log == old(log) + [Captured(minted, path, current, ByRejecting)]
      ensures reply == Rejected(minted, current)
    {
      Record(minted, path, current, ByRejecting);
      return Rejected(minted, current);
    }

    /** The edit proper, once the basis has been found to hold. */
    method EditMatching(path: string, basis: string, oldString: string, newString: string, replaceAll: bool,
                        minted: string, io: Io)
      returns (reply: Reply)
      requires Valid() && oldString != "" && path in files && files[path].File?
               && Holds(entries, basis, path, files[path].content)
      modifies this
      ensures Valid()
      ensures var before := old(files)[path].content;
              var edited := Edited(before, oldString, newString, replaceAll);
              if io.writeOk && edited.Some? && |edited.value| <= MAX_OUTPUT_BYTES then
                && reply == Done(minted, Count(before, oldString))
                && files == old(files)[path := old(files)[path].(content := edited.value)]
                && log == old(log) + [Replaced(path, before, edited.value, basis, false),
                  Captured(minted, path, edited.value, ByMutating)]
              else reply == Refused && files == old(files) && log == old(log)
    {
      var current := files[path].content;
      var n := Count(current, oldString);
      if n == 0 || (n > 1 && !replaceAll) {
        return Refused;
      }
      var limit := if replaceAll then n else 1;
      var newContent := Replace(current, oldString, newString, limit);
      ReplaceAllJoins(current, oldString, newString, limit);
      if |newContent| > MAX_OUTPUT_BYTES || !io.writeOk {
        return Refused;
      }
      PutReplaced(path, basis, newContent, false, minted);
      return Done(minted, n);
    }

    method PutCreated(path: string, content: string, minted: string)
      requires Valid() && path !in files
      modifies this
      ensures Valid() && files == old(files)[path := File(content, NEW_FILE_MODE)]
      ensures log == old(log) + [Created(path, content), Captured(minted, path, content, ByMutating)]
    {
      files := files[path := File(content, NEW_FILE_MODE)];
      Log(Created(path, content));
      Record(minted, path, content, ByMutating);
      Appended(old(log), Created(path, content), Captured(minted, path, content, ByMutating));
    }

    method PutReplaced(path: string, basis: string, after: string, whole: bool, minted: string)
      requires Valid() && path in files && files[path].File? && Holds(entries, basis, path, files[path].content)
      requires whole ==> !entries[basis].unread
      modifies this
      ensures Valid() && files == old(files)[path := old(files)[path].(content := after)]
      ensures log == old(log) + [Replaced(path, old(files)[path].content, after, basis, whole),
              Captured(minted, path, after, ByMutating)]
    {
      FreshBasisInforms(log, path, basis, after, whole);
      ghost var before := files[path].content;
      files := files[path := files[path].(content := after)];
      Log(Replaced(path, before, after, basis, whole));
      Record(minted, path, after, ByMutating);
      Appended(old(log), Replaced(path, before, after, basis, whole), Captured(minted, path, after, ByMutating));
    }

    /** `minted` is what the capture engine mints for this call, if it does. */
    method EditFile(path: string, basis: string, oldString: string, newString: string, replaceAll: bool,
                    minted: string, io: Io)
      returns (reply: Reply)
      requires Valid()
      modifies this
      ensures Valid()
      ensures var proper := !Blank(path) && oldString != "" && oldString != newString
              && ReadFull(old(files), path, io).Some?;
              if !proper then reply == Refused && files == old(files) && log == old(log)
              else
                var before := ReadFull(old(files), path, io).value;
                var edited := Edited(before, oldString, newString, replaceAll);
                if !Holds(old(entries), basis, path, before) then
                  reply == Rejected(minted, before) && files == old(files)
                  && log == old(log) + [Captured(minted, path, before, ByRejecting)]
                else if io.writeOk && edited.Some? && |edited.value| <= MAX_OUTPUT_BYTES then
                  reply == Done(minted, Count(before, oldString))
                  && files == old(files)[path := old(files)[path].(content := edited.value)]
                  && log == old(log) + [Replaced(path, before, edited.value, basis, false),
                    Captured(minted, path, edited.value, ByMutating)]
                else reply == Refused && files == old(files) && log == old(log)
      ensures log == old(log) + Events(old(files), old(entries),
              Edit(path, basis, oldString, newString, replaceAll, minted, io))
      ensures reply.Done? ==>
                && path in files && files[path].File?
                && path in old(files) && old(files)[path].File?
                && !AnchorFails(old(files)[path].content, oldString, replaceAll)
                && (!replaceAll ==> exists i: nat ::
                      ExchangesFirst(old(files)[path].content, oldString, newString, i, files[path].content))
                && (replaceAll ==> ExchangesAll(old(files)[path].content, oldString, newString, files[path].content))
      ensures reply == Refused && io.writeOk && !Blank(path) && oldString != "" && oldString != newString ==>
                var before := ReadFull(old(files), path, io);
                before.None? || AnchorFails(before.value, oldString, replaceAll)
                || var edited := Edited(before.value, oldString, newString, replaceAll);
                   edited.Some? && |edited.value| > MAX_OUTPUT_BYTES
    {
      if Blank(path) || |oldString| == 0 || oldString == newString {
        return Refused;
      }
      var current := ReadFull(files, path, io);
      if current.None? {
        return Refused;
      }
      if !Holds(entries, basis, path, current.value) {
        reply := Reject(path, current.value, minted);
        return;
      }
      EditedIff(current.value, oldString, newString, replaceAll);
      reply := EditMatching(path, basis, oldString, newString, replaceAll, minted, io);
    }

    /** Creates a file that is not there, or replaces one the caller has seen. */
    method WriteFile(path: string, basis: string, content: string, minted: string, io: Io) returns (reply: Reply)
      requires Valid()
      modifies this
      ensures Valid()
      ensures var proper := !Blank(path) && |content| <= MAX_OUTPUT_BYTES && io.statOk;
              if !proper then reply == Refused && files == old(files) && log == old(log)
              else if path !in old(files) then
                if !Blank(basis) then reply == Gone && files == old(files) && log == old(log)
                else if !io.writeOk then reply == Refused && files == old(files) && log == old(log)
                else
                  reply == Done(minted, 0) && files == old(files)[path := File(content, NEW_FILE_MODE)]
                  && log == old(log) + [Created(path, content), Captured(minted, path, content, ByMutating)]
              else if ReadFull(old(files), path, io).None? then reply == Refused && files == old(files)
                && log == old(log)
              else
                var before := ReadFull(old(files), path, io).value;
                if !Holds(old(entries), basis, path, before) then
                  reply == Rejected(minted, before) && files == old(files)
                  && log == old(log) + [Captured(minted, path, before, ByRejecting)]
                else if old(entries)[basis].unread then reply == NotReadYet && files == old(files) && log == old(log)
                else if !io.writeOk then reply == Refused && files == old(files) && log == old(log)
                else
                  reply == Done(minted, 0) && files == old(files)[path := old(files)[path].(content := content)]
                  && log == old(log) + [Replaced(path, before, content, basis, true),
                    Captured(minted, path, content, ByMutating)]
      ensures log == old(log) + Events(old(files), old(entries), Write(path, basis, content, minted, io))
    {
      if Blank(path) || |content| > MAX_OUTPUT_BYTES || !io.statOk {
        return Refused;
      }
      if path !in files {
        if !Blank(basis) {
          return Gone;
        }
        if !io.writeOk {
          return Refused;
        }
        PutCreated(path, content, minted);
      } else {
        var current := ReadFull(files, path, io);
        if current.None? {
          return Refused;
        }
        if !Holds(entries, basis, path, current.value) {
          reply := Reject(path, current.value, minted);
          return;
        }
        if entries[basis].unread {
          return NotReadYet;
        }
        if !io.writeOk {
          return Refused;
        }
        PutReplaced(path, basis, content, true, minted);
      }
      return Done(minted, 0);
    }
  }
}
