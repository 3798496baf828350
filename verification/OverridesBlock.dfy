/**
 * The block of overrides use-nestjs-version.ts writes into the workspace file, and takes out again.
 */
module OverridesBlock {
  import opened Options

  const MARKER := "  # nestjs:use \U{2014} "
  const BY := " (generated by "
  const SCRIPT := "scripts/use-" + "nestjs-version" + ".ts"
  const NOTE := BY + SCRIPT + ", do not commit)"
  const BLOCK_START := MARKER + ("begin" + NOTE)
  const BLOCK_END := MARKER + "end"
  const SECTION := "overrides:"

  // ---- Searching ----

  predicate At(s: string, p: string, k: nat) {
    k + |p| <= |s| && s[k..k + |p|] == p
  }

  /** `indexOf`. */
  function IndexOf(s: string, p: string, from: nat): (k: Option<nat>)
    requires from <= |s|
    ensures k.Some? ==> k.value >= from && At(s, p, k.value) && forall j: nat | from <= j < k.value :: !At(s, p, j)
    ensures k.None? ==> forall j: nat | from <= j :: !At(s, p, j)
    decreases |s| - from
  {
    if At(s, p, from) then Some(from)
    else if from == |s| then None
    else IndexOf(s, p, from + 1)
  }

  ghost predicate Contains(s: string, p: string) {
    exists k: nat :: At(s, p, k)
  }

  lemma FoundFirst(s: string, p: string, k: nat)
    requires At(s, p, k) && forall j: nat | j < k :: !At(s, p, j)
    ensures IndexOf(s, p, 0) == Some(k)
  {
    var found := IndexOf(s, p, 0);
    assert found.Some? && !(found.value < k) && !(k < found.value);
  }

  // ---- Taking the block out ----

  /** What stands before the first marker and after the second, with the line break that follows it. */
  function Without(s: string, first: string, second: string): string {
    var start, end := IndexOf(s, first, 0), IndexOf(s, second, 0);
    if start.None? || end.None? then s
    else s[..start.value] + (var after := end.value + |second| + 1; if after <= |s| then s[after..] else "")
  }

  function WithoutBlock(s: string): string {
    Without(s, BLOCK_START, BLOCK_END)
  }

  // ---- Putting it in ----

  /** Where a line of its own says `overrides:`. */
  predicate SectionAt(s: string, k: nat) {
    At(s, SECTION + "\n", k) && (k == 0 || s[k - 1] == '\n' || s[k - 1] == '\r' || s[k - 1] == '\U{2028}' || s[k - 1] == '\U{2029}')
  }

  function FindSection(s: string, from: nat): (k: Option<nat>)
    requires from <= |s|
    ensures k.Some? ==> SectionAt(s, k.value)
    ensures k.None? ==> forall j: nat | from <= j :: !SectionAt(s, j)
    decreases |s| - from
  {
    if SectionAt(s, from) then Some(from)
    else if from == |s| then None
    else FindSection(s, from + 1)
  }

  ghost predicate HasSection(s: string) {
    exists k: nat :: SectionAt(s, k)
  }

  predicate IsSpace(c: char) {
    c == ' ' || c == '\n' || c == '\r' || c == '\t'
  }

  function TrimEnd(s: string): string {
    if s != "" && IsSpace(s[|s| - 1]) then TrimEnd(s[..|s| - 1]) else s
  }

  /** The entries of a major, one line each. */
  function Lines(entries: seq<string>): string {
    if entries == [] then "" else entries[0] + "\n" + Lines(entries[1..])
  }

  function Block(entries: seq<string>): string {
    BLOCK_START + "\n" + (Lines(entries) + BLOCK_END)
  }

  /** The text with a block put at a position, on a line of its own. */
  function PutAt(s: string, block: string, pos: nat): string
    requires pos <= |s|
  {
    s[..pos] + (block + ("\n" + s[pos..]))
  }

  /** The file with a section of its own at the end. */
  function WithSection(s: string): string {
    TrimEnd(s) + "\n\n" + SECTION + "\n"
  }

  function Insert(s: string, entries: seq<string>): string {
    match FindSection(s, 0)
    case Some(k) => PutAt(s, Block(entries), k + |SECTION| + 1)
    case None => WithSection(s) + (Block(entries) + "\n")
  }

  /** A major: `None` is the default, which needs no overrides. */
  type Major = Option<seq<string>>

  function Switch(s: string, major: Major): string {
    var clean := WithoutBlock(s);
    if major.None? then clean else Insert(clean, major.value)
  }

  /** The entries are plain: a line each, without the sign every marker holds, or the one `replace` expands. */
  ghost predicate IsPlain(entries: seq<string>) {
    forall e <- entries :: '\n' !in e && '#' !in e && '$' !in e
  }

  ghost predicate Unmarked(s: string) {
    !Contains(s, BLOCK_START) && !Contains(s, BLOCK_END)
  }

  // ---- Where a marker can stand ----

  /** A text of one line stands on one side of a line break. */
  lemma OneSide(a: string, b: string, p: string, k: nat)
    requires '\n' !in p && p != ""
    ensures At(a + "\n" + b, p, k) <==> At(a, p, k) || (k >= |a| + 1 && At(b, p, k - |a| - 1))
  {
    var u := a + "\n" + b;
    if k + |p| <= |a| {
      assert u[k..k + |p|] == a[k..k + |p|];
    } else if k > |a| {
      if k + |p| <= |u| {
        assert u[k..k + |p|] == b[k - |a| - 1..k - |a| - 1 + |p|];
      }
    } else if k + |p| <= |u| {
      assert u[k..k + |p|][|a| - k] == '\n';
    }
  }

  lemma HoldsItsChars(s: string, p: string, k: nat, c: char)
    requires At(s, p, k) && c in p
    ensures c in s
  {
    var i :| 0 <= i < |p| && p[i] == c;
    assert s[k..k + |p|][i] == s[k + i];
  }

  lemma NoMarkerWithoutSign(s: string, p: string, k: nat)
    requires '#' !in s && '#' in p
    ensures !At(s, p, k)
  {
    if At(s, p, k) { HoldsItsChars(s, p, k, '#'); }
  }

  /** A marker does not stand in the entries. */
  lemma {:induction false} NotInLines(entries: seq<string>, rest: string, p: string, k: nat)
    requires IsPlain(entries) && '\n' !in p && '#' in p && At(Lines(entries) + rest, p, k)
    ensures k >= |Lines(entries)| && At(rest, p, k - |Lines(entries)|)
  {
    if entries == [] {
      assert Lines(entries) + rest == rest;
    } else {
      var e, others := entries[0], Lines(entries[1..]) + rest;
      assert e in entries && forall x <- entries[1..] :: x in entries;
      assert Lines(entries) + rest == e + "\n" + others;
      OneSide(e, others, p, k);
      NoMarkerWithoutSign(e, p, k);
      NotInLines(entries[1..], rest, p, k - |e| - 1);
    }
  }

  // ---- Where the two markers stand ----

  /** What the proof uses of the two markers: one line each, with the sign, neither within the other. */
  ghost predicate AreMarkers(start: string, end: string) {
    && '\n' !in start && '\n' !in end && '#' in start && '#' in end && start != end
    && (forall k: nat :: At(start, start, k) ==> k == 0) && (forall k: nat :: !At(start, end, k))
    && (forall k: nat :: At(end, end, k) ==> k == 0) && (forall k: nat :: !At(end, start, k))
  }

  function BlockOf(start: string, end: string, entries: seq<string>): string {
    start + "\n" + (Lines(entries) + end)
  }

  /** In a text with a block put between `before` and `after`, the markers only stand where the block is. */
  lemma MarkersStandInTheBlock(start: string, end: string, before: string, entries: seq<string>, after: string, p: string, k: nat)
    requires AreMarkers(start, end) && IsPlain(entries) && (p == start || p == end)
    requires (forall j: nat :: !At(before, p, j)) && (forall j: nat :: !At(after, p, j))
    ensures At(before + "\n" + (BlockOf(start, end, entries) + ("\n" + after)), p, k)
            <==> k == |before| + 1 + if p == start then 0 else |start| + 1 + |Lines(entries)|
  {
    var tail, lines := BlockOf(start, end, entries) + ("\n" + after), Lines(entries) + (end + "\n" + after);
    BlockTail(start, end, entries, after);
    AtFront(p);
    hide At, Lines, BlockOf, IsPlain;
    OneSide(before, tail, p, k);
    if k >= |before| + 1 {
      var i := k - |before| - 1;
      OneSide(start, lines, p, i);
      if i >= |start| + 1 {
        InTheLastLine(start, end, entries, after, p, i - |start| - 1);
      }
    }
  }

  lemma AtFront(p: string)
    ensures At(p, p, 0)
  {
  }

  lemma BlockTail(start: string, end: string, entries: seq<string>, after: string)
    ensures BlockOf(start, end, entries) + ("\n" + after) == start + "\n" + (Lines(entries) + (end + "\n" + after))
  {
  }

  lemma InTheLastLine(start: string, end: string, entries: seq<string>, after: string, p: string, j: nat)
    requires AreMarkers(start, end) && IsPlain(entries) && (p == start || p == end) && forall i: nat :: !At(after, p, i)
    ensures At(Lines(entries) + (end + "\n" + after), p, j) <==> p == end && j == |Lines(entries)|
  {
    var rest := end + "\n" + after;
    if At(Lines(entries) + rest, p, j) {
      NotInLines(entries, rest, p, j);
      OneSide(end, after, p, j - |Lines(entries)|);
    }
    if p == end && j == |Lines(entries)| {
      assert (Lines(entries) + rest)[j..j + |p|] == end;
    }
  }

  lemma TheseAreMarkers()
    ensures AreMarkers(BLOCK_START, BLOCK_END) && |BLOCK_END| < |BLOCK_START|
    ensures forall entries :: Block(entries) == BlockOf(BLOCK_START, BLOCK_END, entries)
  {
    assert '\n' !in BY && '\n' !in "scripts/use-" && '\n' !in "nestjs-version" && '\n' !in ", do not commit)";
    assert '\n' !in MARKER && '#' in MARKER;
    forall k: nat ensures !At(BLOCK_START, BLOCK_END, k) {
      EndIsNotInStart(k);
    }
  }

  /** The sign of a marker is its third character, and its only one. */
  lemma MarkerSign(i: nat)
    requires i < |BLOCK_START|
    ensures BLOCK_START[i] == '#' <==> i == 2
  {
    assert '#' !in BY && '#' !in "scripts/use-" && '#' !in "nestjs-version" && '#' !in ", do not commit)";
    assert '#' !in "begin" && |MARKER| == 17;
    if i >= |MARKER| {
      assert BLOCK_START[i] in "begin" + NOTE;
    } else {
      assert BLOCK_START[i] == MARKER[i];
    }
  }

  lemma CharAt(s: string, p: string, k: nat, i: nat)
    requires At(s, p, k) && i < |p|
    ensures k + i < |s| && s[k + i] == p[i]
  {
    assert s[k..k + |p|][i] == s[k + i];
  }

  lemma EndOnlyFitsAtTheFront(k: nat)
    requires At(BLOCK_START, BLOCK_END, k)
    ensures k == 0
  {
    assert BLOCK_END[2] == MARKER[2] == '#';
    CharAt(BLOCK_START, BLOCK_END, k, 2);
    MarkerSign(k + 2);
  }

  lemma EndIsNotInStart(k: nat)
    ensures !At(BLOCK_START, BLOCK_END, k)
  {
    var n := |MARKER|;
    assert BLOCK_START[n] == ("begin" + NOTE)[0] == 'b' && BLOCK_END[n] == "end"[0] == 'e';
    assert n < |BLOCK_END| ==> BLOCK_START[..|BLOCK_END|][n] == BLOCK_START[n];
    if At(BLOCK_START, BLOCK_END, k) { EndOnlyFitsAtTheFront(k); }
  }

  // ---- Putting a block in and taking it out ----

  lemma {:induction false} Prefix(s: string, p: string, n: nat, k: nat)
    requires n <= |s|
    ensures At(s[..n], p, k) ==> At(s, p, k)
    ensures At(s[n..], p, k) ==> At(s, p, n + k)
  {
    if At(s[..n], p, k) { assert s[..n][k..k + |p|] == s[k..k + |p|]; }
    if At(s[n..], p, k) { assert s[n..][k..k + |p|] == s[n + k..n + k + |p|]; }
  }

  /** A block put in after a line break, and taken out again, leaves the text as it was. */
  lemma PutInAndTakenOut(start: string, end: string, before: string, entries: seq<string>, after: string)
    requires AreMarkers(start, end) && IsPlain(entries)
    requires forall k: nat :: !At(before, start, k) && !At(after, start, k) && !At(before, end, k) && !At(after, end, k)
    ensures var u := before + "\n" + (BlockOf(start, end, entries) + ("\n" + after));
            && Without(u, start, end) == before + "\n" + after && OneOf(u, start) && OneOf(u, end)
  {
    var u := before + "\n" + (BlockOf(start, end, entries) + ("\n" + after));
    MarkersStandOnce(start, end, before, entries, after);
    TakenOut(start, end, before, entries, after);
    hide *;
    WithoutBetween(u, start, end, |before| + 1, |before| + 1 + |start| + 1 + |Lines(entries)|, before + "\n", after);
  }

  lemma WithoutBetween(u: string, start: string, end: string, first: nat, last: nat, before: string, after: string)
    requires IndexOf(u, start, 0) == Some(first) && IndexOf(u, end, 0) == Some(last) && first <= |u| && last + |end| + 1 <= |u|
    requires u[..first] == before && u[last + |end| + 1..] == after
    ensures Without(u, start, end) == before + after
  {
    hide IndexOf, At;
  }

  lemma MarkersStandOnce(start: string, end: string, before: string, entries: seq<string>, after: string)
    requires AreMarkers(start, end) && IsPlain(entries)
    requires forall k: nat :: !At(before, start, k) && !At(after, start, k) && !At(before, end, k) && !At(after, end, k)
    ensures var u := before + "\n" + (BlockOf(start, end, entries) + ("\n" + after));
            var first, last := |before| + 1, |before| + 1 + |start| + 1 + |Lines(entries)|;
            IndexOf(u, start, 0) == Some(first) && IndexOf(u, end, 0) == Some(last) && OneOf(u, start) && OneOf(u, end)
  {
    DistinctMarkers(start, end);
    hide *;
    MarkerStandsOnce(start, end, before, entries, after, start);
    MarkerStandsOnce(start, end, before, entries, after, end);
  }

  lemma DistinctMarkers(start: string, end: string)
    requires AreMarkers(start, end)
    ensures start != end
  {
  }

  lemma MarkerStandsOnce(start: string, end: string, before: string, entries: seq<string>, after: string, p: string)
    requires AreMarkers(start, end) && IsPlain(entries) && (p == start || p == end)
    requires (forall k: nat :: !At(before, p, k)) && (forall k: nat :: !At(after, p, k))
    ensures var u := before + "\n" + (BlockOf(start, end, entries) + ("\n" + after));
            var k := |before| + 1 + if p == start then 0 else |start| + 1 + |Lines(entries)|;
            IndexOf(u, p, 0) == Some(k) && OneOf(u, p)
  {
    hide AreMarkers, BlockOf, At, Lines, IsPlain;
    var u := before + "\n" + (BlockOf(start, end, entries) + ("\n" + after));
    var at := |before| + 1 + if p == start then 0 else |start| + 1 + |Lines(entries)|;
    forall k: nat ensures At(u, p, k) <==> k == at {
      MarkersStandInTheBlock(start, end, before, entries, after, p, k);
    }
    hide IndexOf;
    FoundFirst(u, p, at);
  }

  lemma TakenOut(start: string, end: string, before: string, entries: seq<string>, after: string)
    ensures var u := before + "\n" + (BlockOf(start, end, entries) + ("\n" + after));
            var last := |before| + 1 + |start| + 1 + |Lines(entries)|;
            last + |end| + 1 <= |u| && u[..|before| + 1] == before + "\n" && u[last + |end| + 1..] == after
  {
  }

  /** A text that holds another in one place only. */
  ghost predicate OneOf(s: string, p: string) {
    forall j: nat, k: nat | At(s, p, j) && At(s, p, k) :: j == k
  }

  lemma UnmarkedParts(s: string, n: nat)
    requires n <= |s| && Unmarked(s)
    ensures Unmarked(s[..n]) && Unmarked(s[n..])
  {
    hide At;
    forall k: nat, p | p == BLOCK_START || p == BLOCK_END ensures !At(s[..n], p, k) && !At(s[n..], p, k) {
      Prefix(s, p, n, k);
    }
  }

  ghost predicate HasOneBlock(s: string) {
    OneOf(s, BLOCK_START) && OneOf(s, BLOCK_END)
  }

  /** Put under the section a file has, the block comes out without a trace. */
  lemma SectionIsRestored(s: string, entries: seq<string>, k: nat)
    requires Unmarked(s) && IsPlain(entries) && FindSection(s, 0) == Some(k)
    ensures WithoutBlock(Insert(s, entries)) == s && HasOneBlock(Insert(s, entries))
  {
    hide AreMarkers, IsPlain, WithoutBlock, OneOf;
    var line := k + |SECTION|;
    var before, after := s[..line], s[line + 1..];
    assert s[k..k + |SECTION + "\n"|][|SECTION|] == '\n' && s == before + "\n" + after;
    assert s[..line + 1] == before + "\n";
    UnmarkedParts(s, line);
    UnmarkedParts(s, line + 1);
    TheseAreMarkers();
    PutInAndTakenOut(BLOCK_START, BLOCK_END, before, entries, after);
    assert Insert(s, entries) == before + "\n" + (BlockOf(BLOCK_START, BLOCK_END, entries) + ("\n" + after));
    WithoutIs(Insert(s, entries));
  }

  lemma WithoutIs(s: string)
    ensures WithoutBlock(s) == Without(s, BLOCK_START, BLOCK_END)
  {
  }

  lemma {:induction false} TrimmedIsPrefix(s: string)
    ensures TrimEnd(s) <= s
  {
    if s != "" && IsSpace(s[|s| - 1]) {
      TrimmedIsPrefix(s[..|s| - 1]);
    }
  }

  lemma TrimmedIsUnmarked(s: string)
    requires Unmarked(s)
    ensures Unmarked(TrimEnd(s))
  {
    TrimmedIsPrefix(s);
    assert TrimEnd(s) == s[..|TrimEnd(s)|];
    UnmarkedParts(s, |TrimEnd(s)|);
  }

  lemma UnmarkedSection(s: string)
    requires Unmarked(s)
    ensures Unmarked(s + "\n" + ("" + "\n" + SECTION))
  {
    TheseAreMarkers();
    forall p, k: nat | p == BLOCK_START || p == BLOCK_END ensures !At(s + "\n" + ("" + "\n" + SECTION), p, k) {
      OneSide(s, "" + "\n" + SECTION, p, k);
      if k >= |s| + 1 {
        OneSide("", SECTION, p, k - |s| - 1);
        if k >= |s| + 2 { NoMarkerWithoutSign(SECTION, p, k - |s| - 2); }
      }
    }
  }

  lemma InsertedAtTheEnd(s: string, entries: seq<string>)
    requires FindSection(s, 0) == None
    ensures Insert(s, entries)
            == TrimEnd(s) + "\n" + ("" + "\n" + SECTION) + "\n" + (BlockOf(BLOCK_START, BLOCK_END, entries) + ("\n" + ""))
  {
    InsertedWithSection(s, entries);
    AddedText(TrimEnd(s));
    SameBlock(entries);
    assert WithSection(s) == TrimEnd(s) + "\n\n" + SECTION + "\n";
    hide *;
    TailText(TrimEnd(s) + "\n" + ("" + "\n" + SECTION), WithSection(s), Block(entries));
  }

  lemma SameBlock(entries: seq<string>)
    ensures Block(entries) == BlockOf(BLOCK_START, BLOCK_END, entries)
  {
    hide Lines;
  }

  lemma TailText(before: string, section: string, block: string)
    requires before + "\n" + "" == section
    ensures section + (block + "\n") == before + "\n" + (block + ("\n" + ""))
  {
    assert "\n" + "" == "\n" && before + "\n" + "" == before + "\n";
  }

  lemma InsertedWithSection(s: string, entries: seq<string>)
    requires FindSection(s, 0) == None
    ensures Insert(s, entries) == WithSection(s) + (Block(entries) + "\n")
  {
    hide TrimEnd, Block, FindSection, PutAt, WithSection;
  }

  /** A file without one is given a section, which stays behind. */
  lemma SectionStaysBehind(s: string, entries: seq<string>)
    requires Unmarked(s) && IsPlain(entries) && FindSection(s, 0) == None
    ensures WithoutBlock(Insert(s, entries)) == TrimEnd(s) + "\n\n" + SECTION + "\n" && HasOneBlock(Insert(s, entries))
  {
    var trimmed := TrimEnd(s);
    var before := trimmed + "\n" + ("" + "\n" + SECTION);
    TrimmedIsUnmarked(s);
    UnmarkedSection(trimmed);
    TheseAreMarkers();
    NothingIsUnmarked();
    UnmarkedAre(before);
    UnmarkedAre("");
    InsertedAtTheEnd(s, entries);
    WithoutIs(Insert(s, entries));
    AddedText(trimmed);
    hide *;
    PutInAndTakenOut(BLOCK_START, BLOCK_END, before, entries, "");
    OneBlock(Insert(s, entries));
  }

  lemma UnmarkedAre(s: string)
    requires Unmarked(s)
    ensures forall k: nat :: !At(s, BLOCK_START, k) && !At(s, BLOCK_END, k)
  {
  }

  lemma OneBlock(s: string)
    requires OneOf(s, BLOCK_START) && OneOf(s, BLOCK_END)
    ensures HasOneBlock(s)
  {
  }

  lemma AddedText(trimmed: string)
    ensures trimmed + "\n" + ("" + "\n" + SECTION) + "\n" + "" == trimmed + "\n\n" + SECTION + "\n"
  {
    assert "\n\n" == "\n" + "\n";
  }

  lemma NothingIsUnmarked()
    ensures Unmarked("")
  {
    TheseAreMarkers();
  }

  /** Exactly the files that have an `overrides:` line come back byte for byte. */
  lemma RestoredIffSection(s: string, entries: seq<string>)
    requires Unmarked(s) && IsPlain(entries)
    ensures WithoutBlock(Insert(s, entries)) == s <==> HasSection(s)
  {
    hide Insert, WithoutBlock, SectionAt, IsPlain;
    match FindSection(s, 0)
    case Some(k) => SectionIsRestored(s, entries, k);
    case None =>
      SectionStaysBehind(s, entries);
      AddedSection(TrimEnd(s));
  }

  lemma AddedSection(s: string)
    ensures HasSection(s + "\n\n" + SECTION + "\n")
  {
    var t := s + "\n\n" + SECTION + "\n";
    assert t[|s| + 2..|s| + 2 + |SECTION + "\n"|] == SECTION + "\n";
    assert SectionAt(t, |s| + 2);
  }

  function Switches(s: string, majors: seq<Major>): string {
    if majors == [] then s else Switch(Switches(s, majors[..|majors| - 1]), majors[|majors| - 1])
  }

  /**
   * After any sequence of switches the file depends on the original and the last major only, holds
   * at most one block, and is the original again once the last is the default.
   */
  lemma {:induction false} SwitchesDependOnTheLast(s: string, majors: seq<Major>)
    requires Unmarked(s) && HasSection(s) && forall m <- majors :: m.Some? ==> IsPlain(m.value)
    ensures Switches(s, majors) == if majors == [] || majors[|majors| - 1].None? then s else Insert(s, majors[|majors| - 1].value)
    ensures WithoutBlock(Switches(s, majors)) == s && HasOneBlock(Switches(s, majors))
  {
    var k := FindSection(s, 0).value;
    if majors == [] {
      NoBlockToTakeOut(s);
    } else {
      var n := |majors| - 1;
      SwitchesDependOnTheLast(s, majors[..n]);
      assert majors[n] in majors;
      if majors[n].Some? {
        SectionIsRestored(s, majors[n].value, k);
      } else {
        NoBlockToTakeOut(s);
      }
    }
  }

  // ---- What is put in ----

  /** `join('\n')`. */
  function JoinLines(lines: seq<string>): string {
    if lines == [] then "" else if |lines| == 1 then lines[0] else lines[0] + "\n" + JoinLines(lines[1..])
  }

  lemma {:induction false} LinesAreJoined(entries: seq<string>, end: string)
    ensures Lines(entries) + end == JoinLines(entries + [end])
  {
    if entries == [] {
      assert entries + [end] == [end] && "" + end == end;
    } else {
      LinesAreJoined(entries[1..], end);
      assert (entries + [end])[1..] == entries[1..] + [end];
      AssociatesThree(entries[0], Lines(entries[1..]), end);
    }
  }

  lemma AssociatesThree(a: string, b: string, c: string)
    ensures (a + "\n" + b) + c == a + "\n" + (b + c)
  {
  }

  /** The block is a line for its beginning, a line for every entry, in order, and a line for its end. */
  lemma BlockIsLines(entries: seq<string>)
    ensures Block(entries) == JoinLines([BLOCK_START] + (entries + [BLOCK_END]))
  {
    var lines := entries + [BLOCK_END];
    LinesAreJoined(entries, BLOCK_END);
    assert ([BLOCK_START] + lines)[1..] == lines && ([BLOCK_START] + lines)[0] == BLOCK_START && lines != [];
    hide Lines;
  }

  /** Where a line says `overrides:`: at the beginning, or after any line break there is. */
  lemma SectionIs(s: string, k: nat)
    ensures SectionAt(s, k) <==>
            && k + 11 <= |s| && s[k..k + 11] == "overrides:\n"
            && (k == 0 || s[k - 1] == '\n' || s[k - 1] == '\r' || s[k - 1] == '\U{2028}' || s[k - 1] == '\U{2029}')
  {
    assert SECTION + "\n" == "overrides:\n";
  }

  /** The block goes right below the first section; without one, a section and the block go below the text, its trailing space trimmed. */
  lemma InsertedWhere(s: string, entries: seq<string>)
    ensures forall k | FindSection(s, 0) == Some(k) ::
              k + 11 <= |s| && SectionAt(s, k) && (forall j: nat | j < k :: !SectionAt(s, j))
              && Insert(s, entries) == s[..k + 11] + (Block(entries) + ("\n" + s[k + 11..]))
    ensures FindSection(s, 0) == None ==>
              (forall j: nat :: !SectionAt(s, j)) && Insert(s, entries) == TrimEnd(s) + "\n\n" + "overrides:" + "\n" + (Block(entries) + "\n")
  {
    hide TrimEnd, Block, SectionAt;
    FoundFits(s);
    if FindSection(s, 0).Some? {
      var k := FindSection(s, 0).value;
      forall j: nat | j < k ensures !SectionAt(s, j) {
        if SectionAt(s, j) { FoundSectionFrom(s, 0, j); }
      }
    }
  }

  /** Trimmed is a beginning of the text that ends in no white space, what follows it being white space. */
  lemma {:induction false} TrimmedIs(s: string)
    ensures var trimmed := TrimEnd(s);
            && trimmed <= s && (forall i | |trimmed| <= i < |s| :: s[i] == ' ' || s[i] == '\n' || s[i] == '\r' || s[i] == '\t')
            && (trimmed == "" || !(trimmed[|trimmed| - 1] == ' ' || trimmed[|trimmed| - 1] == '\n' || trimmed[|trimmed| - 1] == '\r' || trimmed[|trimmed| - 1] == '\t'))
  {
    if s != "" && IsSpace(s[|s| - 1]) { TrimmedIs(s[..|s| - 1]); }
  }

  // ---- Files without a section ----

  /** Whether the text ends in a line `overrides:` that no line break follows, once it is trimmed. */
  predicate EndsInSection(s: string) {
    var trimmed := TrimEnd(s);
    |SECTION| <= |trimmed| && SectionAt(trimmed + "\n", |trimmed| - |SECTION|)
  }

  /** Nothing but defaults before the last switch, which is none. */
  predicate OnlyTheLastSwitches(majors: seq<Major>) {
    majors != [] && majors[|majors| - 1].Some? && forall m <- majors[..|majors| - 1] :: m.None?
  }

  lemma SectionInPrefix(s: string, t: string, k: nat)
    requires k + |SECTION| + 1 <= |s| && k + |SECTION| + 1 <= |t| && s[..k + |SECTION| + 1] == t[..k + |SECTION| + 1]
    ensures SectionAt(s, k) <==> SectionAt(t, k)
  {
    var n := k + |SECTION| + 1;
    assert s[k..n] == s[..n][k..n] && t[k..n] == t[..n][k..n];
    assert k > 0 ==> s[k - 1] == s[..n][k - 1] && t[k - 1] == t[..n][k - 1];
  }

  lemma NoLineBreakInside(s: string, k: nat, j: nat)
    requires SectionAt(s, k) && k <= j < k + |SECTION|
    ensures j < |s| && s[j] != '\n'
  {
    assert s[k..k + |SECTION| + 1][j - k] == s[j] == SECTION[j - k];
    assert '\n' !in SECTION && SECTION[j - k] in SECTION;
  }

  /** What stands before the added section stands in the file, unless the file ends in one. */
  lemma EarlierSection(s: string, k: nat)
    requires k < |TrimEnd(s)| + 2 && SectionAt(WithSection(s), k)
    ensures SectionAt(s, k) || (EndsInSection(s) && k == |TrimEnd(s)| - |SECTION|)
  {
    var trimmed, base, n := TrimEnd(s), WithSection(s), k + |SECTION| + 1;
    TrimmedIsPrefix(s);
    hide TrimEnd;
    if k + |SECTION| < |trimmed| {
      assert base[..n] == trimmed[..n] == s[..n];
      SectionInPrefix(s, base, k);
    } else if k + |SECTION| > |trimmed| {
      NoLineBreakInside(base, k, if k <= |trimmed| then |trimmed| else |trimmed| + 1);
    } else {
      assert base[..n] == (trimmed + "\n")[..n];
      SectionInPrefix(trimmed + "\n", base, k);
    }
  }

  lemma SectionAdded(s: string)
    ensures |TrimEnd(s)| + 2 <= |WithSection(s)| && SectionAt(WithSection(s), |TrimEnd(s)| + 2)
  {
    var trimmed := TrimEnd(s);
    hide TrimEnd;
    var base := trimmed + "\n\n" + SECTION + "\n";
    assert base[|trimmed| + 2..|trimmed| + 2 + |SECTION + "\n"|] == SECTION + "\n";
  }

  lemma SectionRevealed(s: string)
    requires EndsInSection(s)
    ensures |SECTION| <= |TrimEnd(s)| && SectionAt(WithSection(s), |TrimEnd(s)| - |SECTION|)
  {
    var trimmed := TrimEnd(s);
    hide TrimEnd;
    var base := trimmed + "\n\n" + SECTION + "\n";
    assert base[..|trimmed| + 1] == trimmed + "\n" == (trimmed + "\n")[..|trimmed| + 1];
    SectionInPrefix(trimmed + "\n", base, |trimmed| - |SECTION|);
  }

  lemma FirstOf(s: string, k: nat)
    requires k <= |s| && SectionAt(s, k) && forall j: nat | j < k :: !SectionAt(s, j)
    ensures FindSection(s, 0) == Some(k)
  {
    hide FindSection, SectionAt;
    FoundSectionFrom(s, 0, k);
  }

  /** Where the section of the file with a section added is found. */
  function FirstPosition(s: string): int {
    if EndsInSection(s) then |TrimEnd(s)| - |SECTION| else |TrimEnd(s)| + 2
  }

  lemma EarlierIsNone(s: string, k: nat)
    requires !HasSection(s) && k < |TrimEnd(s)| + 2 && SectionAt(WithSection(s), k)
    ensures EndsInSection(s) && k == |TrimEnd(s)| - |SECTION|
  {
    hide TrimEnd, EndsInSection, WithSection;
    EarlierSection(s, k);
  }

  lemma SectionStandsFirst(s: string)
    requires !HasSection(s)
    ensures 0 <= FirstPosition(s) <= |WithSection(s)| && SectionAt(WithSection(s), FirstPosition(s))
    ensures forall j: nat | j < FirstPosition(s) :: !SectionAt(WithSection(s), j)
  {
    SectionAdded(s);
    if EndsInSection(s) { SectionRevealed(s); }
    hide TrimEnd, SectionAt, EndsInSection, WithSection, HasSection;
    forall j: nat | j < FirstPosition(s) ensures !SectionAt(WithSection(s), j) {
      if SectionAt(WithSection(s), j) { EarlierIsNone(s, j); }
    }
  }

  lemma FirstSection(s: string)
    requires !HasSection(s)
    ensures FirstPosition(s) >= 0 && FindSection(WithSection(s), 0) == Some(FirstPosition(s))
  {
    hide *;
    SectionStandsFirst(s);
    FirstOf(WithSection(s), FirstPosition(s));
  }

  lemma {:induction false} FoundSectionFrom(s: string, from: nat, k: nat)
    requires from <= k <= |s| && SectionAt(s, k)
    ensures FindSection(s, from).Some? && from <= FindSection(s, from).value <= k
    decreases |s| - from
  {
    hide SectionAt;
    if !SectionAt(s, from) { FoundSectionFrom(s, from + 1, k); }
  }

  lemma WithSectionIsUnmarked(s: string)
    requires Unmarked(s)
    ensures Unmarked(WithSection(s)) && HasSection(WithSection(s))
  {
    AddedSection(TrimEnd(s));
    TrimmedIsUnmarked(s);
    UnmarkedSection(TrimEnd(s));
    var start := TrimEnd(s) + "\n" + ("" + "\n" + SECTION);
    assert WithSection(s) == start + "\n" + "";
    TheseAreMarkers();
    NothingIsUnmarked();
    forall p, k: nat | p == BLOCK_START || p == BLOCK_END ensures !At(WithSection(s), p, k) {
      OneSide(start, "", p, k);
    }
  }

  /** A first switch puts the block at the end, whatever section the file may now be seen to have. */
  lemma FirstInsertion(s: string, entries: seq<string>)
    requires !HasSection(s)
    ensures Insert(s, entries) == Insert(WithSection(s), entries) <==> !EndsInSection(s)
  {
    hide *;
    FirstSection(s);
    NoSection(s);
    BlockBegins(entries);
    PositionText(s);
    InsertedWithSection(s, entries);
    InsertedAt(WithSection(s), entries, FirstPosition(s));
    PutsAgree(WithSection(s), Block(entries), FirstPosition(s) + |SECTION| + 1);
  }

  /** A block put before a line break, and put at the end, does not give the same. */
  lemma PutsAgree(s: string, block: string, pos: nat)
    requires pos <= |s| && (pos < |s| ==> s[pos] == '\n') && block != "" && block[0] != '\n'
    ensures PutAt(s, block, pos) == s + (block + "\n") <==> pos == |s|
  {
    var inside, after := PutAt(s, block, pos), s + (block + "\n");
    if pos < |s| {
      assert inside[pos] == block[0] && after[pos] == s[pos];
    } else {
      assert s[..pos] == s && s[pos..] == "" && "\n" + "" == "\n";
    }
  }

  lemma NoSection(s: string)
    requires !HasSection(s)
    ensures FindSection(s, 0) == None
  {
    hide FindSection, SectionAt;
  }

  /** The block goes right before a line break, or at the end. */
  lemma PositionText(s: string)
    ensures var base, pos := WithSection(s), FirstPosition(s) + |SECTION| + 1;
            && 0 <= pos <= |base| && (pos == |base| <==> !EndsInSection(s)) && (pos < |base| ==> base[pos] == '\n')
  {
    hide TrimEnd, SectionAt;
  }

  lemma FoundFits(s: string)
    ensures FindSection(s, 0).Some? ==> FindSection(s, 0).value + |SECTION| + 1 <= |s|
  {
    hide FindSection;
  }

  lemma InsertedAt(s: string, entries: seq<string>, k: nat)
    requires FindSection(s, 0) == Some(k)
    ensures k + |SECTION| + 1 <= |s| && Insert(s, entries) == PutAt(s, Block(entries), k + |SECTION| + 1)
  {
    FoundFits(s);
    hide TrimEnd, Block, PutAt, WithSection, SectionAt, At;
  }

  lemma BlockBegins(entries: seq<string>)
    ensures Block(entries) != "" && Block(entries)[0] == ' '
  {
  }

  /** Whether some switch is not to the default. */
  predicate Changes(majors: seq<Major>) {
    exists m <- majors :: m.Some?
  }

  lemma SwitchesSnoc(s: string, before: seq<Major>, last: Major)
    ensures Switches(s, before + [last]) == Switch(Switches(s, before), last)
  {
    hide Switch;
    assert (before + [last])[..|before|] == before;
  }

  lemma OneMoreSwitch(s: string, before: seq<Major>, last: Major)
    ensures Switches(s, before + [last]) == Switch(Switches(s, before), last)
    ensures Changes(before + [last]) <==> Changes(before) || last.Some?
    ensures OnlyTheLastSwitches(before + [last]) <==> !Changes(before) && last.Some?
  {
    hide Switch, Switches;
    var majors := before + [last];
    SwitchesSnoc(s, before, last);
    assert majors[..|majors| - 1] == before && majors[..|before|] == before && majors[|majors| - 1] == majors[|before|] == last;
    if m :| m in before && m.Some? { assert m in majors; }
    assert OnlyTheLastSwitches(majors) <==> last.Some? && forall m <- before :: m.None?;
  }

  /** The default, chosen over and over, changes nothing. */
  lemma {:induction false} DefaultsKeep(s: string, majors: seq<Major>)
    requires Unmarked(s) && !Changes(majors)
    ensures Switches(s, majors) == s
  {
    if majors != [] {
      var n := |majors| - 1;
      assert majors[n] in majors;
      DefaultsKeep(s, majors[..n]);
      NoBlockToTakeOut(s);
    }
  }

  /**
   * A file without an `overrides:` line stays as it is while the default is chosen. From the first
   * other major on it goes the way of the file with the section added, which
   * `SwitchesDependOnTheLast` describes; at that first switch itself it does so exactly unless the
   * trimmed file ends in a line `overrides:`, which the switch repeats.
   */
  lemma {:induction false} SwitchesAddASection(s: string, majors: seq<Major>)
    requires Unmarked(s) && !HasSection(s) && forall m <- majors :: m.Some? ==> IsPlain(m.value)
    ensures !Changes(majors) ==> Switches(s, majors) == s
    ensures Changes(majors) ==>
              && Unmarked(WithSection(s)) && HasSection(WithSection(s)) && WithoutBlock(Switches(s, majors)) == WithSection(s)
              && (Switches(s, majors) == Switches(WithSection(s), majors) <==> !(EndsInSection(s) && OnlyTheLastSwitches(majors)))
  {
    WithSectionIsUnmarked(s);
    if majors != [] {
      var n, base := |majors| - 1, WithSection(s);
      var before, last := majors[..n], majors[n];
      assert majors == before + [last] && last in majors;
      SwitchesAddASection(s, before);
      OneMoreSwitch(s, before, last);
      OneMoreSwitch(base, before, last);
      SwitchesDependOnTheLast(base, before);
      SwitchesDependOnTheLast(base, majors);
      hide *;
      if Changes(before) {
        SameAfter(Switches(s, before), Switches(base, before), last);
      } else {
        DefaultsKeep(base, before);
        FirstSwitch(s, last);
      }
    }
  }

  lemma SameAfter(s: string, t: string, major: Major)
    requires WithoutBlock(s) == WithoutBlock(t)
    ensures Switch(s, major) == Switch(t, major)
  {
  }

  lemma FirstSwitch(s: string, major: Major)
    requires Unmarked(s) && !HasSection(s) && (major.Some? ==> IsPlain(major.value))
    ensures major.None? ==> Switch(s, major) == s
    ensures major.Some? ==>
              && WithoutBlock(Switch(s, major)) == WithSection(s)
              && (Switch(s, major) == Switch(WithSection(s), major) <==> !EndsInSection(s))
  {
    hide TrimEnd, Insert, EndsInSection, IsPlain, WithoutBlock;
    NoBlockToTakeOut(s);
    WithSectionIsUnmarked(s);
    NoBlockToTakeOut(WithSection(s));
    if major.Some? {
      assert FindSection(s, 0) == None;
      FirstInsertion(s, major.value);
      SectionStaysBehind(s, major.value);
    }
  }

  lemma NoBlockToTakeOut(s: string)
    requires Unmarked(s)
    ensures WithoutBlock(s) == s && HasOneBlock(s)
  {
  }
}
