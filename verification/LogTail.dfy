/** Following an authentication log: the cursor that drops repeated lines, and the reassembly of lines
    from the chunks that reads return. */
module LogTail {
  import opened Options
  import opened Text

  type Time = int

  /** A parsed line. Its SHA-256 stands for its text, taken as injective. */
  datatype Line = Line(text: string, at: Time)

  // ----- the cursor -----

  /** None is the zero time: every line is later than that. */
  datatype Cursor = Cursor(latest: Option<Time>, seen: set<string>)

  const START: Cursor := Cursor(None, {})

  predicate Accepts(c: Cursor, l: Line) {
    c.latest.None? || l.at > c.latest.value || (l.at == c.latest.value && l.text !in c.seen)
  }

  function Advance(c: Cursor, l: Line): Cursor {
    if c.latest.None? || l.at > c.latest.value then Cursor(Some(l.at), {l.text})
    else if l.at == c.latest.value then c.(seen := c.seen + {l.text})
    else c
  }

  class FileCursor {
    var latest: Option<Time>
    var seen: set<string>

    function Value(): Cursor reads this { Cursor(latest, seen) }

    constructor ()
      ensures Value() == START
    {
      latest, seen := None, {};
    }

    /** acceptFileLine */
    method AcceptFileLine(l: Line) returns (ok: bool)
      modifies this
      ensures ok == Accepts(old(Value()), l) && Value() == Advance(old(Value()), l)
    {
      if latest.Some? && l.at < latest.value { return false; }
      if latest.Some? && l.at == latest.value {
        if l.text in seen {
          assert seen + {l.text} == seen;
          return false;
        }
        seen := seen + {l.text};
        return true;
      }
      latest := Some(l.at);
      seen := {l.text};
      return true;
    }

    /** seedFileCursor: the lines at the end of the file count as offered. */
    method Seed(data: string, parse: string -> Option<Time>)
      modifies this
      ensures Value() == Follow(START, Parsed(Seeded(data), parse))
    {
      var raw := Seeded(data);
      latest, seen := None, {};
      for i := 0 to |raw|
        invariant Value() == Follow(START, Parsed(raw[..i], parse))
      {
        assert raw[..i + 1][..i] == raw[..i];
        var at := parse(raw[i]);
        if at.Some? {
          FollowNext(START, Parsed(raw[..i], parse), Line(raw[i], at.value));
          var ok := AcceptFileLine(Line(raw[i], at.value));
        }
      }
      assert raw[..|raw|] == raw;
    }
  }

  // ----- where a new cursor starts -----

  const SEED_BYTES := 2_097_152

  /** ParseSyslogLine, given as a function; lines that do not parse are dropped. */
  function Parsed(raw: seq<string>, parse: string -> Option<Time>): seq<Line> {
    if raw == [] then []
    else
      var before, text := Parsed(raw[..|raw| - 1], parse), raw[|raw| - 1];
      if parse(text).Some? then before + [Line(text, parse(text).value)] else before
  }

  /** Where the lines that are read begin: at the start of a file of up to two mebibytes, otherwise after
      the first newline of its last two mebibytes. */
  function SeedStart(data: string): (k: nat)
    ensures k <= |data|
  {
    if |data| <= SEED_BYTES then 0
    else
      var start := |data| - SEED_BYTES;
      var i := IndexOf(data[start..], '\n');
      if start + i < |data| then start + i + 1 else |data|
  }

  function Seeded(data: string): seq<string> {
    Split(data[SeedStart(data)..], '\n')
  }

  /** The lines before those; all lines, if the last two mebibytes have no newline. */
  function Skipped(data: string): seq<string> {
    var k := SeedStart(data);
    if k == 0 then [] else if data[k - 1] == '\n' then Split(data[..k - 1], '\n') else Split(data, '\n')
  }

  lemma SeedStartsLine(data: string)
    requires |data| > SEED_BYTES && '\n' in data[|data| - SEED_BYTES..]
    ensures var k := SeedStart(data); k > 0 && data[k - 1] == '\n'
  {
    var start := |data| - SEED_BYTES;
    var last := data[start..];
    var i := IndexOf(last, '\n');
    assert last[..|last|] == last;
    assert data[start + i] == last[i];
  }

  lemma SplitAfter(data: string, k: nat)
    requires 0 < k <= |data| && data[k - 1] == '\n'
    ensures Split(data, '\n') == Split(data[..k - 1], '\n') + Split(data[k..], '\n')
  {
    hide Split;
    assert data == data[..k - 1] + ['\n'] + data[k..];
    SplitJoin(data[..k - 1], data[k..], '\n');
  }

  lemma SeedParts(data: string)
    ensures SeedStart(data) == 0 ==> Skipped(data) == [] && Seeded(data) == Split(data, '\n')
    ensures var k := SeedStart(data);
      k > 0 && data[k - 1] == '\n' ==> Skipped(data) == Split(data[..k - 1], '\n') && Seeded(data) == Split(data[k..], '\n')
  {
    hide SeedStart, Split;
    assert data[0..] == data;
  }

  lemma SmallSeed(data: string)
    requires |data| <= SEED_BYTES
    ensures SeedStart(data) == 0
  {}

  lemma SeedCuts(data: string)
    requires |data| <= SEED_BYTES || '\n' in data[|data| - SEED_BYTES..]
    ensures Split(data, '\n') == Skipped(data) + Seeded(data)
  {
    hide SeedStart, Split, Skipped, Seeded, IndexOf;
    SeedParts(data);
    if |data| <= SEED_BYTES {
      SmallSeed(data);
      assert [] + Split(data, '\n') == Split(data, '\n');
    } else {
      SeedStartsLine(data);
      SplitAfter(data, SeedStart(data));
    }
  }

  lemma NoNewline(data: string)
    requires |data| > SEED_BYTES && '\n' !in data[|data| - SEED_BYTES..]
    ensures Skipped(data) == Split(data, '\n') && Seeded(data) == [""]
  {
    var start := |data| - SEED_BYTES;
    var last := data[start..];
    assert last[..|last|] == last;
    IndexOfFirst(last, '\n', |last|);
    assert data[|data| - 1] == last[|last| - 1];
    assert data[|data|..] == "";
    SplitFirst("", "", '\n');
    hide Split, IndexOf;
  }

  lemma ParsedWhole(data: string, parse: string -> Option<Time>)
    requires parse("").None?
    ensures Parsed(Split(data, '\n'), parse) == Parsed(Skipped(data), parse) + Parsed(Seeded(data), parse)
  {
    hide Split, Skipped, Seeded;
    if |data| <= SEED_BYTES || '\n' in data[|data| - SEED_BYTES..] {
      SeedCuts(data);
      ParsedAppend(Skipped(data), Seeded(data), parse);
    } else {
      NoNewline(data);
      assert Parsed([""], parse) == Parsed([""][..0], parse);
    }
  }

  lemma {:induction false} ParsedAppend(a: seq<string>, b: seq<string>, parse: string -> Option<Time>)
    ensures Parsed(a + b, parse) == Parsed(a, parse) + Parsed(b, parse)
  {
    if b == [] {
      assert a + b == a;
    } else {
      assert (a + b)[..|a + b| - 1] == a + b[..|b| - 1];
      ParsedAppend(a, b[..|b| - 1], parse);
    }
  }

  lemma FollowNext(c: Cursor, lines: seq<Line>, l: Line)
    ensures Follow(c, lines + [l]) == Advance(Follow(c, lines), l)
  {
    assert (lines + [l])[..|lines|] == lines;
  }

  /** Seeding from the end of a file gives the cursor of the whole file if and only if that cursor turns
      away every line that was skipped. An empty line has no time. */
  lemma SeedExactly(data: string, parse: string -> Option<Time>)
    requires parse("").None?
    ensures Follow(START, Parsed(Seeded(data), parse)) == Follow(START, Parsed(Split(data, '\n'), parse)) <==>
      forall l :: l in Parsed(Skipped(data), parse) ==> !Accepts(Follow(START, Parsed(Seeded(data), parse)), l)
  {
    ParsedWhole(data, parse);
    TailCursor(Parsed(Skipped(data), parse), Parsed(Seeded(data), parse));
  }

  /** A file of up to two mebibytes is never cut. */
  lemma SmallFilesAreWhole(data: string, parse: string -> Option<Time>)
    requires |data| <= 2_097_152
    ensures Follow(START, Parsed(Seeded(data), parse)) == Follow(START, Parsed(Split(data, '\n'), parse))
  {
    hide Split, Follow, Parsed;
    SmallSeed(data);
    SeedParts(data);
  }

  lemma {:induction false} NothingParsed(raw: seq<string>, parse: string -> Option<Time>)
    requires forall p :: p in raw ==> parse(p).None?
    ensures Parsed(raw, parse) == []
  {
    if raw != [] { NothingParsed(raw[..|raw| - 1], parse); }
  }

  lemma SeededWithin(head: string, rest: string)
    requires |rest| >= SEED_BYTES && head != ""
    ensures forall p :: p in Seeded(head + rest) ==> p in Split(rest, '\n') || p == ""
  {
    var data := head + rest;
    hide Split;
    if '\n' in data[|data| - SEED_BYTES..] {
      SeedStartsLine(data);
      SeedParts(data);
      SeedStartsLate(data);
      var k := SeedStart(data);
      assert data[k..] == rest[k - |head|..];
      assert k > |head| && rest[k - |head| - 1] == data[k - 1];
      SplitAfter(rest, k - |head|);
    } else {
      NoNewline(data);
    }
  }

  lemma SeedStartsLate(data: string)
    requires |data| > SEED_BYTES
    ensures SeedStart(data) > |data| - SEED_BYTES
  {}

  /** A line that is followed by two mebibytes of lines of other programs: the whole file's cursor knows
      its time, the seeded one starts from nothing and would accept it again. */
  lemma SeedCanMissLines(line: string, rest: string, parse: string -> Option<Time>)
    requires '\n' !in line && parse(line).Some? && parse("").None?
    requires |rest| >= 2_097_152 && forall p :: p in Split(rest, '\n') ==> parse(p).None?
    ensures var data := line + ['\n'] + rest;
      && Follow(START, Parsed(Seeded(data), parse)) == START
      && Follow(START, Parsed(Split(data, '\n'), parse)).latest == parse(line)
  {
    hide Split, Seeded;
    SeededWithin(line + ['\n'], rest);
    NothingParsed(Seeded(line + ['\n'] + rest), parse);
    SplitFirst(line, rest, '\n');
    ParsedAppend([line], Split(rest, '\n'), parse);
    NothingParsed(Split(rest, '\n'), parse);
    assert [line][..0] == [];
    assert Parsed([line], parse) == [Line(line, parse(line).value)];
    assert [Line(line, parse(line).value)][..0] == [];
  }

  lemma TailCursor(a: seq<Line>, b: seq<Line>)
    ensures Follow(START, b) == Follow(START, a + b) <==> forall l :: l in a ==> !Accepts(Follow(START, b), l)
  {
    var c, d := Follow(START, b), Follow(START, a + b);
    if a == [] {
      assert a + b == b;
    } else {
      CursorMeans(b);
      CursorMeans(a + b);
      hide Follow;
      var all := a + b;
      assert forall i :: 0 <= i < |a| ==> all[i] == a[i];
      assert forall i :: 0 <= i < |b| ==> all[|a| + i] == b[i];
      if c == d {
        forall l | l in a ensures !Accepts(c, l) {
          var i :| 0 <= i < |a| && a[i] == l;
          assert all[i].at <= d.latest.value;
        }
      }
      assert b == [] ==> a[0] in a && Accepts(c, a[0]);
      if b != [] && forall l :: l in a ==> !Accepts(c, l) {
        SamePeak(a, b, c, d);
      }
    }
  }

  lemma SamePeak(a: seq<Line>, b: seq<Line>, c: Cursor, d: Cursor)
    requires b != [] && c == Follow(START, b) && d == Follow(START, a + b) && forall l :: l in a ==> !Accepts(c, l)
    ensures c == d
  {
    CursorMeans(b);
    CursorMeans(a + b);
    hide Follow;
    var all := a + b;
    assert forall i :: 0 <= i < |a| ==> all[i] == a[i] && a[i] in a;
    assert forall i :: 0 <= i < |b| ==> all[|a| + i] == b[i];
    var i :| 0 <= i < |b| && b[i].at == c.latest.value;
    assert all[|a| + i].at == c.latest.value;
    assert c.latest == d.latest;
    forall x ensures x in c.seen <==> x in d.seen {
      if x in c.seen {
        var j :| 0 <= j < |b| && b[j] == Line(x, c.latest.value);
        assert all[|a| + j] == Line(x, d.latest.value);
      }
      if x in d.seen {
        var j :| 0 <= j < |all| && all[j] == Line(x, d.latest.value);
        if j >= |a| { assert b[j - |a|] == Line(x, c.latest.value); } else { assert a[j] in a; }
      }
    }
  }

  function Follow(c: Cursor, lines: seq<Line>): Cursor {
    if lines == [] then c else Advance(Follow(c, lines[..|lines| - 1]), lines[|lines| - 1])
  }

  /** Was the i-th offered line accepted? */
  predicate AcceptedAt(lines: seq<Line>, i: nat)
    requires i < |lines|
  {
    Accepts(Follow(START, lines[..i]), lines[i])
  }

  /** The cursor is exactly the newest time offered and the texts offered with it. */
  lemma {:induction false} CursorMeans(lines: seq<Line>)
    ensures var c := Follow(START, lines);
      && (c.latest.None? <==> lines == [])
      && (c.latest.Some? ==>
            && (forall i :: 0 <= i < |lines| ==> lines[i].at <= c.latest.value)
            && (exists i :: 0 <= i < |lines| && lines[i].at == c.latest.value)
            && forall x :: x in c.seen <==> exists i :: 0 <= i < |lines| && lines[i] == Line(x, c.latest.value))
  {
    if lines != [] {
      var n := |lines| - 1;
      var before, l := lines[..n], lines[n];
      CursorMeans(before);
      var b, c := Follow(START, before), Follow(START, lines);
      assert forall i :: 0 <= i < n ==> lines[i] == before[i];
      forall x ensures x in c.seen <==> exists i :: 0 <= i < |lines| && lines[i] == Line(x, c.latest.value) {
        if b.latest.Some? && c.latest == b.latest {
          if x in b.seen {
            var i :| 0 <= i < n && before[i] == Line(x, b.latest.value);
            assert lines[i] == Line(x, c.latest.value);
          }
          if l == Line(x, c.latest.value) { assert lines[n] == Line(x, c.latest.value); }
        } else {
          if x == l.text { assert lines[n] == Line(x, c.latest.value); }
        }
      }
      if c.latest == b.latest && b.latest.Some? {
        var i :| 0 <= i < n && before[i].at == b.latest.value;
        assert lines[i].at == c.latest.value;
      } else {
        assert lines[n].at == c.latest.value;
      }
    }
  }

  /** Exactly once, over any order and repetition of offered lines: a line is accepted if and only if
      no line offered before it was newer and it was not offered before. */
  lemma AcceptedExactly(lines: seq<Line>, i: nat)
    requires i < |lines|
    ensures AcceptedAt(lines, i) <==>
      (forall j :: 0 <= j < i ==> lines[j].at <= lines[i].at) && (forall j :: 0 <= j < i ==> lines[j] != lines[i])
  {
    var before := lines[..i];
    CursorMeans(before);
    var c := Follow(START, before);
    assert forall j :: 0 <= j < i ==> before[j] == lines[j];
    if c.latest.Some? {
      var k :| 0 <= k < i && before[k].at == c.latest.value;
      if lines[i].at == c.latest.value {
        assert lines[i] == Line(lines[i].text, c.latest.value);
        if lines[i].text in c.seen {
          var j :| 0 <= j < i && before[j] == Line(lines[i].text, c.latest.value);
          assert lines[j] == lines[i];
        } else {
          forall j | 0 <= j < i ensures lines[j] != lines[i] {
            assert before[j] != Line(lines[i].text, c.latest.value);
          }
        }
      } else if lines[i].at < c.latest.value {
        assert lines[k].at > lines[i].at;
      }
    }
  }

  /** A (text, time) pair is accepted at most once and accepted times never go back. */
  lemma AcceptedOnceInOrder(lines: seq<Line>, i: nat, j: nat)
    requires i < j < |lines| && AcceptedAt(lines, i) && AcceptedAt(lines, j)
    ensures lines[i] != lines[j] && lines[i].at <= lines[j].at
  {
    AcceptedExactly(lines, j);
  }

  /** Reading a rotated file again from its start yields nothing: all its lines were offered before. */
  lemma RereadYieldsNothing(lines: seq<Line>, again: seq<Line>, i: nat)
    requires i < |again| && again[i] in lines
    ensures !AcceptedAt(lines + again, |lines| + i)
  {
    AcceptedExactly(lines + again, |lines| + i);
    var j :| 0 <= j < |lines| && lines[j] == again[i];
    assert (lines + again)[j] == (lines + again)[|lines| + i];
  }

  // ----- line reassembly -----

  const MAX_PENDING := 1_048_576

  /** The complete lines of some bytes, and what follows the last newline. */
  function SplitLines(s: string): (r: (seq<string>, string))
    ensures '\n' !in r.1
    ensures |r.1| <= |s|
  {
    if s == "" then ([], "")
    else
      var (lines, tail) := SplitLines(s[..|s| - 1]);
      var c := s[|s| - 1];
      if c == '\n' then (lines + [tail], "") else (lines, tail + [c])
  }

  function Concat(chunks: seq<string>): string {
    if chunks == [] then "" else Concat(chunks[..|chunks| - 1]) + chunks[|chunks| - 1]
  }

  lemma {:induction false} SplitAppend(a: string, b: string)
    ensures var (la, ta) := SplitLines(a); var (lb, tb) := SplitLines(ta + b);
      SplitLines(a + b) == (la + lb, tb)
  {
    var (la, ta) := SplitLines(a);
    if b == "" {
      assert a + b == a && ta + b == ta && la + [] == la;
      SplitTail(ta);
    } else {
      var n := |b| - 1;
      SplitAppend(a, b[..n]);
      assert (a + b)[..|a + b| - 1] == a + b[..n];
      assert (ta + b)[..|ta + b| - 1] == ta + b[..n];
      assert (a + b)[|a + b| - 1] == (ta + b)[|ta + b| - 1] == b[n];
      var (lb, tb) := SplitLines(ta + b[..n]);
      assert la + (lb + [tb]) == (la + lb) + [tb];
    }
  }

  /** Text without a newline is all tail. */
  lemma {:induction false} SplitTail(s: string)
    requires '\n' !in s
    ensures SplitLines(s) == ([], s)
  {
    if s != "" {
      assert s[|s| - 1] in s;
      SplitTail(s[..|s| - 1]);
      assert s[..|s| - 1] + [s[|s| - 1]] == s;
    }
  }

  lemma FirstLine(line: string, rest: string)
    requires '\n' !in line
    ensures var (ls, tail) := SplitLines(rest); SplitLines(line + "\n" + rest) == ([line] + ls, tail)
  {
    SplitTail(line);
    var head := line + "\n";
    assert head[..|head| - 1] == line;
    assert [] + [line] == [line];
    assert SplitLines(head) == ([line], "");
    SplitAppend(head, rest);
    assert "" + rest == rest;
  }

  /** The complete lines and the rest are the pieces of the bytes between their newlines. */
  lemma {:induction false} LinesExactly(s: string)
    ensures var (lines, tail) := SplitLines(s); Split(s, '\n') == lines + [tail]
    decreases |s|
  {
    var i := IndexOf(s, '\n');
    assert s[..|s|] == s;
    if i == |s| {
      SplitTail(s);
      SplitFirst(s, "", '\n');
    } else {
      var line, rest := s[..i], s[i + 1..];
      assert s == line + "\n" + rest;
      hide SplitLines, Split;
      LinesExactly(rest);
      FirstLine(line, rest);
      SplitFirst(line, rest, '\n');
    }
  }

  /** What one read does: complete lines go out, an overlong rest is thrown away. */
  function Feed(pending: string, chunk: string): (seq<string>, string) {
    var (lines, tail) := SplitLines(pending + chunk);
    (lines, if |tail| > MAX_PENDING then "" else tail)
  }

  function FeedAll(chunks: seq<string>): (seq<string>, string) {
    if chunks == [] then ([], "")
    else
      var (lines, pending) := FeedAll(chunks[..|chunks| - 1]);
      var (more, rest) := Feed(pending, chunks[|chunks| - 1]);
      (lines + more, rest)
  }

  /** The inner loop of tailFile: cut lines off the front until no newline is left. */
  method CutLines(pending: string) returns (lines: seq<string>, rest: string)
    ensures (lines, rest) == SplitLines(pending)
  {
    lines, rest := [], pending;
    assert [] + SplitLines(pending).0 == SplitLines(pending).0;
    while true
      invariant SplitLines(pending) == (lines + SplitLines(rest).0, SplitLines(rest).1)
      decreases |rest|
    {
      var i := IndexOfNewline(rest);
      if i.None? {
        SplitTail(rest);
        assert lines + [] == lines;
        return;
      }
      FirstLine(rest[..i.value], rest[i.value + 1..]);
      assert rest == rest[..i.value] + "\n" + rest[i.value + 1..];
      assert lines + ([rest[..i.value]] + SplitLines(rest[i.value + 1..]).0) == lines + [rest[..i.value]] + SplitLines(rest[i.value + 1..]).0;
      lines := lines + [rest[..i.value]];
      rest := rest[i.value + 1..];
    }
  }

  method IndexOfNewline(s: string) returns (i: Option<nat>)
    ensures i.None? <==> '\n' !in s
    ensures i.Some? ==> i.value < |s| && s[i.value] == '\n' && '\n' !in s[..i.value]
  {
    for k := 0 to |s|
      invariant '\n' !in s[..k]
    {
      if s[k] == '\n' { return Some(k); }
    }
    return None;
  }

  /** The read loop of tailFile over one open file. */
  method Reassemble(chunks: seq<string>) returns (lines: seq<string>)
    ensures lines == FeedAll(chunks).0
  {
    lines := [];
    var pending := "";
    for i := 0 to |chunks|
      invariant (lines, pending) == FeedAll(chunks[..i])
    {
      assert chunks[..i + 1][..i] == chunks[..i];
      var more, rest := CutLines(pending + chunks[i]);
      lines := lines + more;
      pending := rest;
      if |pending| > MAX_PENDING { pending := ""; }
    }
    assert chunks[..|chunks|] == chunks;
  }

  /** However the reads cut the file, the lines are those of its bytes, as long as no unfinished line
      exceeds a mebibyte at the end of a read. */
  lemma {:induction false} ChunkingIsInvisible(chunks: seq<string>)
    requires forall k :: 0 <= k <= |chunks| ==> |SplitLines(Concat(chunks[..k])).1| <= 1_048_576
    ensures FeedAll(chunks) == SplitLines(Concat(chunks))
  {
    if chunks != [] {
      var n := |chunks| - 1;
      var before := chunks[..n];
      forall k | 0 <= k <= n ensures |SplitLines(Concat(before[..k])).1| <= 1_048_576 {
        assert before[..k] == chunks[..k];
      }
      ChunkingIsInvisible(before);
      SplitAppend(Concat(before), chunks[n]);
      assert chunks[..|chunks|] == chunks;
    }
  }

  /** The bytes that some lines and an unfinished rest account for, newlines included. */
  function Weight(lines: seq<string>, rest: string): nat {
    if lines == [] then |rest| else Weight(lines[..|lines| - 1], rest) + |lines[|lines| - 1]| + 1
  }

  lemma {:induction false} WeightAppend(a: seq<string>, b: seq<string>, rest: string)
    ensures Weight(a + b, rest) == Weight(a, "") + Weight(b, rest)
  {
    if b == [] {
      assert a + b == a;
      WeightRest(a, rest);
    } else {
      WeightAppend(a, b[..|b| - 1], rest);
      assert (a + b)[..|a + b| - 1] == a + b[..|b| - 1];
    }
  }

  lemma {:induction false} WeightRest(lines: seq<string>, rest: string)
    ensures Weight(lines, rest) == Weight(lines, "") + |rest|
  {
    if lines != [] { WeightRest(lines[..|lines| - 1], rest); }
  }

  lemma {:induction false} WeightSplit(s: string)
    ensures var (lines, tail) := SplitLines(s); Weight(lines, tail) == |s|
  {
    if s != "" {
      WeightSplit(s[..|s| - 1]);
      var (lines, tail) := SplitLines(s[..|s| - 1]);
      WeightRest(lines, tail);
      if s[|s| - 1] == '\n' {
        assert (lines + [tail])[..|lines|] == lines;
      } else {
        WeightRest(lines, tail + [s[|s| - 1]]);
      }
    }
  }

  /** One read accounts for all it got, except for an overlong rest. */
  lemma FeedWeight(lines: seq<string>, pending: string, chunk: string)
    ensures var (more, rest) := Feed(pending, chunk);
      && Weight(lines + more, rest) <= Weight(lines, pending) + |chunk|
      && (|SplitLines(pending + chunk).1| > MAX_PENDING ==> Weight(lines + more, rest) < Weight(lines, pending) + |chunk|)
  {
    var (all, tail) := SplitLines(pending + chunk);
    var (more, rest) := Feed(pending, chunk);
    WeightSplit(pending + chunk);
    WeightAppend(lines, more, rest);
    WeightRest(lines, pending);
    WeightRest(all, tail);
    WeightRest(all, rest);
  }

  lemma {:induction false} OverflowLosesBytes(chunks: seq<string>, k: nat)
    requires k <= |chunks| && |SplitLines(Concat(chunks[..k])).1| > MAX_PENDING
    requires forall i :: 0 <= i < k ==> |SplitLines(Concat(chunks[..i])).1| <= MAX_PENDING
    ensures var (lines, pending) := FeedAll(chunks); Weight(lines, pending) < |Concat(chunks)|
  {
    hide SplitLines, Weight, Feed;
    NothingOverflows();
    assert chunks[..0] == [];
    var n := |chunks| - 1;
    var before := chunks[..n];
    forall i | 0 <= i <= k && i <= n ensures before[..i] == chunks[..i] {}
    if k <= n {
      OverflowLosesBytes(before, k);
      var (lines, pending) := FeedAll(before);
      FeedWeight(lines, pending, chunks[n]);
    } else {
      assert chunks[..k] == chunks;
      LastOverflowLoses(before, chunks[n]);
    }
  }

  lemma NothingOverflows()
    ensures |SplitLines(Concat([])).1| <= MAX_PENDING
  {}

  lemma LastOverflowLoses(before: seq<string>, chunk: string)
    requires forall i :: 0 <= i <= |before| ==> |SplitLines(Concat(before[..i])).1| <= MAX_PENDING
    requires |SplitLines(Concat(before) + chunk).1| > MAX_PENDING
    ensures var (lines, pending) := FeedAll(before);
      var (more, rest) := Feed(pending, chunk);
      Weight(lines + more, rest) < |Concat(before) + chunk|
  {
    hide SplitLines, Weight, Feed, FeedAll, Concat;
    var (lines, pending) := FeedAll(before);
    FeedWeight(lines, pending, chunk);
    ChunkingIsInvisible(before);
    WeightSplit(Concat(before));
    SplitAppend(Concat(before), chunk);
  }

  /** The lines are those of the file's bytes if and only if no unfinished line ever exceeds a
      mebibyte at the end of a read. */
  lemma ChunkingExactly(chunks: seq<string>)
    ensures FeedAll(chunks) == SplitLines(Concat(chunks)) <==>
      forall k :: 0 <= k <= |chunks| ==> |SplitLines(Concat(chunks[..k])).1| <= 1_048_576
  {
    if forall k :: 0 <= k <= |chunks| ==> |SplitLines(Concat(chunks[..k])).1| <= 1_048_576 {
      ChunkingIsInvisible(chunks);
    } else {
      var k :| 0 <= k <= |chunks| && |SplitLines(Concat(chunks[..k])).1| > 1_048_576;
      OverflowBreaks(chunks, k);
    }
  }

  lemma {:induction false} OverflowBreaks(chunks: seq<string>, k: nat)
    requires k <= |chunks| && |SplitLines(Concat(chunks[..k])).1| > MAX_PENDING
    ensures FeedAll(chunks) != SplitLines(Concat(chunks))
  {
    hide SplitLines, FeedAll, Concat;
    if j :| 0 <= j < k && |SplitLines(Concat(chunks[..j])).1| > MAX_PENDING {
      OverflowBreaks(chunks, j);
    } else {
      OverflowLosesBytes(chunks, k);
      WeightSplit(Concat(chunks));
    }
  }

  // tailFile reads into a buffer of this size.
  const READ_BUFFER := 65_536

  lemma {:induction false} ConcatPrefix(chunks: seq<string>, k: nat)
    requires k <= |chunks|
    ensures Concat(chunks[..k]) <= Concat(chunks)
  {
    if k == |chunks| {
      assert chunks[..k] == chunks;
    } else {
      assert chunks[..|chunks| - 1][..k] == chunks[..k];
      ConcatPrefix(chunks[..|chunks| - 1], k);
    }
  }

  lemma FeedOne(chunks: seq<string>, c: string)
    ensures var (lines, pending) := FeedAll(chunks); var (more, rest) := Feed(pending, c);
      FeedAll(chunks + [c]) == (lines + more, rest)
    ensures Concat(chunks + [c]) == Concat(chunks) + c
  {
    assert (chunks + [c])[..|chunks|] == chunks;
    hide Feed;
  }

  /** A line that is unfinished when it first exceeds a mebibyte at the end of a read is lost, and what
      completes it is reported alone. */
  lemma OverlongLineIsCut(cs: seq<string>, last: string, end: string)
    requires '\n' !in Concat(cs) && '\n' !in last && '\n' !in end
    requires |Concat(cs)| <= 1_048_576 < |Concat(cs)| + |last|
    ensures var chunks := cs + [last] + [end + "\n"];
      FeedAll(chunks).0 == [end] && SplitLines(Concat(chunks)).0 == [Concat(cs) + last + end]
  {
    var long := Concat(cs) + last;
    hide SplitLines, Concat, FeedAll;
    Untouched(cs);
    FeedOne(cs, last);
    SplitTail(long);
    FeedOne(cs + [last], end + "\n");
    assert "" + (end + "\n") == end + "\n" + "";
    OneLine(end);
    assert long + (end + "\n") == (long + end) + "\n" + "";
    OneLine(long + end);
    assert [] + [] + [end] == [end];
  }

  lemma Untouched(cs: seq<string>)
    requires '\n' !in Concat(cs) && |Concat(cs)| <= MAX_PENDING
    ensures FeedAll(cs) == ([], Concat(cs))
  {
    forall k | 0 <= k <= |cs| ensures |SplitLines(Concat(cs[..k])).1| <= MAX_PENDING { ConcatPrefix(cs, k); }
    ChunkingIsInvisible(cs);
    SplitTail(Concat(cs));
  }

  function Repeated(c: string, n: nat): (cs: seq<string>)
    ensures forall d :: d in cs ==> d == c
  {
    if n == 0 then [] else Repeated(c, n - 1) + [c]
  }

  lemma {:induction false} ConcatSame(c: string, n: nat)
    requires |c| == READ_BUFFER && '\n' !in c
    ensures |Concat(Repeated(c, n))| == n * READ_BUFFER && '\n' !in Concat(Repeated(c, n))
  {
    if n > 0 {
      hide Concat, FeedAll, Feed;
      ConcatSame(c, n - 1);
      var before := Concat(Repeated(c, n - 1));
      FeedOne(Repeated(c, n - 1), c);
      hide Repeated;
      assert |before + c| == n * READ_BUFFER;
      assert forall x :: x in before + c ==> x in before || x in c;
    }
  }

  ghost predicate Misread(chunks: seq<string>) {
    (forall c :: c in chunks ==> |c| <= READ_BUFFER) && FeedAll(chunks).0 != SplitLines(Concat(chunks)).0
  }

  /** It happens with reads that fit the buffer: sixteen full ones, one more byte, and the newline. */
  lemma OverlongLineHappens()
    ensures exists chunks :: Misread(chunks)
  {
    FullReads(seq(READ_BUFFER, _ => 'x'));
  }

  lemma FullReads(c: string)
    requires |c| == READ_BUFFER && '\n' !in c
    ensures Misread(Repeated(c, 16) + ["x"] + ["" + "\n"])
  {
    var cs := Repeated(c, 16);
    ConcatSame(c, 16);
    hide FeedAll, SplitLines, Concat, Repeated;
    OverlongLineIsCut(cs, "x", "");
    assert |Concat(cs) + "x" + ""| > 0;
  }

  lemma OneLine(line: string)
    requires '\n' !in line
    ensures SplitLines(line + "\n" + "") == ([line], "")
  {
    FirstLine(line, "");
    assert [line] + [] == [line];
  }
}
