/** Stamping a vendored copy, and reading its stamp back (packages/truewire/src/truewire/agents.py). */
module VendoredText {
  import opened Wrappers

  const LOCAL_MARKER := "<!-- truewire: local edit -->"
  const STAMP_OPEN := "<!-- vendored from truewire "
  const STAMP_DIGEST := " sha256:"
  const STAMP_CLOSE := " -->"
  const STAMP_TAIL := "`truewire agents" + " update` rewrites" + " this file -->"
  const FRONT_MATTER := "---\n"
  const FRONT_MATTER_END := "\n---\n"

  /** What a stamp says: who wrote the copy, and of which text. */
  datatype Stamp = Stamp(version: string, digest: string)

  /** The whitespace of Python's `str`. */
  predicate IsSpace(c: char) {
    var n := c as int;
    || 9 <= n <= 13 || 28 <= n <= 32 || n == 0x85 || n == 0xA0 || n == 0x1680 || 0x2000 <= n <= 0x200A
    || n == 0x2028 || n == 0x2029 || n == 0x202F || n == 0x205F || n == 0x3000
  }

  predicate IsHex(c: char) { '0' <= c <= '9' || 'a' <= c <= 'f' }

  predicate StartsWith(s: string, prefix: string) {
    |prefix| <= |s| && s[..|prefix|] == prefix
  }

  predicate EndsWith(s: string, suffix: string) {
    |suffix| <= |s| && s[|s| - |suffix|..] == suffix
  }

  /** The first index from `from` on where `pat` occurs. */
  function Find(s: string, pat: string, from: nat): (r: Option<nat>)
    ensures r.Some? ==> from <= r.value && r.value + |pat| <= |s| && s[r.value..r.value + |pat|] == pat
    decreases |s| - from
  {
    if from + |pat| > |s| then None
    else if s[from..from + |pat|] == pat then Some(from)
    else if from < |s| then Find(s, pat, from + 1)
    else None
  }

  /** What follows an occurrence does not change where it is found. */
  lemma {:induction false} FindKept(s: string, pat: string, from: nat, rest: string)
    requires Find(s, pat, from).Some?
    ensures var i := Find(s, pat, from).value;
            Find(s[..i + |pat|] + rest, pat, from) == Some(i)
    decreases |s| - from
  {
    var i := Find(s, pat, from).value;
    var t := s[..i + |pat|] + rest;
    assert t[from..from + |pat|] == s[from..from + |pat|];
    if s[from..from + |pat|] != pat {
      FindKept(s, pat, from + 1, rest);
    }
  }

  /** The index of a text's stamp line: behind its opening `---` block when that is closed, or zero. */
  function StampOffset(text: string): (cut: nat)
    ensures cut <= |text|
    ensures cut == 0 || text[cut - 1] == '\n'
  {
    if StartsWith(text, FRONT_MATTER) then
      var end := Find(text, FRONT_MATTER_END, 3);
      if end.Some? then end.value + |FRONT_MATTER_END| else 0
    else 0
  }

  ghost predicate OccursAt(s: string, pat: string, i: nat) { i + |pat| <= |s| && s[i..i + |pat|] == pat }

  /** What is found is the first occurrence, and nothing is found exactly when there is none. */
  lemma {:induction false} FindIsFirst(s: string, pat: string, from: nat, i: nat)
    requires pat != "" && from <= i
    ensures Find(s, pat, from) == Some(i) <==> OccursAt(s, pat, i) && forall j :: from <= j < i ==> !OccursAt(s, pat, j)
    ensures Find(s, pat, from).None? ==> !OccursAt(s, pat, i)
    decreases i - from
  {
    if from + |pat| <= |s| && s[from..from + |pat|] != pat {
      assert !OccursAt(s, pat, from);
      if from < i { FindIsFirst(s, pat, from + 1, i); }
    } else {
      assert OccursAt(s, pat, from) <==> Find(s, pat, from) == Some(from);
    }
  }

  /** Front matter closed at an index: a first line of three dashes, and another that ends there. */
  ghost predicate ClosedAt(text: string, end: nat) {
    StartsWith(text, FRONT_MATTER) && |FRONT_MATTER_END| + 3 <= end && OccursAt(text, FRONT_MATTER_END, end - |FRONT_MATTER_END|)
  }

  /** The front matter a text opens with ends at an index: it is closed there and not before. */
  ghost predicate FrontMatterEnds(text: string, end: nat) {
    ClosedAt(text, end) && forall sooner :: 0 <= sooner < end ==> !ClosedAt(text, sooner)
  }

  lemma {:induction false} ClosesFirst(text: string, end: nat)
    requires StartsWith(text, FRONT_MATTER) && |FRONT_MATTER_END| + 3 <= end
    ensures FrontMatterEnds(text, end) <==>
            && OccursAt(text, FRONT_MATTER_END, end - |FRONT_MATTER_END|)
            && forall j :: 3 <= j < end - |FRONT_MATTER_END| ==> !OccursAt(text, FRONT_MATTER_END, j)
  {
    var n := |FRONT_MATTER_END|;
    forall j | 3 <= j < end - n ensures OccursAt(text, FRONT_MATTER_END, j) <==> ClosedAt(text, j + n) {}
    forall sooner | 0 <= sooner < end && ClosedAt(text, sooner)
      ensures 3 <= sooner - n < end - n && OccursAt(text, FRONT_MATTER_END, sooner - n) {}
  }

  /** The stamp's place: the end of the front matter, or zero exactly when none is closed. */
  lemma {:induction false} OffsetIsFrontMatter(text: string, end: nat)
    ensures end > 0 ==> (StampOffset(text) == end <==> FrontMatterEnds(text, end))
    ensures StampOffset(text) == 0 ==> !ClosedAt(text, end)
  {
    if StartsWith(text, FRONT_MATTER) && |FRONT_MATTER_END| + 3 <= end {
      FindIsFirst(text, FRONT_MATTER_END, 3, end - |FRONT_MATTER_END|);
      ClosesFirst(text, end);
    }
  }

  /** The stamp line of a text with this digest, written by this version. */
  function StampLine(version: string, digest: string): string {
    STAMP_OPEN + (version + (STAMP_DIGEST + (digest + ("; " + STAMP_TAIL))))
  }

  function Stamped(text: string, version: string, digest: string): string {
    Inserted(text, StampLine(version, digest))
  }

  /** The length of the longest run of non-space characters at the start. */
  function Word(s: string): (n: nat)
    ensures n <= |s|
    ensures forall i :: 0 <= i < n ==> !IsSpace(s[i])
  {
    if s == "" || IsSpace(s[0]) then 0 else 1 + Word(s[1..])
  }

  lemma {:induction false} WordIs(w: string, rest: string)
    requires forall i :: 0 <= i < |w| ==> !IsSpace(w[i])
    requires rest != "" && IsSpace(rest[0])
    ensures Word(w + rest) == |w|
  {
    if w == "" {
      assert w + rest == rest;
    } else {
      assert (w + rest)[1..] == w[1..] + rest;
      WordIs(w[1..], rest);
    }
  }

  /** A whole line matched against the form of a stamp line. */
  function ReadStamp(line: string): Option<Stamp> {
    if !StartsWith(line, STAMP_OPEN) then None
    else
      var a := line[|STAMP_OPEN|..];
      var n := Word(a);
      var b := a[n..];
      if n == 0 || !StartsWith(b, STAMP_DIGEST) then None else ReadDigest(a[..n], b[|STAMP_DIGEST|..])
  }

  /** What follows the digest's name in a stamp line: sixteen hex digits, then anything up to the close. */
  function ReadDigest(version: string, c: string): Option<Stamp> {
    if |c| < 18 || (exists i :: 0 <= i < 16 && !IsHex(c[i])) || c[16..18] != "; " then None
    else
      var d := c[18..];
      if !EndsWith(d, STAMP_CLOSE) || '\n' in d then None else Some(Stamp(version, c[..16]))
  }

  /** The line at a text's stamp offset, and the text without it. */
  function TakeLine(text: string): (string, string) {
    var cut := StampOffset(text);
    var end := Find(text, "\n", cut);
    if end.None? then (text[cut..], text[..cut]) else (text[cut..end.value], text[..cut] + text[end.value + 1..])
  }

  /** A copy's stamp, read only where a stamp is written, and the copy without its stamp line. */
  function Unstamped(text: string): (Option<Stamp>, string) {
    var (line, rest) := TakeLine(text);
    var stamp := ReadStamp(line);
    if stamp.None? then (None, text) else (stamp, rest)
  }

  predicate IsVersion(v: string) { v != "" && forall i :: 0 <= i < |v| ==> !IsSpace(v[i]) }

  predicate IsDigest(d: string) { |d| == 16 && forall i :: 0 <= i < |d| ==> IsHex(d[i]) }

  lemma DropPrefix(prefix: string, rest: string)
    ensures StartsWith(prefix + rest, prefix) && (prefix + rest)[|prefix|..] == rest
  {}

  lemma ReadDigestLine(version: string, digest: string)
    requires IsDigest(digest)
    ensures ReadDigest(version, digest + ("; " + STAMP_TAIL)) == Some(Stamp(version, digest))
  {
    var c := digest + ("; " + STAMP_TAIL);
    assert c[..16] == digest && c[16..18] == "; " && c[18..] == STAMP_TAIL;
    TailCloses();
  }

  /** A stamp line reads back as what it was written with. */
  lemma ReadStampLine(version: string, digest: string)
    requires IsVersion(version) && IsDigest(digest)
    ensures ReadStamp(StampLine(version, digest)) == Some(Stamp(version, digest))
  {
    var d := STAMP_TAIL;
    var c := digest + ("; " + d);
    var b := STAMP_DIGEST + c;
    DropPrefix(STAMP_OPEN, version + b);
    WordIs(version, b);
    DropPrefix(version, b);
    DropPrefix(STAMP_DIGEST, c);
    ReadDigestLine(version, digest);
  }

  lemma TailCloses()
    ensures EndsWith(STAMP_TAIL, STAMP_CLOSE) && '\n' !in STAMP_TAIL
  {
    assert STAMP_TAIL == "`truewire agents" + " update` rewrites" + " this file -->";
    assert '\n' !in "`truewire agents" && '\n' !in " update` rewrites" && '\n' !in " this file -->";
  }

  lemma OpenHasNoBreak()
    ensures '\n' !in STAMP_OPEN && '\n' !in STAMP_DIGEST
    ensures STAMP_OPEN[0] == '<' && STAMP_OPEN[5] == 'v'
  {
    assert STAMP_OPEN == "<!-- vendored" + " from truewire ";
    assert '\n' !in "<!-- vendored" && '\n' !in " from truewire ";
  }

  /** A stamp line is one line, opens with `<` and tells itself from the local marker. */
  lemma StampLineIsLine(version: string, digest: string)
    requires IsVersion(version) && IsDigest(digest)
    ensures var line := StampLine(version, digest);
            '\n' !in line && |line| > 5 && line[0] == '<' && line[5] == 'v'
  {
    TailCloses();
    OpenHasNoBreak();
    assert '\n' !in version && '\n' !in digest;
  }

  lemma {:induction false} FindBreak(before: string, line: string, rest: string, from: nat)
    requires '\n' !in line && |before| <= from <= |before| + |line|
    ensures Find(before + (line + "\n" + rest), "\n", from) == Some(|before| + |line|)
    decreases |before| + |line| - from
  {
    var s := before + (line + "\n" + rest);
    if from < |before| + |line| {
      assert s[from] == line[from - |before|];
      assert s[from..from + 1] == [s[from]];
      assert s[from] in line;
      FindBreak(before, line, rest, from + 1);
    } else {
      assert s[from..from + 1] == "\n";
    }
  }

  /** A text with a line put in at its stamp offset. */
  function Inserted(text: string, line: string): string {
    var cut := StampOffset(text);
    text[..cut] + (line + "\n" + text[cut..])
  }

  lemma FrontMatterLength()
    ensures |FRONT_MATTER| == 4 && |FRONT_MATTER_END| == 5 && FRONT_MATTER[0] == '-'
  {}

  /** Stamping a text leaves its stamp offset where it was. */
  lemma OffsetKept(text: string, line: string)
    requires line != "" && line[0] == '<'
    ensures StampOffset(Inserted(text, line)) == StampOffset(text)
  {
    FrontMatterLength();
    var cut := StampOffset(text);
    var inserted := line + "\n" + text[cut..];
    var t := text[..cut] + inserted;
    if cut == 0 {
      assert t[0] == '<';
    } else {
      FindKept(text, FRONT_MATTER_END, 3, inserted);
      assert t[..4] == text[..4];
    }
  }

  /** A text that opens with closed front matter opens with just that once stamped, and the stamp is the next line. */
  lemma StampedKeepsFrontMatter(text: string, version: string, digest: string, end: nat)
    requires FrontMatterEnds(text, end)
    ensures var s, line := Stamped(text, version, digest), StampLine(version, digest) + "\n";
            FrontMatterEnds(s, end) && s[..end] == text[..end] && StartsWith(s[end..], line) && s[end..][|line|..] == text[end..]
  {
    var line := StampLine(version, digest);
    OffsetIsFrontMatter(text, end);
    OffsetKept(text, line);
    OffsetIsFrontMatter(Stamped(text, version, digest), end);
    assert Stamped(text, version, digest) == text[..end] + (line + "\n" + text[end..]);
  }

  /** In any other the stamp is the first line. */
  lemma StampedFirst(text: string, version: string, digest: string)
    requires forall end :: !ClosedAt(text, end)
    ensures Stamped(text, version, digest) == StampLine(version, digest) + "\n" + text
  {
    OffsetIsFrontMatter(text, StampOffset(text));
  }

  lemma {:induction false} TakeLineAt(before: string, line: string, rest: string)
    requires '\n' !in line && StampOffset(before + (line + "\n" + rest)) == |before|
    ensures TakeLine(before + (line + "\n" + rest)) == (line, before + rest)
  {
    FindBreak(before, line, rest, |before|);
    LineLeftOut(before, line, rest);
  }

  /** Taking out the line at the stamp offset undoes putting it in. */
  lemma {:induction false} LineAtOffset(text: string, line: string)
    requires line != "" && line[0] == '<' && '\n' !in line
    ensures TakeLine(Inserted(text, line)) == (line, text)
  {
    var cut := StampOffset(text);
    OffsetKept(text, line);
    TakeLineAt(text[..cut], line, text[cut..]);
    assert text == text[..cut] + text[cut..];
  }

  lemma LineLeftOut(before: string, line: string, rest: string)
    ensures var t := before + (line + "\n" + rest);
            && t[..|before|] == before
            && t[|before|..|before| + |line|] == line
            && t[|before| + |line| + 1..] == rest
  {
    var t := before + (line + "\n" + rest);
    assert forall i :: 0 <= i < |line| ==> t[|before| + i] == line[i];
    assert forall i :: 0 <= i < |rest| ==> t[|before| + |line| + 1 + i] == rest[i];
  }

  /** Unstamping a stamped text gives back its stamp and every character of the text. */
  lemma UnstampStamped(text: string, version: string, digest: string)
    requires IsVersion(version) && IsDigest(digest)
    ensures Unstamped(Stamped(text, version, digest)) == (Some(Stamp(version, digest)), text)
  {
    var line := StampLine(version, digest);
    StampLineIsLine(version, digest);
    ReadStampLine(version, digest);
    LineAtOffset(text, line);
  }

  /** A text split at its line breaks. */
  function Lines(s: string): (lines: seq<string>)
    ensures lines != []
  {
    if s == "" then [""]
    else
      var before := Lines(s[..|s| - 1]);
      var last := |before| - 1;
      if s[|s| - 1] == '\n' then before + [""] else before[last := before[last] + [s[|s| - 1]]]
  }

  lemma {:induction false} LinesJoin(a: string, b: string)
    ensures Lines(a + "\n" + b) == Lines(a) + Lines(b)
  {
    if b == "" {
      assert a + "\n" + b == a + "\n";
      assert (a + "\n")[..|a|] == a;
    } else {
      var s, init := a + "\n" + b, b[..|b| - 1];
      assert s[..|s| - 1] == a + "\n" + init;
      LinesJoin(a, init);
    }
  }

  lemma {:induction false} OneLine(s: string)
    requires '\n' !in s
    ensures Lines(s) == [s]
  {
    if s != "" {
      var init := s[..|s| - 1];
      assert s[|s| - 1] in s && forall c :: c in init ==> c in s;
      OneLine(init);
      assert s == init + [s[|s| - 1]];
    }
  }

  function RStrip(s: string): (r: string)
    ensures |r| <= |s| && r == s[..|r|]
  {
    if s != "" && IsSpace(s[|s| - 1]) then RStrip(s[..|s| - 1]) else s
  }

  predicate IsMarker(line: string) {
    RStrip(line) == LOCAL_MARKER && !IsSpace(line[0])
  }

  /** Some line of the text, unindented, says the marker and nothing else. */
  predicate IsLocal(text: string) {
    exists i :: 0 <= i < |Lines(text)| && IsMarker(Lines(text)[i])
  }

  lemma NotMarker(line: string)
    requires |line| > 5 && line[5] == 'v'
    ensures !IsMarker(line)
  {
    var r := RStrip(line);
    assert LOCAL_MARKER[5] == 't';
    assert |r| > 5 ==> r[5] == line[5];
  }

  /** The text's lines with the new line among them. */
  ghost predicate OneLineMore(text: string, line: string, before: seq<string>, after: seq<string>) {
    Lines(text) == before + after && Lines(Inserted(text, line)) == before + [line] + after
  }

  lemma {:induction false} InsertedLines(text: string, line: string) returns (before: seq<string>, after: seq<string>)
    requires '\n' !in line
    ensures OneLineMore(text, line, before, after)
  {
    var cut := StampOffset(text);
    if cut == 0 {
      before, after := [], Lines(text);
      LineFirst(line, text);
      assert text[..0] == "" && text[0..] == text;
    } else {
      var a, b := text[..cut - 1], text[cut..];
      before, after := Lines(a), Lines(b);
      LineBetween(a, line, b);
      CutAtBreak(text, cut, line);
    }
  }

  lemma {:induction false} LineFirst(line: string, text: string)
    requires '\n' !in line
    ensures Lines(line + "\n" + text) == [line] + Lines(text)
    ensures "" + (line + "\n" + text) == line + "\n" + text
  {
    OneLine(line);
    LinesJoin(line, text);
  }

  lemma CutAtBreak(text: string, cut: nat, line: string)
    requires 0 < cut <= |text| && text[cut - 1] == '\n'
    ensures var a, b := text[..cut - 1], text[cut..];
            && text == a + "\n" + b
            && text[..cut] + (line + "\n" + b) == a + "\n" + (line + "\n" + b)
  {
    assert text[..cut] == text[..cut - 1] + "\n";
  }

  lemma {:induction false} LineBetween(a: string, line: string, b: string)
    requires '\n' !in line
    ensures Lines(a + "\n" + b) == Lines(a) + Lines(b)
    ensures Lines(a + "\n" + (line + "\n" + b)) == Lines(a) + [line] + Lines(b)
  {
    OneLine(line);
    LinesJoin(line, b);
    LinesJoin(a, b);
    LinesJoin(a, line + "\n" + b);
    assert Lines(a) + [line] + Lines(b) == Lines(a) + ([line] + Lines(b));
  }

  lemma MarkedLines(lines: seq<string>, before: seq<string>, line: string, after: seq<string>)
    requires lines == before + after && !IsMarker(line)
    ensures (exists i :: 0 <= i < |lines| && IsMarker(lines[i])) <==>
            (exists i :: 0 <= i < |before + [line] + after| && IsMarker((before + [line] + after)[i]))
  {
    var more := before + [line] + after;
    if i :| 0 <= i < |lines| && IsMarker(lines[i]) {
      assert IsMarker(more[if i < |before| then i else i + 1]);
    }
    if i :| 0 <= i < |more| && IsMarker(more[i]) {
      assert i != |before|;
      assert IsMarker(lines[if i < |before| then i else i - 1]);
    }
  }

  /** Stamping a text neither marks it as a local edit nor hides a mark it carries. */
  lemma StampingKeepsMark(text: string, version: string, digest: string)
    requires IsVersion(version) && IsDigest(digest)
    ensures IsLocal(Stamped(text, version, digest)) <==> IsLocal(text)
  {
    var line := StampLine(version, digest);
    StampLineIsLine(version, digest);
    NotMarker(line);
    var before, after := InsertedLines(text, line);
    MarkedLines(Lines(text), before, line, after);
  }

  /** What a file says of itself: a local edit or not, its stamp if any, and its text without the stamp line. */
  datatype Reading = Reading(local: bool, stamp: Option<Stamp>, body: string)

  function ReadCopy(text: string): Reading {
    Reading(IsLocal(text), Unstamped(text).0, Unstamped(text).1)
  }

  /** A copy written of a text reads as that text, stamped, and as marked as the text was. */
  lemma ReadStamped(text: string, version: string, digest: string)
    requires IsVersion(version) && IsDigest(digest)
    ensures ReadCopy(Stamped(text, version, digest)) == Reading(IsLocal(text), Some(Stamp(version, digest)), text)
  {
    UnstampStamped(text, version, digest);
    StampingKeepsMark(text, version, digest);
  }
}
