/**
 * The survey of a project's vendored copies and the update that follows it (packages/truewire/src/truewire/agents.py),
 * over a map of the project's texts.
 */
module VendoredUpdate {
  import opened Sequences
  import opened SortedKeys
  import opened VendoredText
  import opened Wrappers

  /** The installed toolchain: what it ships in order, its digest, and how it reads and writes copies. */
  datatype Toolchain = Toolchain(
    order: seq<string>,
    shipped: map<string, string>,
    digest: string -> string,
    read: string -> Reading,
    copyOf: string -> string)

  /** The toolchain of a version, over the stamps of `VendoredText`. */
  function Installed(version: string, order: seq<string>, shipped: map<string, string>, digest: string -> string): Toolchain {
    Toolchain(order, shipped, digest,
              text => ReadCopy(text),
              text => Stamped(text, version, digest(text)))
  }

  datatype CopyState = Current | Local | Missing | Stale | Edited | Retired | Orphaned

  datatype Copy = Copy(path: string, state: CopyState)

  /** What `update` does about one copy. */
  datatype Action = ReportOrphaned | ReportKept | LeaveAlone | Refuse | Remove | Write | Overwrite

  predicate Drifted(copy: Copy) { copy.state != Current && copy.state != Local }

  /** Every path is shipped once, and a copy of a shipped text reads as that text, stamped and not local. */
  ghost predicate Sane(t: Toolchain) {
    && (forall p :: p in t.order <==> p in t.shipped)
    && (forall i, j :: 0 <= i < j < |t.order| ==> t.order[i] != t.order[j])
    && (forall p :: p in t.shipped ==>
          var copy := t.read(t.copyOf(t.shipped[p]));
          !copy.local && copy.stamp.Some? && copy.body == t.shipped[p])
  }

  /** With a word for a version, sixteen hex digits for a digest and no shipped text marked, that holds. */
  lemma InstalledIsSane(version: string, order: seq<string>, shipped: map<string, string>, digest: string -> string)
    requires IsVersion(version) && (forall text :: IsDigest(digest(text)))
    requires (forall p :: p in order <==> p in shipped) && (forall i, j :: 0 <= i < j < |order| ==> order[i] != order[j])
    requires forall p :: p in shipped ==> !IsLocal(shipped[p])
    ensures Sane(Installed(version, order, shipped, digest))
  {
    forall p | p in shipped
      ensures ReadCopy(Stamped(shipped[p], version, digest(shipped[p]))) ==
              Reading(false, Some(Stamp(version, digest(shipped[p]))), shipped[p])
    {
      ReadStamped(shipped[p], version, digest(shipped[p]));
    }
  }

  /** What the toolchain writes at a path. */
  function CopyOf(t: Toolchain, path: string): string
    requires path in t.shipped
  {
    t.copyOf(t.shipped[path])
  }

  function ShippedState(t: Toolchain, files: map<string, string>, path: string): CopyState
    requires path in t.shipped
  {
    if path !in files then Missing
    else
      var copy := t.read(files[path]);
      if copy.local then Local
      else if copy.body == t.shipped[path] then Current
      else if copy.stamp.None? then Edited
      else if t.digest(copy.body) != copy.stamp.value.digest then Edited
      else Stale
  }

  /** A file the toolchain does not ship, when it is a copy of one it once did. */
  function StrayState(t: Toolchain, files: map<string, string>, path: string): Option<CopyState>
    requires path in files
  {
    var copy := t.read(files[path]);
    if copy.stamp.None? || copy.local then None
    else if t.digest(copy.body) == copy.stamp.value.digest then Some(Retired)
    else Some(Orphaned)
  }

  function ShippedCopies(t: Toolchain, files: map<string, string>, n: nat): seq<Copy>
    requires n <= |t.order| && forall p :: p in t.order ==> p in t.shipped
  {
    if n == 0 then [] else ShippedCopies(t, files, n - 1) + [Copy(t.order[n - 1], ShippedState(t, files, t.order[n - 1]))]
  }

  function StrayCopies(t: Toolchain, files: map<string, string>, paths: seq<string>, n: nat): seq<Copy>
    requires n <= |paths| && forall p :: p in paths ==> p in files
  {
    if n == 0 then []
    else
      var before := StrayCopies(t, files, paths, n - 1);
      var path := paths[n - 1];
      if path in t.shipped then before
      else
        var state := StrayState(t, files, path);
        if state.None? then before else before + [Copy(path, state.value)]
  }

  /** Every copy there should be or there is. */
  ghost function Listed(t: Toolchain, files: map<string, string>): seq<Copy>
    requires forall p :: p in t.order ==> p in t.shipped
  {
    ShippedCopies(t, files, |t.order|) + StrayCopies(t, files, Sorted(files.Keys), |files|)
  }

  /** The state of one path, when it is listed. */
  function StateAt(t: Toolchain, files: map<string, string>, path: string): Option<CopyState> {
    if path in t.shipped then Some(ShippedState(t, files, path))
    else if path in files then StrayState(t, files, path)
    else None
  }

  /** What `update` does about a copy, given the file it finds there. */
  function ActionFor(t: Toolchain, files: map<string, string>, inside: set<string>, force: bool, copy: Copy): Action {
    if copy.state == Orphaned then ReportOrphaned
    else if copy.state == Local && !force then ReportKept
    else if copy.state != Retired && copy.path in t.shipped && copy.path in files
            && files[copy.path] == CopyOf(t, copy.path) then LeaveAlone
    else if copy.path !in inside then if copy.state != Current then Refuse else LeaveAlone
    else if copy.state == Retired then Remove
    else if copy.state == Edited || copy.state == Local then Overwrite
    else Write
  }

  /** The text at a path after `update`, nothing when there is no file. */
  function After(t: Toolchain, files: map<string, string>, inside: set<string>, force: bool, path: string): Option<string> {
    var was := if path in files then Some(files[path]) else None;
    var state := StateAt(t, files, path);
    if state.None? then was
    else
      match ActionFor(t, files, inside, force, Copy(path, state.value))
      case Remove => None
      case Write => if path in t.shipped then Some(CopyOf(t, path)) else was
      case Overwrite => if path in t.shipped then Some(CopyOf(t, path)) else was
      case _ => was
  }

  /** The file tree after `update`. */
  function Updated(t: Toolchain, files: map<string, string>, inside: set<string>, force: bool): map<string, string> {
    map p | p in files.Keys + t.shipped.Keys && After(t, files, inside, force, p).Some? :: After(t, files, inside, force, p).value
  }

  lemma UpdatedAt(t: Toolchain, files: map<string, string>, inside: set<string>, force: bool, path: string)
    ensures var next, after := Updated(t, files, inside, force), After(t, files, inside, force, path);
            if after.Some? then path in next && next[path] == after.value else path !in next
  {}

  /** A copy just written reads as current, and is left alone from then on. */
  lemma WrittenIsCurrent(t: Toolchain, files: map<string, string>, path: string)
    requires Sane(t) && path in t.shipped && path in files && files[path] == CopyOf(t, path)
    ensures ShippedState(t, files, path) == Current
  {}

  /** What a path comes to after one update it comes to after two, and its state says why it may still differ. */
  lemma {:induction false} PathSettles(t: Toolchain, files: map<string, string>, inside: set<string>, force: bool, path: string)
    requires Sane(t)
    ensures var next := Updated(t, files, inside, force);
            && After(t, next, inside, force, path) == After(t, files, inside, force, path)
            && (path in next && (path !in files || next[path] != files[path]) ==>
                  path in t.shipped && next[path] == CopyOf(t, path))
  {
    var next := Updated(t, files, inside, force);
    UpdatedAt(t, files, inside, force, path);
    if path in t.shipped && path in next && next[path] == CopyOf(t, path) {
      WrittenIsCurrent(t, next, path);
    }
  }

  /** A second `update` changes nothing. */
  lemma UpdateIsFixpoint(t: Toolchain, files: map<string, string>, inside: set<string>, force: bool)
    requires Sane(t)
    ensures var next := Updated(t, files, inside, force);
            Updated(t, next, inside, force) == next
  {
    var next := Updated(t, files, inside, force);
    var again := Updated(t, next, inside, force);
    forall p ensures (p in again <==> p in next) && (p in next ==> again[p] == next[p]) {
      PathSettles(t, files, inside, force, p);
      UpdatedAt(t, files, inside, force, p);
      UpdatedAt(t, next, inside, force, p);
    }
  }

  /** After `update`, what still drifts was orphaned or refused. */
  lemma DriftLeft(t: Toolchain, files: map<string, string>, inside: set<string>, force: bool, path: string)
    requires Sane(t)
    requires StateAt(t, Updated(t, files, inside, force), path).Some?
    requires Drifted(Copy(path, StateAt(t, Updated(t, files, inside, force), path).value))
    ensures var state := StateAt(t, files, path);
            && state.Some?
            && var action := ActionFor(t, files, inside, force, Copy(path, state.value));
               action == ReportOrphaned || action == Refuse
  {
    var next := Updated(t, files, inside, force);
    UpdatedAt(t, files, inside, force, path);
    if path in t.shipped && path in next && next[path] == CopyOf(t, path) {
      WrittenIsCurrent(t, next, path);
    }
  }

  /** Without `force`, a marked file keeps its text, and so does an unshipped one unless it is as its stamp says. */
  lemma KeepsOthersText(t: Toolchain, files: map<string, string>, inside: set<string>, path: string)
    requires path in files
    requires var copy := t.read(files[path]);
             copy.local || (path !in t.shipped && !(copy.stamp.Some? && t.digest(copy.body) == copy.stamp.value.digest))
    ensures var next := Updated(t, files, inside, false); path in next && next[path] == files[path]
  {
    UpdatedAt(t, files, inside, false, path);
  }

  /** Every shipped text is there after `update`, but for copies kept as local edits or refused. */
  lemma ShippedTextArrives(t: Toolchain, files: map<string, string>, inside: set<string>, force: bool, path: string)
    requires Sane(t) && path in t.shipped
    requires var action := ActionFor(t, files, inside, force, Copy(path, ShippedState(t, files, path)));
             action != ReportKept && action != Refuse
    ensures var next := Updated(t, files, inside, force);
            path in next && t.read(next[path]).body == t.shipped[path]
  {
    UpdatedAt(t, files, inside, force, path);
  }

  /** The paths of the first `n` copies that `update` deals with in one way, in survey order. */
  function PathsOf(t: Toolchain, files: map<string, string>, inside: set<string>, force: bool, copies: seq<Copy>, n: nat, action: Action): seq<string>
    requires n <= |copies|
  {
    if n == 0 then []
    else
      var before := PathsOf(t, files, inside, force, copies, n - 1, action);
      if ActionFor(t, files, inside, force, copies[n - 1]) == action then before + [copies[n - 1].path] else before
  }

  lemma {:induction false} ShippedCopiesAt(t: Toolchain, files: map<string, string>, n: nat)
    requires n <= |t.order| && forall p :: p in t.order ==> p in t.shipped
    ensures |ShippedCopies(t, files, n)| == n
    ensures forall i :: 0 <= i < n ==> ShippedCopies(t, files, n)[i] == Copy(t.order[i], ShippedState(t, files, t.order[i]))
  {
    if n > 0 { ShippedCopiesAt(t, files, n - 1); }
  }

  /** The strays listed are the unshipped files with a state, once each. */
  lemma {:induction false} StrayCopiesAt(t: Toolchain, files: map<string, string>, paths: seq<string>, n: nat)
    requires n <= |paths| && (forall p :: p in paths ==> p in files)
    requires forall i, j :: 0 <= i < j < |paths| ==> paths[i] != paths[j]
    ensures var copies := StrayCopies(t, files, paths, n);
            && (forall c :: c in copies ==> c.path !in t.shipped && c.path in paths[..n] && StateAt(t, files, c.path) == Some(c.state))
            && (forall i, j :: 0 <= i < j < |copies| ==> copies[i].path != copies[j].path)
            && (forall p :: p in paths[..n] && p !in t.shipped && StateAt(t, files, p).Some? ==> Copy(p, StateAt(t, files, p).value) in copies)
  {
    if n > 0 {
      StrayCopiesAt(t, files, paths, n - 1);
      assert paths[..n] == paths[..n - 1] + [paths[n - 1]];
      var before := StrayCopies(t, files, paths, n - 1);
      forall i | 0 <= i < |before| ensures before[i].path != paths[n - 1] {
        assert before[i] in before;
      }
    }
  }

  lemma {:induction false} SortedDistinct(keys: set<string>)
    ensures forall i, j :: 0 <= i < j < |Sorted(keys)| ==> Sorted(keys)[i] != Sorted(keys)[j]
  {
    if keys != {} {
      var rest := keys - {Least(keys)};
      SortedDistinct(rest);
      assert Least(keys) !in Sorted(rest);
    }
  }

  /** What a survey says: one entry per path that has a state, with that state. */
  ghost predicate IsSurvey(t: Toolchain, files: map<string, string>, copies: seq<Copy>) {
    && (forall i :: 0 <= i < |copies| ==> StateAt(t, files, copies[i].path) == Some(copies[i].state))
    && (forall i, j :: 0 <= i < j < |copies| ==> copies[i].path != copies[j].path)
    && (forall p :: StateAt(t, files, p).Some? ==> Copy(p, StateAt(t, files, p).value) in copies)
  }

  /** A survey of the shipped paths and one of the strays make up a whole one. */
  lemma JoinSurveys(t: Toolchain, files: map<string, string>, a: seq<Copy>, b: seq<Copy>)
    requires forall i :: 0 <= i < |a| ==> a[i].path in t.shipped && StateAt(t, files, a[i].path) == Some(a[i].state)
    requires forall i :: 0 <= i < |b| ==> b[i].path !in t.shipped && StateAt(t, files, b[i].path) == Some(b[i].state)
    requires forall i, j :: 0 <= i < j < |a| ==> a[i].path != a[j].path
    requires forall i, j :: 0 <= i < j < |b| ==> b[i].path != b[j].path
    requires forall p :: p in t.shipped && StateAt(t, files, p).Some? ==> Copy(p, StateAt(t, files, p).value) in a
    requires forall p :: p !in t.shipped && StateAt(t, files, p).Some? ==> Copy(p, StateAt(t, files, p).value) in b
    ensures IsSurvey(t, files, a + b)
  {
    var all: seq<Copy> := a + b;
    forall p | StateAt(t, files, p).Some? ensures Copy(p, StateAt(t, files, p).value) in all {
      if p in t.shipped {
        assert Copy(p, StateAt(t, files, p).value) in a;
      } else {
        assert Copy(p, StateAt(t, files, p).value) in b;
      }
    }
  }

  lemma ShippedIsSurvey(t: Toolchain, files: map<string, string>, a: seq<Copy>)
    requires (forall p :: p in t.order <==> p in t.shipped) && a == ShippedCopies(t, files, |t.order|)
    ensures forall i :: 0 <= i < |a| ==> a[i].path in t.shipped && StateAt(t, files, a[i].path) == Some(a[i].state)
    ensures forall p :: p in t.shipped ==> Copy(p, StateAt(t, files, p).value) in a
  {
    ShippedCopiesAt(t, files, |t.order|);
    forall i | 0 <= i < |a| ensures a[i].path in t.shipped && StateAt(t, files, a[i].path) == Some(a[i].state) {
      assert t.order[i] in t.order;
    }
    forall p | p in t.shipped ensures Copy(p, StateAt(t, files, p).value) in a {
      var i :| 0 <= i < |t.order| && t.order[i] == p;
      assert a[i] in a;
    }
  }

  lemma {:induction false} ListedIsSurvey(t: Toolchain, files: map<string, string>)
    requires Sane(t)
    ensures IsSurvey(t, files, Listed(t, files))
  {
    var paths := Sorted(files.Keys);
    var a, b := ShippedCopies(t, files, |t.order|), StrayCopies(t, files, paths, |paths|);
    SortedDistinct(files.Keys);
    ShippedIsSurvey(t, files, a);
    ShippedCopiesAt(t, files, |t.order|);
    StrayCopiesAt(t, files, paths, |paths|);
    assert paths[..|paths|] == paths;
    forall i | 0 <= i < |b| ensures b[i].path !in t.shipped && StateAt(t, files, b[i].path) == Some(b[i].state) {
      assert b[i] in b;
    }
    JoinSurveys(t, files, a, b);
  }

  /** What `update` did, by path. */
  datatype Done = Done(
    written: seq<string>,
    overwrote: seq<string>,
    removed: seq<string>,
    kept: seq<string>,
    orphaned: seq<string>,
    refused: seq<string>)

  /** One more path in the list its action belongs to. */
  function Noted(done: Done, path: string, action: Action): Done {
    match action
    case ReportOrphaned => done.(orphaned := done.orphaned + [path])
    case ReportKept => done.(kept := done.kept + [path])
    case Refuse => done.(refused := done.refused + [path])
    case Remove => done.(removed := done.removed + [path])
    case Write => done.(written := done.written + [path])
    case Overwrite => done.(overwrote := done.overwrote + [path])
    case LeaveAlone => done
  }

  /** The report once the first `n` copies have been dealt with. */
  function Reported(t: Toolchain, files: map<string, string>, inside: set<string>, force: bool, copies: seq<Copy>, n: nat): Done
    requires n <= |copies|
  {
    if n == 0 then Done([], [], [], [], [], [])
    else
      Noted(Reported(t, files, inside, force, copies, n - 1), copies[n - 1].path, ActionFor(t, files, inside, force, copies[n - 1]))
  }

  /** Each list holds, in survey order, the paths dealt with in its way. */
  lemma {:induction false} ReportsPaths(t: Toolchain, files: map<string, string>, inside: set<string>, force: bool, copies: seq<Copy>, n: nat)
    requires n <= |copies|
    ensures var done := Reported(t, files, inside, force, copies, n);
            && done.orphaned == PathsOf(t, files, inside, force, copies, n, ReportOrphaned)
            && done.kept == PathsOf(t, files, inside, force, copies, n, ReportKept)
            && done.refused == PathsOf(t, files, inside, force, copies, n, Refuse)
            && done.removed == PathsOf(t, files, inside, force, copies, n, Remove)
            && done.written == PathsOf(t, files, inside, force, copies, n, Write)
            && done.overwrote == PathsOf(t, files, inside, force, copies, n, Overwrite)
  {
    if n > 0 { ReportsPaths(t, files, inside, force, copies, n - 1); }
  }

  function TextAt(files: map<string, string>, path: string): Option<string> {
    if path in files then Some(files[path]) else None
  }

  /** What one action makes of the tree. */
  function Acted(t: Toolchain, files: map<string, string>, path: string, action: Action): map<string, string> {
    if action == Remove then files - {path}
    else if (action == Write || action == Overwrite) && path in t.shipped then files[path := CopyOf(t, path)]
    else files
  }

  lemma ActedAt(t: Toolchain, was: map<string, string>, now: map<string, string>, inside: set<string>, force: bool, copy: Copy)
    requires StateAt(t, was, copy.path) == Some(copy.state) && TextAt(now, copy.path) == TextAt(was, copy.path)
    ensures TextAt(Acted(t, now, copy.path, ActionFor(t, was, inside, force, copy)), copy.path) ==
            After(t, was, inside, force, copy.path)
  {}

  lemma ActedElsewhere(t: Toolchain, files: map<string, string>, path: string, action: Action, other: string)
    requires path != other
    ensures TextAt(Acted(t, files, path, action), other) == TextAt(files, other)
  {}

  /** The tree once the first `n` copies have been dealt with. */
  function Settled(t: Toolchain, was: map<string, string>, inside: set<string>, force: bool, copies: seq<Copy>, n: nat): map<string, string>
    requires n <= |copies|
  {
    if n == 0 then was
    else
      Acted(t, Settled(t, was, inside, force, copies, n - 1), copies[n - 1].path, ActionFor(t, was, inside, force, copies[n - 1]))
  }

  /** Dealing with some copies leaves every other path as it was. */
  lemma {:induction false} SettledElsewhere(t: Toolchain, was: map<string, string>, inside: set<string>, force: bool,
                                            copies: seq<Copy>, n: nat, path: string)
    requires n <= |copies| && forall i :: 0 <= i < n ==> copies[i].path != path
    ensures TextAt(Settled(t, was, inside, force, copies, n), path) == TextAt(was, path)
  {
    if n > 0 {
      SettledElsewhere(t, was, inside, force, copies, n - 1, path);
      var action := ActionFor(t, was, inside, force, copies[n - 1]);
      ActedElsewhere(t, Settled(t, was, inside, force, copies, n - 1), copies[n - 1].path, action, path);
    }
  }

  /** A copy dealt with stays as `update` left it. */
  lemma {:induction false} SettledAt(t: Toolchain, was: map<string, string>, inside: set<string>, force: bool,
                                     copies: seq<Copy>, k: nat, n: nat)
    requires k < n <= |copies| && StateAt(t, was, copies[k].path) == Some(copies[k].state)
    requires forall i, j :: 0 <= i < j < |copies| ==> copies[i].path != copies[j].path
    ensures TextAt(Settled(t, was, inside, force, copies, n), copies[k].path) == After(t, was, inside, force, copies[k].path)
  {
    var before := Settled(t, was, inside, force, copies, n - 1);
    if k == n - 1 {
      SettledElsewhere(t, was, inside, force, copies, k, copies[k].path);
      ActedAt(t, was, before, inside, force, copies[k]);
    } else {
      SettledAt(t, was, inside, force, copies, k, n - 1);
      ActedElsewhere(t, before, copies[n - 1].path, ActionFor(t, was, inside, force, copies[n - 1]), copies[k].path);
    }
  }

  lemma {:induction false} SettledPath(t: Toolchain, was: map<string, string>, inside: set<string>, force: bool, copies: seq<Copy>, path: string)
    requires IsSurvey(t, was, copies)
    ensures TextAt(Settled(t, was, inside, force, copies, |copies|), path) == After(t, was, inside, force, path)
  {
    if StateAt(t, was, path).Some? {
      var copy := Copy(path, StateAt(t, was, path).value);
      var i :| 0 <= i < |copies| && copies[i] == copy;
      SettledAt(t, was, inside, force, copies, i, |copies|);
    } else {
      SettledElsewhere(t, was, inside, force, copies, |copies|, path);
    }
  }

  lemma SameTexts(a: map<string, string>, b: map<string, string>)
    requires forall p :: TextAt(a, p) == TextAt(b, p)
    ensures a == b
  {
    forall p ensures p in a <==> p in b {
      assert TextAt(a, p) == TextAt(b, p);
    }
    forall p | p in a ensures a[p] == b[p] {
      assert TextAt(a, p) == TextAt(b, p);
    }
  }

  /** Dealing with every copy of the survey in turn brings every path to where `update` should. */
  lemma {:induction false} SettledIsUpdated(t: Toolchain, was: map<string, string>, inside: set<string>, force: bool)
    requires Sane(t)
    ensures var copies := Listed(t, was);
            Settled(t, was, inside, force, copies, |copies|) == Updated(t, was, inside, force)
  {
    var copies := Listed(t, was);
    var now, next := Settled(t, was, inside, force, copies, |copies|), Updated(t, was, inside, force);
    ListedIsSurvey(t, was);
    forall p ensures TextAt(now, p) == TextAt(next, p) {
      UpdatedAt(t, was, inside, force, p);
      SettledPath(t, was, inside, force, copies, p);
    }
    SameTexts(now, next);
  }

  lemma {:induction false} SameAction(t: Toolchain, was: map<string, string>, now: map<string, string>, inside: set<string>, force: bool, copy: Copy)
    requires TextAt(now, copy.path) == TextAt(was, copy.path)
    ensures ActionFor(t, was, inside, force, copy) == ActionFor(t, now, inside, force, copy)
  {}

  lemma {:induction false} TextAsSurveyed(t: Toolchain, was: map<string, string>, inside: set<string>, force: bool, copies: seq<Copy>, n: nat)
    requires IsSurvey(t, was, copies) && n < |copies|
    ensures TextAt(Settled(t, was, inside, force, copies, n), copies[n].path) == TextAt(was, copies[n].path)
    ensures copies[n].state != Retired && copies[n].state != Orphaned ==> copies[n].path in t.shipped
  {
    assert StateAt(t, was, copies[n].path) == Some(copies[n].state);
    SettledElsewhere(t, was, inside, force, copies, n, copies[n].path);
  }

  lemma {:induction false} DealtNext(t: Toolchain, was: map<string, string>, inside: set<string>, force: bool, copies: seq<Copy>, n: nat, action: Action)
    requires n < |copies| && action == ActionFor(t, was, inside, force, copies[n])
    ensures Settled(t, was, inside, force, copies, n + 1) == Acted(t, Settled(t, was, inside, force, copies, n), copies[n].path, action)
    ensures Reported(t, was, inside, force, copies, n + 1) == Noted(Reported(t, was, inside, force, copies, n), copies[n].path, action)
  {}

  /** When its turn comes a copy is as the survey found it. */
  lemma {:induction false} AsSurveyed(t: Toolchain, was: map<string, string>, now: map<string, string>, inside: set<string>, force: bool, copies: seq<Copy>, n: nat)
    requires Sane(t) && copies == Listed(t, was) && n < |copies|
    requires now == Settled(t, was, inside, force, copies, n)
    ensures var copy := copies[n];
            && (copy.state != Retired && copy.state != Orphaned ==> copy.path in t.shipped)
            && Settled(t, was, inside, force, copies, n + 1) == Acted(t, now, copy.path, ActionFor(t, now, inside, force, copy))
            && Reported(t, was, inside, force, copies, n + 1) ==
               Noted(Reported(t, was, inside, force, copies, n), copy.path, ActionFor(t, now, inside, force, copy))
  {
    ListedIsSurvey(t, was);
    TextAsSurveyed(t, was, inside, force, copies, n);
    SameAction(t, was, now, inside, force, copies[n]);
    DealtNext(t, was, inside, force, copies, n, ActionFor(t, now, inside, force, copies[n]));
  }

  /** A project's vendored files, and the paths whose directory lies within it. */
  class Project {
    var files: map<string, string>
    const inside: set<string>

    constructor (files: map<string, string>, inside: set<string>)
      ensures this.files == files && this.inside == inside
    {
      this.files := files;
      this.inside := inside;
    }

    /** Compare the copies with what the toolchain ships. */
    method Survey(t: Toolchain) returns (copies: seq<Copy>)
      requires forall p :: p in t.order ==> p in t.shipped
      ensures copies == Listed(t, files)
    {
      copies := [];
      for i := 0 to |t.order|
        invariant copies == ShippedCopies(t, files, i)
      {
        var path := t.order[i];
        copies := copies + [Copy(path, ShippedState(t, files, path))];
      }
      var paths := SortedList(files.Keys);
      for i := 0 to |paths|
        invariant copies == ShippedCopies(t, files, |t.order|) + StrayCopies(t, files, paths, i)
      {
        var path := paths[i];
        if path in t.shipped {
          continue;
        }
        var state := StrayState(t, files, path);
        if state.None? {
          continue;
        }
        copies := copies + [Copy(path, state.value)];
      }
    }

    /** Deal with one copy: write it, remove it or say why not. */
    method Deal(t: Toolchain, force: bool, copy: Copy, before: Done) returns (done: Done)
      requires copy.state != Retired && copy.state != Orphaned ==> copy.path in t.shipped
      modifies this
      ensures var action := ActionFor(t, old(files), inside, force, copy);
              && files == Acted(t, old(files), copy.path, action)
              && done == Noted(before, copy.path, action)
    {
      done := before;
      var path := copy.path;
      if copy.state == Orphaned {
        done := done.(orphaned := done.orphaned + [path]);
      } else if copy.state == Local && !force {
        done := done.(kept := done.kept + [path]);
      } else if copy.state != Retired && path in files && files[path] == CopyOf(t, path) {
        return;
      } else if path !in inside {
        if copy.state != Current {
          done := done.(refused := done.refused + [path]);
        }
      } else if copy.state == Retired {
        files := files - {path};
        done := done.(removed := done.removed + [path]);
      } else {
        files := files[path := CopyOf(t, path)];
        if copy.state == Edited || copy.state == Local {
          done := done.(overwrote := done.overwrote + [path]);
        } else {
          done := done.(written := done.written + [path]);
        }
      }
    }

    /** Survey the copies, then deal with each in turn. */
    method Update(t: Toolchain, force: bool) returns (done: Done)
      requires Sane(t)
      modifies this
      ensures files == Updated(t, old(files), inside, force)
      ensures var copies := Listed(t, old(files)); done == Reported(t, old(files), inside, force, copies, |copies|)
    {
      done := Done([], [], [], [], [], []);
      ghost var was := files;
      var copies := Survey(t);
      for i := 0 to |copies|
        invariant files == Settled(t, was, inside, force, copies, i)
        invariant done == Reported(t, was, inside, force, copies, i)
      {
        AsSurveyed(t, was, files, inside, force, copies, i);
        done := Deal(t, force, copies[i], done);
      }
      SettledIsUpdated(t, was, inside, force);
    }
  }
}
