/**
 * What an update does to each file, by its marker, its stamp and its digest
 * (packages/truewire/src/truewire/agents.py).
 */
module VendoredLaws {
  import opened VendoredText
  import opened VendoredUpdate
  import opened Wrappers

  /** A file that carries the marker of a local edit. */
  predicate IsMarked(t: Toolchain, text: string) { t.read(text).local }

  /** A file as some toolchain wrote it: stamped, and its text is still the one the stamp was made from. */
  predicate IsUntouched(t: Toolchain, text: string) {
    var copy := t.read(text);
    copy.stamp.Some? && t.digest(copy.body) == copy.stamp.value.digest
  }

  /** A stamped file whose text has been changed since. */
  predicate IsEdited(t: Toolchain, text: string) {
    var copy := t.read(text);
    copy.stamp.Some? && t.digest(copy.body) != copy.stamp.value.digest
  }

  // ---- Strays ----

  /**
   * An update, forced or not, removes exactly the files it does not ship that lie inside the project and
   * are unmarked and untouched since they were written.
   */
  lemma RemovedExactly(t: Toolchain, files: map<string, string>, inside: set<string>, force: bool, path: string)
    requires path in files
    ensures path !in Updated(t, files, inside, force) <==>
            path !in t.shipped && path in inside && !IsMarked(t, files[path]) && IsUntouched(t, files[path])
  {
    UpdatedAt(t, files, inside, force, path);
  }

  /** A file it does not ship is left as it is, or removed; it is never written. */
  lemma StrayKeepsText(t: Toolchain, files: map<string, string>, inside: set<string>, force: bool, path: string)
    requires path !in t.shipped
    ensures var next := Updated(t, files, inside, force);
            path in next ==> path in files && next[path] == files[path]
  {
    UpdatedAt(t, files, inside, force, path);
  }

  // ---- Shipped files ----

  /** What becomes of a shipped path: its text is the toolchain's copy afterwards, but for a kept mark and a path outside. */
  lemma ShippedExactly(t: Toolchain, files: map<string, string>, inside: set<string>, force: bool, path: string)
    requires path in t.shipped
    ensures var next, kept := Updated(t, files, inside, force), path in files && IsMarked(t, files[path]) && !force;
            if kept || path !in inside
            then (path in next <==> path in files) && (path in files ==> next[path] == files[path])
            else path in next && next[path] == CopyOf(t, path)
  {
    UpdatedAt(t, files, inside, force, path);
  }

  // ---- The report ----

  lemma {:induction false} PathsOfExactly(t: Toolchain, files: map<string, string>, inside: set<string>, force: bool,
                                          copies: seq<Copy>, n: nat, action: Action, path: string)
    requires n <= |copies|
    ensures path in PathsOf(t, files, inside, force, copies, n, action) <==>
            exists i :: 0 <= i < n && copies[i].path == path && ActionFor(t, files, inside, force, copies[i]) == action
  {
    if n > 0 { PathsOfExactly(t, files, inside, force, copies, n - 1, action, path); }
  }

  /** A path's action, when it is listed. */
  ghost predicate Takes(t: Toolchain, files: map<string, string>, inside: set<string>, force: bool, path: string, action: Action) {
    StateAt(t, files, path).Some? && ActionFor(t, files, inside, force, Copy(path, StateAt(t, files, path).value)) == action
  }

  /** A list of the report holds a path exactly when the path is dealt with that way. */
  lemma ListExactly(t: Toolchain, files: map<string, string>, inside: set<string>, force: bool, action: Action, path: string)
    requires Sane(t)
    ensures path in PathsOf(t, files, inside, force, Listed(t, files), |Listed(t, files)|, action) <==>
            Takes(t, files, inside, force, path, action)
  {
    var copies := Listed(t, files);
    ListedIsSurvey(t, files);
    PathsOfExactly(t, files, inside, force, copies, |copies|, action, path);
    if Takes(t, files, inside, force, path, action) {
      var copy := Copy(path, StateAt(t, files, path).value);
      var i :| 0 <= i < |copies| && copies[i] == copy;
    }
  }

  /** What `update` reports of the tree it is given. */
  ghost function ReportOf(t: Toolchain, files: map<string, string>, inside: set<string>, force: bool): Done
    requires Sane(t)
  {
    Reported(t, files, inside, force, Listed(t, files), |Listed(t, files)|)
  }

  /** The report's strays: removed are the untouched ones inside, orphaned the edited ones, whether inside or not. */
  lemma StraysReported(t: Toolchain, files: map<string, string>, inside: set<string>, force: bool, path: string)
    requires Sane(t) && path !in t.shipped
    ensures var done := ReportOf(t, files, inside, force);
            && (path in done.removed <==>
                  path in files && path in inside && !IsMarked(t, files[path]) && IsUntouched(t, files[path]))
            && (path in done.orphaned <==> path in files && !IsMarked(t, files[path]) && IsEdited(t, files[path]))
            && (path in done.refused <==>
                  path in files && path !in inside && !IsMarked(t, files[path]) && IsUntouched(t, files[path]))
            && path !in done.written && path !in done.overwrote && path !in done.kept
  {
    ReportsPaths(t, files, inside, force, Listed(t, files), |Listed(t, files)|);
    ListExactly(t, files, inside, force, Remove, path);
    ListExactly(t, files, inside, force, ReportOrphaned, path);
    ListExactly(t, files, inside, force, Refuse, path);
    ListExactly(t, files, inside, force, Write, path);
    ListExactly(t, files, inside, force, Overwrite, path);
    ListExactly(t, files, inside, force, ReportKept, path);
  }

  /** A shipped path inside the project whose text is not the toolchain's own copy of it. */
  predicate IsRewritten(t: Toolchain, files: map<string, string>, inside: set<string>, force: bool, path: string)
    requires path in t.shipped
  {
    && path in inside && (path in files ==> files[path] != CopyOf(t, path))
    && (path in files && IsMarked(t, files[path]) ==> force)
  }

  /** A shipped copy that someone changed: marked, or neither the shipped text nor as its stamp says it was written. */
  predicate IsChanged(t: Toolchain, files: map<string, string>, path: string)
    requires path in t.shipped && path in files
  {
    IsMarked(t, files[path]) || (t.read(files[path]).body != t.shipped[path] && !IsUntouched(t, files[path]))
  }

  /** The report's shipped paths: overwrote are the rewritten ones that were changed, written the others rewritten. */
  lemma ShippedReported(t: Toolchain, files: map<string, string>, inside: set<string>, force: bool, path: string)
    requires Sane(t) && path in t.shipped
    ensures var done, there := ReportOf(t, files, inside, force), path in files;
            && (path in done.overwrote <==> IsRewritten(t, files, inside, force, path) && there && IsChanged(t, files, path))
            && (path in done.written <==> IsRewritten(t, files, inside, force, path) && !(there && IsChanged(t, files, path)))
            && (path in done.kept <==> there && IsMarked(t, files[path]) && !force)
            && path !in done.removed && path !in done.orphaned
  {
    ReportsPaths(t, files, inside, force, Listed(t, files), |Listed(t, files)|);
    ListExactly(t, files, inside, force, Overwrite, path);
    ListExactly(t, files, inside, force, Write, path);
    ListExactly(t, files, inside, force, ReportKept, path);
    ListExactly(t, files, inside, force, Remove, path);
    ListExactly(t, files, inside, force, ReportOrphaned, path);
  }

  /** And refused are those outside the project whose text would change, but for a copy of the shipped text itself. */
  lemma RefusedExactly(t: Toolchain, files: map<string, string>, inside: set<string>, force: bool, path: string)
    requires Sane(t) && path in t.shipped
    ensures path in ReportOf(t, files, inside, force).refused <==>
            && path !in inside
            && (path in files ==>
                  && files[path] != CopyOf(t, path)
                  && (if IsMarked(t, files[path]) then force else t.read(files[path]).body != t.shipped[path]))
  {
    ReportsPaths(t, files, inside, force, Listed(t, files), |Listed(t, files)|);
    ListExactly(t, files, inside, force, Refuse, path);
  }

  // ---- The survey ----

  /** A shipped path's state, by what is there: its marker first, then its text, then its stamp. */
  lemma ShippedStates(t: Toolchain, files: map<string, string>, path: string)
    requires path in t.shipped
    ensures var state := ShippedState(t, files, path);
            if path !in files then state == Missing
            else
              var same := t.read(files[path]).body == t.shipped[path];
              && (state == Local <==> IsMarked(t, files[path]))
              && (state == Current <==> !IsMarked(t, files[path]) && same)
              && (state == Stale <==> !IsMarked(t, files[path]) && !same && IsUntouched(t, files[path]))
              && (state == Edited <==> !IsMarked(t, files[path]) && !same && !IsUntouched(t, files[path]))
  {}

  /** A stray's state: retired while untouched, orphaned once edited, and not listed when marked or never stamped. */
  lemma StrayStates(t: Toolchain, files: map<string, string>, path: string)
    requires path in files
    ensures var state := StrayState(t, files, path);
            && (state == Some(Retired) <==> !IsMarked(t, files[path]) && IsUntouched(t, files[path]))
            && (state == Some(Orphaned) <==> !IsMarked(t, files[path]) && IsEdited(t, files[path]))
            && (state == None <==> IsMarked(t, files[path]) || t.read(files[path]).stamp.None?)
  {}
}
