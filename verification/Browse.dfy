/** The bounded filesystem calls of internal/daemon/browse.go and browse_roots.go. */
module Browse {
  // A call into the kernel cannot be cancelled: one that does not answer in time is abandoned
  // and keeps its thread. What is bounded is how many calls one request can abandon; what is
  // returned is exactly what the calls answered.

  const BROWSE_TIMEOUT := 10_000
  const ROOT_PROBE_TIMEOUT := 1_000
  const MAX_ROOT_PROBE_TIMEOUTS := 2
  const MAX_DIRS_EXIST_PATHS := 32
  const MAX_BROWSE_ENTRIES := 500

  // What a bounded stat says: nothing, or whether the path is a directory.
  datatype Answer = Answer(isDir: bool, answered: bool)

  datatype Probe = Probe(path: string, answer: Answer)

  datatype DirEntry = DirEntry(name: string, isDir: bool, isLink: bool)

  datatype WireEntry = WireEntry(name: string, isDir: bool)

  // ---------------------------------------------------------------- what was answered

  // The probes made are of these paths, in order.
  predicate Of(probes: seq<Probe>, paths: seq<string>) {
    |probes| == |paths| && forall i :: 0 <= i < |probes| ==> probes[i].path == paths[i]
  }

  // The probed paths that answered as directories, in order.
  function Directories(probes: seq<Probe>): seq<string> {
    if probes == [] then []
    else
      var p := probes[|probes| - 1];
      Directories(probes[..|probes| - 1]) + (if p.answer.answered && p.answer.isDir then [p.path] else [])
  }

  function Unanswered(probes: seq<Probe>): nat {
    if probes == [] then 0
    else Unanswered(probes[..|probes| - 1]) + (if probes[|probes| - 1].answer.answered then 0 else 1)
  }

  predicate AllAnswered(probes: seq<Probe>) { forall i :: 0 <= i < |probes| ==> probes[i].answer.answered }

  lemma ProbesSnoc(probes: seq<Probe>, p: Probe)
    ensures Directories(probes + [p]) == Directories(probes) + (if p.answer.answered && p.answer.isDir then [p.path] else [])
    ensures Unanswered(probes + [p]) == Unanswered(probes) + (if p.answer.answered then 0 else 1)
  {
    assert (probes + [p])[..|probes|] == probes;
  }

  lemma OfSnoc(probes: seq<Probe>, paths: seq<string>, i: nat, a: Answer)
    requires i < |paths| && Of(probes, paths[..i])
    ensures Of(probes + [Probe(paths[i], a)], paths[..i + 1])
    ensures |probes + [Probe(paths[i], a)]| == i + 1
  {
  }

  lemma {:induction false} AnsweredIff(probes: seq<Probe>)
    ensures Unanswered(probes) == 0 <==> AllAnswered(probes)
    decreases |probes|
  {
    if probes != [] {
      AnsweredIff(probes[..|probes| - 1]);
    }
  }

  // ---------------------------------------------------------------- entries

  predicate NeedsProbe(e: DirEntry) { !e.isDir && e.isLink }

  // The paths of the links among the entries.
  function Links(entries: seq<DirEntry>): seq<string> {
    if entries == [] then []
    else Links(entries[..|entries| - 1]) + (if NeedsProbe(entries[|entries| - 1]) then [entries[|entries| - 1].name] else [])
  }

  // Entry by entry: a link is a directory if its own probe said so, anything else by its record.
  function Classified(entries: seq<DirEntry>, probes: seq<Probe>): seq<WireEntry>
    requires |probes| == |Links(entries)|
  {
    if entries == [] then []
    else
      var n, e := |entries| - 1, entries[|entries| - 1];
      if NeedsProbe(e) then
        Classified(entries[..n], probes[..|probes| - 1]) + [WireEntry(e.name, probes[|probes| - 1].answer.isDir)]
      else Classified(entries[..n], probes) + [WireEntry(e.name, e.isDir)]
  }

  lemma ClassifiedLink(entries: seq<DirEntry>, e: DirEntry, probes: seq<Probe>, p: Probe)
    requires |probes| == |Links(entries)| && NeedsProbe(e)
    ensures Links(entries + [e]) == Links(entries) + [e.name]
    ensures |probes + [p]| == |Links(entries + [e])|
    ensures Classified(entries + [e], probes + [p]) == Classified(entries, probes) + [WireEntry(e.name, p.answer.isDir)]
  {
    assert (entries + [e])[..|entries|] == entries;
    assert (probes + [p])[..|probes|] == probes;
  }

  lemma ClassifiedPlain(entries: seq<DirEntry>, e: DirEntry, probes: seq<Probe>)
    requires |probes| == |Links(entries)| && !NeedsProbe(e)
    ensures Links(entries + [e]) == Links(entries)
    ensures Classified(entries + [e], probes) == Classified(entries, probes) + [WireEntry(e.name, e.isDir)]
  {
    assert (entries + [e])[..|entries|] == entries;
  }

  // The entries so far, classified by the probes so far.
  ghost predicate Sorted(entries: seq<DirEntry>, asked: seq<Probe>, out: seq<WireEntry>) {
    Of(asked, Links(entries)) && |asked| == |Links(entries)| && out == Classified(entries, asked)
  }

  lemma NothingSorted()
    ensures Sorted([], [], []) && Unanswered([]) == 0
  {
  }

  lemma SortedIs(entries: seq<DirEntry>, asked: seq<Probe>, out: seq<WireEntry>)
    requires Sorted(entries, asked, out)
    ensures Of(asked, Links(entries)) && |asked| == |Links(entries)| && out == Classified(entries, asked)
  {
  }

  // What one entry makes of its own probe, if it needs one.
  predicate One(e: DirEntry, asked: seq<Probe>, out: WireEntry) {
    if NeedsProbe(e) then |asked| == 1 && asked[0].path == e.name && out == WireEntry(e.name, asked[0].answer.isDir)
    else asked == [] && out == WireEntry(e.name, e.isDir)
  }

  lemma SortedStep(entries: seq<DirEntry>, e: DirEntry, asked: seq<Probe>, more: seq<Probe>, out: seq<WireEntry>, entry: WireEntry)
    requires Sorted(entries, asked, out) && One(e, more, entry)
    ensures Sorted(entries + [e], asked + more, out + [entry])
    ensures Unanswered(asked + more) == Unanswered(asked) + (if more == [] || more[0].answer.answered then 0 else 1)
  {
    hide Links, Classified, Unanswered, Directories;
    if NeedsProbe(e) {
      var p := more[0];
      assert asked + more == asked + [p];
      ClassifiedLink(entries, e, asked, p);
      ProbesSnoc(asked, p);
    } else {
      assert asked + more == asked;
      ClassifiedPlain(entries, e, asked);
    }
  }

  // ---------------------------------------------------------------- directories first

  function Kind(entries: seq<DirEntry>, dirs: bool): seq<DirEntry> {
    if entries == [] then []
    else (if entries[0].isDir == dirs then [entries[0]] else []) + Kind(entries[1..], dirs)
  }

  // The sort puts directories first and keeps the name order the read returns.
  function DirsFirst(entries: seq<DirEntry>): seq<DirEntry> { Kind(entries, true) + Kind(entries, false) }

  function Capped(entries: seq<DirEntry>): seq<DirEntry> {
    if |entries| > MAX_BROWSE_ENTRIES then entries[..MAX_BROWSE_ENTRIES] else entries
  }

  lemma {:induction false} KindIs(entries: seq<DirEntry>, dirs: bool)
    ensures forall e :: e in Kind(entries, dirs) <==> e in entries && e.isDir == dirs
    decreases |entries|
  {
    if entries != [] {
      KindIs(entries[1..], dirs);
      assert entries == [entries[0]] + entries[1..];
    }
  }

  lemma {:induction false} KindsSplit(entries: seq<DirEntry>)
    ensures multiset(DirsFirst(entries)) == multiset(entries)
    decreases |entries|
  {
    if entries != [] {
      KindsSplit(entries[1..]);
      assert entries == [entries[0]] + entries[1..];
    }
  }

  // The cap drops a directory exactly when there are more directories than the cap: up to that
  // it can only drop what is no directory by its own record, which links never are.
  lemma CapDropsADirectoryIff(entries: seq<DirEntry>)
    ensures var all := DirsFirst(entries);
            (exists i :: MAX_BROWSE_ENTRIES <= i < |all| && all[i].isDir) <==> |Kind(entries, true)| > MAX_BROWSE_ENTRIES
    ensures multiset(DirsFirst(entries)) == multiset(entries)
  {
    KindsSplit(entries);
    var all, d, f := DirsFirst(entries), Kind(entries, true), Kind(entries, false);
    KindIs(entries, true);
    KindIs(entries, false);
    forall i | |d| <= i < |all| ensures !all[i].isDir {
      assert all[i] == f[i - |d|];
    }
    if |d| > MAX_BROWSE_ENTRIES {
      assert all[MAX_BROWSE_ENTRIES] == d[MAX_BROWSE_ENTRIES];
      assert d[MAX_BROWSE_ENTRIES] in d;
    }
  }

  // ---------------------------------------------------------------- the machine and its requests

  // The clock, the probes made, and what went wrong so far: calls given up on, permits refused,
  // and reads that failed. Time passes in calls, as it likes; a call that is given up on took
  // just its budget.
  class Machine {
    var now: int
    var abandoned: nat
    var refused: nat
    var failed: nat
    var probes: seq<Probe>

    function Faults(): nat
      reads this
    {
      abandoned + refused + failed
    }

    method Elapse(d: int)
      requires d > 0
      modifies this`now
      ensures old(now) <= now <= old(now) + d
    {
      var t: int := *;
      if 0 < t <= d {
        now := now + t;
      }
    }

    // statIsDirWithinLimit; a refused permit, like a spent budget, starts nothing.
    method StatIsDirWithin(path: string, d: int) returns (r: Answer)
      modifies this
      ensures old(now) <= now && (r.isDir ==> r.answered) && probes == old(probes) + [Probe(path, r)]
      ensures now <= old(now) + (if d > 0 then d else 0)
      ensures abandoned == old(abandoned) || (abandoned == old(abandoned) + 1 && !r.answered && d > 0 && now >= old(now) + d)
      ensures failed == old(failed) && refused >= old(refused)
      ensures d > 0 ==> Faults() == old(Faults()) + (if r.answered then 0 else 1)
      ensures d <= 0 ==> Faults() == old(Faults()) && !r.answered
    {
      r := Answer(false, false);
      var permit: bool := *;
      if d > 0 {
        if permit {
          var inTime: bool := *;
          if inTime {
            var isDir: bool := *;
            Elapse(d);
            r := Answer(isDir, true);
          } else {
            now := now + d;
            abandoned := abandoned + 1;
          }
        } else {
          refused := refused + 1;
        }
      }
      probes := probes + [Probe(path, r)];
    }

    // readDirWithin.
    method ReadDirWithin(path: string, d: int) returns (entries: seq<DirEntry>, ok: bool)
      modifies this`now, this`abandoned, this`refused, this`failed
      ensures old(now) <= now <= old(now) + (if d > 0 then d else 0)
      ensures abandoned == old(abandoned) || (abandoned == old(abandoned) + 1 && !ok && d > 0 && now >= old(now) + d)
      ensures refused >= old(refused) && failed >= old(failed)
      ensures d > 0 ==> Faults() == old(Faults()) + (if ok then 0 else 1)
      ensures d <= 0 ==> Faults() == old(Faults()) && !ok
    {
      entries, ok := [], false;
      if d <= 0 {
        return;
      }
      var permit: bool := *;
      if permit {
        var inTime: bool := *;
        if inTime {
          entries := *;
          ok := *;
          Elapse(d);
          if !ok {
            failed := failed + 1;
          }
        } else {
          now := now + d;
          abandoned := abandoned + 1;
        }
      } else {
        refused := refused + 1;
      }
    }

    // A shared deadline: one abandoned call spends it, so there is at most one.
    ghost predicate Spent(before: nat, deadline: int)
      reads this
    {
      abandoned == before || (abandoned == before + 1 && now >= deadline)
    }

    // The time so far, and what has gone wrong: unanswered probes are accounted for by faults
    // while the deadline lasts.
    ghost predicate Timely(started: int, before: nat, deadline: int, unanswered: nat)
      reads this
    {
      && started <= now && (now <= deadline || now == started)
      && Faults() >= before && (now < deadline ==> Faults() - before == unanswered)
    }

    // One pass of the loop in classifyEntries.
    method ClassifyOne(e: DirEntry, deadline: int) returns (out: WireEntry, ghost asked: seq<Probe>)
      modifies this
      ensures probes == old(probes) + asked
      ensures One(e, asked, out)
      ensures old(now) <= now && (now <= deadline || now == old(now)) && Faults() >= old(Faults())
      ensures abandoned == old(abandoned) || (abandoned == old(abandoned) + 1 && old(now) < deadline <= now)
      ensures now < deadline ==> Faults() == old(Faults()) + (if asked == [] || asked[0].answer.answered then 0 else 1)
    {
      asked := [];
      var isDir := e.isDir;
      if !isDir && e.isLink {
        var a := StatIsDirWithin(e.name, deadline - now);
        isDir := a.isDir;
        asked := [Probe(e.name, a)];
      }
      out := WireEntry(e.name, isDir);
    }

    // classifyEntries: links are resolved while the deadline lasts.
    method ClassifyEntries(entries: seq<DirEntry>, deadline: int) returns (out: seq<WireEntry>, ghost asked: seq<Probe>)
      modifies this
      ensures Spent(old(abandoned), deadline) && Timely(old(now), old(Faults()), deadline, Unanswered(asked))
      ensures probes == old(probes) + asked && Of(asked, Links(entries)) && out == Classified(entries, asked)
    {
      out, asked := [], [];
      NothingSorted();
      assert entries[..0] == [] && entries[..|entries|] == entries;
      hide Sorted, Unanswered, NeedsProbe, One;
      for i := 0 to |entries|
        invariant Spent(old(abandoned), deadline) && Timely(old(now), old(Faults()), deadline, Unanswered(asked))
        invariant probes == old(probes) + asked && Sorted(entries[..i], asked, out)
      {
        assert entries[..i + 1] == entries[..i] + [entries[i]];
        var entry;
        ghost var more;
        entry, more := ClassifyOne(entries[i], deadline);
        SortedStep(entries[..i], entries[i], asked, more, out, entry);
        out, asked := out + [entry], asked + more;
      }
      SortedIs(entries, asked, out);
    }

    // dirsExistResponse: one shared deadline, so one abandoned call at most.
    method DirsExistResponse(paths: seq<string>) returns (out: seq<string>, tooMany: bool, ghost asked: seq<Probe>)
      modifies this
      ensures abandoned <= old(abandoned) + 1 && probes == old(probes) + asked
      ensures tooMany == (|paths| > MAX_DIRS_EXIST_PATHS)
      ensures Of(asked, if tooMany then [] else paths) && out == Directories(asked)
      ensures old(now) <= now <= old(now) + BROWSE_TIMEOUT
      ensures now < old(now) + BROWSE_TIMEOUT ==> Faults() - old(Faults()) == Unanswered(asked)
    {
      out, asked := [], [];
      if |paths| > MAX_DIRS_EXIST_PATHS {
        return [], true, [];
      }
      tooMany := false;
      var deadline := now + BROWSE_TIMEOUT;
      assert Of(asked, paths[..0]) && Directories(asked) == [] && Unanswered(asked) == 0;
      assert paths[..|paths|] == paths;
      hide Of, Directories, Unanswered;
      for i := 0 to |paths|
        invariant Spent(old(abandoned), deadline) && Timely(old(now), old(Faults()), deadline, Unanswered(asked))
        invariant probes == old(probes) + asked
        invariant Of(asked, paths[..i]) && out == Directories(asked)
      {
        var a := StatIsDirWithin(paths[i], deadline - now);
        ProbesSnoc(asked, Probe(paths[i], a));
        OfSnoc(asked, paths, i, a);
        asked := asked + [Probe(paths[i], a)];
        if a.answered && a.isDir {
          out := out + [paths[i]];
        }
      }
    }

    // sweepRoots: every probe has its own short budget, so what is bounded is the number of
    // probes that go unanswered.
    method SweepRoots(candidates: seq<string>, deadline: int)
      returns (roots: seq<string>, complete: bool, ghost asked: seq<Probe>)
      modifies this
      ensures old(now) <= now <= old(now) + |asked| * ROOT_PROBE_TIMEOUT && (now <= deadline || now == old(now))
      ensures abandoned <= old(abandoned) + MAX_ROOT_PROBE_TIMEOUTS && Faults() == old(Faults()) + Unanswered(asked)
      ensures probes == old(probes) + asked && |asked| <= |candidates| && Of(asked, candidates[..|asked|])
      ensures roots == Directories(asked) && Unanswered(asked) <= MAX_ROOT_PROBE_TIMEOUTS
      ensures complete <==> |asked| == |candidates| && AllAnswered(asked)
      ensures |asked| < |candidates| ==> Unanswered(asked) == MAX_ROOT_PROBE_TIMEOUTS || now >= deadline
    {
      roots, asked := [], [];
      var stuck := 0;
      assert Of(asked, candidates[..0]) && Directories(asked) == [] && Unanswered(asked) == 0;
      hide Of, Directories, Unanswered, AllAnswered;
      for i := 0 to |candidates|
        invariant old(now) <= now <= old(now) + i * ROOT_PROBE_TIMEOUT && (now <= deadline || now == old(now))
        invariant abandoned <= old(abandoned) + stuck && Faults() == old(Faults()) + stuck
        invariant probes == old(probes) + asked && |asked| == i && Of(asked, candidates[..i]) && roots == Directories(asked)
        invariant stuck == Unanswered(asked) < MAX_ROOT_PROBE_TIMEOUTS
      {
        var root := candidates[i];
        var budget := deadline - now;
        if budget <= 0 {
          return roots, false, asked;
        }
        if budget > ROOT_PROBE_TIMEOUT {
          budget := ROOT_PROBE_TIMEOUT;
        }
        var a := StatIsDirWithin(root, budget);
        ProbesSnoc(asked, Probe(root, a));
        OfSnoc(asked, candidates, i, a);
        asked := asked + [Probe(root, a)];
        if !a.answered {
          stuck := stuck + 1;
          if stuck >= MAX_ROOT_PROBE_TIMEOUTS {
            AnsweredIff(asked);
            return roots, false, asked;
          }
          continue;
        }
        if a.isDir {
          roots := roots + [root];
        }
      }
      AnsweredIff(asked);
      assert candidates[..|candidates|] == candidates;
      return roots, stuck == 0, asked;
    }

    // browseDirResponse, once the path is resolved: the root sweep where the path is a root, the
    // read, the sort and cap, the link resolution. One deadline covers them all.
    method BrowseDirResponse(path: string, isRoot: bool, drives: seq<string>)
      returns (out: seq<WireEntry>, ok: bool, truncated: bool, roots: seq<string>, rootsTruncated: bool,
               ghost read: seq<DirEntry>, ghost swept: seq<Probe>, ghost asked: seq<Probe>)
      modifies this
      ensures abandoned <= old(abandoned) + (if isRoot then MAX_ROOT_PROBE_TIMEOUTS + 1 else 1)
      ensures probes == old(probes) + swept + asked
      ensures |swept| <= |drives| && Of(swept, drives[..|swept|]) && roots == Directories(swept)
      ensures !isRoot ==> swept == []
      ensures rootsTruncated <==> isRoot && !(|swept| == |drives| && AllAnswered(swept))
      ensures old(now) <= now <= old(now) + BROWSE_TIMEOUT
      ensures now < old(now) + BROWSE_TIMEOUT ==>
                Faults() - old(Faults()) == Unanswered(swept) + Unanswered(asked) + (if ok then 0 else 1)
      ensures !ok ==> out == [] && !truncated && asked == []
      ensures ok ==> Of(asked, Links(Capped(DirsFirst(read)))) && out == Classified(Capped(DirsFirst(read)), asked)
                     && (truncated <==> |DirsFirst(read)| > MAX_BROWSE_ENTRIES)
    {
      out, truncated, roots, rootsTruncated := [], false, [], false;
      swept, asked := [], [];
      var deadline := now + BROWSE_TIMEOUT;
      if isRoot {
        var complete;
        roots, complete, swept := SweepRoots(drives, deadline);
        rootsTruncated := !complete;
      }
      var entries;
      entries, ok := ReadDirWithin(path, deadline - now);
      read := entries;
      if !ok {
        return;
      }
      entries := DirsFirst(entries);
      if |entries| > MAX_BROWSE_ENTRIES {
        entries, truncated := entries[..MAX_BROWSE_ENTRIES], true;
      }
      out, asked := ClassifyEntries(entries, deadline);
    }
  }
}
