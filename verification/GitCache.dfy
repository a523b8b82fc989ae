/** The git state cache of internal/daemon/gitcache.go: pane directory to checkout, checkout to
    branch, each branch validated by the modification time of the checkout's HEAD file. */
module GitCache {
  // Users check out branches at any moment, also between two file accesses of one refresh.
  // `Repos` is the state of all checkouts with its history; `World` the object whose methods
  // are the accesses the cache makes. Permits and timeouts are nondeterministic.

  // A HEAD file: when it was last rewritten, and the branch it names. Time 0 is "unknown".
  datatype Head = Head(mtime: nat, branch: string)

  // `past` remembers every HEAD a checkout ever had.
  datatype Repos = Repos(heads: map<string, Head>, past: map<(string, nat), string>)

  ghost predicate Sound(r: Repos) {
    forall d :: d in r.heads ==>
      r.heads[d].mtime > 0 && (d, r.heads[d].mtime) in r.past && r.past[(d, r.heads[d].mtime)] == r.heads[d].branch
  }

  // Any number of checkouts: each HEAD rewrite gets a modification time never seen before.
  ghost predicate Evolves(a: Repos, b: Repos) {
    && Sound(b)
    && (forall k :: k in a.past ==> k in b.past && b.past[k] == a.past[k])
    && (forall d :: d in b.heads ==>
          (d in a.heads && b.heads[d] == a.heads[d]) || (d, b.heads[d].mtime) !in a.past)
  }

  lemma EvolvesTrans(a: Repos, b: Repos, c: Repos)
    requires Evolves(a, b) && Evolves(b, c)
    ensures Evolves(a, c)
  {
    forall d | d in c.heads
      ensures (d in a.heads && c.heads[d] == a.heads[d]) || (d, c.heads[d].mtime) !in a.past
    {
      if (d, c.heads[d].mtime) !in b.past {
        assert (d, c.heads[d].mtime) !in a.past;
      } else {
        assert d in b.heads && c.heads[d] == b.heads[d];
      }
    }
  }

  lemma CheckoutEvolves(a: Repos, d: string, branch: string, mtime: nat)
    requires Sound(a) && mtime > 0 && (d, mtime) !in a.past
    ensures Evolves(a, Repos(a.heads[d := Head(mtime, branch)], a.past[(d, mtime) := branch]))
  {
  }

  // ---------------------------------------------------------------- cache entries

  datatype Info = Info(branch: string, linked: bool)

  // One probe of a checkout: whether git answered, and what.
  datatype Outcome = Outcome(dir: string, ok: bool, info: Info)

  datatype Entry = Entry(info: Info, repo: bool, probeDir: string, at: nat, headMtime: nat, stale: bool)

  // The recorded modification time is one the checkout's HEAD really had.
  ghost predicate Dated(r: Repos, d: string, e: Entry) {
    e.headMtime == 0 || (d, e.headMtime) in r.past
  }

  // A probed, non-stale entry whose recorded HEAD time is the current one holds the current branch.
  ghost predicate Coherent(r: Repos, d: string, e: Entry) {
    e.at != 0 && !e.stale && d in r.heads && e.headMtime == r.heads[d].mtime ==>
      e.info.branch == r.heads[d].branch
  }

  lemma EvolvingKeepsCoherent(a: Repos, b: Repos, d: string, e: Entry)
    requires Evolves(a, b) && Dated(a, d, e) && Coherent(a, d, e)
    ensures Dated(b, d, e) && Coherent(b, d, e)
  {
  }

  // Why HEAD's time is taken before the probe: whatever is checked out in between, the pair is
  // coherent for ever after.
  lemma ProbedPairCoherent(atStat: Repos, atProbe: Repos, after: Repos, d: string, e: Entry)
    requires Sound(atStat) && Evolves(atStat, atProbe) && Evolves(atProbe, after)
    requires d in atProbe.heads && e.info.branch == atProbe.heads[d].branch
    requires e.headMtime == 0 || (d in atStat.heads && e.headMtime == atStat.heads[d].mtime)
    ensures Dated(after, d, e) && Coherent(after, d, e)
  {
    assert Dated(atProbe, d, e) && Coherent(atProbe, d, e);
    EvolvingKeepsCoherent(atProbe, after, d, e);
  }

  // Taken after the probe it would not be: a checkout in between is never noticed.
  lemma LateStatIsIncoherent(r: Repos, d: string, e: Entry, branch: string, mtime: nat)
    requires Sound(r) && d in r.heads && mtime > 0 && (d, mtime) !in r.past && branch != r.heads[d].branch
    requires e.at != 0 && !e.stale && e.info.branch == r.heads[d].branch && e.headMtime == mtime
    ensures var after := Repos(r.heads[d := Head(mtime, branch)], r.past[(d, mtime) := branch]);
            Evolves(r, after) && !Coherent(after, d, e)
  {
    CheckoutEvolves(r, d, branch, mtime);
  }

  ghost predicate AllCoherent(r: Repos, byDir: map<string, Entry>) {
    forall d :: d in byDir ==> Dated(r, d, byDir[d]) && Coherent(r, d, byDir[d])
  }

  lemma EvolvingKeepsAll(a: Repos, b: Repos, byDir: map<string, Entry>)
    requires Evolves(a, b) && AllCoherent(a, byDir)
    ensures AllCoherent(b, byDir)
  {
    forall d | d in byDir ensures Dated(b, d, byDir[d]) && Coherent(b, d, byDir[d]) {
      EvolvingKeepsCoherent(a, b, d, byDir[d]);
    }
  }

  lemma OneMoreCoherent(r: Repos, byDir: map<string, Entry>, d: string, e: Entry)
    requires AllCoherent(r, byDir) && Dated(r, d, e) && Coherent(r, d, e)
    ensures AllCoherent(r, byDir[d := e])
  {
  }

  // A stale entry, or one not probed yet, claims nothing about the current branch.
  lemma UnprobedCoherent(r: Repos, d: string, e: Entry)
    requires (e.at == 0 && e.headMtime == 0) || (e.stale && Dated(r, d, e))
    ensures Dated(r, d, e) && Coherent(r, d, e)
  {
  }

  // The maps agree with one another and with what directories resolve to.
  ghost predicate Linked(checkouts: map<string, (string, string)>, byDir: map<string, Entry>,
                         cwdToDir: map<string, string>, cwdAt: map<string, nat>) {
    && cwdToDir.Keys == cwdAt.Keys
    && (forall c :: c in cwdToDir && cwdToDir[c] != "" ==>
          c in checkouts && checkouts[c].0 == cwdToDir[c] && cwdToDir[c] in byDir)
    && (forall d :: d in byDir ==> Placed(checkouts, d, byDir[d]))
  }

  // An entry is probed from a directory of its own checkout, and says rightly whether that is a
  // linked worktree: one whose git dir is not the common one.
  ghost predicate Placed(checkouts: map<string, (string, string)>, d: string, e: Entry) {
    && e.probeDir in checkouts && checkouts[e.probeDir].0 == d
    && (e.info.linked <==> checkouts[e.probeDir].1 != d)
  }

  // An entry may change in all but the directory it is probed from.
  lemma EntryChangeLinked(checkouts: map<string, (string, string)>, byDir: map<string, Entry>,
                          cwdToDir: map<string, string>, cwdAt: map<string, nat>, d: string, e: Entry)
    requires Linked(checkouts, byDir, cwdToDir, cwdAt) && d in byDir
    requires e.probeDir == byDir[d].probeDir && e.info.linked == byDir[d].info.linked
    ensures Linked(checkouts, byDir[d := e], cwdToDir, cwdAt)
  {
  }

  lemma ResolvedLinked(checkouts: map<string, (string, string)>, byDir: map<string, Entry>,
                       cwdToDir: map<string, string>, cwdAt: map<string, nat>, cwd: string, dir: string, now: nat)
    requires Linked(checkouts, byDir, cwdToDir, cwdAt)
    requires dir != "" ==> cwd in checkouts && checkouts[cwd].0 == dir && dir in byDir
    ensures Linked(checkouts, byDir, cwdToDir[cwd := dir], cwdAt[cwd := now])
  {
  }

  lemma PlaceholderLinked(checkouts: map<string, (string, string)>, byDir: map<string, Entry>,
                          cwdToDir: map<string, string>, cwdAt: map<string, nat>, d: string, e: Entry)
    requires Linked(checkouts, byDir, cwdToDir, cwdAt) && Placed(checkouts, d, e)
    ensures Linked(checkouts, byDir[d := e], cwdToDir, cwdAt)
  {
  }

  // Why a checkout is probed: it never was, or not with success, or its HEAD cannot be read or is
  // not the one last seen.
  ghost predicate Needed(before: Entry, now: Repos, d: string, statFailed: bool) {
    before.at == 0 || before.stale || statFailed || !(d in now.heads && now.heads[d].mtime == before.headMtime)
  }

  lemma NeededLasts(before: Entry, a: Repos, b: Repos, d: string, statFailed: bool)
    requires Needed(before, a, d, statFailed) && Dated(a, d, before) && Evolves(a, b)
    ensures Needed(before, b, d, statFailed)
  {
  }

  ghost predicate AllNeeded(was: map<string, Entry>, now: Repos, log: seq<Outcome>, statFailed: bool) {
    forall o :: o in log ==> o.dir in was && Needed(was[o.dir], now, o.dir, statFailed)
  }

  lemma AllNeededStep(was: map<string, Entry>, a: Repos, b: Repos, log: seq<Outcome>, more: seq<Outcome>, dir: string,
                      before: bool, after: bool)
    requires AllNeeded(was, a, log, before) && Evolves(a, b) && (before ==> after)
    requires forall d :: d in was ==> Dated(a, d, was[d])
    requires more == log || (more != [] && more == log + [more[|more| - 1]] && more[|more| - 1].dir == dir)
    requires more != log ==> dir in was && Needed(was[dir], b, dir, after)
    ensures AllNeeded(was, b, more, after)
  {
    hide Evolves, Dated, Needed;
    forall o | o in more ensures o.dir in was && Needed(was[o.dir], b, o.dir, after) {
      if o in log {
        assert Needed(was[o.dir], a, o.dir, after) by { NeededMore(was[o.dir], a, o.dir, before, after); }
        NeededLasts(was[o.dir], a, b, o.dir, after);
      } else {
        assert o == more[|more| - 1];
      }
    }
  }

  lemma NeededMore(before: Entry, a: Repos, d: string, f: bool, g: bool)
    requires Needed(before, a, d, f) && (f ==> g)
    ensures Needed(before, a, d, g)
  {
  }

  lemma DatedLasts(a: Repos, b: Repos, was: map<string, Entry>)
    requires Evolves(a, b) && forall d :: d in was ==> Dated(a, d, was[d])
    ensures forall d :: d in was ==> Dated(b, d, was[d])
  {
  }

  // The branch was checked out at `start` or later.
  ghost predicate NotOlder(start: Repos, now: Repos, d: string, branch: string) {
    exists m: nat :: (d, m) in now.past && now.past[(d, m)] == branch
                     && ((d in start.heads && m == start.heads[d].mtime) || (d, m) !in start.past)
  }

  lemma CurrentIsNotOlder(start: Repos, at: Repos, now: Repos, d: string)
    requires Evolves(start, at) && Evolves(at, now) && d in at.heads
    ensures NotOlder(start, now, d, at.heads[d].branch)
  {
    var m := at.heads[d].mtime;
    assert (d, m) in at.past;
    assert (d, m) in now.past && now.past[(d, m)] == at.heads[d].branch;
  }

  lemma NotOlderLasts(start: Repos, at: Repos, now: Repos, d: string, branch: string)
    requires NotOlder(start, at, d, branch) && Evolves(at, now)
    ensures NotOlder(start, now, d, branch)
  {
    var m: nat :| (d, m) in at.past && at.past[(d, m)] == branch
                  && ((d in start.heads && m == start.heads[d].mtime) || (d, m) !in start.past);
    assert (d, m) in now.past;
  }

  // Every answered checkout is up to date with something checked out since `start`.
  ghost predicate UpToDate(start: Repos, now: Repos, dirs: seq<string>, byDir: map<string, Entry>) {
    forall d :: d in dirs && d in byDir ==> byDir[d].stale || NotOlder(start, now, d, byDir[d].info.branch)
  }

  lemma UpToDateStep(start: Repos, was: Repos, now: Repos, dirs: seq<string>, dir: string,
                     before: map<string, Entry>, after: map<string, Entry>)
    requires UpToDate(start, was, dirs, before) && Evolves(start, was) && Evolves(was, now)
    requires dir !in dirs && before.Keys == after.Keys && forall d :: d in before && d != dir ==> after[d] == before[d]
    requires dir in after && (after[dir].stale || NotOlder(was, now, dir, after[dir].info.branch))
    ensures UpToDate(start, now, dirs + [dir], after)
  {
    hide Evolves, NotOlder;
    forall d | d in dirs + [dir] && d in after ensures after[d].stale || NotOlder(start, now, d, after[d].info.branch) {
      if !after[d].stale {
        if d == dir {
          OlderStart(start, was, now, d, after[d].info.branch);
        } else {
          NotOlderLasts(start, was, now, d, after[d].info.branch);
        }
      }
    }
  }

  // ---------------------------------------------------------------- the world

  class World {
    var repos: Repos
    var probes: seq<Outcome>  // the probes made so far
    var refusals: nat  // the permits refused so far
    var statFails: nat  // the stats of a HEAD that failed so far
    var resolved: map<string, bool>  // whether git last said a directory is in a checkout
    // What a directory resolves to whenever git answers: its own git dir and the common one.
    const checkouts: map<string, (string, string)>

    ghost predicate Valid()
      reads this
    {
      Sound(repos) && forall c :: c in checkouts ==> checkouts[c].0 != ""
    }

    // Whatever users do before the next access.
    method Meanwhile()
      requires Valid()
      modifies this`repos
      ensures Valid() && Evolves(old(repos), repos)
    {
      var n: nat := *;
      while n > 0
        invariant Valid() && Evolves(old(repos), repos)
        decreases n
      {
        var d: string, branch: string, mtime: nat := *, *, *;
        if mtime > 0 && (d, mtime) !in repos.past {
          CheckoutEvolves(repos, d, branch, mtime);
          ghost var was := repos;
          repos := Repos(repos.heads[d := Head(mtime, branch)], repos.past[(d, mtime) := branch]);
          EvolvesTrans(old(repos), was, repos);
        }
        n := n - 1;
      }
    }

    // A permit of the pool, or not.
    method ClaimPermit() returns (ok: bool)
      modifies this`refusals
      ensures refusals == old(refusals) + (if ok then 0 else 1)
    {
      ok := *;
      if !ok {
        refusals := refusals + 1;
      }
    }

    method GitDirs(cwd: string) returns (dirs: (string, string), ok: bool)
      requires Valid()
      modifies this`repos, this`resolved
      ensures Valid() && Evolves(old(repos), repos)
      ensures ok ==> cwd in checkouts && dirs == checkouts[cwd]
      ensures resolved == old(resolved)[cwd := ok]
    {
      Meanwhile();
      ok := *;
      ok := ok && cwd in checkouts;
      resolved := resolved[cwd := ok];
      dirs := if ok then checkouts[cwd] else ("", "");
    }

    method HeadMtime(d: string) returns (mtime: nat)
      requires Valid()
      modifies this`repos, this`statFails
      ensures Valid() && Evolves(old(repos), repos)
      ensures mtime == 0 || (d in repos.heads && mtime == repos.heads[d].mtime)
      ensures statFails >= old(statFails) && (mtime == 0 && d in repos.heads ==> statFails > old(statFails))
    {
      Meanwhile();
      var failed: bool := *;
      mtime := if failed || d !in repos.heads then 0 else repos.heads[d].mtime;
      if failed {
        statFails := statFails + 1;
      }
    }

    // git, run in a directory of the checkout. On success `seen` is the state it looked at.
    method Probe(probeDir: string, ghost dir: string) returns (info: Info, ok: bool, ghost seen: Repos)
      requires Valid() && probeDir in checkouts && checkouts[probeDir].0 == dir
      modifies this`repos, this`probes
      ensures Valid() && probes == old(probes) + [Outcome(dir, ok, info)]
      ensures Evolves(old(repos), seen) && Evolves(seen, repos)
      ensures ok ==> dir in seen.heads && info.branch == seen.heads[dir].branch
      ensures info.linked <==> checkouts[probeDir].1 != dir
    {
      Meanwhile();
      seen := repos;
      var d := checkouts[probeDir].0;
      var answered: bool := *;
      ok := answered && d in repos.heads;
      info := Info(if ok then repos.heads[d].branch else "", d != checkouts[probeDir].1);
      probes := probes + [Outcome(d, ok, info)];
      Meanwhile();
    }
  }

  // ---------------------------------------------------------------- the cache

  const NEGATIVE_TTL := 60

  predicate NoDup(s: seq<string>) { forall i, j :: 0 <= i < j < |s| ==> s[i] != s[j] }

  // No checkout is probed twice.
  predicate OnceEach(log: seq<Outcome>) { forall i, j :: 0 <= i < j < |log| ==> log[i].dir != log[j].dir }

  // What becomes of an entry: a probe that answered replaces it, one that did not marks it.
  predicate Applied(before: Entry, after: Entry, o: Outcome, now: nat) {
    if o.ok then after == Entry(o.info, true, before.probeDir, now, after.headMtime, false)
    else after == before.(stale := true)
  }

  // Left alone because nothing can have changed, or settled by its own probe.
  ghost predicate Settled(before: Entry, after: Entry, dir: string, log: seq<Outcome>, now: nat) {
    || (after == before && before.at != 0 && !before.stale)
    || (exists k :: 0 <= k < |log| && log[k].dir == dir && Applied(before, after, log[k], now))
  }

  lemma SettledGrows(before: Entry, after: Entry, dir: string, log: seq<Outcome>, o: Outcome, now: nat)
    requires Settled(before, after, dir, log, now)
    ensures Settled(before, after, dir, log + [o], now)
  {
    if k :| 0 <= k < |log| && log[k].dir == dir && Applied(before, after, log[k], now) {
      assert (log + [o])[k] == log[k];
    }
  }

  lemma SettledNow(before: Entry, after: Entry, log: seq<Outcome>, o: Outcome, now: nat)
    requires Applied(before, after, o, now)
    ensures Settled(before, after, o.dir, log + [o], now)
  {
    assert (log + [o])[|log|] == o;
  }

  // Every checkout is settled.
  ghost predicate AllSettled(was: map<string, Entry>, byDir: map<string, Entry>, dirs: seq<string>,
                             log: seq<Outcome>, now: nat) {
    forall d :: d in dirs && d in byDir && d in was ==> Settled(was[d], byDir[d], d, log, now)
  }

  // How one checkout can come out of a refresh: left alone, refused a permit, or probed.
  ghost predicate RefreshStep(before: Entry, after: Entry, dir: string, asked: seq<Outcome>, more: seq<Outcome>,
                              refused: nat, refusedNow: nat, now: nat) {
    || (more == asked && refusedNow == refused && after == before && before.at != 0 && !before.stale)
    || (more == asked && refusedNow == refused + 1 && after == before.(stale := true))
    || (more != [] && more == asked + [more[|more| - 1]] && refusedNow == refused
        && more[|more| - 1].dir == dir && Applied(before, after, more[|more| - 1], now))
  }

  // The log of one refresh grows by at most one entry, of the checkout at hand.
  lemma StepExtends(before: Entry, after: Entry, dir: string, asked: seq<Outcome>, log: seq<Outcome>,
                    probes: seq<Outcome>, refused: nat, refusedNow: nat, now: nat) returns (more: seq<Outcome>)
    requires RefreshStep(before, after, dir, asked + log, probes, refused, refusedNow, now)
    ensures probes == asked + more && more == probes[|asked|..] && refusedNow >= refused
    ensures more == log || (more != [] && more == log + [more[|more| - 1]] && more[|more| - 1].dir == dir)
    ensures refusedNow == refused ==> Grown(before, after, log, more, now)
  {
    more := probes[|asked|..];
    if probes != asked + log {
      var o := probes[|probes| - 1];
      assert asked + log + [o] == asked + (log + [o]);
      assert more == log + [o];
    }
  }

  // With no permit refused: left alone, or probed.
  ghost predicate Grown(before: Entry, after: Entry, log: seq<Outcome>, more: seq<Outcome>, now: nat) {
    if more == log then after == before && before.at != 0 && !before.stale
    else more != [] && Applied(before, after, more[|more| - 1], now)
  }

  lemma SettledStep(start: map<string, Entry>, before: map<string, Entry>, after: map<string, Entry>,
                    dirs: seq<string>, dir: string, log: seq<Outcome>, more: seq<Outcome>, now: nat)
    requires AllSettled(start, before, dirs, log, now) && dir !in dirs && dir in before && dir in start
    requires before[dir] == start[dir] && before.Keys == after.Keys
    requires forall d :: d in before && d != dir ==> after[d] == before[d]
    requires more == log || (more != [] && more == log + [more[|more| - 1]] && more[|more| - 1].dir == dir)
    requires Grown(before[dir], after[dir], log, more, now)
    ensures AllSettled(start, after, dirs + [dir], more, now)
  {
    forall d | d in dirs + [dir] && d in after && d in start ensures Settled(start[d], after[d], d, more, now) {
      if d == dir {
        if more != log {
          SettledNow(before[dir], after[dir], log, more[|more| - 1], now);
        }
      } else {
        assert d in dirs && after[d] == before[d];
        if more != log {
          SettledGrows(start[d], after[d], d, log, more[|more| - 1], now);
        }
      }
    }
  }

  lemma OnceEachGrows(log: seq<Outcome>, o: Outcome, dirs: seq<string>)
    requires OnceEach(log) && (forall p :: p in log ==> p.dir in dirs) && o.dir !in dirs
    ensures OnceEach(log + [o])
  {
    forall i, j | 0 <= i < j < |log + [o]| ensures (log + [o])[i].dir != (log + [o])[j].dir {
      assert (log + [o])[i] == log[i] && log[i] in log;
    }
  }

  // A settled entry is stale only because its own probe did not answer.
  lemma SettledStale(before: Entry, after: Entry, dir: string, log: seq<Outcome>, now: nat) returns (o: Outcome)
    requires Settled(before, after, dir, log, now) && after.stale
    ensures o in log && o.dir == dir && !o.ok
  {
    var k :| 0 <= k < |log| && log[k].dir == dir && Applied(before, after, log[k], now);
    o := log[k];
  }

  // Whether a directory has to be asked about.
  predicate Due(cwdToDir: map<string, string>, cwdAt: map<string, nat>, c: string, now: nat) {
    c != "" && !(c in cwdToDir && c in cwdAt && (cwdToDir[c] != "" || now < cwdAt[c] + NEGATIVE_TTL))
  }

  // A checkout is asked about once, a directory that is none again after a minute.
  lemma DueIs(cwdToDir: map<string, string>, cwdAt: map<string, nat>, c: string, now: nat)
    requires cwdToDir.Keys == cwdAt.Keys
    ensures Due(cwdToDir, cwdAt, c, now) <==>
              c != "" && (c in cwdToDir ==> cwdToDir[c] == "" && now - cwdAt[c] >= 60)
  {
  }

  // Where directories lead, since when, and what git last said about them.
  datatype Places = Places(dirs: map<string, string>, at: map<string, nat>, resolved: map<string, bool>)

  // Entries are only added, and a new one is not stale.
  ghost predicate EntriesGrow(before: map<string, Entry>, after: map<string, Entry>) {
    && (forall d :: d in before ==> d in after && after[d] == before[d])
    && (forall d :: d in after && d !in before ==> !after[d].stale)
  }

  ghost predicate SamePlace(a: Places, b: Places, c: string) {
    && (c in a.dirs <==> c in b.dirs) && (c in a.at <==> c in b.at)
    && (c in a.dirs ==> b.dirs[c] == a.dirs[c]) && (c in a.at ==> b.at[c] == a.at[c])
  }

  // What git answered now is what is written down.
  ghost predicate FreshPlace(p: Places, c: string, now: nat) {
    c in p.dirs && c in p.at && p.at[c] == now && c in p.resolved && (p.dirs[c] != "" <==> p.resolved[c])
  }

  // One directory: not due, refused, or asked about.
  ghost predicate ResolveStep(a: Places, b: Places, cwd: string, refused: nat, refusedNow: nat, now: nat) {
    && (forall c :: c != cwd ==> SamePlace(a, b, c) && (c in a.resolved ==> c in b.resolved && b.resolved[c] == a.resolved[c]))
    && ((b == a && refusedNow == refused && !Due(a.dirs, a.at, cwd, now))
        || (b == a && refusedNow == refused + 1)
        || (FreshPlace(b, cwd, now) && refusedNow == refused && Due(a.dirs, a.at, cwd, now)))
  }

  lemma AskedStep(a: Places, cwd: string, dir: string, ok: bool, refused: nat, now: nat)
    requires Due(a.dirs, a.at, cwd, now) && (ok <==> dir != "")
    ensures ResolveStep(a, Places(a.dirs[cwd := dir], a.at[cwd := now], a.resolved[cwd := ok]), cwd, refused, refused, now)
  {
  }

  lemma IdleStep(a: Places, cwd: string, refused: nat, now: nat)
    ensures !Due(a.dirs, a.at, cwd, now) ==> ResolveStep(a, a, cwd, refused, refused, now)
    ensures ResolveStep(a, a, cwd, refused, refused + 1, now)
  {
  }

  // All of them: whoever was not due, or was refused, is as before; with no refusal everyone who
  // was due has been asked about.
  ghost predicate Resolved(was: Places, p: Places, cwds: seq<string>, quiet: bool, now: nat) {
    && (forall c :: SamePlace(was, p, c) || (c in cwds && Due(was.dirs, was.at, c, now) && FreshPlace(p, c, now)))
    && (quiet ==> forall c :: c in cwds && Due(was.dirs, was.at, c, now) ==> FreshPlace(p, c, now))
  }

  // The same for the directories still live after a sweep.
  ghost predicate Located(was: Places, p: Places, cwds: seq<string>, quiet: bool, now: nat) {
    forall c :: c in cwds && c != "" ==>
      && (SamePlace(was, p, c) || (Due(was.dirs, was.at, c, now) && FreshPlace(p, c, now)))
      && (quiet && Due(was.dirs, was.at, c, now) ==> FreshPlace(p, c, now))
  }

  lemma SweptLocated(was: Places, mid: Places, p: Places, cwds: seq<string>, quietAsk: bool, quiet: bool, now: nat)
    requires Resolved(was, mid, cwds, quietAsk, now) && (quiet ==> quietAsk) && p.resolved == mid.resolved
    requires forall c :: c in cwds && c != "" ==> SamePlace(mid, p, c)
    ensures Located(was, p, cwds, quiet, now)
  {
    forall c | c in cwds && c != ""
      ensures SamePlace(was, p, c) || (Due(was.dirs, was.at, c, now) && FreshPlace(p, c, now))
      ensures quiet && Due(was.dirs, was.at, c, now) ==> FreshPlace(p, c, now)
    {
      assert SamePlace(was, mid, c) || (Due(was.dirs, was.at, c, now) && FreshPlace(mid, c, now));
    }
  }

  lemma NothingResolved(a: Places, now: nat)
    ensures Resolved(a, a, [], true, now)
  {
  }

  lemma StepRefuses(a: Places, b: Places, cwd: string, refused: nat, refusedNow: nat, now: nat)
    requires ResolveStep(a, b, cwd, refused, refusedNow, now)
    ensures refusedNow >= refused
  {
  }

  lemma EntriesKept(byDir: map<string, Entry>)
    ensures EntriesGrow(byDir, byDir)
  {
  }

  lemma EntriesGrowMore(a: map<string, Entry>, b: map<string, Entry>, c: map<string, Entry>)
    requires EntriesGrow(a, b) && EntriesGrow(b, c)
    ensures EntriesGrow(a, c)
  {
  }

  lemma ResolvedStep(was: Places, a: Places, b: Places, cwds: seq<string>, cwd: string,
                     start: nat, refused: nat, refusedNow: nat, now: nat)
    requires Resolved(was, a, cwds, refused == start, now) && start <= refused
    requires ResolveStep(a, b, cwd, refused, refusedNow, now)
    ensures Resolved(was, b, cwds + [cwd], refusedNow == start, now)
  {
    forall c ensures SamePlace(was, b, c) || (c in cwds + [cwd] && Due(was.dirs, was.at, c, now) && FreshPlace(b, c, now)) {
      assert SamePlace(was, a, c) || (c in cwds && Due(was.dirs, was.at, c, now) && FreshPlace(a, c, now));
      if c != cwd {
        assert SamePlace(a, b, c);
      }
    }
    if refusedNow == start {
      forall c | c in cwds + [cwd] && Due(was.dirs, was.at, c, now) ensures FreshPlace(b, c, now) {
        if c == cwd {
          assert SamePlace(was, a, c) || FreshPlace(a, c, now);
        } else {
          assert c in cwds && FreshPlace(a, c, now) && SamePlace(a, b, c);
        }
      }
    }
  }

  lemma ProbedStep(before: Entry, after: Entry, o: Outcome, asked: seq<Outcome>, refused: nat, now: nat)
    requires Applied(before, after, o, now)
    ensures RefreshStep(before, after, o.dir, asked, asked + [o], refused, refused, now)
  {
  }

  // What probing the checkouts `dirs` has come to: each was probed at most once and only for a
  // reason, nothing it was not asked for has changed, and what is not stale is up to date.
  ghost predicate Probed(start: Repos, at: Repos, was: map<string, Entry>, byDir: map<string, Entry>, dirs: seq<string>,
                         log: seq<Outcome>, quiet: bool, statFailed: bool, now: nat) {
    && Evolves(start, at) && byDir.Keys == was.Keys && OnceEach(log)
    && (forall o :: o in log ==> o.dir in dirs)
    && (forall d :: d in byDir && d !in dirs ==> byDir[d] == was[d])
    && UpToDate(start, at, dirs, byDir) && AllNeeded(was, at, log, statFailed)
    && (forall d :: d in was ==> Dated(at, d, was[d]))
    && (quiet ==> AllSettled(was, byDir, dirs, log, now))
  }

  lemma NothingProbed(r: Repos, byDir: map<string, Entry>, now: nat)
    requires Sound(r) && AllCoherent(r, byDir)
    ensures Probed(r, r, byDir, byDir, [], [], true, false, now)
  {
    EvolvesRefl(r);
    EntriesDated(r, byDir);
    hide Evolves, Dated, AllCoherent;
  }

  lemma ProbedNothing(start: Repos, at: Repos, was: map<string, Entry>, byDir: map<string, Entry>, dirs: seq<string>,
                      dir: string, log: seq<Outcome>, quiet: bool, statFailed: bool, now: nat)
    requires Probed(start, at, was, byDir, dirs, log, quiet, statFailed, now) && dir !in byDir
    ensures Probed(start, at, was, byDir, dirs + [dir], log, quiet, statFailed, now)
  {
    hide Evolves, Dated, NotOlder, Settled, AllNeeded, OnceEach;
  }

  lemma ProbedOne(start: Repos, was: Repos, at: Repos, old1: map<string, Entry>, before: map<string, Entry>,
                  after: map<string, Entry>, dirs: seq<string>, dir: string,
                  first: seq<Outcome>, asked: seq<Outcome>, probes: seq<Outcome>,
                  refusedAt: nat, refused: nat, refusedNow: nat, failedAt: nat, failed: nat, failedNow: nat, now: nat)
    requires dir !in dirs && dir in before && before.Keys == after.Keys
    requires first <= asked && refusedAt <= refused && failedAt <= failed <= failedNow
    requires Probed(start, was, old1, before, dirs, asked[|first|..], refused == refusedAt, failed > failedAt, now)
    requires Evolves(was, at) && RefreshStep(before[dir], after[dir], dir, asked, probes, refused, refusedNow, now)
    requires forall d :: d in before && d != dir ==> after[d] == before[d]
    requires after[dir].stale || NotOlder(was, at, dir, after[dir].info.branch)
    requires probes == asked || Needed(before[dir], at, dir, failedNow > failed)
    ensures first <= probes && refusedNow >= refused
    ensures Probed(start, at, old1, after, dirs + [dir], probes[|first|..], refusedNow == refusedAt, failedNow > failedAt, now)
  {
    EvolvesTrans(start, was, at);
    var log := asked[|first|..];
    assert asked == first + log;
    var more := StepExtends(before[dir], after[dir], dir, first, log, probes, refused, refusedNow, now);
    hide RefreshStep;
    hide Evolves, NotOlder, Sound, Dated, AllSettled, UpToDate, Grown, OnceEach, AllNeeded, Needed;
    UpToDateStep(start, was, at, dirs, dir, before, after);
    if refusedNow == refusedAt {
      SettledStep(old1, before, after, dirs, dir, log, more, now);
    }
    if more != log {
      OnceEachGrows(log, more[|more| - 1], dirs);
      NeededMore(before[dir], at, dir, failedNow > failed, failedNow > failedAt);
    }
    AllNeededStep(old1, was, at, log, more, dir, failed > failedAt, failedNow > failedAt);
    DatedLasts(was, at, old1);
  }

  class GitCache {
    var byDir: map<string, Entry>
    var cwdToDir: map<string, string>  // "" for a directory that is no repository
    var cwdAt: map<string, nat>

    constructor ()
      ensures byDir == map[] && cwdToDir == map[] && cwdAt == map[]
    {
      byDir, cwdToDir, cwdAt := map[], map[], map[];
    }

    // No key is left that no live directory leads to.
    ghost predicate Swept(cwds: seq<string>)
      reads this
    {
      && (forall c :: c in cwdToDir ==> c in cwds && c != "")
      && (forall d :: d in byDir ==> exists c :: c in cwdToDir && cwdToDir[c] == d)
    }

    method Lookup(cwd: string) returns (info: Info, ok: bool, stale: bool)
      ensures ok <==> cwd != "" && cwd in cwdToDir && cwdToDir[cwd] != "" && cwdToDir[cwd] in byDir
                      && byDir[cwdToDir[cwd]].repo
      ensures ok ==> info == byDir[cwdToDir[cwd]].info && stale == byDir[cwdToDir[cwd]].stale
      ensures !ok ==> info == Info("", false) && !stale
    {
      info, ok, stale := Info("", false), false, false;
      if cwd == "" || cwd !in cwdToDir || cwdToDir[cwd] == "" {
        return;
      }
      var dir := cwdToDir[cwd];
      if dir !in byDir || !byDir[dir].repo {
        return;
      }
      return byDir[dir].info, true, byDir[dir].stale;
    }

    // One directory: asked about only when due, and only with a permit.
    method ResolveOne(w: World, cwd: string, now: nat)
      requires w.Valid() && Linked(w.checkouts, byDir, cwdToDir, cwdAt) && AllCoherent(w.repos, byDir)
      modifies this, w`repos, w`refusals, w`resolved
      ensures w.Valid() && Linked(w.checkouts, byDir, cwdToDir, cwdAt) && AllCoherent(w.repos, byDir)
      ensures Evolves(old(w.repos), w.repos)
      ensures ResolveStep(Places(old(cwdToDir), old(cwdAt), old(w.resolved)), Places(cwdToDir, cwdAt, w.resolved),
                          cwd, old(w.refusals), w.refusals, now)
      ensures EntriesGrow(old(byDir), byDir)
    {
      EvolvesRefl(w.repos);
      assert cwdToDir.Keys == cwdAt.Keys && forall c :: c in w.checkouts ==> w.checkouts[c].0 != "";
      ghost var a, refused := Places(cwdToDir, cwdAt, w.resolved), w.refusals;
      IdleStep(a, cwd, refused, now);
      if cwd == "" || (cwd in cwdToDir && (cwdToDir[cwd] != "" || now < cwdAt[cwd] + NEGATIVE_TTL)) {
        return;
      }
      assert Due(a.dirs, a.at, cwd, now);
      hide Evolves, Sound, AllCoherent, Linked, ResolveStep, Due;
      var permit := w.ClaimPermit();
      if !permit {
        return;
      }
      ghost var was := w.repos;
      var dirs, ok := w.GitDirs(cwd);
      EvolvingKeepsAll(was, w.repos, byDir);
      AskedStep(a, cwd, if ok then dirs.0 else "", ok, refused, now);
      Record(w, cwd, dirs, ok, now);
    }

    // Resolve the directories whose checkout is unknown or whose negative answer has expired.
    method Resolve(w: World, cwds: seq<string>, now: nat)
      requires w.Valid() && Linked(w.checkouts, byDir, cwdToDir, cwdAt) && AllCoherent(w.repos, byDir)
      modifies this, w`repos, w`refusals, w`resolved
      ensures w.Valid() && Linked(w.checkouts, byDir, cwdToDir, cwdAt) && AllCoherent(w.repos, byDir)
      ensures Evolves(old(w.repos), w.repos) && w.refusals >= old(w.refusals)
      ensures Resolved(Places(old(cwdToDir), old(cwdAt), old(w.resolved)), Places(cwdToDir, cwdAt, w.resolved),
                       cwds, w.refusals == old(w.refusals), now)
      ensures EntriesGrow(old(byDir), byDir)
    {
      EvolvesRefl(w.repos);
      ghost var was := Places(cwdToDir, cwdAt, w.resolved);
      assert cwds[..0] == [];
      NothingResolved(was, now);
      hide Evolves, Sound, AllCoherent, Linked, Resolved, ResolveStep, EntriesGrow;
      EntriesKept(byDir);
      for i := 0 to |cwds|
        invariant w.Valid() && Linked(w.checkouts, byDir, cwdToDir, cwdAt) && AllCoherent(w.repos, byDir)
        invariant Evolves(old(w.repos), w.repos) && w.refusals >= old(w.refusals)
        invariant Resolved(was, Places(cwdToDir, cwdAt, w.resolved), cwds[..i], w.refusals == old(w.refusals), now)
        invariant EntriesGrow(old(byDir), byDir)
      {
        ghost var mid, repos, refused, entries := Places(cwdToDir, cwdAt, w.resolved), w.repos, w.refusals, byDir;
        ResolveOne(w, cwds[i], now);
        EvolvesTrans(old(w.repos), repos, w.repos);
        EntriesGrowMore(old(byDir), entries, byDir);
        StepRefuses(mid, Places(cwdToDir, cwdAt, w.resolved), cwds[i], refused, w.refusals, now);
        ResolvedStep(was, mid, Places(cwdToDir, cwdAt, w.resolved), cwds[..i], cwds[i], old(w.refusals), refused, w.refusals, now);
        assert cwds[..i + 1] == cwds[..i] + [cwds[i]];
      }
      assert cwds[..|cwds|] == cwds;
    }

    // Note down what one directory resolved to, with a placeholder for a checkout not seen yet.
    method Record(w: World, cwd: string, dirs: (string, string), ok: bool, now: nat)
      requires w.Valid() && Linked(w.checkouts, byDir, cwdToDir, cwdAt) && AllCoherent(w.repos, byDir)
      requires ok ==> cwd in w.checkouts && dirs == w.checkouts[cwd]
      modifies this
      ensures Linked(w.checkouts, byDir, cwdToDir, cwdAt) && AllCoherent(w.repos, byDir)
      ensures cwdToDir == old(cwdToDir)[cwd := if ok then dirs.0 else ""] && cwdAt == old(cwdAt)[cwd := now]
      ensures EntriesGrow(old(byDir), byDir)
    {
      hide Sound, Coherent, Dated, AllCoherent, Linked;
      if !ok {
        ResolvedLinked(w.checkouts, byDir, cwdToDir, cwdAt, cwd, "", now);
        cwdToDir, cwdAt := cwdToDir[cwd := ""], cwdAt[cwd := now];
        return;
      }
      if dirs.0 !in byDir {
        var e := Entry(Info("", dirs.0 != dirs.1), true, cwd, 0, 0, false);
        PlaceholderLinked(w.checkouts, byDir, cwdToDir, cwdAt, dirs.0, e);
        UnprobedCoherent(w.repos, dirs.0, e);
        OneMoreCoherent(w.repos, byDir, dirs.0, e);
        byDir := byDir[dirs.0 := e];
      }
      ResolvedLinked(w.checkouts, byDir, cwdToDir, cwdAt, cwd, dirs.0, now);
      cwdToDir, cwdAt := cwdToDir[cwd := dirs.0], cwdAt[cwd := now];
    }

    method ReferencedDirs(cwds: seq<string>) returns (out: seq<string>)
      ensures NoDup(out)
      ensures forall d :: d in out <==> d != "" && exists i :: 0 <= i < |cwds| && cwds[i] in cwdToDir && cwdToDir[cwds[i]] == d
    {
      out := [];
      for i := 0 to |cwds|
        invariant NoDup(out)
        invariant forall d :: d in out <==> d != "" && exists k :: 0 <= k < i && cwds[k] in cwdToDir && cwdToDir[cwds[k]] == d
      {
        var dir := if cwds[i] in cwdToDir then cwdToDir[cwds[i]] else "";
        if dir == "" || dir in out {
          continue;
        }
        out := out + [dir];
      }
    }

    // One checkout: skipped while its HEAD is the one last seen, probed otherwise.
    method RefreshOne(w: World, dir: string, now: nat)
      requires w.Valid() && Linked(w.checkouts, byDir, cwdToDir, cwdAt) && AllCoherent(w.repos, byDir) && dir in byDir && now > 0
      modifies this`byDir, w`repos, w`probes, w`refusals, w`statFails
      ensures w.Valid() && Linked(w.checkouts, byDir, cwdToDir, cwdAt)
      ensures AllCoherent(w.repos, byDir) && Evolves(old(w.repos), w.repos)
      ensures w.statFails >= old(w.statFails)
      ensures w.probes == old(w.probes) || Needed(old(byDir)[dir], w.repos, dir, w.statFails > old(w.statFails))
      ensures byDir.Keys == old(byDir).Keys && forall d :: d in byDir && d != dir ==> byDir[d] == old(byDir)[d]
      ensures RefreshStep(old(byDir)[dir], byDir[dir], dir, old(w.probes), w.probes, old(w.refusals), w.refusals, now)
      ensures byDir[dir].stale || NotOlder(old(w.repos), w.repos, dir, byDir[dir].info.branch)
    {
      hide Evolves, NotOlder, Sound, AllCoherent, Linked;
      var e := byDir[dir];
      var head := w.HeadMtime(dir);
      ghost var atStat := w.repos;
      EvolvingKeepsAll(old(w.repos), atStat, byDir);
      if e.at != 0 && !e.stale && head != 0 && head == e.headMtime {
        FreshIsNotOlder(old(w.repos), atStat, byDir, dir);
        return;
      }
      var permit := w.ClaimPermit();
      if !permit {
        Mark(w, dir);
        return;
      }
      hide RefreshStep, Applied;
      ghost var asked := w.probes;
      assert Needed(e, atStat, dir, w.statFails > old(w.statFails));
      assert Dated(atStat, dir, e) by { DatedEntry(atStat, byDir, dir); }
      hide Needed;
      ghost var o := ProbeOne(w, dir, head, now);
      NeededLasts(e, atStat, w.repos, dir, w.statFails > old(w.statFails));
      EvolvesTrans(old(w.repos), atStat, w.repos);
      ProbedStep(e, byDir[dir], o, asked, w.refusals, now);
      if !byDir[dir].stale {
        OlderStart(old(w.repos), atStat, w.repos, dir, byDir[dir].info.branch);
      }
    }

    // One probe, of a checkout whose HEAD time has just been read.
    method ProbeOne(w: World, dir: string, head: nat, now: nat) returns (ghost o: Outcome)
      requires w.Valid() && Linked(w.checkouts, byDir, cwdToDir, cwdAt) && AllCoherent(w.repos, byDir) && dir in byDir && now > 0
      requires head == 0 || (dir in w.repos.heads && head == w.repos.heads[dir].mtime)
      modifies this`byDir, w`repos, w`probes
      ensures w.Valid() && Linked(w.checkouts, byDir, cwdToDir, cwdAt)
      ensures AllCoherent(w.repos, byDir) && Evolves(old(w.repos), w.repos)
      ensures byDir.Keys == old(byDir).Keys && forall d :: d in byDir && d != dir ==> byDir[d] == old(byDir)[d]
      ensures w.probes == old(w.probes) + [o] && o.dir == dir && Applied(old(byDir)[dir], byDir[dir], o, now)
      ensures byDir[dir].stale || NotOlder(old(w.repos), w.repos, dir, byDir[dir].info.branch)
    {
      var e := byDir[dir];
      ghost var atStat := w.repos;
      assert Placed(w.checkouts, dir, e);
      EvolvesRefl(atStat);
      hide Evolves, NotOlder, AllCoherent, Linked, Dated, Coherent;
      var info, ok;
      ghost var seen;
      info, ok, seen := w.Probe(e.probeDir, dir);
      o := Outcome(dir, ok, info);
      EvolvesTrans(atStat, seen, w.repos);
      EvolvingKeepsAll(atStat, w.repos, byDir);
      if !ok {
        Mark(w, dir);
        return;
      }
      var e' := Entry(info, true, e.probeDir, now, head, false);
      ProbedPairCoherent(atStat, seen, w.repos, dir, e');
      CurrentIsNotOlder(atStat, seen, w.repos, dir);
      OneMoreCoherent(w.repos, byDir, dir, e');
      EntryChangeLinked(w.checkouts, byDir, cwdToDir, cwdAt, dir, e');
      byDir := byDir[dir := e'];
    }

    // markStale: the last value seen stays, and says so.
    method Mark(w: World, dir: string)
      requires w.Valid() && Linked(w.checkouts, byDir, cwdToDir, cwdAt) && AllCoherent(w.repos, byDir) && dir in byDir
      modifies this`byDir
      ensures byDir == old(byDir)[dir := old(byDir)[dir].(stale := true)]
      ensures Linked(w.checkouts, byDir, cwdToDir, cwdAt) && AllCoherent(w.repos, byDir)
    {
      hide Linked, AllCoherent, Sound;
      var e := byDir[dir].(stale := true);
      MarkStaleCoherent(w.repos, byDir, dir);
      EntryChangeLinked(w.checkouts, byDir, cwdToDir, cwdAt, dir, e);
      byDir := byDir[dir := e];
    }

    method ProbeAll(w: World, dirs: seq<string>, now: nat)
      requires w.Valid() && Linked(w.checkouts, byDir, cwdToDir, cwdAt) && AllCoherent(w.repos, byDir) && NoDup(dirs) && now > 0
      modifies this`byDir, w`repos, w`probes, w`refusals, w`statFails
      ensures w.Valid() && Linked(w.checkouts, byDir, cwdToDir, cwdAt) && AllCoherent(w.repos, byDir)
      ensures w.refusals >= old(w.refusals) && w.statFails >= old(w.statFails) && old(w.probes) <= w.probes
      ensures Probed(old(w.repos), w.repos, old(byDir), byDir, dirs, w.probes[|old(w.probes)|..],
                     w.refusals == old(w.refusals), w.statFails > old(w.statFails), now)
    {
      NothingProbed(w.repos, byDir, now);
      assert dirs[..0] == [] && w.probes[|w.probes|..] == [];
      hide Evolves, NotOlder, Sound, AllCoherent, Linked, Probed, RefreshStep, Needed, NoDup;
      for i := 0 to |dirs|
        invariant w.Valid() && Linked(w.checkouts, byDir, cwdToDir, cwdAt) && AllCoherent(w.repos, byDir)
        invariant w.refusals >= old(w.refusals) && w.statFails >= old(w.statFails) && old(w.probes) <= w.probes
        invariant Probed(old(w.repos), w.repos, old(byDir), byDir, dirs[..i], w.probes[|old(w.probes)|..],
                         w.refusals == old(w.refusals), w.statFails > old(w.statFails), now)
      {
        var dir := dirs[i];
        NextDir(dirs, i);
        if dir !in byDir {
          ProbedNothing(old(w.repos), w.repos, old(byDir), byDir, dirs[..i], dir, w.probes[|old(w.probes)|..],
                        w.refusals == old(w.refusals), w.statFails > old(w.statFails), now);
          continue;
        }
        ghost var was, entries, asked, refused, failed := w.repos, byDir, w.probes, w.refusals, w.statFails;
        RefreshOne(w, dir, now);
        ProbedOne(old(w.repos), was, w.repos, old(byDir), entries, byDir, dirs[..i], dir, old(w.probes), asked, w.probes,
                  old(w.refusals), refused, w.refusals, old(w.statFails), failed, w.statFails, now);
      }
      assert dirs[..|dirs|] == dirs;
    }

    // Forget the directories no live pane is in; `keptDirs` is what the others lead to.
    method SweepCwds(live: set<string>) returns (keptDirs: set<string>)
      requires cwdToDir.Keys == cwdAt.Keys
      modifies this`cwdToDir, this`cwdAt
      ensures cwdToDir.Keys == cwdAt.Keys
      ensures forall c :: c in cwdToDir <==> c in old(cwdToDir) && c in live
      ensures forall c :: c in cwdToDir ==> cwdToDir[c] == old(cwdToDir)[c] && c in old(cwdAt) && cwdAt[c] == old(cwdAt)[c]
      ensures forall d :: d in keptDirs <==> d != "" && exists c :: c in cwdToDir && cwdToDir[c] == d
    {
      keptDirs := {};
      var todo := cwdToDir.Keys;
      while todo != {}
        invariant todo <= old(cwdToDir).Keys
        invariant cwdToDir.Keys == cwdAt.Keys
        invariant forall c :: c in cwdToDir <==> c in old(cwdToDir) && (c in todo || c in live)
        invariant forall c :: c in cwdToDir ==> cwdToDir[c] == old(cwdToDir)[c] && cwdAt[c] == old(cwdAt)[c]
        invariant forall c :: c in cwdToDir && c !in todo && cwdToDir[c] != "" ==> cwdToDir[c] in keptDirs
        invariant forall d :: d in keptDirs ==> d != "" && exists c :: c in cwdToDir && c !in todo && cwdToDir[c] == d
        decreases |todo|
      {
        var cwd :| cwd in todo;
        todo := todo - {cwd};
        if cwd !in live {
          cwdToDir := cwdToDir - {cwd};
          cwdAt := cwdAt - {cwd};
          continue;
        }
        assert cwd in cwdToDir;
        if cwdToDir[cwd] != "" {
          keptDirs := keptDirs + {cwdToDir[cwd]};
        }
      }
    }

    // Forget everything no live directory leads to.
    method Sweep(cwds: seq<string>, ghost checkouts: map<string, (string, string)>)
      requires Linked(checkouts, byDir, cwdToDir, cwdAt)
      modifies this
      ensures Linked(checkouts, byDir, cwdToDir, cwdAt) && Swept(cwds)
      ensures forall c :: c in cwdToDir <==> c in old(cwdToDir) && c in cwds && c != ""
      ensures forall c :: c in cwdToDir ==> cwdToDir[c] == old(cwdToDir)[c] && c in cwdAt && c in old(cwdAt) && cwdAt[c] == old(cwdAt)[c]
      ensures forall d :: d in byDir ==> d in old(byDir) && byDir[d] == old(byDir)[d]
    {
      var live := LiveCwds(cwds);
      var keptDirs := SweepCwds(live);
      byDir := map d | d in byDir && d in keptDirs :: byDir[d];
    }

    method LiveCwds(cwds: seq<string>) returns (live: set<string>)
      ensures forall c :: c in live <==> c in cwds && c != ""
    {
      live := {};
      for i := 0 to |cwds|
        invariant forall c :: c in live <==> c in cwds[..i] && c != ""
      {
        if cwds[i] != "" {
          live := live + {cwds[i]};
        }
      }
    }

    // A whole refresh, with checkouts going on all the while.
    method Refresh(w: World, cwds: seq<string>, now: nat)
      requires w.Valid() && Linked(w.checkouts, byDir, cwdToDir, cwdAt) && AllCoherent(w.repos, byDir) && now > 0
      modifies this, w
      ensures w.Valid() && Linked(w.checkouts, byDir, cwdToDir, cwdAt)
      ensures AllCoherent(w.repos, byDir) && Evolves(old(w.repos), w.repos)
      ensures Swept(cwds)
      ensures old(w.probes) <= w.probes && OnceEach(w.probes[|old(w.probes)|..])
      ensures forall d :: d in byDir ==> byDir[d].stale || NotOlder(old(w.repos), w.repos, d, byDir[d].info.branch)
      // A checkout known before is probed only if its HEAD is not the one last seen, or cannot be
      // read, or the last probe did not answer.
      ensures forall o :: o in w.probes[|old(w.probes)|..] && o.dir in old(byDir) ==>
                Needed(old(byDir)[o.dir], w.repos, o.dir, w.statFails > old(w.statFails))
      // Without a refused permit: every live directory is resolved as git last answered, and an
      // entry is stale only because its own probe did not answer.
      ensures Located(Places(old(cwdToDir), old(cwdAt), old(w.resolved)), Places(cwdToDir, cwdAt, w.resolved),
                      cwds, w.refusals == old(w.refusals), now)
      ensures w.refusals == old(w.refusals) ==>
                forall d :: d in byDir && byDir[d].stale ==>
                  exists o :: o in w.probes[|old(w.probes)|..] && o.dir == d && !o.ok
    {
      hide Evolves, NotOlder, Sound, AllCoherent, OnceEach, Resolved, Located, Needed, Placed, Probed;
      ghost var start, known := Places(cwdToDir, cwdAt, w.resolved), byDir;
      Resolve(w, cwds, now);
      ghost var quietAsk, refusedAsking := w.refusals == old(w.refusals), w.refusals;
      ghost var atProbes, resolved, mid := w.repos, byDir, Places(cwdToDir, cwdAt, w.resolved);
      var dirs := ReferencedDirs(cwds);
      ProbeAll(w, dirs, now);
      ghost var entries, quiet := byDir, w.refusals == old(w.refusals);
      assert cwdToDir.Keys == cwdAt.Keys;
      DirsNamed(w.checkouts, byDir, cwdToDir, cwdAt);
      Sweep(cwds, w.checkouts);
      OnlyCoherent(w.repos, entries, byDir);
      SweptLocated(start, mid, Places(cwdToDir, cwdAt, w.resolved), cwds, quietAsk, quiet, now);
      forall d | d in byDir ensures d in dirs && d in entries && byDir[d] == entries[d] {
        var c :| c in cwdToDir && cwdToDir[c] == d;
        assert d in entries && c in cwds && d in dirs;
      }
      RefreshDone(old(w.repos), atProbes, w.repos, known, resolved, entries, byDir, dirs, w.probes[|old(w.probes)|..],
                  w.refusals == refusedAsking, w.statFails > old(w.statFails), now);
    }
  }

  lemma RefreshDone(start: Repos, atProbes: Repos, at: Repos, known: map<string, Entry>, resolved: map<string, Entry>,
                    entries: map<string, Entry>, byDir: map<string, Entry>, dirs: seq<string>, log: seq<Outcome>,
                    quiet: bool, statFailed: bool, now: nat)
    requires Probed(atProbes, at, resolved, entries, dirs, log, quiet, statFailed, now)
    requires Evolves(start, atProbes) && EntriesGrow(known, resolved)
    requires forall d :: d in byDir ==> d in dirs && d in entries && byDir[d] == entries[d]
    ensures Evolves(start, at) && OnceEach(log)
    ensures forall d :: d in byDir ==> byDir[d].stale || NotOlder(start, at, d, byDir[d].info.branch)
    ensures forall o :: o in log && o.dir in known ==> Needed(known[o.dir], at, o.dir, statFailed)
    ensures quiet ==> forall d :: d in byDir && byDir[d].stale ==> exists o :: o in log && o.dir == d && !o.ok
  {
    EvolvesTrans(start, atProbes, at);
    hide Evolves, NotOlder, Dated, AllSettled, UpToDate, OnceEach, Needed;
    AllUpToDate(start, atProbes, at, dirs, entries, byDir);
    if quiet {
      AllStaleProbed(resolved, entries, byDir, dirs, log, now);
    }
  }

  lemma NextDir(dirs: seq<string>, i: nat)
    requires NoDup(dirs) && i < |dirs|
    ensures dirs[..i + 1] == dirs[..i] + [dirs[i]] && dirs[i] !in dirs[..i]
  {
  }

  lemma DirsNamed(checkouts: map<string, (string, string)>, byDir: map<string, Entry>,
                  cwdToDir: map<string, string>, cwdAt: map<string, nat>)
    requires Linked(checkouts, byDir, cwdToDir, cwdAt) && forall c :: c in checkouts ==> checkouts[c].0 != ""
    ensures "" !in byDir
  {
  }

  lemma EntriesDated(r: Repos, byDir: map<string, Entry>)
    requires AllCoherent(r, byDir)
    ensures forall d :: d in byDir ==> Dated(r, d, byDir[d])
  {
    hide Coherent, Dated;
  }

  lemma DatedEntry(r: Repos, byDir: map<string, Entry>, d: string)
    requires AllCoherent(r, byDir) && d in byDir
    ensures Dated(r, d, byDir[d])
  {
  }

  lemma AllUpToDate(first: Repos, start: Repos, now: Repos, dirs: seq<string>, entries: map<string, Entry>, byDir: map<string, Entry>)
    requires UpToDate(start, now, dirs, entries) && Evolves(first, start)
    requires forall d :: d in byDir ==> d in dirs && d in entries && byDir[d] == entries[d]
    ensures forall d :: d in byDir ==> byDir[d].stale || NotOlder(first, now, d, byDir[d].info.branch)
  {
    hide Evolves, NotOlder;
    forall d | d in byDir ensures byDir[d].stale || NotOlder(first, now, d, byDir[d].info.branch) {
      if !byDir[d].stale {
        OlderStart(first, start, now, d, byDir[d].info.branch);
      }
    }
  }

  lemma AllStaleProbed(was: map<string, Entry>, entries: map<string, Entry>, byDir: map<string, Entry>,
                       dirs: seq<string>, log: seq<Outcome>, now: nat)
    requires AllSettled(was, entries, dirs, log, now) && was.Keys == entries.Keys
    requires forall d :: d in byDir ==> d in dirs && d in entries && byDir[d] == entries[d]
    ensures forall d :: d in byDir && byDir[d].stale ==> exists o :: o in log && o.dir == d && !o.ok
  {
    hide Settled;
    forall d | d in byDir && byDir[d].stale ensures exists o :: o in log && o.dir == d && !o.ok {
      var o := SettledStale(was[d], entries[d], d, log, now);
    }
  }

  lemma OnlyCoherent(r: Repos, byDir: map<string, Entry>, fewer: map<string, Entry>)
    requires AllCoherent(r, byDir) && forall d :: d in fewer ==> d in byDir && fewer[d] == byDir[d]
    ensures AllCoherent(r, fewer)
  {
  }

  lemma EvolvesRefl(a: Repos)
    requires Sound(a)
    ensures Evolves(a, a)
  {
  }

  lemma MarkStaleCoherent(r: Repos, byDir: map<string, Entry>, d: string)
    requires AllCoherent(r, byDir) && d in byDir
    ensures AllCoherent(r, byDir[d := byDir[d].(stale := true)])
  {
    var e := byDir[d].(stale := true);
    assert Dated(r, d, byDir[d]);
    UnprobedCoherent(r, d, e);
    OneMoreCoherent(r, byDir, d, e);
  }

  // An entry whose HEAD time is still the current one needs no probe.
  lemma FreshIsNotOlder(start: Repos, at: Repos, byDir: map<string, Entry>, d: string)
    requires Evolves(start, at) && AllCoherent(at, byDir) && d in byDir && d in at.heads
    requires byDir[d].at != 0 && !byDir[d].stale && byDir[d].headMtime == at.heads[d].mtime
    ensures byDir[d].info.branch == at.heads[d].branch && NotOlder(start, at, d, byDir[d].info.branch)
  {
    EvolvesRefl(at);
    CurrentIsNotOlder(start, at, at, d);
    assert Coherent(at, d, byDir[d]);
  }

  // Since a later moment implies since an earlier one.
  lemma OlderStart(first: Repos, start: Repos, now: Repos, d: string, branch: string)
    requires Evolves(first, start) && NotOlder(start, now, d, branch)
    ensures NotOlder(first, now, d, branch)
  {
    var m: nat :| (d, m) in now.past && now.past[(d, m)] == branch
                  && ((d in start.heads && m == start.heads[d].mtime) || (d, m) !in start.past);
    if d in start.heads && m == start.heads[d].mtime {
      assert (d in first.heads && start.heads[d] == first.heads[d]) || (d, m) !in first.past;
    } else {
      assert (d, m) !in first.past;
    }
  }
}
