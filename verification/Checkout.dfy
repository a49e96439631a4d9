/** The mutation sweep of one package, and the recovery pass a later process runs
    (scripts/check_mutation.py), as methods that change the disk op by op.

    `log` records every op a process has made since it started on `base`, so a
    contract about the log is a contract about every moment the process may be
    killed. `faults` counts the calls the operating system failed: a contract under
    `faults == old(faults)` describes the quiet run. */
module Checkout {
  import opened Basics
  import opened Journal

  datatype Site = Site(path: Path, start: nat, end: nat, replacement: Bytes)

  /** How the package's test target ended; Aborted is any other exception. */
  datatype TestRun = Ran(returncode: int, buildMarker: bool) | TimedOut | Aborted

  datatype Outcome = Pass | Fail | Timeout
  datatype Verdict = Killed | Survived | Discarded

  function Classify(buildOk: bool, outcome: Outcome): Verdict {
    if !buildOk then Discarded
    else if outcome == Fail || outcome == Timeout then Killed
    else Survived
  }

  function VerdictOf(test: TestRun): Verdict
    requires !test.Aborted?
  {
    match test
    case Ran(code, marker) =>
      if code != 0 && marker then Classify(false, Pass) else Classify(true, if code == 0 then Pass else Fail)
    case TimedOut => Classify(true, Timeout)
  }

  predicate Passed(test: TestRun) {
    test.Ran? && test.returncode == 0
  }

  predicate FailedToBuild(test: TestRun) {
    test.Ran? && test.returncode != 0 && test.buildMarker
  }

  /** A mutant survives exactly when its tests pass, is discarded exactly when they fail for want
      of a build, and is killed by any other end, a timeout included. */
  lemma VerdictIff(test: TestRun)
    requires !test.Aborted?
    ensures VerdictOf(test) == Survived <==> Passed(test)
    ensures VerdictOf(test) == Discarded <==> FailedToBuild(test)
    ensures VerdictOf(test) == Killed <==> test.TimedOut? || (test.returncode != 0 && !test.buildMarker)
  {
  }

  /** Slicing past the end of the bytes clips, as it does in the source. */
  function Clip(n: nat, length: nat): (r: nat)
    ensures r <= length
  {
    if n <= length then n else length
  }

  function ApplyMutation(original: Bytes, site: Site): Bytes {
    original[..Clip(site.start, |original|)] + site.replacement + original[Clip(site.end, |original|)..]
  }

  /** The mutant is the original with the site's span replaced, whatever the offsets. */
  lemma MutantBytes(original: Bytes, site: Site)
    ensures var m, from, to := ApplyMutation(original, site), Min(site.start, |original|), Min(site.end, |original|);
      && |m| == from + |site.replacement| + |original| - to
      && m[..from] == original[..from]
      && m[from..from + |site.replacement|] == site.replacement
      && m[from + |site.replacement|..] == original[to..]
  {
  }

  /** The ops of one undisturbed mutant, in the order that makes a kill harmless. */
  function MutantOps(t: Token, site: Site, original: Bytes): seq<Op> {
    [ WriteBak(t, original), WriteMarker(t, Naming(site.path)),
      WriteFile(site.path, ApplyMutation(original, site)), WriteFile(site.path, original),
      DropBak(t), DropMarker(t) ]
  }

  function Began(d: Disk, t: Token, path: Path, original: Bytes): Disk {
    Apply(Apply(d, WriteBak(t, original)), WriteMarker(t, Naming(path)))
  }

  lemma MutantLog(log: seq<Op>, t: Token, site: Site, original: Bytes)
    ensures log + [WriteBak(t, original)] + [WriteMarker(t, Naming(site.path))]
              + [WriteFile(site.path, ApplyMutation(original, site))] + [WriteFile(site.path, original)]
              + [DropBak(t)] + [DropMarker(t)]
         == log + MutantOps(t, site, original)
  {
  }

  /** Mutate, restore and drop the entry: only the file's own bytes are written,
      and the journal is as it was found. */
  lemma MutantNet(d: Disk, t: Token, site: Site, original: Bytes, after: Disk)
    requires t !in d.baks && t !in d.markers
    requires after == DropEntry(Apply(Apply(Began(d, t, site.path, original),
               WriteFile(site.path, ApplyMutation(original, site))), WriteFile(site.path, original)), t)
    ensures after == d.(files := d.files[site.path := original])
  {
    assert after.baks == d.baks;
    assert after.markers == d.markers;
    assert after.files == d.files[site.path := original];
  }

  /** A mutant killed while it is written, or while the file is put back: its entry stands, and
      nothing but the file has changed besides. */
  lemma KilledMutant(d: Disk, t: Token, site: Site, original: Bytes, n: nat, left: Disk)
    requires site.path in d.files && 2 <= n <= 3 && KilledIn(d, MutantOps(t, site, original), n, left)
    ensures site.path in left.files && left.files == d.files[site.path := left.files[site.path]]
    ensures left.baks == d.baks[t := original] && left.markers == d.markers[t := Naming(site.path)]
  {
    var ops := MutantOps(t, site, original);
    var begun := Began(d, t, site.path, original);
    assert Init(ops[..1]) == [] && Init(ops[..2]) == ops[..1] && Init(ops[..3]) == ops[..2];
    assert Replay(d, ops[..1]) == Apply(d, ops[0]);
    assert Replay(d, ops[..2]) == begun;
    assert Replay(d, ops[..3]) == Apply(begun, ops[2]);
  }

  /** A sweep over a file recovery could not restore. The first sweep is killed in a mutant of
      the file; the recovery after it fails on the file, leaves `found` there and keeps the
      entry; the next sweep takes `found` for the original and is killed in a mutant in turn.
      The recovery after that puts the true bytes back if the older entry comes last in its
      pass, and `found` if the newer one does. */
  lemma SweepOverMutant(d: Disk, older: Token, newer: Token, first: Site, second: Site, n: nat, m: nat,
                        killed: Disk, found: Bytes, left: Disk)
    requires older != newer && first.path == second.path && first.path in d.files && 2 <= n <= 3 && 2 <= m <= 3
    requires KilledIn(d, MutantOps(older, first, d.files[first.path]), n, killed)
    requires KilledIn(killed.(files := killed.files[first.path := found]), MutantOps(newer, second, found), m, left)
    ensures var last := RecoverAll(left, [newer, older], {}).files;
            first.path in last && last[first.path] == d.files[first.path]
    ensures var last := RecoverAll(left, [older, newer], {}).files;
            first.path in last && last[first.path] == found
  {
    hide KilledIn, RecoverAll;
    var p := first.path;
    KilledMutant(d, older, first, d.files[p], n, killed);
    KilledMutant(killed.(files := killed.files[p := found]), newer, second, found, m, left);
    assert Journals(left, older, p) && Journals(left, newer, p);
    assert left.baks[older] == d.files[p] && left.baks[newer] == found;
    LastEntryWins(left, [newer, older], {}, p);
    LastEntryWins(left, [older, newer], {}, p);
  }

  /** `originals` holds the pre-sweep bytes of the files in `paths`, each once. */
  ghost predicate Snapshots(orig: map<Path, Bytes>, own: set<Path>, paths: seq<Path>, originals: map<Path, Bytes>) {
    && (forall p :: p in originals <==> p in paths)
    && (forall p :: p in originals ==> p in own && p in orig && originals[p] == orig[p])
    && (forall i, j :: 0 <= i < j < |paths| ==> paths[i] != paths[j])
  }

  ghost predicate AllBack(d: Disk, orig: map<Path, Bytes>, paths: seq<Path>) {
    forall p :: p in paths ==> p in d.files && p in orig && d.files[p] == orig[p]
  }

  ghost predicate OnlyRewrites(log: seq<Op>, from: nat) {
    forall i :: from <= i < |log| ==> log[i].WriteFile?
  }

  lemma AllBackMeans(d: Disk, orig: map<Path, Bytes>, paths: seq<Path>)
    requires forall p :: p in paths ==> p in d.files && p in orig
    ensures AllBack(d, orig, paths) <==> forall p :: p in paths ==> d.files[p] == orig[p]
  {
  }

  ghost predicate Elsewhere(before: Disk, d: Disk, orig: map<Path, Bytes>, paths: seq<Path>)
    requires before.files.Keys == d.files.Keys == orig.Keys
  {
    forall p :: p in orig && p !in paths ==> d.files[p] == before.files[p]
  }

  lemma ElsewhereStill(before: Disk, was: Disk, d: Disk, orig: map<Path, Bytes>, done: seq<Path>, p: Path)
    requires before.files.Keys == was.files.Keys == d.files.Keys == orig.Keys && p in orig
    requires Elsewhere(before, was, orig, done) && d.files == was.files[p := d.files[p]]
    ensures Elsewhere(before, d, orig, done + [p])
  {
    assert forall q :: q in done + [p] <==> q in done || q == p;
  }

  lemma NothingRewritten(d: Disk, orig: map<Path, Bytes>, originals: map<Path, Bytes>, log: seq<Op>)
    requires d.files.Keys == orig.Keys
    ensures Elsewhere(d, d, orig, [])
    ensures AllBack(d, orig, []) && log == log + Rewrites([], originals) && OnlyRewrites(log, |log|)
  {
  }

  lemma RewritesExtend(before: seq<Op>, log: seq<Op>, from: nat)
    requires OnlyRewrites(before, from) && OnlyRewrites(log, |before|) && before <= log
    ensures OnlyRewrites(log, from)
  {
  }

  lemma TakeNext<T>(s: seq<T>, i: nat)
    requires i < |s|
    ensures s[..i + 1] == s[..i] + [s[i]]
  {
  }

  /** Rewriting one more file brings back exactly what was back plus that file. */
  lemma BackSoFar(was: Disk, d: Disk, orig: map<Path, Bytes>, done: seq<Path>, p: Path)
    requires p !in done && p in orig && p in d.files && was.files.Keys == orig.Keys
    requires d.files == was.files[p := d.files[p]]
    ensures AllBack(d, orig, done + [p]) <==> AllBack(was, orig, done) && d.files[p] == orig[p]
  {
    if AllBack(d, orig, done + [p]) {
      assert p in done + [p];
      forall q | q in done
        ensures q in was.files && q in orig && was.files[q] == orig[q]
      {
        assert q in done + [p];
      }
    }
  }

  function Rewrites(paths: seq<Path>, originals: map<Path, Bytes>): seq<Op>
    requires forall p :: p in paths ==> p in originals
  {
    seq(|paths|, i requires 0 <= i < |paths| => WriteFile(paths[i], originals[paths[i]]))
  }

  lemma RewritesSnoc(paths: seq<Path>, p: Path, originals: map<Path, Bytes>)
    requires forall q :: q in paths + [p] ==> q in originals
    ensures Rewrites(paths + [p], originals) == Rewrites(paths, originals) + [WriteFile(p, originals[p])]
  {
  }

  datatype RunResult = Judged(verdict: Verdict) | RunRaised

  datatype Report = Untested(site: Site) | Missed(site: Site)

  datatype Counts = Counts(killed: nat, survived: nat, discarded: nat, lines: seq<Report>)

  datatype SweepResult = Swept(counts: Counts) | Drifted(paths: set<Path>) | Raised

  /** One site's share of the counts: code no test reaches survives untested. */
  function CountSite(c: Counts, site: Site, dead: bool, test: TestRun): Counts
    requires !dead ==> !test.Aborted?
  {
    if dead then c.(survived := c.survived + 1, lines := c.lines + [Untested(site)])
    else match VerdictOf(test)
      case Killed => c.(killed := c.killed + 1)
      case Survived => c.(survived := c.survived + 1, lines := c.lines + [Missed(site)])
      case Discarded => c.(discarded := c.discarded + 1)
  }

  /** The package's queue: each site, whether coverage proves it dead, and how its
      test run would end. */
  datatype Job = Job(site: Site, dead: bool, test: TestRun)

  predicate Completes(job: Job) {
    job.dead || !job.test.Aborted?
  }

  function Tally(jobs: seq<Job>): Counts
    requires forall j :: j in jobs ==> Completes(j)
  {
    if jobs == [] then Counts(0, 0, 0, [])
    else
      var last := jobs[|jobs| - 1];
      assert Completes(last);
      CountSite(Tally(jobs[..|jobs| - 1]), last.site, last.dead, last.test)
  }

  lemma TallyNothing()
    ensures Tally([]) == Counts(0, 0, 0, [])
  {
  }

  lemma TallySnoc(jobs: seq<Job>, job: Job)
    requires (forall j :: j in jobs ==> Completes(j)) && Completes(job)
    ensures (forall j :: j in jobs + [job] ==> Completes(j))
    ensures Tally(jobs + [job]) == CountSite(Tally(jobs), job.site, job.dead, job.test)
  {
    assert (jobs + [job])[..|jobs|] == jobs;
  }

  function HowMany(jobs: seq<Job>, p: Job -> bool): nat {
    if jobs == [] then 0
    else HowMany(jobs[..|jobs| - 1], p) + (if p(jobs[|jobs| - 1]) then 1 else 0)
  }

  predicate Survives(job: Job) {
    job.dead || Passed(job.test)
  }

  predicate Discards(job: Job) {
    !job.dead && FailedToBuild(job.test)
  }

  predicate Kills(job: Job) {
    !Survives(job) && !Discards(job)
  }

  /** The survivors' report lines, in queue order. */
  function Reports(jobs: seq<Job>): seq<Report> {
    if jobs == [] then []
    else
      var job := jobs[|jobs| - 1];
      Reports(jobs[..|jobs| - 1])
      + (if job.dead then [Untested(job.site)] else if Passed(job.test) then [Missed(job.site)] else [])
  }

  /** What a package's counts say of its queue: the sites no test reaches or whose tests passed
      are the survivors, and exactly they are reported. */
  lemma {:induction false} TallyMeans(jobs: seq<Job>)
    requires forall j :: j in jobs ==> Completes(j)
    ensures Tally(jobs).survived == HowMany(jobs, Survives)
    ensures Tally(jobs).discarded == HowMany(jobs, Discards)
    ensures Tally(jobs).killed == HowMany(jobs, Kills)
    ensures Tally(jobs).lines == Reports(jobs)
  {
    if jobs != [] {
      TallyMeans(jobs[..|jobs| - 1]);
      var last := jobs[|jobs| - 1];
      assert Completes(last);
      if !last.dead {
        VerdictIff(last.test);
      }
    }
  }

  predicate OpOwned(op: Op, id: nat, own: set<Path>) {
    match op
    case WriteFile(p, _) => p in own
    case WriteBak(t, _) => t.owner == id
    case WriteMarker(t, m) => t.owner == id && (m.Naming? ==> m.path in own)
    case DropBak(t) => t.owner == id
    case DropMarker(t) => t.owner == id
  }

  /** The three flags are earned: every op was disciplined, every file write was
      journalled, every op stayed inside the process's own files and tokens. */
  ghost predicate Earned(orig: map<Path, Bytes>, base: Disk, log: seq<Op>, id: nat, own: set<Path>,
                         safe: bool, guarded: bool, owned: bool)
  {
    && (safe ==> DisciplinedRun(orig, base, log))
    && (guarded ==> GuardedRun(base, log))
    && (owned ==> forall i :: 0 <= i < |log| ==> OpOwned(log[i], id, own))
  }

  lemma EarnedSnoc(orig: map<Path, Bytes>, base: Disk, log: seq<Op>, disk: Disk, id: nat, own: set<Path>,
                   safe: bool, guarded: bool, owned: bool, op: Op)
    requires disk == Replay(base, log) && Earned(orig, base, log, id, own, safe, guarded, owned)
    ensures Apply(disk, op) == Replay(base, log + [op])
    ensures Earned(orig, base, log + [op], id, own,
                   safe && Disciplined(orig, disk, op), guarded && Guarded(disk, op), owned && OpOwned(op, id, own))
  {
    SnocParts(log, op);
  }

  /** The process's next token is unused. */
  ghost predicate Sound(disk: Disk, id: nat, serial: nat) {
    && (forall t :: t in disk.baks && t.owner == id ==> t.serial < serial)
    && (forall t :: t in disk.markers && t.owner == id ==> t.serial < serial)
  }

  predicate Fits(orig: map<Path, Bytes>, op: Op, id: nat, serial: nat) {
    match op
    case WriteFile(p, _) => p in orig
    case WriteBak(t, _) => t.owner == id ==> t.serial < serial
    case WriteMarker(t, _) => t.owner == id ==> t.serial < serial
    case DropBak(_) => true
    case DropMarker(_) => true
  }

  lemma SoundStep(orig: map<Path, Bytes>, disk: Disk, op: Op, id: nat, serial: nat)
    requires disk.files.Keys == orig.Keys && Sound(disk, id, serial) && Fits(orig, op, id, serial)
    ensures Apply(disk, op).files.Keys == orig.Keys && Sound(Apply(disk, op), id, serial)
  {
    assert op.WriteFile? ==> orig.Keys + {op.path} == orig.Keys;
  }

  lemma EntryCovers(d: Disk, t: Token, p: Path)
    requires t in d.markers && d.markers[t] == Naming(p) && t in d.baks
    ensures Journalled(d, p)
  {
    assert Journals(d, t, p);
  }

  lemma RestoredIsSpent(orig: map<Path, Bytes>, d: Disk, t: Token, p: Path)
    requires t in d.markers && d.markers[t] == Naming(p) && p in d.files && p in orig && d.files[p] == orig[p]
    ensures Spent(orig, d, t)
  {
  }

  /** The log explains the disk, from a recoverable start. */
  ghost predicate Explained(orig: map<Path, Bytes>, base: Disk, log: seq<Op>, disk: Disk, id: nat, own: set<Path>,
                            serial: nat, safe: bool, guarded: bool, owned: bool)
  {
    && disk == Replay(base, log)
    && Earned(orig, base, log, id, own, safe, guarded, owned)
    && Sound(disk, id, serial)
    && Recoverable(orig, base)
  }

  lemma ExplainedMeans(orig: map<Path, Bytes>, base: Disk, log: seq<Op>, disk: Disk, id: nat, own: set<Path>,
                       serial: nat, safe: bool, guarded: bool, owned: bool)
    requires Explained(orig, base, log, disk, id, own, serial, safe, guarded, owned)
    ensures safe ==> DisciplinedRun(orig, base, log)
    ensures guarded ==> GuardedRun(base, log)
    ensures Recoverable(orig, base) && disk == Replay(base, log)
  {
  }

  lemma OwnedMeans(orig: map<Path, Bytes>, base: Disk, log: seq<Op>, disk: Disk, id: nat, own: set<Path>,
                   serial: nat, safe: bool, guarded: bool, owned: bool)
    requires Explained(orig, base, log, disk, id, own, serial, safe, guarded, owned) && owned
    ensures forall i :: 0 <= i < |log| ==> OpOwned(log[i], id, own)
  {
  }

  lemma ExplainedSnoc(orig: map<Path, Bytes>, base: Disk, log: seq<Op>, disk: Disk, id: nat, own: set<Path>,
                      serial: nat, safe: bool, guarded: bool, owned: bool, op: Op)
    requires Explained(orig, base, log, disk, id, own, serial, safe, guarded, owned)
    requires disk.files.Keys == orig.Keys && Fits(orig, op, id, serial)
    ensures Apply(disk, op).files.Keys == orig.Keys
    ensures Explained(orig, base, log + [op], Apply(disk, op), id, own, serial,
                      safe && Disciplined(orig, disk, op), guarded && Guarded(disk, op), owned && OpOwned(op, id, own))
  {
    EarnedSnoc(orig, base, log, disk, id, own, safe, guarded, owned, op);
    SoundStep(orig, disk, op, id, serial);
  }

  lemma NextToken(orig: map<Path, Bytes>, base: Disk, log: seq<Op>, disk: Disk, id: nat, own: set<Path>,
                  serial: nat, safe: bool, guarded: bool, owned: bool)
    requires Explained(orig, base, log, disk, id, own, serial, safe, guarded, owned)
    ensures Token(id, serial) !in disk.baks && Token(id, serial) !in disk.markers
    ensures Explained(orig, base, log, disk, id, own, serial + 1, safe, guarded, owned)
  {
  }

  lemma SafeMeans(orig: map<Path, Bytes>, base: Disk, log: seq<Op>, disk: Disk, id: nat, own: set<Path>,
                  serial: nat, safe: bool, guarded: bool, owned: bool)
    requires Explained(orig, base, log, disk, id, own, serial, safe, guarded, owned) && safe
    ensures Recoverable(orig, disk)
  {
    RunStaysRecoverable(orig, base, log);
  }

  /** An entry recovery cannot use protects nothing; one it can use holds the truth. */
  lemma EntryIsSpentOrTrue(orig: map<Path, Bytes>, d: Disk, t: Token)
    requires Recoverable(orig, d)
    ensures t !in d.markers || d.markers[t].Unreadable? || t !in d.baks || d.markers[t].path !in d.files ==>
          Spent(orig, d, t)
    ensures t in d.markers && d.markers[t].Naming? && t in d.baks && d.markers[t].path in orig
        ==> d.baks[t] == orig[d.markers[t].path]
  {
    if t in d.markers && d.markers[t].Naming? && t in d.baks {
      assert Journals(d, t, d.markers[t].path);
    }
  }

  datatype Healed = Restored(path: Path) | CouldNot(path: Path)

  /** Recovery's report for one entry: a file that already matches is dropped silently. */
  function PutBackOne(d: Disk, t: Token, unreadable: set<Token>): seq<Healed> {
    if t !in unreadable && t in d.markers && d.markers[t].Naming? && t in d.baks && d.markers[t].path in d.files
       && d.files[d.markers[t].path] != d.baks[t]
    then [Restored(d.markers[t].path)]
    else []
  }

  function PutBack(d: Disk, order: seq<Token>, unreadable: set<Token>): seq<Healed> {
    if order == [] then []
    else
      var before := order[..|order| - 1];
      PutBack(d, before, unreadable) + PutBackOne(RecoverAll(d, before, unreadable), order[|order| - 1], unreadable)
  }

  /** Recovery reports exactly the files whose bytes it changed. */
  lemma {:induction false} ReportExactly(orig: map<Path, Bytes>, d: Disk, order: seq<Token>, unreadable: set<Token>,
                                         p: Path)
    requires d.files.Keys == orig.Keys && Truthful(orig, d) && p in orig
    ensures p in RecoverAll(d, order, unreadable).files
    ensures Restored(p) in PutBack(d, order, unreadable) <==> RecoverAll(d, order, unreadable).files[p] != d.files[p]
    ensures forall h :: h in PutBack(d, order, unreadable) ==> h.Restored?
  {
    RecoverAllEffect(orig, d, order, unreadable);
    if order != [] {
      var n := |order| - 1;
      var t, e := order[n], RecoverAll(d, order[..n], unreadable);
      ReportExactly(orig, d, order[..n], unreadable, p);
      RecoverAllEffect(orig, d, order[..n], unreadable);
      assert Journals(e, t, p) ==> Journals(d, t, p);
      assert Restored(p) in PutBackOne(e, t, unreadable) <==>
               t !in unreadable && Journals(e, t, p) && e.files[p] != e.baks[t];
    }
  }

  lemma NothingRecovered(d: Disk, unreadable: set<Token>)
    ensures RecoverAll(d, [], unreadable) == d && PutBack(d, [], unreadable) == []
  {
  }

  lemma RecoverSnoc(d: Disk, order: seq<Token>, t: Token, unreadable: set<Token>)
    ensures RecoverAll(d, order + [t], unreadable)
         == RecoverEntry(RecoverAll(d, order, unreadable), t, if t in unreadable then {t} else {})
    ensures PutBack(d, order + [t], unreadable)
         == PutBack(d, order, unreadable)
            + PutBackOne(RecoverAll(d, order, unreadable), t, if t in unreadable then {t} else {})
  {
    assert (order + [t])[..|order|] == order;
  }

  class Process {
    const id: nat
    const own: set<Path>
    ghost const orig: map<Path, Bytes>
    ghost const base: Disk
    var disk: Disk
    var serial: nat
    ghost var log: seq<Op>
    ghost var faults: nat
    ghost var safe: bool
    ghost var guarded: bool
    ghost var owned: bool

    constructor (id: nat, own: set<Path>, ghost orig: map<Path, Bytes>, disk: Disk)
      requires Recoverable(orig, disk) && own <= orig.Keys
      requires forall t: Token :: t in disk.baks || t in disk.markers ==> t.owner != id
      ensures Valid() && this.id == id && this.own == own && this.orig == orig
      ensures this.base == this.disk == disk && log == [] && faults == 0 && safe && guarded && owned
    {
      this.id, this.own, this.orig, this.base := id, own, orig, disk;
      this.disk, serial, log, faults := disk, 0, [], 0;
      safe, guarded, owned := true, true, true;
    }

    ghost predicate Valid()
      reads this
    {
      && Explained(orig, base, log, disk, id, own, serial, safe, guarded, owned)
      && disk.files.Keys == orig.Keys
      && own <= orig.Keys
    }

    /** What every method keeps: the log only grows and no flag is lost. */
    twostate predicate Continues()
      reads this
    {
      && Valid()
      && old(log) <= log
      && old(faults) <= faults
      && old(serial) <= serial
    }

    method Do(op: Op)
      requires Valid()
      requires Fits(orig, op, id, serial)
      modifies this`disk, this`log, this`safe, this`guarded, this`owned
      ensures Continues() && disk == Apply(old(disk), op) && log == old(log) + [op]
      ensures safe == (old(safe) && Disciplined(orig, old(disk), op))
      ensures guarded == (old(guarded) && Guarded(old(disk), op))
      ensures owned == (old(owned) && OpOwned(op, id, own))
    {
      hide Explained, Disciplined, Guarded, OpOwned, Fits;
      ExplainedSnoc(orig, base, log, disk, id, own, serial, safe, guarded, owned, op);
      safe := safe && Disciplined(orig, disk, op);
      guarded := guarded && Guarded(disk, op);
      owned := owned && OpOwned(op, id, own);
      disk := Apply(disk, op);
      log := log + [op];
    }

    method WriteBytes(p: Path, data: Bytes) returns (ok: bool)
      requires Valid() && p in orig
      modifies this`disk, this`log, this`faults, this`safe, this`guarded, this`owned
      ensures Continues() && p in disk.files
      ensures ok <==> faults == old(faults)
      ensures OnlyRewrites(log, |old(log)|)
      ensures ok ==> disk == Apply(old(disk), WriteFile(p, data)) && log == old(log) + [WriteFile(p, data)]
      ensures disk == old(disk).(files := old(disk).files[p := disk.files[p]])
      ensures old(safe) && (old(Journalled(disk, p)) || disk.files[p] == orig[p]) ==> safe
      ensures old(guarded) && old(Journalled(disk, p)) ==> guarded
      ensures old(owned) && p in own ==> owned
    {
      hide Explained;
      if * {
        if * {
          var k: nat :| k <= |data|;
          Do(WriteFile(p, data[..k]));
        }
        faults := faults + 1;
        return false;
      }
      Do(WriteFile(p, data));
      return true;
    }

    method InflightBegin(path: Path, original: Bytes) returns (r: Option<Token>)
      requires Valid() && path in own && original == orig[path]
      modifies this
      ensures Continues() && disk.files == old(disk).files
      ensures (old(safe) ==> safe) && (old(guarded) ==> guarded) && (old(owned) ==> owned)
      ensures r.Some? <==> faults == old(faults)
      ensures r.Some? ==>
        && r.value == Token(id, old(serial))
        && log == old(log) + [WriteBak(r.value, original)] + [WriteMarker(r.value, Naming(path))]
        && disk == Began(old(disk), r.value, path, original)
        && r.value !in old(disk).baks && r.value !in old(disk).markers
    {
      hide Explained;
      NextToken(orig, base, log, disk, id, own, serial, safe, guarded, owned);
      var t := Token(id, serial);
      serial := serial + 1;
      if * {
        if * {
          var k: nat :| k <= |original|;
          Do(WriteBak(t, original[..k]));
        }
        faults := faults + 1;
        return None;
      }
      Do(WriteBak(t, original));
      if * {
        if * {
          Do(WriteMarker(t, Unreadable));
        }
        faults := faults + 1;
        return None;
      }
      Do(WriteMarker(t, Naming(path)));
      return Some(t);
    }

    method InflightEnd(t: Token)
      requires Valid()
      modifies this`disk, this`log, this`faults, this`safe, this`guarded, this`owned
      ensures Continues() && disk.files == old(disk).files
      ensures faults == old(faults) ==>
            disk == DropEntry(old(disk), t) && log == old(log) + [DropBak(t)] + [DropMarker(t)]
      ensures disk.markers == old(disk).markers || disk.markers == old(disk).markers - {t}
      ensures disk.baks == old(disk).baks || disk.baks == old(disk).baks - {t}
      ensures old(safe) && old(Spent(orig, disk, t)) ==> safe
      ensures guarded == old(guarded)
      ensures old(owned) && t.owner == id ==> owned
    {
      hide Explained;
      if * {
        Do(DropBak(t));
      } else {
        faults := faults + 1;
      }
      assert old(Spent(orig, disk, t)) ==> Spent(orig, disk, t);
      if * {
        Do(DropMarker(t));
      } else {
        faults := faults + 1;
      }
    }

    /** Mutates one file, runs the tests, and puts the original bytes back however
        the tests end. */
    method RunMutant(site: Site, original: Bytes, test: TestRun) returns (r: RunResult)
      requires Valid() && site.path in own && original == orig[site.path]
      modifies this
      ensures Continues() && (old(safe) ==> safe) && (old(guarded) ==> guarded) && (old(owned) ==> owned)
      ensures disk.files == old(disk).files[site.path := disk.files[site.path]]
      ensures r.Judged? ==> !test.Aborted? && r.verdict == VerdictOf(test) && disk.files[site.path] == original
      ensures r.Judged? ==> (r.verdict == Survived <==> test.Ran? && test.returncode == 0)
      ensures r.Judged? ==> (r.verdict == Discarded <==> test.Ran? && test.returncode != 0 && test.buildMarker)
      ensures faults == old(faults) ==>
        && (r.RunRaised? <==> test.Aborted?)
        && log == old(log) + MutantOps(Token(id, old(serial)), site, original)
        && disk == old(disk).(files := old(disk).files[site.path := original])
    {
      hide Explained, Journalled, Spent, MutantOps, ApplyMutation, DropEntry, VerdictOf;
      var begun := InflightBegin(site.path, original);
      if begun.None? {
        assert disk.files == disk.files[site.path := disk.files[site.path]];
        return RunRaised;
      }
      var token := begun.value;
      EntryCovers(disk, token, site.path);
      var ok := WriteBytes(site.path, ApplyMutation(original, site));
      if !ok {
        return RunRaised;
      }
      EntryCovers(disk, token, site.path);
      ok := WriteBytes(site.path, original);
      if !ok {
        return RunRaised;
      }
      RestoredIsSpent(orig, disk, token, site.path);
      InflightEnd(token);
      if test.Aborted? {
        r := RunRaised;
      } else {
        VerdictIff(test);
        r := Judged(VerdictOf(test));
      }
      if faults == old(faults) {
        MutantNet(old(disk), token, site, original, disk);
        MutantLog(old(log), token, site, original);
      }
    }

    /** Names every file whose bytes on disk are not its snapshot; one that cannot be
        read back counts as drifted. */
    method VerifyRestored(paths: seq<Path>, originals: map<Path, Bytes>) returns (drifted: set<Path>)
      requires Valid() && Snapshots(orig, own, paths, originals)
      modifies this`faults
      ensures Continues()
      ensures forall p :: p in paths && disk.files[p] != orig[p] ==> p in drifted
      ensures faults == old(faults) ==> drifted == set p | p in paths && disk.files[p] != orig[p]
    {
      hide Explained;
      drifted := {};
      for i := 0 to |paths|
        invariant Continues()
        invariant forall p :: p in paths[..i] && disk.files[p] != orig[p] ==> p in drifted
        invariant faults == old(faults) ==> drifted == set p | p in paths[..i] && disk.files[p] != orig[p]
      {
        if * {
          faults := faults + 1;
          drifted := drifted + {paths[i]};
        } else if disk.files[paths[i]] != originals[paths[i]] {
          drifted := drifted + {paths[i]};
        }
      }
    }

    /** Rewrites every snapshot. The rewrites carry no journal entry, so one that
        fails half way leaves a torn file nothing on disk can heal. */
    method RewriteAll(paths: seq<Path>, originals: map<Path, Bytes>)
      requires Valid() && Snapshots(orig, own, paths, originals)
      modifies this`disk, this`log, this`faults, this`safe, this`guarded, this`owned
      ensures Continues() && disk.baks == old(disk).baks && disk.markers == old(disk).markers
      ensures Elsewhere(old(disk), disk, orig, paths)
      ensures faults == old(faults) ==> AllBack(disk, orig, paths) && log == old(log) + Rewrites(paths, originals)
      ensures AllBack(disk, orig, paths) && old(safe) ==> safe
      ensures old(owned) ==> owned
      ensures OnlyRewrites(log, |old(log)|)
    {
      hide Explained, Disciplined, Journalled, AllBack, Rewrites, OnlyRewrites, Elsewhere;
      NothingRewritten(disk, orig, originals, log);
      assert paths[..0] == [];
      for i := 0 to |paths|
        invariant Continues() && disk.baks == old(disk).baks && disk.markers == old(disk).markers
        invariant Elsewhere(old(disk), disk, orig, paths[..i])
        invariant faults == old(faults) ==>
              AllBack(disk, orig, paths[..i]) && log == old(log) + Rewrites(paths[..i], originals)
        invariant AllBack(disk, orig, paths[..i]) && old(safe) ==> safe
        invariant old(owned) ==> owned
        invariant OnlyRewrites(log, |old(log)|)
      {
        ghost var was, before := disk, log;
        var ok := WriteBytes(paths[i], originals[paths[i]]);
        TakeNext(paths, i);
        RewritesSnoc(paths[..i], paths[i], originals);
        BackSoFar(was, disk, orig, paths[..i], paths[i]);
        ElsewhereStill(old(disk), was, disk, orig, paths[..i], paths[i]);
        RewritesExtend(before, log, |old(log)|);
      }
      assert paths[..|paths|] == paths;
    }

    /** Rewrites every snapshot and reads each file back: with nothing reported, every
        snapshotted file is at its pre-sweep bytes. */
    method RestoreAndVerify(paths: seq<Path>, originals: map<Path, Bytes>) returns (drifted: set<Path>)
      requires Valid() && Snapshots(orig, own, paths, originals)
      modifies this`disk, this`log, this`faults, this`safe, this`guarded, this`owned
      ensures Continues() && disk.baks == old(disk).baks && disk.markers == old(disk).markers
      ensures forall p :: p in originals && p !in drifted ==> disk.files[p] == orig[p]
      ensures forall p :: p in orig && p !in originals ==> disk.files[p] == old(disk).files[p]
      ensures faults == old(faults) ==> drifted == {} && log == old(log) + Rewrites(paths, originals)
      ensures drifted == {} && old(safe) ==> safe
      ensures old(owned) ==> owned
      ensures OnlyRewrites(log, |old(log)|)
    {
      hide Explained, AllBack, Rewrites, OnlyRewrites;
      RewriteAll(paths, originals);
      drifted := VerifyRestored(paths, originals);
      AllBackMeans(disk, orig, paths);
    }

    /** One pass of the sweep loop: snapshot the file when it is first met, then count
        the site or run its mutant. False when an exception leaves the loop. */
    method SweepSite(job: Job, paths: seq<Path>, originals: map<Path, Bytes>, counts: Counts)
      returns (ok: bool, paths': seq<Path>, originals': map<Path, Bytes>, counts': Counts)
      requires Valid() && disk.files == orig && job.site.path in own
      requires Snapshots(orig, own, paths, originals)
      modifies this
      ensures Continues() && (old(safe) ==> safe) && (old(guarded) ==> guarded) && (old(owned) ==> owned)
      ensures Snapshots(orig, own, paths', originals')
      ensures forall p :: p in orig && p !in originals' ==> disk.files[p] == orig[p]
      ensures ok ==> disk.files == orig && Completes(job) && counts' == CountSite(counts, job.site, job.dead, job.test)
      ensures !ok ==> counts' == counts
      ensures faults == old(faults) ==> (ok <==> Completes(job))
    {
      hide Explained, CountSite, MutantOps;
      ok, paths', originals', counts' := true, paths, originals, counts;
      if job.site.path !in originals {
        if * {
          faults := faults + 1;
          ok := false;
          return;
        }
        originals' := originals[job.site.path := disk.files[job.site.path]];
        paths' := paths + [job.site.path];
      }
      if job.dead {
        counts' := CountSite(counts, job.site, true, job.test);
        return;
      }
      var run := RunMutant(job.site, originals'[job.site.path], job.test);
      if run.RunRaised? {
        ok := false;
      } else {
        assert disk.files == orig;
        counts' := CountSite(counts, job.site, false, job.test);
      }
    }

    /** The sweep loop: sites in order until one raises. */
    method SweepSites(jobs: seq<Job>) returns (ok: bool, paths: seq<Path>, originals: map<Path, Bytes>, counts: Counts)
      requires Valid() && disk.files == orig
      requires forall j :: j in jobs ==> j.site.path in own
      modifies this
      ensures Continues() && (old(safe) ==> safe) && (old(guarded) ==> guarded) && (old(owned) ==> owned)
      ensures Snapshots(orig, own, paths, originals)
      ensures forall p :: p in orig && p !in originals ==> disk.files[p] == orig[p]
      ensures ok ==> (forall j :: j in jobs ==> Completes(j)) && counts == Tally(jobs)
      ensures faults == old(faults) ==> (ok <==> forall j :: j in jobs ==> Completes(j))
    {
      hide Explained, CountSite, Tally;
      ok, paths, originals, counts := true, [], map[], Counts(0, 0, 0, []);
      var i := 0;
      assert jobs[..0] == [];
      TallyNothing();
      while i < |jobs| && ok
        invariant Continues() && i <= |jobs|
        invariant Snapshots(orig, own, paths, originals)
        invariant forall p :: p in orig && p !in originals ==> disk.files[p] == orig[p]
        invariant ok ==> disk.files == orig
        invariant forall j :: j in jobs[..i] ==> Completes(j)
        invariant counts == Tally(jobs[..i])
        invariant !ok && faults == old(faults) ==> exists j :: j in jobs && !Completes(j)
        invariant !ok ==> i < |jobs|
        invariant (old(safe) ==> safe) && (old(guarded) ==> guarded) && (old(owned) ==> owned)
        decreases |jobs| - i, ok
      {
        var job := jobs[i];
        ok, paths, originals, counts := SweepSite(job, paths, originals, counts);
        if ok {
          TakeNext(jobs, i);
          TallySnoc(jobs[..i], job);
          i := i + 1;
        } else {
          assert faults == old(faults) ==> job in jobs && !Completes(job);
        }
      }
      assert ok ==> jobs[..i] == jobs;
    }

    /** Sweeps one package: every site is mutated and judged in turn, then every file
        touched is rewritten and read back, whatever ended the loop.
        `rewritesFrom` is where the final rewrites start in the log. */
    method SweepOnePackage(jobs: seq<Job>) returns (r: SweepResult, ghost rewritesFrom: nat)
      requires Valid() && disk.files == orig
      requires forall j :: j in jobs ==> j.site.path in own
      modifies this
      ensures Continues()
      ensures r.Swept? ==> (forall j :: j in jobs ==> Completes(j)) && r.counts == Tally(jobs)
      ensures !r.Drifted? ==> disk.files == orig && (old(safe) ==> safe)
      ensures faults == old(faults) ==> !r.Drifted? && (r.Swept? <==> forall j :: j in jobs ==> Completes(j))
      ensures old(owned) ==> owned
      ensures |old(log)| <= rewritesFrom <= |log| && OnlyRewrites(log, rewritesFrom)
      ensures old(safe) ==> DisciplinedRun(orig, base, log[..rewritesFrom])
      ensures old(guarded) ==> GuardedRun(base, log[..rewritesFrom])
    {
      hide Explained, DisciplinedRun, GuardedRun, OnlyRewrites, Rewrites, Tally;
      var ok, paths, originals, counts := SweepSites(jobs);
      rewritesFrom := |log|;
      ghost var swept := log;
      ExplainedMeans(orig, base, log, disk, id, own, serial, safe, guarded, owned);
      var drifted := RestoreAndVerify(paths, originals);
      assert log[..rewritesFrom] == swept;
      if drifted != {} {
        return Drifted(drifted), rewritesFrom;
      }
      assert disk.files == orig;
      if !ok {
        return Raised, rewritesFrom;
      }
      return Swept(counts), rewritesFrom;
    }

    /** Puts back every file a killed sweep left mutated, entry by entry. `order` lists
        the markers found; a journal read in `unreadable` raises an OSError. */
    method RecoverInflight(order: seq<Token>, unreadable: set<Token>) returns (restored: seq<Healed>)
      requires Valid()
      modifies this`disk, this`log, this`faults, this`safe, this`guarded, this`owned
      ensures Continues() && (old(guarded) ==> guarded)
      ensures unreadable == {} && old(safe) ==> safe
      ensures faults == old(faults) ==> disk == RecoverAll(old(disk), order, unreadable)
      ensures faults == old(faults) ==> restored == PutBack(old(disk), order, unreadable)
    {
      hide Explained, RecoverAll, RecoverEntry, PutBack, Disciplined, Truthful, DropEntry;
      restored := [];
      assert order[..0] == [];
      NothingRecovered(disk, unreadable);
      for i := 0 to |order|
        invariant Continues() && (old(guarded) ==> guarded)
        invariant unreadable == {} && old(safe) ==> safe
        invariant faults == old(faults) ==> disk == RecoverAll(old(disk), order[..i], unreadable)
        invariant faults == old(faults) ==> restored == PutBack(old(disk), order[..i], unreadable)
      {
        TakeNext(order, i);
        RecoverSnoc(old(disk), order[..i], order[i], unreadable);
        var healed := RecoverOne(order[i], order[i] in unreadable);
        restored := restored + healed;
      }
      assert order[..|order|] == order;
    }

    /** The body of recovery's loop for one marker. */
    method RecoverOne(t: Token, readFails: bool) returns (healed: seq<Healed>)
      requires Valid()
      modifies this`disk, this`log, this`faults, this`safe, this`guarded, this`owned
      ensures Continues() && (old(guarded) ==> guarded)
      ensures !readFails && old(safe) ==> safe
      ensures faults == old(faults) ==> disk == RecoverEntry(old(disk), t, if readFails then {t} else {})
      ensures faults == old(faults) ==> healed == PutBackOne(old(disk), t, if readFails then {t} else {})
      ensures healed != [] && healed[0].CouldNot? ==>
        var p := healed[0].path;
        p in disk.files && disk == old(disk).(files := old(disk).files[p := disk.files[p]])
    {
      hide Explained, Disciplined, Journalled, Spent, DropEntry;
      healed := [];
      ghost var d := disk;
      if safe {
        SafeMeans(orig, base, log, disk, id, own, serial, safe, guarded, owned);
        EntryIsSpentOrTrue(orig, disk, t);
      }
      if readFails || t !in disk.markers || disk.markers[t].Unreadable? || t !in disk.baks {
        InflightEnd(t);
        return;
      }
      var target, original := disk.markers[t].path, disk.baks[t];
      if target !in disk.files {
        InflightEnd(t);
        return;
      }
      EntryCovers(disk, t, target);
      if * {
        faults := faults + 1;
        healed := [CouldNot(target)];
        return;
      }
      if disk.files[target] != original {
        var ok := WriteBytes(target, original);
        if !ok {
          healed := [CouldNot(target)];
          return;
        }
        healed := [Restored(target)];
      }
      assert disk.files == d.files[target := original];
      if old(safe) {
        RestoredIsSpent(orig, disk, t, target);
      }
      InflightEnd(t);
    }
  }
}
