/** Packages swept concurrently (scripts/check_mutation.py, sweep_diff). Each worker's
    run is a log of disk ops that stays inside its own package's files and its own
    journal tokens; a schedule interleaves the logs in any way. Seen through one
    worker's own files and tokens, the shared disk evolves as if it were alone, which
    lifts every per-worker guarantee to the interleaving. */
module Workers {
  import opened Basics
  import opened Journal
  import opened Checkout

  function Restrict(orig: map<Path, Bytes>, own: set<Path>): map<Path, Bytes> {
    map p | p in orig && p in own :: orig[p]
  }

  function Own<T>(entries: map<Token, T>, id: nat): map<Token, T> {
    map t | t in entries && t.owner == id :: entries[t]
  }

  /** The part of the disk a worker can read or write. */
  function View(d: Disk, id: nat, own: set<Path>): Disk {
    Disk(map p | p in d.files && p in own :: d.files[p],
         Own(d.baks, id), Own(d.markers, id))
  }

  /** Per worker: its package's files, its log, and where its final rewrites start. */
  datatype Team = Team(owns: seq<set<Path>>, logs: seq<seq<Op>>, cuts: seq<nat>)

  ghost predicate Disjoint(owns: seq<set<Path>>) {
    forall v, w :: 0 <= v < w < |owns| ==> owns[v] !! owns[w]
  }

  /** What SweepOnePackage promises of each worker started on its own view, whatever writes
      fail: disciplined and journalled up to its final rewrites, then rewrites only. */
  ghost predicate WorkerRun(orig: map<Path, Bytes>, d: Disk, id: nat, own: set<Path>, log: seq<Op>, cut: nat) {
    && own <= orig.Keys && cut <= |log|
    && DisciplinedRun(Restrict(orig, own), View(d, id, own), log[..cut])
    && GuardedRun(View(d, id, own), log[..cut]) && OnlyRewrites(log, cut)
    && forall i :: 0 <= i < |log| ==> OpOwned(log[i], id, own)
  }

  /** The team starts on a healed checkout: recovery ran first and left no marker
      (orphaned backups may remain). */
  ghost predicate Starts(orig: map<Path, Bytes>, d: Disk, team: Team) {
    && d.files == orig && d.markers == map[]
    && |team.owns| == |team.logs| == |team.cuts| && Disjoint(team.owns)
    && forall w :: 0 <= w < |team.owns| ==> WorkerRun(orig, d, w, team.owns[w], team.logs[w], team.cuts[w])
  }

  /** How many steps the schedule has given to worker `w`. */
  function Taken(schedule: seq<nat>, w: nat): nat {
    if schedule == [] then 0
    else Taken(schedule[..|schedule| - 1], w) + (if schedule[|schedule| - 1] == w then 1 else 0)
  }

  ghost predicate Schedules(team: Team, schedule: seq<nat>) {
    schedule == [] ||
    var before, w := schedule[..|schedule| - 1], schedule[|schedule| - 1];
    Schedules(team, before) && w < |team.logs| && Taken(before, w) < |team.logs[w]|
  }

  /** The ops in the order the schedule runs them. */
  function Merge(team: Team, schedule: seq<nat>): seq<Op>
    requires Schedules(team, schedule)
  {
    if schedule == [] then []
    else
      var before, w := schedule[..|schedule| - 1], schedule[|schedule| - 1];
      Merge(team, before) + [team.logs[w][Taken(before, w)]]
  }

  /** A worker as the pool runs it: SweepOnePackage on its own view of the checkout. */
  method SweepWorker(ghost orig: map<Path, Bytes>, d: Disk, id: nat, own: set<Path>, jobs: seq<Job>)
    returns (r: SweepResult, ghost log: seq<Op>, ghost cut: nat)
    requires d.files == orig && d.markers == map[] && own <= orig.Keys
    requires forall t: Token :: t in d.baks ==> t.owner != id
    requires forall j :: j in jobs ==> j.site.path in own
    ensures WorkerRun(orig, d, id, own, log, cut)
    ensures !r.Drifted? ==> DisciplinedRun(Restrict(orig, own), View(d, id, own), log)
    ensures !r.Drifted? ==> Replay(View(d, id, own), log).files == Restrict(orig, own)
    ensures r.Swept? ==> (forall j :: j in jobs ==> Completes(j)) && r.counts == Tally(jobs)
  {
    hide Replay, DisciplinedRun, GuardedRun, Tally;
    var view := View(d, id, own);
    assert view.files == Restrict(orig, own);
    assert view.markers == map[];
    assert Restrict(orig, own).Keys == own;
    assert Recoverable(Restrict(orig, own), view);
    var process := new Process(id, own, Restrict(orig, own), view);
    r, cut := process.SweepOnePackage(jobs);
    log := process.log;
    ExplainedMeans(process.orig, process.base, log, process.disk, id, own, process.serial,
                   process.safe, process.guarded, process.owned);
    OwnedMeans(process.orig, process.base, log, process.disk, id, own, process.serial,
               process.safe, process.guarded, process.owned);
  }

  // ----- one step

  lemma OwnStepShows(d: Disk, op: Op, id: nat, own: set<Path>)
    requires OpOwned(op, id, own)
    ensures View(Apply(d, op), id, own) == Apply(View(d, id, own), op)
  {
    match op
    case WriteFile(_, _) => assert View(Apply(d, op), id, own).files == Apply(View(d, id, own), op).files;
    case WriteBak(t, data) => OwnBakShows(d, t, data, id);
    case WriteMarker(t, m) => OwnMarkerShows(d, t, m, id);
    case DropBak(t) => OwnBakShows(d, t, [], id);
    case DropMarker(t) => OwnMarkerShows(d, t, Unreadable, id);
  }

  lemma OwnBakShows(d: Disk, t: Token, data: Bytes, id: nat)
    requires t.owner == id
    ensures Own(d.baks[t := data], id) == Own(d.baks, id)[t := data]
    ensures Own(d.baks - {t}, id) == Own(d.baks, id) - {t}
  {
  }

  lemma OwnMarkerShows(d: Disk, t: Token, m: Marker, id: nat)
    requires t.owner == id
    ensures Own(d.markers[t := m], id) == Own(d.markers, id)[t := m]
    ensures Own(d.markers - {t}, id) == Own(d.markers, id) - {t}
  {
  }

  lemma OtherStepHidden(d: Disk, op: Op, id: nat, own: set<Path>, other: nat, others: set<Path>)
    requires OpOwned(op, other, others) && other != id && own !! others
    ensures View(Apply(d, op), id, own) == View(d, id, own)
  {
    var l, r := View(Apply(d, op), id, own), View(d, id, own);
    assert l.files == r.files;
    assert l.baks == r.baks;
    assert l.markers == r.markers;
  }

  lemma StepSeen(d: Disk, op: Op, owns: seq<set<Path>>, v: nat, w: nat)
    requires v < |owns| && w < |owns| && Disjoint(owns) && OpOwned(op, v, owns[v])
    ensures View(Apply(d, op), w, owns[w])
         == if v == w then Apply(View(d, w, owns[w]), op) else View(d, w, owns[w])
  {
    if v == w {
      OwnStepShows(d, op, w, owns[w]);
    } else {
      OtherStepHidden(d, op, w, owns[w], v, owns[v]);
    }
  }

  /** Every marker belongs to a worker and names one of its files. */
  ghost predicate NamesOwn(d: Disk, owns: seq<set<Path>>) {
    forall t :: t in d.markers ==> t.owner < |owns| && (d.markers[t].Naming? ==> d.markers[t].path in owns[t.owner])
  }

  lemma DisciplineLifts(orig: map<Path, Bytes>, d: Disk, op: Op, id: nat, own: set<Path>)
    requires OpOwned(op, id, own) && own <= orig.Keys
    requires forall t :: t in d.markers && t.owner == id && d.markers[t].Naming? ==> d.markers[t].path in own
    requires Disciplined(Restrict(orig, own), View(d, id, own), op)
    ensures Disciplined(orig, d, op)
  {
    var v, o := View(d, id, own), Restrict(orig, own);
    match op
    case WriteFile(p, data) =>
      if Journalled(v, p) {
        JournalLifts(d, id, own, p);
      }
    case WriteBak(t, _) =>
    case WriteMarker(t, m) =>
    case DropBak(t) => SpentLifts(orig, d, t, id, own);
    case DropMarker(t) => SpentLifts(orig, d, t, id, own);
  }

  lemma JournalLifts(d: Disk, id: nat, own: set<Path>, p: Path)
    requires Journalled(View(d, id, own), p)
    ensures Journalled(d, p)
  {
    var t :| Journals(View(d, id, own), t, p);
    assert Journals(d, t, p);
  }

  lemma SpentLifts(orig: map<Path, Bytes>, d: Disk, t: Token, id: nat, own: set<Path>)
    requires t.owner == id && Spent(Restrict(orig, own), View(d, id, own), t)
    requires forall t :: t in d.markers && t.owner == id && d.markers[t].Naming? ==> d.markers[t].path in own
    ensures Spent(orig, d, t)
  {
    forall p | Journals(d, t, p) && p in orig
      ensures p in d.files && d.files[p] == orig[p]
    {
      assert Journals(View(d, id, own), t, p);
    }
  }

  // ----- whole interleavings

  lemma {:induction false} TakenFits(team: Team, schedule: seq<nat>, w: nat)
    requires Schedules(team, schedule) && w < |team.logs|
    ensures Taken(schedule, w) <= |team.logs[w]|
  {
    if schedule != [] {
      TakenFits(team, schedule[..|schedule| - 1], w);
    }
  }

  /** Independence: whatever the other workers do, and in whatever order, a worker
      sees exactly the disk its own steps made. */
  lemma {:induction false} SeesOnlyItself(orig: map<Path, Bytes>, d: Disk, team: Team, schedule: seq<nat>, w: nat)
    requires Starts(orig, d, team) && Schedules(team, schedule) && w < |team.owns|
    ensures Taken(schedule, w) <= |team.logs[w]|
    ensures View(Replay(d, Merge(team, schedule)), w, team.owns[w])
         == Replay(View(d, w, team.owns[w]), team.logs[w][..Taken(schedule, w)])
  {
    TakenFits(team, schedule, w);
    if schedule != [] {
      var before, v := schedule[..|schedule| - 1], schedule[|schedule| - 1];
      SeesOnlyItself(orig, d, team, before, w);
      var k := Taken(before, v);
      var op := team.logs[v][k];
      SnocParts(Merge(team, before), op);
      assert WorkerRun(orig, d, v, team.owns[v], team.logs[v], team.cuts[v]);
      StepSeen(Replay(d, Merge(team, before)), op, team.owns, v, w);
      if v == w {
        assert team.logs[w][..k + 1] == team.logs[w][..k] + [op];
        SnocParts(team.logs[w][..k], op);
      }
    }
  }

  lemma {:induction false} MarkersNameOwn(orig: map<Path, Bytes>, d: Disk, team: Team, schedule: seq<nat>)
    requires Starts(orig, d, team) && Schedules(team, schedule)
    ensures NamesOwn(Replay(d, Merge(team, schedule)), team.owns)
  {
    if schedule != [] {
      var before, v := schedule[..|schedule| - 1], schedule[|schedule| - 1];
      MarkersNameOwn(orig, d, team, before);
      assert WorkerRun(orig, d, v, team.owns[v], team.logs[v], team.cuts[v]);
      SnocParts(Merge(team, before), team.logs[v][Taken(before, v)]);
    }
  }

  /** No worker's final rewrites went wrong. */
  ghost predicate Undrifted(orig: map<Path, Bytes>, d: Disk, team: Team)
    requires |team.owns| == |team.logs|
  {
    forall w :: 0 <= w < |team.owns| ==>
      DisciplinedRun(Restrict(orig, team.owns[w]), View(d, w, team.owns[w]), team.logs[w])
  }

  /** Every interleaving of disciplined workers is disciplined as a whole. */
  lemma {:induction false} InterleavingDisciplined(orig: map<Path, Bytes>, d: Disk, team: Team, schedule: seq<nat>)
    requires Starts(orig, d, team) && Schedules(team, schedule) && Undrifted(orig, d, team)
    ensures DisciplinedRun(orig, d, Merge(team, schedule)) && |Merge(team, schedule)| == |schedule|
  {
    if schedule != [] {
      var before, v := schedule[..|schedule| - 1], schedule[|schedule| - 1];
      InterleavingDisciplined(orig, d, team, before);
      StepDisciplined(orig, d, team, before, v);
      SnocParts(Merge(team, before), team.logs[v][Taken(before, v)]);
    }
  }

  lemma StepDisciplined(orig: map<Path, Bytes>, d: Disk, team: Team, before: seq<nat>, v: nat)
    requires Starts(orig, d, team) && Schedules(team, before) && Undrifted(orig, d, team)
    requires v < |team.logs| && Taken(before, v) < |team.logs[v]|
    ensures Disciplined(orig, Replay(d, Merge(team, before)), team.logs[v][Taken(before, v)])
  {
    var now, k := Replay(d, Merge(team, before)), Taken(before, v);
    var op, own := team.logs[v][k], team.owns[v];
    assert WorkerRun(orig, d, v, own, team.logs[v], team.cuts[v]);
    SeesOnlyItself(orig, d, team, before, v);
    MarkersNameOwn(orig, d, team, before);
    DisciplinedAt(Restrict(orig, own), View(d, v, own), team.logs[v], k);
    DisciplineLifts(orig, now, op, v, own);
  }

  lemma {:induction false} FilesStay(orig: map<Path, Bytes>, d: Disk, team: Team, schedule: seq<nat>)
    requires Starts(orig, d, team) && Schedules(team, schedule)
    ensures Replay(d, Merge(team, schedule)).files.Keys == orig.Keys
  {
    if schedule != [] {
      var before, v := schedule[..|schedule| - 1], schedule[|schedule| - 1];
      FilesStay(orig, d, team, before);
      assert WorkerRun(orig, d, v, team.owns[v], team.logs[v], team.cuts[v]);
      SnocParts(Merge(team, before), team.logs[v][Taken(before, v)]);
    }
  }

  /** When all workers have finished and each has its own files back, every file of the shared
      checkout is back, whatever the interleaving. */
  lemma FinishedSweepRestores(orig: map<Path, Bytes>, d: Disk, team: Team, schedule: seq<nat>)
    requires Starts(orig, d, team) && Schedules(team, schedule)
    requires forall w :: 0 <= w < |team.owns| ==>
      && Taken(schedule, w) == |team.logs[w]|
      && Replay(View(d, w, team.owns[w]), team.logs[w]).files == Restrict(orig, team.owns[w])
    ensures Replay(d, Merge(team, schedule)).files == orig
  {
    var now := Replay(d, Merge(team, schedule));
    FilesStay(orig, d, team, schedule);
    forall p | p in orig
      ensures now.files[p] == orig[p]
    {
      if w :| 0 <= w < |team.owns| && p in team.owns[w] {
        SeesOnlyItself(orig, d, team, schedule, w);
        assert team.logs[w][..|team.logs[w]|] == team.logs[w];
        assert View(now, w, team.owns[w]).files[p] == Restrict(orig, team.owns[w])[p];
      } else {
        UnownedUntouched(orig, d, team, schedule, p);
      }
    }
  }

  // ----- kills

  /** What a kill can leave of an op that was running: a prefix of the bytes, an
      unreadable marker, or all of it. */
  ghost predicate Partial(op: Op, part: Op) {
    match op
    case WriteFile(p, data) => exists k :: 0 <= k <= |data| && part == WriteFile(p, data[..k])
    case WriteBak(t, data) => exists k :: 0 <= k <= |data| && part == WriteBak(t, data[..k])
    case WriteMarker(t, _) => part == WriteMarker(t, Unreadable) || part == op
    case DropBak(_) => part == op
    case DropMarker(_) => part == op
  }

  /** One kill stops every worker at once, each possibly inside an op of its own. */
  function Freeze(d: Disk, parts: seq<Option<Op>>): Disk {
    if parts == [] then d
    else
      var rest := Freeze(d, parts[..|parts| - 1]);
      match parts[|parts| - 1]
      case None => rest
      case Some(part) => Apply(rest, part)
  }

  ghost predicate InFlight(team: Team, schedule: seq<nat>, parts: seq<Option<Op>>) {
    && |parts| == |team.owns| == |team.logs|
    && forall w :: 0 <= w < |parts| && parts[w].Some? ==>
         Taken(schedule, w) < |team.logs[w]| && Partial(team.logs[w][Taken(schedule, w)], parts[w].value)
  }

  lemma {:induction false} FreezeSeen(d: Disk, owns: seq<set<Path>>, parts: seq<Option<Op>>, w: nat)
    requires Disjoint(owns) && |parts| <= |owns| && w < |owns|
    requires forall v :: 0 <= v < |parts| && parts[v].Some? ==> OpOwned(parts[v].value, v, owns[v])
    ensures View(Freeze(d, parts), w, owns[w])
         == if w < |parts| && parts[w].Some? then Apply(View(d, w, owns[w]), parts[w].value) else View(d, w, owns[w])
  {
    if parts != [] {
      var n := |parts| - 1;
      FreezeSeen(d, owns, parts[..n], w);
      if parts[n].Some? {
        StepSeen(Freeze(d, parts[..n]), parts[n].value, owns, n, w);
      }
    }
  }

  lemma {:induction false} FreezeKeepsOutside(orig: map<Path, Bytes>, d: Disk, owns: seq<set<Path>>,
        parts: seq<Option<Op>>)
    requires |parts| <= |owns| && NamesOwn(d, owns) && d.files.Keys == orig.Keys
    requires forall v :: 0 <= v < |owns| ==> owns[v] <= orig.Keys
    requires forall v :: 0 <= v < |parts| && parts[v].Some? ==> OpOwned(parts[v].value, v, owns[v])
    ensures var left := Freeze(d, parts);
      && NamesOwn(left, owns) && left.files.Keys == orig.Keys
      && forall p :: p in orig && (forall v :: 0 <= v < |owns| ==> p !in owns[v]) ==> left.files[p] == d.files[p]
  {
    if parts != [] {
      FreezeKeepsOutside(orig, d, owns, parts[..|parts| - 1]);
    }
  }

  lemma {:induction false} UnownedUntouched(orig: map<Path, Bytes>, d: Disk, team: Team, schedule: seq<nat>, p: Path)
    requires Starts(orig, d, team) && Schedules(team, schedule)
    requires p in orig && forall v :: 0 <= v < |team.owns| ==> p !in team.owns[v]
    ensures p in Replay(d, Merge(team, schedule)).files && Replay(d, Merge(team, schedule)).files[p] == orig[p]
  {
    if schedule != [] {
      var before, v := schedule[..|schedule| - 1], schedule[|schedule| - 1];
      UnownedUntouched(orig, d, team, before, p);
      assert WorkerRun(orig, d, v, team.owns[v], team.logs[v], team.cuts[v]);
      SnocParts(Merge(team, before), team.logs[v][Taken(before, v)]);
    }
  }

  lemma PartialOwned(op: Op, part: Op, id: nat, own: set<Path>)
    requires Partial(op, part) && OpOwned(op, id, own)
    ensures OpOwned(part, id, own)
    ensures forall d :: Interrupted(d, op, Apply(d, part))
  {
    forall d
      ensures Interrupted(d, op, Apply(d, part))
    {
    }
  }

  /** The shared disk is recoverable exactly when every worker's part of it is. */
  lemma RecoverableByParts(orig: map<Path, Bytes>, left: Disk, owns: seq<set<Path>>)
    requires left.files.Keys == orig.Keys && NamesOwn(left, owns) && Disjoint(owns)
    requires forall p :: p in orig && (forall v :: 0 <= v < |owns| ==> p !in owns[v]) ==> left.files[p] == orig[p]
    requires forall v :: 0 <= v < |owns| ==> owns[v] <= orig.Keys
    requires forall v :: 0 <= v < |owns| ==> Truthful(Restrict(orig, owns[v]), View(left, v, owns[v]))
    ensures Truthful(orig, left)
    ensures Recoverable(orig, left)
       <==> forall v :: 0 <= v < |owns| ==> Recoverable(Restrict(orig, owns[v]), View(left, v, owns[v]))
  {
    forall t, p | Journals(left, t, p) && p in orig
      ensures left.baks[t] == orig[p]
    {
      assert Journals(View(left, t.owner, owns[t.owner]), t, p);
    }
    if Recoverable(orig, left) {
      forall v | 0 <= v < |owns|
        ensures Recoverable(Restrict(orig, owns[v]), View(left, v, owns[v]))
      {
        PartRecoverable(orig, left, owns, v);
      }
    }
    if forall v :: 0 <= v < |owns| ==> Recoverable(Restrict(orig, owns[v]), View(left, v, owns[v])) {
      forall p | p in orig
        ensures left.files[p] == orig[p] || Journalled(left, p)
      {
        if v :| 0 <= v < |owns| && p in owns[v] {
          if Journalled(View(left, v, owns[v]), p) {
            JournalLifts(left, v, owns[v], p);
          }
        }
      }
    }
  }

  lemma PartRecoverable(orig: map<Path, Bytes>, left: Disk, owns: seq<set<Path>>, v: nat)
    requires Recoverable(orig, left) && NamesOwn(left, owns) && Disjoint(owns) && v < |owns|
    requires owns[v] <= orig.Keys && Truthful(Restrict(orig, owns[v]), View(left, v, owns[v]))
    ensures Recoverable(Restrict(orig, owns[v]), View(left, v, owns[v]))
  {
    var view, o := View(left, v, owns[v]), Restrict(orig, owns[v]);
    assert view.files.Keys == o.Keys;
    forall p | p in o
      ensures view.files[p] == o[p] || Journalled(view, p)
    {
      if left.files[p] != orig[p] {
        var t :| Journals(left, t, p);
        assert t.owner == v;
        assert Journals(view, t, p);
      }
    }
  }

  /** The bytes the last write of a log put into a file. */
  function LastWrite(log: seq<Op>, p: Path): Option<Bytes> {
    if log == [] then None
    else if Last(log).WriteFile? && Last(log).path == p then Some(Last(log).data)
    else LastWrite(Init(log), p)
  }

  /** The final rewrites worker `w` got to, a torn one counted as what it left. */
  function FinalRewrites(team: Team, schedule: seq<nat>, parts: seq<Option<Op>>, w: nat): seq<Op>
    requires w < |parts| && w < |team.logs| && w < |team.cuts| && Taken(schedule, w) <= |team.logs[w]|
  {
    var k := Taken(schedule, w);
    if k < team.cuts[w] then []
    else team.logs[w][team.cuts[w]..k] + (if parts[w].Some? then [parts[w].value] else [])
  }

  /** Worker `w` stranded no file: wherever one of its final rewrites left wrong bytes, torn by
      the kill or by a write error before it, the file still has a journal entry. */
  ghost predicate Harmless(orig: map<Path, Bytes>, d: Disk, team: Team, schedule: seq<nat>, parts: seq<Option<Op>>,
        w: nat)
    requires w < |parts| && w < |team.logs| && w < |team.cuts| && w < |team.owns|
    requires Taken(schedule, w) <= |team.logs[w]|
  {
    forall p :: p in team.owns[w] && p in orig && LastWrite(FinalRewrites(team, schedule, parts, w), p).Some? ==>
      || LastWrite(FinalRewrites(team, schedule, parts, w), p).value == orig[p]
      || Journalled(Replay(View(d, w, team.owns[w]), team.logs[w][..Taken(schedule, w)]), p)
  }

  lemma {:induction false} ReplayJoin(d: Disk, a: seq<Op>, b: seq<Op>)
    ensures Replay(d, a + b) == Replay(Replay(d, a), b)
    decreases |b|
  {
    if b == [] {
      assert a + b == a;
    } else {
      assert Init(a + b) == a + Init(b) && Last(a + b) == Last(b);
      ReplayJoin(d, a, Init(b));
    }
  }

  /** Rewrites alone touch no entry, and leave each file at its last rewrite. */
  lemma {:induction false} RewritesLeave(d: Disk, done: seq<Op>)
    requires forall i :: 0 <= i < |done| ==> done[i].WriteFile? && done[i].path in d.files
    ensures var r := Replay(d, done);
      && r.baks == d.baks && r.markers == d.markers && r.files.Keys == d.files.Keys
      && forall p :: p in d.files ==>
           r.files[p] == if LastWrite(done, p).Some? then LastWrite(done, p).value else d.files[p]
  {
    if done != [] {
      RewritesLeave(d, Init(done));
    }
  }

  lemma JournalsAlike(a: Disk, b: Disk)
    requires a.baks == b.baks && a.markers == b.markers
    ensures forall p :: Journalled(a, p) <==> Journalled(b, p)
    ensures forall t, p :: Journals(a, t, p) <==> Journals(b, t, p)
  {
    forall p
      ensures Journalled(a, p) <==> Journalled(b, p)
    {
      if t :| Journals(a, t, p) {
        assert Journals(b, t, p);
      }
      if t :| Journals(b, t, p) {
        assert Journals(a, t, p);
      }
    }
  }

  /** Past its cut, a worker's part of the disk heals exactly when every wrong rewrite is
      journalled. */
  lemma RewritesHealIff(o: map<Path, Bytes>, base: Disk, done: seq<Op>)
    requires Recoverable(o, base)
    requires forall i :: 0 <= i < |done| ==> done[i].WriteFile? && done[i].path in base.files
    ensures Truthful(o, Replay(base, done))
    ensures Recoverable(o, Replay(base, done))
       <==> forall p :: p in o && LastWrite(done, p).Some? ==> LastWrite(done, p).value == o[p] || Journalled(base, p)
  {
    hide Journalled, Journals;
    var r := Replay(base, done);
    RewritesLeave(base, done);
    JournalsAlike(base, r);
  }

  lemma PartHealsExactly(orig: map<Path, Bytes>, d: Disk, team: Team, schedule: seq<nat>, parts: seq<Option<Op>>,
        w: nat)
    requires Starts(orig, d, team) && Schedules(team, schedule) && InFlight(team, schedule, parts) && w < |parts|
    requires forall v :: 0 <= v < |parts| && parts[v].Some? ==> OpOwned(parts[v].value, v, team.owns[v])
    ensures var o, view := Restrict(orig, team.owns[w]),
          View(Freeze(Replay(d, Merge(team, schedule)), parts), w, team.owns[w]);
      && Taken(schedule, w) <= |team.logs[w]|
      && Truthful(o, view)
      && (Recoverable(o, view) <==> Harmless(orig, d, team, schedule, parts, w))
  {
    hide DisciplinedRun, GuardedRun, Harmless, View, Restrict, Recoverable, Truthful, OnlyRewrites;
    var own, log, k, cut := team.owns[w], team.logs[w], Taken(schedule, w), team.cuts[w];
    var o, start := Restrict(orig, own), View(d, w, own);
    assert WorkerRun(orig, d, w, own, log, cut);
    FreezeSeen(Replay(d, Merge(team, schedule)), team.owns, parts, w);
    SeesOnlyItself(orig, d, team, schedule, w);
    StartsRecoverable(orig, d, own, w);
    if k < cut {
      EarlyPartHeals(o, start, log[..cut], k, if parts[w].Some? then Some(parts[w].value) else None);
      assert log[..cut][..k] == log[..k];
      EarlyHarmless(orig, d, team, schedule, parts, w);
    } else {
      RunStaysRecoverable(o, start, log[..cut]);
      LatePart(orig, d, team, schedule, parts, w);
    }
  }

  lemma StartsRecoverable(orig: map<Path, Bytes>, d: Disk, own: set<Path>, w: nat)
    requires d.files == orig && d.markers == map[]
    ensures Recoverable(Restrict(orig, own), View(d, w, own))
  {
    assert View(d, w, own).files == Restrict(orig, own);
  }

  lemma EarlyHarmless(orig: map<Path, Bytes>, d: Disk, team: Team, schedule: seq<nat>, parts: seq<Option<Op>>, w: nat)
    requires w < |parts| && w < |team.logs| && w < |team.cuts| && w < |team.owns|
    requires Taken(schedule, w) <= |team.logs[w]| && Taken(schedule, w) < team.cuts[w]
    ensures Harmless(orig, d, team, schedule, parts, w)
  {
  }

  /** Up to the cut every op is journalled, so a kill there strands nothing. */
  lemma EarlyPartHeals(o: map<Path, Bytes>, start: Disk, log: seq<Op>, k: nat, part: Option<Op>)
    requires Recoverable(o, start) && DisciplinedRun(o, start, log) && GuardedRun(start, log) && k < |log|
    requires part.Some? ==> Partial(log[k], part.value)
    ensures var now := Replay(start, log[..k]);
            var left := if part.Some? then Apply(now, part.value) else now;
            Truthful(o, left) && Recoverable(o, left)
  {
    var now := Replay(start, log[..k]);
    if part.Some? {
      PartialInterrupts(log[k], part.value, now);
      KillAnywhere(o, start, log, k, Apply(now, part.value));
      GuardedAt(start, log, k);
    } else {
      PrefixDisciplined(o, start, log, k);
      RunStaysRecoverable(o, start, log[..k]);
    }
  }

  lemma PartialInterrupts(op: Op, part: Op, d: Disk)
    requires Partial(op, part)
    ensures Interrupted(d, op, Apply(d, part))
  {
  }

  lemma LatePart(orig: map<Path, Bytes>, d: Disk, team: Team, schedule: seq<nat>, parts: seq<Option<Op>>, w: nat)
    requires InFlight(team, schedule, parts) && w < |parts| && |team.owns| == |team.cuts|
    requires WorkerRun(orig, d, w, team.owns[w], team.logs[w], team.cuts[w])
    requires team.cuts[w] <= Taken(schedule, w) <= |team.logs[w]|
    requires Recoverable(Restrict(orig, team.owns[w]), Replay(View(d, w, team.owns[w]), team.logs[w][..team.cuts[w]]))
    requires parts[w].Some? ==> OpOwned(parts[w].value, w, team.owns[w])
    ensures var now := Replay(View(d, w, team.owns[w]), team.logs[w][..Taken(schedule, w)]);
            var view := if parts[w].Some? then Apply(now, parts[w].value) else now;
            var o := Restrict(orig, team.owns[w]);
            Truthful(o, view) && (Recoverable(o, view) <==> Harmless(orig, d, team, schedule, parts, w))
  {
    hide Recoverable, Truthful, DisciplinedRun, GuardedRun, LastWrite, Journalled, Partial, View, OpOwned;
    var own, log, k, cut := team.owns[w], team.logs[w], Taken(schedule, w), team.cuts[w];
    var o, start := Restrict(orig, own), View(d, w, own);
    var base, run := Replay(start, log[..cut]), log[cut..k];
    var done := FinalRewrites(team, schedule, parts, w);
    BaseFiles(o, base);
    assert log[..k] == log[..cut] + run;
    ReplayJoin(start, log[..cut], run);
    AllRewrites(orig, d, team, schedule, parts, w);
    if parts[w].Some? {
      SnocParts(run, parts[w].value);
    } else {
      assert done == run;
    }
    RewritesHealIff(o, base, done);
    RewritesLeave(base, run) by {
      assert forall i :: 0 <= i < |run| ==> run[i] == done[i];
    }
    JournalsAlike(base, Replay(base, run));
  }

  lemma AllRewrites(orig: map<Path, Bytes>, d: Disk, team: Team, schedule: seq<nat>, parts: seq<Option<Op>>, w: nat)
    requires InFlight(team, schedule, parts) && w < |parts| && |team.owns| == |team.cuts|
    requires WorkerRun(orig, d, w, team.owns[w], team.logs[w], team.cuts[w])
    requires team.cuts[w] <= Taken(schedule, w) <= |team.logs[w]|
    requires parts[w].Some? ==> OpOwned(parts[w].value, w, team.owns[w])
    ensures forall i :: 0 <= i < |FinalRewrites(team, schedule, parts, w)| ==>
      && FinalRewrites(team, schedule, parts, w)[i].WriteFile?
      && FinalRewrites(team, schedule, parts, w)[i].path in Restrict(orig, team.owns[w])
  {
    hide DisciplinedRun, GuardedRun;
    var log, k, cut := team.logs[w], Taken(schedule, w), team.cuts[w];
    var done := FinalRewrites(team, schedule, parts, w);
    forall i | 0 <= i < |done|
      ensures done[i].WriteFile? && done[i].path in team.owns[w]
    {
      if i < k - cut {
        assert done[i] == log[cut + i];
        assert OpOwned(log[cut + i], w, team.owns[w]);
      } else {
        assert log[k].WriteFile?;
      }
    }
  }

  lemma BaseFiles(o: map<Path, Bytes>, base: Disk)
    requires Recoverable(o, base)
    ensures base.files.Keys == o.Keys
  {
  }

  lemma PrefixDisciplined(orig: map<Path, Bytes>, d: Disk, log: seq<Op>, k: nat)
    requires DisciplinedRun(orig, d, log) && k <= |log|
    ensures DisciplinedRun(orig, d, log[..k])
  {
    if k < |log| {
      DisciplinedAt(orig, d, log, k);
    } else {
      assert log[..k] == log;
    }
  }

  /** Crash safety of the whole sweep. Kill it anywhere, under any interleaving, with
      any number of workers caught inside a write and any of their writes failed before: a
      later recovery puts every file back exactly when no final, unjournalled rewrite left
      wrong bytes on disk, torn by the kill or by a write error. */
  lemma KilledSweepHealsExactly(orig: map<Path, Bytes>, d: Disk, team: Team, schedule: seq<nat>, parts: seq<Option<Op>>,
                                order: seq<Token>)
    requires Starts(orig, d, team) && Schedules(team, schedule) && InFlight(team, schedule, parts)
    requires forall t :: t in Freeze(Replay(d, Merge(team, schedule)), parts).markers ==> t in order
    ensures forall w :: 0 <= w < |parts| ==> Taken(schedule, w) <= |team.logs[w]|
    ensures RecoverAll(Freeze(Replay(d, Merge(team, schedule)), parts), order, {}).files == orig
       <==> forall w :: 0 <= w < |parts| ==> Harmless(orig, d, team, schedule, parts, w)
  {
    var now := Replay(d, Merge(team, schedule));
    var left := Freeze(now, parts);
    forall v | 0 <= v < |parts|
      ensures team.owns[v] <= orig.Keys
      ensures parts[v].Some? ==> OpOwned(parts[v].value, v, team.owns[v])
    {
      assert WorkerRun(orig, d, v, team.owns[v], team.logs[v], team.cuts[v]);
      if parts[v].Some? {
        PartialOwned(team.logs[v][Taken(schedule, v)], parts[v].value, v, team.owns[v]);
      }
    }
    FilesStay(orig, d, team, schedule);
    MarkersNameOwn(orig, d, team, schedule);
    FreezeKeepsOutside(orig, now, team.owns, parts);
    forall p | p in orig && forall v :: 0 <= v < |team.owns| ==> p !in team.owns[v]
      ensures left.files[p] == orig[p]
    {
      UnownedUntouched(orig, d, team, schedule, p);
    }
    forall v | 0 <= v < |parts|
      ensures Taken(schedule, v) <= |team.logs[v]|
      ensures Truthful(Restrict(orig, team.owns[v]), View(left, v, team.owns[v]))
      ensures Recoverable(Restrict(orig, team.owns[v]), View(left, v, team.owns[v]))
         <==> Harmless(orig, d, team, schedule, parts, v)
    {
      PartHealsExactly(orig, d, team, schedule, parts, v);
    }
    RecoverableByParts(orig, left, team.owns);
    RecoveryRestoresIff(orig, left, order);
  }

  /** A kill strands no file while every worker it catches inside an op is short of its final
      rewrites, if no worker past them wrote wrong bytes. */
  lemma KillBeforeRewritesHeals(orig: map<Path, Bytes>, d: Disk, team: Team, schedule: seq<nat>, parts: seq<Option<Op>>,
                                order: seq<Token>)
    requires Starts(orig, d, team) && Schedules(team, schedule) && InFlight(team, schedule, parts)
    requires forall w :: 0 <= w < |parts| && Taken(schedule, w) >= team.cuts[w] ==>
      && parts[w].None?
      && DisciplinedRun(Restrict(orig, team.owns[w]), View(d, w, team.owns[w]), team.logs[w])
    requires forall t :: t in Freeze(Replay(d, Merge(team, schedule)), parts).markers ==> t in order
    ensures RecoverAll(Freeze(Replay(d, Merge(team, schedule)), parts), order, {}).files == orig
  {
    forall v | 0 <= v < |parts| && parts[v].Some?
      ensures OpOwned(parts[v].value, v, team.owns[v])
    {
      assert WorkerRun(orig, d, v, team.owns[v], team.logs[v], team.cuts[v]);
      PartialOwned(team.logs[v][Taken(schedule, v)], parts[v].value, v, team.owns[v]);
    }
    KilledSweepHealsExactly(orig, d, team, schedule, parts, order);
    forall w | 0 <= w < |parts|
      ensures Harmless(orig, d, team, schedule, parts, w)
    {
      if Taken(schedule, w) >= team.cuts[w] {
        FinishedPartHeals(orig, d, team, schedule, parts, w);
      }
    }
  }

  lemma FinishedPartHeals(orig: map<Path, Bytes>, d: Disk, team: Team, schedule: seq<nat>, parts: seq<Option<Op>>,
        w: nat)
    requires Starts(orig, d, team) && Schedules(team, schedule) && InFlight(team, schedule, parts) && w < |parts|
    requires forall v :: 0 <= v < |parts| && parts[v].Some? ==> OpOwned(parts[v].value, v, team.owns[v])
    requires parts[w].None?
    requires DisciplinedRun(Restrict(orig, team.owns[w]), View(d, w, team.owns[w]), team.logs[w])
    ensures Taken(schedule, w) <= |team.logs[w]| && Harmless(orig, d, team, schedule, parts, w)
  {
    hide Harmless;
    var own, log, k := team.owns[w], team.logs[w], Taken(schedule, w);
    var o, start := Restrict(orig, own), View(d, w, own);
    PartHealsExactly(orig, d, team, schedule, parts, w);
    FreezeSeen(Replay(d, Merge(team, schedule)), team.owns, parts, w);
    SeesOnlyItself(orig, d, team, schedule, w);
    assert start.files == o && Recoverable(o, start);
    PrefixDisciplined(o, start, log, k);
    RunStaysRecoverable(o, start, log[..k]);
  }

  // ----- totals

  function Plus(a: Counts, b: Counts): Counts {
    Counts(a.killed + b.killed, a.survived + b.survived, a.discarded + b.discarded, a.lines + b.lines)
  }

  /** The report in package order. */
  function Total(results: seq<Counts>): Counts {
    if results == [] then Counts(0, 0, 0, [])
    else Plus(Total(results[..|results| - 1]), results[|results| - 1])
  }

  function Sites(queues: seq<seq<Job>>): nat {
    if queues == [] then 0 else Sites(queues[..|queues| - 1]) + |queues[|queues| - 1]|
  }

  /** Conservation in one package: every queued site is counted once, and exactly the
      survivors are reported, in queue order. */
  lemma {:induction false} TallyCountsEverySite(jobs: seq<Job>)
    requires forall j :: j in jobs ==> Completes(j)
    ensures var c := Tally(jobs);
      c.killed + c.survived + c.discarded == |jobs| && |c.lines| == c.survived
  {
    if jobs != [] {
      TallyCountsEverySite(jobs[..|jobs| - 1]);
      assert Completes(jobs[|jobs| - 1]);
    }
  }

  lemma {:induction false} TotalCountsEverySite(queues: seq<seq<Job>>, results: seq<Counts>)
    requires |queues| == |results|
    requires forall i :: 0 <= i < |queues| ==> forall j :: j in queues[i] ==> Completes(j)
    requires forall i :: 0 <= i < |queues| ==> results[i] == Tally(queues[i])
    ensures var c := Total(results);
      c.killed + c.survived + c.discarded == Sites(queues) && |c.lines| == c.survived
  {
    if queues != [] {
      var n := |queues| - 1;
      TotalCountsEverySite(queues[..n], results[..n]);
      TallyCountsEverySite(queues[n]);
    }
  }

  function SumBy(results: seq<Counts>, field: Counts -> nat): nat {
    if results == [] then 0 else SumBy(results[..|results| - 1], field) + field(results[|results| - 1])
  }

  /** Each total is the sum of that count over the packages, and the lines stand in package
      order, whole reports one after another. */
  lemma {:induction false} TotalIsSum(results: seq<Counts>, more: seq<Counts>)
    ensures Total(results).killed == SumBy(results, (c: Counts) => c.killed)
    ensures Total(results).survived == SumBy(results, (c: Counts) => c.survived)
    ensures Total(results).discarded == SumBy(results, (c: Counts) => c.discarded)
    ensures Total(results + more).lines == Total(results).lines + Total(more).lines
    ensures |results| == 1 ==> Total(results).lines == results[0].lines
    decreases |results| + |more|
  {
    if results != [] {
      TotalIsSum(results[..|results| - 1], []);
    }
    if |results| == 1 {
      assert results[..0] == [];
    }
    if more == [] {
      assert results + more == results;
    } else {
      TotalIsSum(results, more[..|more| - 1]);
      TotalSnoc(results, more);
    }
  }

  lemma TotalSnoc(results: seq<Counts>, more: seq<Counts>)
    requires more != []
    ensures Total(results + more).lines
         == Total(results + more[..|more| - 1]).lines + more[|more| - 1].lines
    ensures Total(more).lines == Total(more[..|more| - 1]).lines + more[|more| - 1].lines
  {
    assert (results + more)[..|results + more| - 1] == results + more[..|more| - 1];
  }

  /** Collects the workers' results as they complete, in any order, then adds them up
      and reports them in package order: the outcome does not depend on who finished
      first. */
  method CollectResults(outcomes: seq<Counts>, completion: seq<nat>) returns (total: Counts, failed: bool)
    requires |completion| == |outcomes|
    requires forall i :: 0 <= i < |outcomes| ==> i in completion
    requires forall i :: 0 <= i < |completion| ==> completion[i] < |outcomes|
    ensures total == Total(outcomes)
    ensures failed <==> exists i :: 0 <= i < |outcomes| && outcomes[i].survived > 0
  {
    var results := new Option<Counts>[|outcomes|](_ => None);
    for i := 0 to |completion|
      invariant forall k :: 0 <= k < |outcomes| && k in completion[..i] ==> results[k] == Some(outcomes[k])
    {
      results[completion[i]] := Some(outcomes[completion[i]]);
      assert completion[..i + 1] == completion[..i] + [completion[i]];
    }
    assert completion[..|completion|] == completion;
    total, failed := Counts(0, 0, 0, []), false;
    for i := 0 to results.Length
      invariant forall k :: 0 <= k < |outcomes| ==> results[k] == Some(outcomes[k])
      invariant total == Total(outcomes[..i])
      invariant failed <==> exists k :: 0 <= k < i && outcomes[k].survived > 0
    {
      var r := results[i].value;
      assert outcomes[..i + 1][..i] == outcomes[..i];
      total := Plus(total, r);
      if r.survived > 0 {
        failed := true;
      }
    }
    assert outcomes[..|outcomes|] == outcomes;
  }
}
