/** The disk a mutation sweep works on: the mutated source files and the crash
    journal (`<token>.bak` and `<token>.json`) that lets a later process put a
    killed sweep's files back (scripts/check_mutation.py).

    Every change to the disk is one `Op`. A kill can land between two ops or
    inside one; `Interrupted` lists what it may leave. The whole argument is
    local: an op that is `Disciplined` keeps the disk `Recoverable`, and a
    recoverable disk is one from which recovery restores every file. */
module Journal {
  import opened Basics

  type Bytes = seq<Byte>
  type Path = string

  /** A journal token. The source draws a random UUID; the pair (process, serial)
      stands for the only fact used about it, that no two calls share one. */
  datatype Token = Token(owner: nat, serial: nat)

  /** What `<token>.json` holds: the path it names, or text that does not parse.
      A proper prefix of a JSON object never parses, so a torn marker is Unreadable. */
  datatype Marker = Naming(path: Path) | Unreadable

  datatype Disk = Disk(files: map<Path, Bytes>, baks: map<Token, Bytes>, markers: map<Token, Marker>)

  datatype Op =
    | WriteFile(path: Path, data: Bytes)
    | WriteBak(token: Token, data: Bytes)
    | WriteMarker(token: Token, marker: Marker)
    | DropBak(token: Token)
    | DropMarker(token: Token)

  function Apply(d: Disk, op: Op): Disk {
    match op
    case WriteFile(p, data) => d.(files := d.files[p := data])
    case WriteBak(t, data) => d.(baks := d.baks[t := data])
    case WriteMarker(t, m) => d.(markers := d.markers[t := m])
    case DropBak(t) => d.(baks := d.baks - {t})
    case DropMarker(t) => d.(markers := d.markers - {t})
  }

  /** The disks a kill inside `op` may leave. A file opened for writing is first
      emptied, so any prefix of the new bytes can be what is there. */
  ghost predicate Interrupted(d: Disk, op: Op, left: Disk) {
    match op
    case WriteFile(p, data) => left == d || exists k :: 0 <= k <= |data| && left == d.(files := d.files[p := data[..k]])
    case WriteBak(t, data) => left == d || exists k :: 0 <= k <= |data| && left == d.(baks := d.baks[t := data[..k]])
    case WriteMarker(t, m) => left == d || left == d.(markers := d.markers[t := Unreadable]) || left == Apply(d, op)
    case DropBak(_) => left == d || left == Apply(d, op)
    case DropMarker(_) => left == d || left == Apply(d, op)
  }

  // ----- what the journal promises

  /** Entry `t` is complete and names `p`. */
  ghost predicate Journals(d: Disk, t: Token, p: Path) {
    t in d.markers && d.markers[t] == Naming(p) && t in d.baks
  }

  ghost predicate Journalled(d: Disk, p: Path) {
    exists t :: Journals(d, t, p)
  }

  /** No complete entry lies about the bytes its file had before the sweep. */
  ghost predicate Truthful(orig: map<Path, Bytes>, d: Disk) {
    forall t, p :: Journals(d, t, p) && p in orig ==> d.baks[t] == orig[p]
  }

  /** Every file is at its pre-sweep bytes or has a complete, truthful entry. */
  ghost predicate Recoverable(orig: map<Path, Bytes>, d: Disk) {
    && d.files.Keys == orig.Keys
    && Truthful(orig, d)
    && forall p :: p in orig ==> d.files[p] == orig[p] || Journalled(d, p)
  }

  /** Entry `t` protects nothing any more: dropping half of it is harmless. */
  ghost predicate Spent(orig: map<Path, Bytes>, d: Disk, t: Token) {
    forall p :: Journals(d, t, p) && p in orig ==> p in d.files && d.files[p] == orig[p]
  }

  ghost predicate Disciplined(orig: map<Path, Bytes>, d: Disk, op: Op) {
    match op
    case WriteFile(p, data) => p in orig && (data == orig[p] || Journalled(d, p))
    case WriteBak(t, _) => t !in d.markers
    case WriteMarker(t, m) =>
      t !in d.markers && (m.Naming? && t in d.baks && m.path in orig ==> d.baks[t] == orig[m.path])
    case DropBak(t) => Spent(orig, d, t)
    case DropMarker(t) => Spent(orig, d, t)
  }

  /** The op cannot strand a file even when it is cut short. */
  ghost predicate Guarded(d: Disk, op: Op) {
    op.WriteFile? ==> Journalled(d, op.path)
  }

  lemma StepKeepsRecoverable(orig: map<Path, Bytes>, d: Disk, op: Op)
    requires Recoverable(orig, d) && Disciplined(orig, d, op)
    ensures Recoverable(orig, Apply(d, op))
  {
    var e := Apply(d, op);
    forall p | p in orig
      ensures e.files[p] == orig[p] || Journalled(e, p)
    {
      if e.files[p] != orig[p] {
        var t :| Journals(d, t, p);
        assert Journals(e, t, p);
      }
    }
  }

  /** Exactly when a kill inside a step can be healed: always, except inside a
      rewrite of a file that has no journal entry, and there only when the bytes
      the kill left are the wrong ones. */
  lemma KillInsideStep(orig: map<Path, Bytes>, d: Disk, op: Op, left: Disk)
    requires Recoverable(orig, d) && Disciplined(orig, d, op) && Interrupted(d, op, left)
    ensures left.files.Keys == orig.Keys && Truthful(orig, left)
    ensures Recoverable(orig, left) <==> (Guarded(d, op) || left.files[op.path] == orig[op.path])
  {
    if op.WriteFile? {
      if left != d {
        var k :| 0 <= k <= |op.data| && left == d.(files := d.files[op.path := op.data[..k]]);
      }
      assert forall t, p :: Journals(left, t, p) <==> Journals(d, t, p);
      assert Journalled(left, op.path) <==> Journalled(d, op.path);
      forall p | p in orig && p != op.path
        ensures left.files[p] == orig[p] || Journalled(left, p)
      {
        if left.files[p] != orig[p] {
          var t :| Journals(d, t, p);
          assert Journals(left, t, p);
        }
      }
    } else {
      StepKeepsRecoverable(orig, d, op);
      assert forall t, p :: Journals(d, t, p) && op.WriteBak? ==> t != op.token;
      forall p | p in orig
        ensures left.files[p] == orig[p] || Journalled(left, p)
      {
        if left.files[p] != orig[p] {
          var t :| Journals(d, t, p);
          assert Journals(left, t, p);
        }
      }
    }
  }

  // ----- whole runs

  function Init(log: seq<Op>): seq<Op>
    requires log != []
  {
    log[..|log| - 1]
  }

  function Last(log: seq<Op>): Op
    requires log != []
  {
    log[|log| - 1]
  }

  function Replay(d: Disk, log: seq<Op>): Disk {
    if log == [] then d else Apply(Replay(d, Init(log)), Last(log))
  }

  ghost predicate DisciplinedRun(orig: map<Path, Bytes>, d: Disk, log: seq<Op>) {
    log == [] || (DisciplinedRun(orig, d, Init(log)) && Disciplined(orig, Replay(d, Init(log)), Last(log)))
  }

  /** Every file write of the run was covered by a journal entry. */
  ghost predicate GuardedRun(d: Disk, log: seq<Op>) {
    log == [] || (GuardedRun(d, Init(log)) && Guarded(Replay(d, Init(log)), Last(log)))
  }

  lemma SnocParts(log: seq<Op>, op: Op)
    ensures Init(log + [op]) == log && Last(log + [op]) == op
  {
  }

  lemma {:induction false} DisciplinedAt(orig: map<Path, Bytes>, d: Disk, log: seq<Op>, n: nat)
    requires DisciplinedRun(orig, d, log) && n < |log|
    ensures DisciplinedRun(orig, d, log[..n]) && Disciplined(orig, Replay(d, log[..n]), log[n])
    decreases |log|
  {
    if n < |log| - 1 {
      DisciplinedAt(orig, d, Init(log), n);
      assert Init(log)[..n] == log[..n];
    }
  }

  lemma {:induction false} GuardedAt(d: Disk, log: seq<Op>, n: nat)
    requires GuardedRun(d, log) && n < |log|
    ensures GuardedRun(d, log[..n]) && Guarded(Replay(d, log[..n]), log[n])
    decreases |log|
  {
    if n < |log| - 1 {
      GuardedAt(d, Init(log), n);
      assert Init(log)[..n] == log[..n];
    }
  }

  /** Safety over a run: the disk is recoverable after every op. */
  lemma {:induction false} RunStaysRecoverable(orig: map<Path, Bytes>, d: Disk, log: seq<Op>)
    requires Recoverable(orig, d) && DisciplinedRun(orig, d, log)
    ensures Recoverable(orig, Replay(d, log))
  {
    if log != [] {
      RunStaysRecoverable(orig, d, Init(log));
      StepKeepsRecoverable(orig, Replay(d, Init(log)), Last(log));
    }
  }

  /** A process is killed somewhere inside op `n` of its run (between two ops is
      the start of the later one). */
  ghost predicate KilledIn(d: Disk, log: seq<Op>, n: nat, left: Disk) {
    n < |log| && Interrupted(Replay(d, log[..n]), log[n], left)
  }

  lemma KillAnywhere(orig: map<Path, Bytes>, d: Disk, log: seq<Op>, n: nat, left: Disk)
    requires Recoverable(orig, d) && DisciplinedRun(orig, d, log) && KilledIn(d, log, n, left)
    ensures log[n].WriteFile? ==> log[n].path in orig
    ensures left.files.Keys == orig.Keys && Truthful(orig, left)
    ensures Recoverable(orig, left)
       <==> (Guarded(Replay(d, log[..n]), log[n]) || left.files[log[n].path] == orig[log[n].path])
  {
    DisciplinedAt(orig, d, log, n);
    RunStaysRecoverable(orig, d, log[..n]);
    KillInsideStep(orig, Replay(d, log[..n]), log[n], left);
  }

  // ----- recovery

  function DropEntry(d: Disk, t: Token): Disk {
    Apply(Apply(d, DropBak(t)), DropMarker(t))
  }

  /** One pass of recovery's loop body when nothing but the reads in `unreadable`
      fails. An entry that cannot be read is dropped without restoring. */
  function RecoverEntry(d: Disk, t: Token, unreadable: set<Token>): Disk {
    if t in unreadable || t !in d.markers || d.markers[t].Unreadable? || t !in d.baks then
      DropEntry(d, t)
    else
      var p := d.markers[t].path;
      if p in d.files then DropEntry(d.(files := d.files[p := d.baks[t]]), t) else DropEntry(d, t)
  }

  function RecoverAll(d: Disk, order: seq<Token>, unreadable: set<Token>): Disk {
    if order == [] then d
    else RecoverEntry(RecoverAll(d, order[..|order| - 1], unreadable), order[|order| - 1], unreadable)
  }

  /** What a pass over `order` has done: entries met are gone, the rest is as it
      was, and a file was put back exactly when a readable entry met named it. */
  ghost predicate PassDone(orig: map<Path, Bytes>, d: Disk, order: seq<Token>, unreadable: set<Token>, r: Disk) {
    && r.files.Keys == d.files.Keys == orig.Keys
    && r.markers == d.markers - TokensOf(order)
    && r.baks == d.baks - TokensOf(order)
    && forall p :: p in orig ==> r.files[p] == if Restores(d, order, unreadable, p) then orig[p] else d.files[p]
  }

  ghost predicate Restores(d: Disk, order: seq<Token>, unreadable: set<Token>, p: Path) {
    exists t :: t in order && t !in unreadable && Journals(d, t, p)
  }

  function TokensOf(order: seq<Token>): set<Token> {
    set t | t in order
  }

  lemma PassStep(orig: map<Path, Bytes>, d: Disk, order: seq<Token>, unreadable: set<Token>, e: Disk, t: Token)
    requires Truthful(orig, d) && PassDone(orig, d, order, unreadable, e)
    ensures PassDone(orig, d, order + [t], unreadable, RecoverEntry(e, t, unreadable))
  {
    var r := RecoverEntry(e, t, unreadable);
    assert TokensOf(order + [t]) == TokensOf(order) + {t};
    assert r.markers == d.markers - TokensOf(order + [t]);
    assert r.baks == d.baks - TokensOf(order + [t]);
    forall p | p in orig
      ensures r.files[p] == if Restores(d, order + [t], unreadable, p) then orig[p] else d.files[p]
    {
      PassStepFile(orig, d, order, unreadable, e, t, p);
    }
  }

  lemma PassStepFile(orig: map<Path, Bytes>, d: Disk, order: seq<Token>, unreadable: set<Token>, e: Disk, t: Token,
        p: Path)
    requires Truthful(orig, d) && PassDone(orig, d, order, unreadable, e) && p in orig
    ensures p in RecoverEntry(e, t, unreadable).files
    ensures RecoverEntry(e, t, unreadable).files[p]
         == if Restores(d, order + [t], unreadable, p) then orig[p] else d.files[p]
  {
    assert forall u :: u in order + [t] <==> u in order || u == t;
    if Restores(d, order, unreadable, p) {
      var u :| u in order && u !in unreadable && Journals(d, u, p);
      assert u in order + [t];
      assert e.files[p] == orig[p];
      assert Journals(e, t, p) ==> Journals(d, t, p);
    } else if t !in unreadable && Journals(d, t, p) {
      assert t in order + [t];
      assert t !in order;
      assert Journals(e, t, p);
    } else {
      assert !Restores(d, order + [t], unreadable, p);
      assert Journals(e, t, p) ==> Journals(d, t, p);
    }
  }

  lemma {:induction false} RecoverAllEffect(orig: map<Path, Bytes>, d: Disk, order: seq<Token>, unreadable: set<Token>)
    requires d.files.Keys == orig.Keys && Truthful(orig, d)
    ensures PassDone(orig, d, order, unreadable, RecoverAll(d, order, unreadable))
  {
    if order != [] {
      var n := |order| - 1;
      RecoverAllEffect(orig, d, order[..n], unreadable);
      PassStep(orig, d, order[..n], unreadable, RecoverAll(d, order[..n], unreadable), order[n]);
      assert order[..n] + [order[n]] == order;
    } else {
      assert d.markers - TokensOf(order) == d.markers;
      assert d.baks - TokensOf(order) == d.baks;
    }
  }

  /** Recovery over every marker: each file ends at its pre-sweep bytes exactly
      when it was already there or some entry naming it could be read back. */
  lemma RecoveryHealsExactly(orig: map<Path, Bytes>, d: Disk, order: seq<Token>, unreadable: set<Token>, p: Path)
    requires Recoverable(orig, d) && p in orig
    requires forall t :: t in d.markers ==> t in order
    ensures p in RecoverAll(d, order, unreadable).files
    ensures RecoverAll(d, order, unreadable).markers == map[]
    ensures RecoverAll(d, order, unreadable).files[p] == orig[p]
       <==> d.files[p] == orig[p] || exists t :: Journals(d, t, p) && t !in unreadable
  {
    RecoverAllEffect(orig, d, order, unreadable);
    assert forall t :: Journals(d, t, p) ==> t in order;
  }

  /** A recovery whose reads all succeed puts every file back if and only if the disk
      it found was recoverable; either way it leaves no marker behind. */
  lemma RecoveryRestoresIff(orig: map<Path, Bytes>, d: Disk, order: seq<Token>)
    requires d.files.Keys == orig.Keys && Truthful(orig, d)
    requires forall t :: t in d.markers ==> t in order
    ensures RecoverAll(d, order, {}).files == orig <==> Recoverable(orig, d)
    ensures RecoverAll(d, order, {}).markers == map[]
  {
    RecoverAllEffect(orig, d, order, {});
    var r := RecoverAll(d, order, {});
    forall p | p in orig
      ensures r.files[p] == orig[p] <==> d.files[p] == orig[p] || Journalled(d, p)
    {
      if Journalled(d, p) {
        var t :| Journals(d, t, p);
        assert Restores(d, order, {}, p);
      }
    }
    if Recoverable(orig, d) {
      assert r.files == orig;
    }
    assert r.markers == map[];
  }

  /** The last entry of the pass that can be read and names the file. */
  ghost function Healer(d: Disk, order: seq<Token>, unreadable: set<Token>, p: Path): Option<Token> {
    if order == [] then None
    else
      var t := order[|order| - 1];
      if t !in unreadable && Journals(d, t, p) then Some(t) else Healer(d, order[..|order| - 1], unreadable, p)
  }

  predicate Distinct(order: seq<Token>) {
    forall i, j :: 0 <= i < j < |order| ==> order[i] != order[j]
  }

  lemma {:induction false} PassLeaves(d: Disk, order: seq<Token>, unreadable: set<Token>, t: Token)
    requires t !in order
    ensures var r := RecoverAll(d, order, unreadable);
      && r.files.Keys == d.files.Keys
      && (t in r.markers <==> t in d.markers) && (t in d.markers ==> r.markers[t] == d.markers[t])
      && (t in r.baks <==> t in d.baks) && (t in d.baks ==> r.baks[t] == d.baks[t])
  {
    if order != [] {
      assert order[|order| - 1] in order;
      PassLeaves(d, order[..|order| - 1], unreadable, t);
    }
  }

  /** Recovery on any disk at all, entries that disagree included: a file ends with the backup
      of the last readable entry that names it, or as it was. */
  lemma {:induction false} LastEntryWins(d: Disk, order: seq<Token>, unreadable: set<Token>, p: Path)
    requires p in d.files && Distinct(order)
    ensures var r, healer := RecoverAll(d, order, unreadable), Healer(d, order, unreadable, p);
      p in r.files && r.files[p] == if healer.Some? && healer.value in d.baks then d.baks[healer.value] else d.files[p]
    ensures Healer(d, order, unreadable, p).Some? ==> Journals(d, Healer(d, order, unreadable, p).value, p)
  {
    if order != [] {
      var n := |order| - 1;
      assert order[n] !in order[..n] by {
        assert forall i :: 0 <= i < n ==> order[..n][i] == order[i];
      }
      LastEntryWins(d, order[..n], unreadable, p);
      PassLeaves(d, order[..n], unreadable, order[n]);
    }
  }

  /** One process that was killed: what it had done, and what the kill left. */
  datatype Session = Session(log: seq<Op>, at: nat, left: Disk)

  /** The disk after a string of killed processes, each started on what the one
      before it left, each killed inside a journalled step. */
  ghost predicate Killings(orig: map<Path, Bytes>, d: Disk, sessions: seq<Session>, left: Disk)
    decreases |sessions|
  {
    if sessions == [] then left == d
    else
      var s := sessions[0];
      && DisciplinedRun(orig, d, s.log) && KilledIn(d, s.log, s.at, s.left)
      && Guarded(Replay(d, s.log[..s.at]), s.log[s.at])
      && Killings(orig, s.left, sessions[1..], left)
  }

  /** Recovery may itself be killed and restarted any number of times. */
  lemma {:induction false} RestartsStayRecoverable(orig: map<Path, Bytes>, d: Disk, sessions: seq<Session>, left: Disk)
    requires Recoverable(orig, d) && Killings(orig, d, sessions, left)
    ensures Recoverable(orig, left)
    decreases |sessions|
  {
    if sessions != [] {
      var s := sessions[0];
      KillAnywhere(orig, d, s.log, s.at, s.left);
      RestartsStayRecoverable(orig, s.left, sessions[1..], left);
    }
  }

  /** However often recovery is killed, the one that finishes restores everything. */
  lemma RestartedRecoveryHeals(orig: map<Path, Bytes>, d: Disk, sessions: seq<Session>, left: Disk, order: seq<Token>)
    requires Recoverable(orig, d) && Killings(orig, d, sessions, left)
    requires forall t :: t in left.markers ==> t in order
    ensures RecoverAll(left, order, {}).files == orig && RecoverAll(left, order, {}).markers == map[]
  {
    RestartsStayRecoverable(orig, d, sessions, left);
    RecoveryRestoresIff(orig, left, order);
  }

  // ----- where the promise stops

  /** A sweep that only has its final rewrite left, killed while the file is open:
      the file is empty, no entry names it, and recovery leaves it empty. */
  lemma TornRewriteStrandsFile()
    ensures
      var orig: map<Path, Bytes> := map["a.go" := [1]];
      var start := Disk(orig, map[], map[]);
      var left := start.(files := map["a.go" := []]);
      && Recoverable(orig, start) && DisciplinedRun(orig, start, [WriteFile("a.go", [1])])
      && KilledIn(start, [WriteFile("a.go", [1])], 0, left)
      && RecoverAll(left, [], {}).files != orig
  {
    var orig: map<Path, Bytes> := map["a.go" := [1]];
    var start := Disk(orig, map[], map[]);
    var log := [WriteFile("a.go", [1])];
    assert Init(log) == [] && log[..0] == [];
    var left := start.(files := start.files["a.go" := log[0].data[..0]]);
    assert Interrupted(start, log[0], left);
    assert left.files["a.go"] == [];
  }

  /** A journal read that fails once, on a good entry, strands the mutant for good:
      the entry is dropped without restoring. */
  lemma FailedReadStrandsMutant(t: Token)
    ensures
      var orig: map<Path, Bytes> := map["a.go" := [1]];
      var left := Disk(map["a.go" := [2]], map[t := [1]], map[t := Naming("a.go")]);
      && Recoverable(orig, left)
      && RecoverAll(left, [t], {t}) == Disk(map["a.go" := [2]], map[], map[])
  {
    var left := Disk(map["a.go" := [2]], map[t := [1]], map[t := Naming("a.go")]);
    assert Journals(left, t, "a.go");
    assert [t][..0] == [];
    assert DropEntry(left, t).baks == map[] && DropEntry(left, t).markers == map[];
  }
}
