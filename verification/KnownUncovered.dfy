/** The coverage gate's accepted residue (scripts/diff_coverage.py): which lines a
    policy excuses, in tip coordinates, when the change itself may edit the policy. */
module KnownUncovered {
  import opened Basics
  import opened DiffLines

  datatype Entry = Entry(lines: set<int>, reason: string)

  /** The parsed policy. An entry with no lines or no reason is dropped by the parser. */
  type Policy = map<string, Entry>

  function Approved(policy: Policy, path: string): set<int> {
    if path in policy then policy[path].lines else {}
  }

  /** Where the approved base lines went: `map_line` on each, the lost ones left out. */
  function Carried(hunks: seq<Hunk>, lines: set<int>): set<int> {
    set n | n in lines && Resolve(hunks, n, 0).Some? :: Resolve(hunks, n, 0).value
  }

  ghost function Honoured(current: Policy, base: Policy, hunks: map<string, seq<Hunk>>, cached: bool,
        path: string): set<int>
    requires path in current && path in hunks
  {
    var carried := Carried(hunks[path], Approved(base, path));
    if cached then carried else carried + current[path].lines
  }

  /** What the gate judges: the working tree with the policy found on disk (none when the file
      is missing), or a change, staged against HEAD (the enforcing mode) or a committed range. */
  datatype Mode = OnDisk(policy: Policy) | Staged | Range

  /** The excused lines per path, and the entries this change adds. */
  method LoadKnownUncovered(mode: Mode, current: Policy, base: Policy, order: seq<string>,
                             hunks: map<string, seq<Hunk>>)
    returns (honoured: Policy, newly: seq<(string, set<int>)>)
    requires forall p :: p in order <==> p in current
    requires forall i, j :: 0 <= i < j < |order| ==> order[i] != order[j]
    requires forall p :: p in current ==> p in hunks
    ensures mode.OnDisk? ==> honoured == mode.policy && newly == []
    ensures !mode.OnDisk? ==>
      forall p :: p in honoured <==> p in current && Honoured(current, base, hunks, mode.Staged?, p) != {}
    ensures !mode.OnDisk? ==>
      forall p :: p in honoured ==>
            honoured[p] == Entry(Honoured(current, base, hunks, mode.Staged?, p), current[p].reason)
    ensures !mode.OnDisk? ==>
      forall p, a ::
        (p, a) in newly <==> p in current && a == current[p].lines - Carried(hunks[p], Approved(base, p)) && a != {}
  {
    if mode.OnDisk? {
      return mode.policy, [];
    }
    var cached := mode.Staged?;
    honoured, newly := map[], [];
    for i := 0 to |order|
      invariant forall p :: p in honoured <==> p in order[..i] && Honoured(current, base, hunks, cached, p) != {}
      invariant forall p :: p in honoured ==>
                  honoured[p] == Entry(Honoured(current, base, hunks, cached, p), current[p].reason)
      invariant forall p, a ::
        (p, a) in newly <==>
          p in order[..i] && a == current[p].lines - Carried(hunks[p], Approved(base, p)) && a != {}
    {
      var path := order[i];
      assert order[..i + 1] == order[..i] + [path];
      var carried := Carried(hunks[path], Approved(base, path));
      var added := current[path].lines - carried;
      var keep := if cached then carried else carried + current[path].lines;
      if keep != {} {
        honoured := honoured[path := Entry(keep, current[path].reason)];
      }
      if added != {} {
        newly := newly + [(path, added)];
      }
    }
    assert order[..|order|] == order;
  }

  /** In the enforcing mode every honoured line was approved at HEAD; it is one of the
      change's own added lines exactly when the approved line is an anchor of one of
      the change's pure insertions. */
  lemma HonouredLineOrigin<T>(text: seq<T>, edits: seq<Edit<T>>, current: Policy, base: Policy,
                              hunks: map<string, seq<Hunk>>, path: string, m: int) returns (n: int)
    requires path in current && path in hunks && Ascending(text, edits, 0) && hunks[path] == Headers(edits, 0)
    requires m in Honoured(current, base, hunks, true, path)
    ensures n in Approved(base, path) && Resolve(hunks[path], n, 0) == Some(m)
    ensures Added(hunks[path], m) <==> IsAnchor(edits, n)
  {
    n :| n in Approved(base, path) && Resolve(hunks[path], n, 0) == Some(m);
    CarriedOntoAddedIffAnchor(text, edits, n);
  }

  /** Which lines are honoured, in both modes of a change: where `map_line` takes a line approved
      at the base, and in a committed range the tip policy's own lines too. */
  lemma HonouredExactly(current: Policy, base: Policy, hunks: map<string, seq<Hunk>>, cached: bool, path: string,
                        m: int)
    requires path in current && path in hunks
    ensures m in Honoured(current, base, hunks, cached, path) <==>
      || (!cached && m in current[path].lines)
      || (path in base && exists n :: n in base[path].lines && Resolve(hunks[path], n, 0) == Some(m))
  {
  }

  /** No self-approval, exactly: a staged change gets one of its own added lines excused
      if and only if it inserts right after a surviving line approved at HEAD. */
  lemma SelfApprovalIffAnchored<T>(text: seq<T>, edits: seq<Edit<T>>, current: Policy, base: Policy,
                                   hunks: map<string, seq<Hunk>>, path: string)
    requires path in current && path in hunks && Ascending(text, edits, 0) && hunks[path] == Headers(edits, 0)
    ensures (exists m :: m in Honoured(current, base, hunks, true, path) && Added(hunks[path], m))
       <==> (exists n :: n in Approved(base, path) && IsAnchor(edits, n) && !Deleted(edits, n - 1))
  {
    if m :| m in Honoured(current, base, hunks, true, path) && Added(hunks[path], m) {
      var n := HonouredLineOrigin(text, edits, current, base, hunks, path, m);
      ResolveIsTruePlusInserted(text, edits, 0, 0, n);
      LostIffDeleted(text, edits, 0, 0, n - 1);
    }
    if n :| n in Approved(base, path) && IsAnchor(edits, n) && !Deleted(edits, n - 1) {
      ResolveIsTruePlusInserted(text, edits, 0, 0, n);
      LostIffDeleted(text, edits, 0, 0, n - 1);
      CarriedOntoAddedIffAnchor(text, edits, n);
      var m := Resolve(hunks[path], n, 0).value;
      assert m in Honoured(current, base, hunks, true, path);
    }
  }

  datatype Finding = Finding(path: string, line: int)

  /** The findings no policy line accepts, in order: the gate passes when none is left. */
  method Remaining(findings: seq<Finding>, known: Policy) returns (remaining: seq<Finding>)
    ensures remaining == Unaccepted(findings, known)
  {
    remaining := [];
    for i := 0 to |findings|
      invariant remaining == Unaccepted(findings[..i], known)
    {
      assert findings[..i + 1][..i] == findings[..i];
      if !Accepted(findings[i], known) {
        remaining := remaining + [findings[i]];
      }
    }
    assert findings[..|findings|] == findings;
  }

  predicate Accepted(f: Finding, known: Policy) {
    f.path in known && f.line in known[f.path].lines
  }

  function Unaccepted(findings: seq<Finding>, known: Policy): seq<Finding> {
    if findings == [] then []
    else
      var last := findings[|findings| - 1];
      Unaccepted(findings[..|findings| - 1], known) + (if Accepted(last, known) then [] else [last])
  }

  lemma OneFinding(f: Finding, known: Policy)
    ensures Unaccepted([f], known) == if f.path in known && f.line in known[f.path].lines then [] else [f]
  {
    assert [f][..0] == [];
  }

  /** A finding is dropped exactly when its path's policy lists its line; the rest keep their
      order and number. */
  lemma {:induction false} RemainingExactly(a: seq<Finding>, b: seq<Finding>, known: Policy)
    ensures Unaccepted(a + b, known) == Unaccepted(a, known) + Unaccepted(b, known)
    ensures |a| == 1 ==>
      Unaccepted(a, known) == if a[0].path in known && a[0].line in known[a[0].path].lines then [] else a
    decreases |b|
  {
    if |a| == 1 {
      OneFinding(a[0], known);
      assert a == [a[0]];
    }
    hide Accepted;
    if b == [] {
      assert a + b == a;
    } else {
      RemainingExactly(a, b[..|b| - 1], known);
      assert (a + b)[..|a + b| - 1] == a + b[..|b| - 1];
    }
  }

  lemma {:induction false} NoneAccepted(findings: seq<Finding>, known: Policy)
    requires forall f :: f in findings ==> !Accepted(f, known)
    ensures Unaccepted(findings, known) == findings
  {
    if findings != [] {
      var before, last := findings[..|findings| - 1], findings[|findings| - 1];
      NoneAccepted(before, known);
      assert last in findings && before + [last] == findings;
    }
  }

  /** One path as the staged gate sees it: its text at HEAD and the change's edits. */
  datatype Change = Change(text: seq<string>, edits: seq<Edit<string>>)

  ghost predicate Describes(c: Change, hunks: seq<Hunk>) {
    Ascending(c.text, c.edits, 0) && hunks == Headers(c.edits, 0)
  }

  /** The staged gate examines added lines only, so the policy can excuse a finding only
      through an insertion anchor: without one, every finding stands. */
  lemma StagedGateExcusesOnlyAtAnchors(findings: seq<Finding>, known: Policy, current: Policy, base: Policy,
                                       hunks: map<string, seq<Hunk>>, changes: map<string, Change>)
    requires forall p :: p in current ==> p in hunks && p in changes && Describes(changes[p], hunks[p])
    requires forall p :: p in known ==> p in current && known[p].lines == Honoured(current, base, hunks, true, p)
    requires forall f :: f in findings && f.path in current ==> Added(hunks[f.path], f.line)
    requires forall p, n :: p in current && n in Approved(base, p) ==> !IsAnchor(changes[p].edits, n)
    ensures Unaccepted(findings, known) == findings
  {
    forall f | f in findings
      ensures !Accepted(f, known)
    {
      if Accepted(f, known) {
        var c := changes[f.path];
        var n := HonouredLineOrigin(c.text, c.edits, current, base, hunks, f.path, f.line);
        assert false;
      }
    }
    NoneAccepted(findings, known);
  }
}
