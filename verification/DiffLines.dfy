/** Line numbers through `git diff -U0` hunks (scripts/diff_coverage.py): base lines to
    tip lines by `map_line`, and the tip's own changed lines by `changed_lines`. The
    reference is text replacement: a list of edits turns the base into the tip, and
    git prints one hunk header per edit. */
module DiffLines {
  import opened Basics

  datatype Hunk = Hunk(oldStart: int, oldLen: int, newStart: int, newLen: int)

  // ----- the source's two loops

  /** Resolves one base line, or None when it did not survive. */
  method MapLine(hunks: seq<Hunk>, line: int) returns (r: Option<int>)
    ensures r == Resolve(hunks, line, 0)
  {
    var offset := 0;
    var i := 0;
    while i < |hunks|
      invariant 0 <= i <= |hunks|
      invariant Resolve(hunks, line, 0) == Resolve(hunks[i..], line, offset)
    {
      var h := hunks[i];
      assert hunks[i..][1..] == hunks[i + 1..];
      if line < h.oldStart {
        break;
      }
      if line < h.oldStart + h.oldLen {
        return None;
      }
      offset := offset + h.newLen - h.oldLen;
      i := i + 1;
    }
    return Some(line + offset);
  }

  function Resolve(hunks: seq<Hunk>, line: int, offset: int): Option<int> {
    if hunks == [] || line < hunks[0].oldStart then Some(line + offset)
    else if line < hunks[0].oldStart + hunks[0].oldLen then None
    else Resolve(hunks[1..], line, offset + hunks[0].newLen - hunks[0].oldLen)
  }

  method ChangedLines(hunks: seq<Hunk>) returns (lines: set<int>)
    ensures forall m :: m in lines <==> Added(hunks, m)
  {
    lines := {};
    for i := 0 to |hunks|
      invariant forall m :: m in lines <==> exists j :: 0 <= j < i && InNewSide(hunks[j], m)
    {
      var start, count := hunks[i].newStart, hunks[i].newLen;
      if count != 0 {
        lines := lines + set m | start <= m < start + count && InNewSide(hunks[i], m);
      }
    }
  }

  predicate InNewSide(h: Hunk, m: int) {
    h.newStart <= m < h.newStart + h.newLen
  }

  ghost predicate Added(hunks: seq<Hunk>, m: int) {
    exists j :: 0 <= j < |hunks| && InNewSide(hunks[j], m)
  }

  // ----- text replacement

  /** Delete `del` lines after the first `at` base lines and put `ins` there. */
  datatype Edit<T> = Edit(at: nat, del: nat, ins: seq<T>)

  /** The edits ascend and do not overlap, starting no earlier than line `from`. */
  ghost predicate Ascending<T>(base: seq<T>, edits: seq<Edit<T>>, from: nat) {
    if edits == [] then from <= |base|
    else
      var e := edits[0];
      && from <= e.at && e.at + e.del <= |base| && (e.del > 0 || e.ins != [])
      && Ascending(base, edits[1..], e.at + e.del)
  }

  /** What the edits make of the base from line `from` on. */
  function Rewritten<T>(base: seq<T>, edits: seq<Edit<T>>, from: nat): seq<T>
    requires Ascending(base, edits, from)
    decreases |edits|
  {
    if edits == [] then base[from..]
    else base[from..edits[0].at] + edits[0].ins + Rewritten(base, edits[1..], edits[0].at + edits[0].del)
  }

  /** The headers git prints. A side with no lines names the line before it, as the
      "Diff -u or -U Output Format" section of the POSIX diff utility says. */
  function Headers<T>(edits: seq<Edit<T>>, shift: int): seq<Hunk>
    decreases |edits|
  {
    if edits == [] then []
    else
      var e := edits[0];
      [Hunk(if e.del == 0 then e.at else e.at + 1, e.del,
            if e.ins == [] then e.at + shift else e.at + shift + 1, |e.ins|)]
      + Headers(edits[1..], shift + |e.ins| - e.del)
  }

  /** Where the base line with index `i` ends up, as an index into the tip. */
  function TrueIndex<T>(edits: seq<Edit<T>>, i: int, shift: int): Option<int>
    decreases |edits|
  {
    if edits == [] || i < edits[0].at then Some(i + shift)
    else if i < edits[0].at + edits[0].del then None
    else TrueIndex(edits[1..], i, shift + |edits[0].ins| - edits[0].del)
  }

  ghost predicate Deleted<T>(edits: seq<Edit<T>>, i: int) {
    exists k :: 0 <= k < |edits| && edits[k].at <= i < edits[k].at + edits[k].del
  }

  lemma {:induction false} LostIffDeleted<T>(base: seq<T>, edits: seq<Edit<T>>, from: nat, shift: int, i: int)
    requires Ascending(base, edits, from)
    ensures TrueIndex(edits, i, shift).None? <==> Deleted(edits, i)
    decreases |edits|
  {
    if edits != [] {
      var e, rest := edits[0], edits[1..];
      AscendingAbove(base, rest, e.at + e.del);
      LostIffDeleted(base, rest, e.at + e.del, shift + |e.ins| - e.del, i);
      assert forall k :: 0 <= k < |rest| ==> rest[k] == edits[k + 1];
      if Deleted(rest, i) {
        var k :| 0 <= k < |rest| && rest[k].at <= i < rest[k].at + rest[k].del;
        assert edits[k + 1].at <= i < edits[k + 1].at + edits[k + 1].del;
      } else if Deleted(edits, i) {
        var k :| 0 <= k < |edits| && edits[k].at <= i < edits[k].at + edits[k].del;
        assert k == 0 || rest[k - 1] == edits[k];
      }
      if e.at <= i < e.at + e.del {
        assert edits[0].at <= i < edits[0].at + edits[0].del;
      }
    }
  }

  /** The alignment is the real one: a surviving line keeps its text. */
  lemma {:induction false} TrueIndexKeepsText<T>(base: seq<T>, edits: seq<Edit<T>>, from: nat, shift: int, i: nat)
    requires Ascending(base, edits, from) && from <= i < |base|
    ensures TrueIndex(edits, i, shift).Some? ==>
      var j := TrueIndex(edits, i, shift).value - from - shift;
      0 <= j < |Rewritten(base, edits, from)| && Rewritten(base, edits, from)[j] == base[i]
    decreases |edits|
  {
    if edits != [] {
      var e := edits[0];
      if i >= e.at + e.del {
        TrueIndexKeepsText(base, edits[1..], e.at + e.del, shift + |e.ins| - e.del, i);
      }
    }
  }

  lemma {:induction false} AscendingAbove<T>(base: seq<T>, edits: seq<Edit<T>>, from: nat)
    requires Ascending(base, edits, from)
    ensures forall k :: 0 <= k < |edits| ==> edits[k].at >= from
    decreases |edits|
  {
    if edits != [] {
      AscendingAbove(base, edits[1..], edits[0].at + edits[0].del);
      assert forall k :: 1 <= k < |edits| ==> edits[k] == edits[1..][k - 1];
    }
  }

  /** A pure insertion whose header names `line`, the base line before it. */
  ghost predicate IsAnchor<T>(edits: seq<Edit<T>>, line: int) {
    exists k :: 0 <= k < |edits| && edits[k].del == 0 && edits[k].at == line
  }

  /** How many lines were inserted right after base line `line`. */
  function InsertedAt<T>(edits: seq<Edit<T>>, line: int): nat {
    if edits == [] then 0
    else (if edits[0].del == 0 && edits[0].at == line then |edits[0].ins| else 0) + InsertedAt(edits[1..], line)
  }

  lemma {:induction false} NotAnchoredBelow<T>(base: seq<T>, edits: seq<Edit<T>>, from: nat, line: int)
    requires Ascending(base, edits, from)
    ensures line < from ==> InsertedAt(edits, line) == 0
    ensures InsertedAt(edits, line) > 0 <==> IsAnchor(edits, line)
    decreases |edits|
  {
    if edits != [] {
      var e := edits[0];
      NotAnchoredBelow(base, edits[1..], e.at + e.del, line);
      assert forall k :: 1 <= k < |edits| ==> edits[k] == edits[1..][k - 1];
      if IsAnchor(edits[1..], line) {
        var k :| 0 <= k < |edits[1..]| && edits[1..][k].del == 0 && edits[1..][k].at == line;
        assert edits[k + 1].del == 0 && edits[k + 1].at == line;
      }
      if e.del == 0 && e.at == line {
        assert edits[0].del == 0 && edits[0].at == line;
      }
    }
  }

  lemma {:induction false} TrueIndexAbove<T>(base: seq<T>, edits: seq<Edit<T>>, from: nat, shift: int, i: int)
    requires Ascending(base, edits, from) && from <= i
    ensures TrueIndex(edits, i, shift).Some? ==>
          TrueIndex(edits, i, shift).value >= from + shift + InsertedAt(edits, from)
    decreases |edits|
  {
    if edits != [] {
      var e := edits[0];
      NotAnchoredBelow(base, edits[1..], e.at + e.del, from);
      if i >= e.at + e.del {
        TrueIndexAbove(base, edits[1..], e.at + e.del, shift + |e.ins| - e.del, i);
      }
    }
  }

  /** Surviving lines keep their order, insertions in between included. */
  lemma {:induction false} TrueIndexIncreases<T>(base: seq<T>, edits: seq<Edit<T>>, from: nat, shift: int, i: int,
        j: int)
    requires Ascending(base, edits, from) && i < j
    requires TrueIndex(edits, i, shift).Some? && TrueIndex(edits, j, shift).Some?
    ensures TrueIndex(edits, i, shift).value + InsertedAt(edits, i + 1) < TrueIndex(edits, j, shift).value
    decreases |edits|
  {
    if edits != [] {
      var e, rest := edits[0], edits[1..];
      var shift' := shift + |e.ins| - e.del;
      NotAnchoredBelow(base, rest, e.at + e.del, i + 1);
      if i >= e.at + e.del {
        TrueIndexIncreases(base, rest, e.at + e.del, shift', i, j);
      } else if j >= e.at + e.del {
        TrueIndexAbove(base, rest, e.at + e.del, shift', j);
      } else {
        NotAnchoredBelow(base, edits, from, i + 1);
      }
    }
  }

  // ----- added lines and surviving lines partition the tip

  lemma {:induction false} AddedAbove<T>(base: seq<T>, edits: seq<Edit<T>>, from: nat, shift: int, m: int)
    requires Ascending(base, edits, from) && Added(Headers(edits, shift), m)
    ensures from + shift < m <= from + shift + |Rewritten(base, edits, from)|
    decreases |edits|
  {
    var k :| 0 <= k < |Headers(edits, shift)| && InNewSide(Headers(edits, shift)[k], m);
    var e := edits[0];
    if k > 0 {
      assert InNewSide(Headers(edits[1..], shift + |e.ins| - e.del)[k - 1], m);
      AddedAbove(base, edits[1..], e.at + e.del, shift + |e.ins| - e.del, m);
    }
  }

  lemma AddedCons(h: Hunk, rest: seq<Hunk>, m: int)
    ensures Added([h] + rest, m) <==> InNewSide(h, m) || Added(rest, m)
  {
    if InNewSide(h, m) {
      assert ([h] + rest)[0] == h;
    }
    if Added(rest, m) {
      var k :| 0 <= k < |rest| && InNewSide(rest[k], m);
      assert ([h] + rest)[k + 1] == rest[k];
    }
  }

  /** Where a surviving line ends up, nothing was added. */
  lemma {:induction false} SurvivorNotAdded<T>(base: seq<T>, edits: seq<Edit<T>>, from: nat, shift: int, i: int)
    requires Ascending(base, edits, from) && TrueIndex(edits, i, shift).Some?
    ensures !Added(Headers(edits, shift), TrueIndex(edits, i, shift).value + 1)
    decreases |edits|
  {
    if edits != [] {
      var e := edits[0];
      var shift', rest := shift + |e.ins| - e.del, edits[1..];
      var m := TrueIndex(edits, i, shift).value + 1;
      AddedCons(Headers(edits, shift)[0], Headers(rest, shift'), m);
      if i >= e.at + e.del {
        SurvivorNotAdded(base, rest, e.at + e.del, shift', i);
        TrueIndexAbove(base, rest, e.at + e.del, shift', i);
      } else if Added(Headers(rest, shift'), m) {
        AddedAbove(base, rest, e.at + e.del, shift', m);
      }
    }
  }

  /** Every tip line was either added or is where some base line went. */
  lemma {:induction false} EveryTipLine<T>(base: seq<T>, edits: seq<Edit<T>>, from: nat, shift: int, m: int)
    returns (i: int)
    requires Ascending(base, edits, from)
    requires from + shift <= m < from + shift + |Rewritten(base, edits, from)|
    ensures Added(Headers(edits, shift), m + 1) || (from <= i < |base| && TrueIndex(edits, i, shift) == Some(m))
    decreases |edits|
  {
    if edits == [] {
      i := m - shift;
    } else {
      var e := edits[0];
      var shift', rest := shift + |e.ins| - e.del, edits[1..];
      AddedCons(Headers(edits, shift)[0], Headers(rest, shift'), m + 1);
      if m < e.at + shift {
        i := m - shift;
      } else if m >= e.at + shift + |e.ins| {
        i := EveryTipLine(base, rest, e.at + e.del, shift', m);
      } else {
        i := 0;
      }
    }
  }

  /** The lines `changed_lines` collects and the image of the true alignment are
      disjoint and together are exactly the lines of the tip. */
  lemma TipPartition<T>(base: seq<T>, edits: seq<Edit<T>>, m: int)
    requires Ascending(base, edits, 0)
    ensures 1 <= m <= |Rewritten(base, edits, 0)|
       <==> Added(Headers(edits, 0), m) || exists i :: 0 <= i < |base| && TrueIndex(edits, i, 0) == Some(m - 1)
    ensures !(Added(Headers(edits, 0), m) && exists i :: 0 <= i < |base| && TrueIndex(edits, i, 0) == Some(m - 1))
  {
    if 1 <= m <= |Rewritten(base, edits, 0)| {
      var i := EveryTipLine(base, edits, 0, 0, m - 1);
    }
    if Added(Headers(edits, 0), m) {
      AddedAbove(base, edits, 0, 0, m);
    }
    forall i | 0 <= i < |base| && TrueIndex(edits, i, 0) == Some(m - 1)
      ensures 1 <= m <= |Rewritten(base, edits, 0)| && !Added(Headers(edits, 0), m)
    {
      TrueIndexKeepsText(base, edits, 0, 0, i);
      SurvivorNotAdded(base, edits, 0, 0, i);
    }
  }

  // ----- map_line against the truth

  /** `map_line` answers the true line plus whatever was inserted right after it: wrong
      exactly at the line a pure insertion's header names. Any integer is allowed, as
      a policy file may list any. */
  lemma {:induction false} ResolveIsTruePlusInserted<T>(base: seq<T>, edits: seq<Edit<T>>, from: nat, shift: int,
        line: int)
    requires Ascending(base, edits, from)
    ensures Resolve(Headers(edits, shift), line, shift)
         == match TrueIndex(edits, line - 1, shift)
            case None => None
            case Some(j) => Some(j + 1 + InsertedAt(edits, line))
    decreases |edits|
  {
    if edits != [] {
      var e := edits[0];
      var shift', rest := shift + |e.ins| - e.del, edits[1..];
      ResolveIsTruePlusInserted(base, rest, e.at + e.del, shift', line);
      NotAnchoredBelow(base, rest, e.at + e.del, line);
      assert Headers(edits, shift)[1..] == Headers(rest, shift');
      if e.del == 0 && e.at == line && rest != [] {
        assert rest[0].at >= e.at;
      }
    }
  }

  /** The alignment as `map_line` delivers it: None exactly on deleted lines; away
      from insertion anchors, the same text at the answered line; at one, the answer
      is off by exactly the insertion. */
  lemma MapLineAligns<T>(base: seq<T>, edits: seq<Edit<T>>, line: int)
    requires Ascending(base, edits, 0) && 1 <= line <= |base|
    ensures var r, tip := Resolve(Headers(edits, 0), line, 0), Rewritten(base, edits, 0);
      && (r.None? <==> Deleted(edits, line - 1))
      && (r.Some? && !IsAnchor(edits, line) ==> 1 <= r.value <= |tip| && tip[r.value - 1] == base[line - 1])
      && (r.Some? ==> TrueIndex(edits, line - 1, 0) == Some(r.value - 1 - InsertedAt(edits, line)))
  {
    ResolveIsTruePlusInserted(base, edits, 0, 0, line);
    TrueIndexKeepsText(base, edits, 0, 0, line - 1);
    LostIffDeleted(base, edits, 0, 0, line - 1);
    NotAnchoredBelow(base, edits, 0, line);
  }

  /** Lines that survive stay in order, anchors included. */
  lemma MapLineIncreases<T>(base: seq<T>, edits: seq<Edit<T>>, a: int, b: int)
    requires Ascending(base, edits, 0) && a < b
    requires Resolve(Headers(edits, 0), a, 0).Some? && Resolve(Headers(edits, 0), b, 0).Some?
    ensures Resolve(Headers(edits, 0), a, 0).value < Resolve(Headers(edits, 0), b, 0).value
  {
    ResolveIsTruePlusInserted(base, edits, 0, 0, a);
    ResolveIsTruePlusInserted(base, edits, 0, 0, b);
    TrueIndexIncreases(base, edits, 0, 0, a - 1, b - 1);
  }

  lemma {:induction false} AnchorImageAdded<T>(base: seq<T>, edits: seq<Edit<T>>, from: nat, shift: int, line: int)
    requires Ascending(base, edits, from) && IsAnchor(edits, line)
    requires Resolve(Headers(edits, shift), line, shift).Some?
    ensures Added(Headers(edits, shift), Resolve(Headers(edits, shift), line, shift).value)
    decreases |edits|
  {
    var e := edits[0];
    var shift', rest := shift + |e.ins| - e.del, edits[1..];
    var m := Resolve(Headers(edits, shift), line, shift).value;
    assert Headers(edits, shift)[1..] == Headers(rest, shift');
    AscendingAbove(base, rest, e.at + e.del);
    NotAnchoredBelow(base, edits, from, line);
    NotAnchoredBelow(base, rest, e.at + e.del, line);
    AddedCons(Headers(edits, shift)[0], Headers(rest, shift'), m);
    if IsAnchor(rest, line) {
      AnchorImageAdded(base, rest, e.at + e.del, shift', line);
    } else {
      ResolveIsTruePlusInserted(base, edits, from, shift, line);
    }
  }

  /** The line a base line is carried to is one of the change's own added lines
      exactly when the base line is an insertion anchor; the added line is then the
      last one inserted. */
  lemma CarriedOntoAddedIffAnchor<T>(base: seq<T>, edits: seq<Edit<T>>, line: int)
    requires Ascending(base, edits, 0) && Resolve(Headers(edits, 0), line, 0).Some?
    ensures Added(Headers(edits, 0), Resolve(Headers(edits, 0), line, 0).value) <==> IsAnchor(edits, line)
  {
    ResolveIsTruePlusInserted(base, edits, 0, 0, line);
    NotAnchoredBelow(base, edits, 0, line);
    if IsAnchor(edits, line) {
      AnchorImageAdded(base, edits, 0, 0, line);
    } else {
      SurvivorNotAdded(base, edits, 0, 0, line - 1);
    }
  }

  /** Three lines inserted after an approved line 2: the approval moves to line 5, the
      last of the new lines, and line 2 itself is no longer covered. */
  lemma AnchorExample()
    ensures
      var base := ["a", "b", "c"];
      var edits := [Edit(2, 0, ["x", "y", "z"])];
      && Ascending(base, edits, 0)
      && Rewritten(base, edits, 0) == ["a", "b", "x", "y", "z", "c"]
      && Headers(edits, 0) == [Hunk(2, 0, 3, 3)]
      && Resolve(Headers(edits, 0), 2, 0) == Some(5)
      && Added(Headers(edits, 0), 5)
  {
    var edits := [Edit(2, 0, ["x", "y", "z"])];
    assert edits[1..] == [];
    assert InNewSide(Headers(edits, 0)[0], 5);
  }
}
