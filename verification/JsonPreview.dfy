/** Tool previews that stay parseable (internal/agent/loop_tool_preview.go): long strings
    inside a JSON document are cut, or a task list is reduced to what its panel reads. */
module JsonPreview {
  import opened Basics

  datatype Json =
    | Null
    | Bool(truth: bool)
    | Number(digits: string)
    | Text(runes: string)
    | Array(items: seq<Json>)
    | Object(fields: map<string, Json>)

  // ----- shortening one string

  const ELLIPSIS: char := '\U{2026}'

  method ShrinkRunes(s: string, budget: int) returns (r: string)
    ensures |s| <= budget ==> r == s
    ensures |s| > budget ==> |r| == (if budget > 0 then budget else 0) + 1
                             && r[..|r| - 1] <= s && r[|r| - 1] == ELLIPSIS
    ensures r == Cut(s, budget)
  {
    if |s| <= budget {
      return s;
    }
    if budget <= 0 {
      return [ELLIPSIS];
    }
    var kept := 0;
    for i := 0 to |s|
      invariant kept == i <= budget
    {
      if kept == budget {
        return s[..i] + [ELLIPSIS];
      }
      kept := kept + 1;
    }
    return s;
  }

  function Cut(s: string, budget: int): string {
    if |s| <= budget then s else s[..if budget > 0 then budget else 0] + [ELLIPSIS]
  }

  // ----- shortening every string of a document

  const MAX_DEPTH := 64

  function ShrinkStringLeaves(value: Json, budget: int, depth: nat): Json
    decreases value
  {
    if depth > MAX_DEPTH then value
    else
      match value
      case Text(runes) => Text(Cut(runes, budget))
      case Array(items) =>
        Array(seq(|items|, k requires 0 <= k < |items| => ShrinkStringLeaves(items[k], budget, depth + 1)))
      case Object(fields) => Object(map key | key in fields :: ShrinkStringLeaves(fields[key], budget, depth + 1))
      case _ => value
  }

  /** A place in a document: array positions and object keys from the root. */
  datatype Step = Index(i: nat) | Key(name: string)

  function Child(value: Json, step: Step): Option<Json> {
    match step
    case Index(i) => if value.Array? && i < |value.items| then Some(value.items[i]) else None
    case Key(name) => if value.Object? && name in value.fields then Some(value.fields[name]) else None
  }

  function At(value: Json, path: seq<Step>): Option<Json>
    decreases |path|
  {
    if path == [] then Some(value)
    else
      var child := Child(value, path[0]);
      if child.None? then None else At(child.value, path[1..])
  }

  /** What may differ at one place between a document and its shortened form. */
  predicate Corresponds(was: Option<Json>, now: Option<Json>, budget: int, depth: nat) {
    match was
    case None => now == None
    case Some(Text(runes)) => now == Some(Text(if depth > MAX_DEPTH then runes else Cut(runes, budget)))
    case Some(Array(items)) => now.Some? && now.value.Array? && |now.value.items| == |items|
    case Some(Object(fields)) => now.Some? && now.value.Object? && now.value.fields.Keys == fields.Keys
    case Some(_) => now == was
  }

  /** Every place exists in both documents or in neither, with the same kind, the same keys
      or length and the same non-string leaf; only strings down to depth 64 are cut. */
  lemma {:induction false} ShapeKept(value: Json, budget: int, depth: nat, path: seq<Step>)
    ensures Corresponds(At(value, path), At(ShrinkStringLeaves(value, budget, depth), path), budget, depth + |path|)
    decreases |path|
  {
    var shrunk := ShrinkStringLeaves(value, budget, depth);
    if path != [] && depth <= MAX_DEPTH {
      var child := Child(value, path[0]);
      if child.Some? {
        assert Child(shrunk, path[0]) == Some(ShrinkStringLeaves(child.value, budget, depth + 1));
        ShapeKept(child.value, budget, depth + 1, path[1..]);
      }
    } else if path != [] {
      Untouched(value, budget, depth, path);
    }
  }

  lemma Untouched(value: Json, budget: int, depth: nat, path: seq<Step>)
    requires depth > MAX_DEPTH
    ensures Corresponds(At(value, path), At(value, path), budget, depth + |path|)
  {
  }

  // ----- the first budget that fits

  const BUDGETS: seq<int> := [512, 128, 32, 8, 0]

  /** The budgets descend to nothing, so the first that fits is the largest that does. */
  lemma BudgetsDescend(j: nat, k: nat)
    requires j < k < |BUDGETS|
    ensures BUDGETS[j] > BUDGETS[k] >= 0 && BUDGETS[|BUDGETS| - 1] == 0
  {
  }

  predicate Fits(encode: Json -> string, value: Json, k: nat, maxBytes: int)
    requires k < |BUDGETS|
  {
    |encode(ShrinkStringLeaves(value, BUDGETS[k], 0))| <= maxBytes
  }

  /** `k` is the first listed budget that fits: the largest, as they descend. */
  predicate Chosen(encode: Json -> string, value: Json, k: nat, maxBytes: int) {
    k < |BUDGETS| && Fits(encode, value, k, maxBytes) && forall j :: 0 <= j < k ==> !Fits(encode, value, j, maxBytes)
  }

  predicate NoneFits(encode: Json -> string, value: Json, maxBytes: int) {
    forall j :: 0 <= j < |BUDGETS| ==> !Fits(encode, value, j, maxBytes)
  }

  method ShrinkJSONPreview(decode: string -> Option<Json>, encode: Json -> string, raw: string, maxBytes: int)
    returns (preview: Option<string>)
    ensures preview.None? <==> decode(raw).None? || NoneFits(encode, decode(raw).value, maxBytes)
    ensures preview.Some? ==>
      && |preview.value| <= maxBytes
      && exists k: nat ::
           && Chosen(encode, decode(raw).value, k, maxBytes)
           && preview.value == encode(ShrinkStringLeaves(decode(raw).value, BUDGETS[k], 0))
  {
    hide ShrinkStringLeaves;
    var value := decode(raw);
    if value.None? {
      return None;
    }
    for k := 0 to 5
      invariant forall j :: 0 <= j < k ==> !Fits(encode, value.value, j, maxBytes)
    {
      var encoded := encode(ShrinkStringLeaves(value.value, BUDGETS[k], 0));
      if |encoded| <= maxBytes {
        assert Chosen(encode, value.value, k, maxBytes);
        return Some(encoded);
      }
    }
    return None;
  }

  /** A consumer that parses the preview finds the document's own shape. */
  lemma PreviewParses(decode: string -> Option<Json>, encode: Json -> string, value: Json, budget: int, path: seq<Step>)
    requires decode(encode(ShrinkStringLeaves(value, budget, 0))) == Some(ShrinkStringLeaves(value, budget, 0))
    ensures var preview := encode(ShrinkStringLeaves(value, budget, 0));
            && decode(preview).Some?
            && Corresponds(At(value, path), At(decode(preview).value, path), budget, |path|)
  {
    ShapeKept(value, budget, 0, path);
  }

  // ----- reducing a list of task rows

  predicate EqualFold(a: string, b: string) {
    |a| == |b| && forall i :: 0 <= i < |a| ==> Fold(a[i]) == Fold(b[i])
  }

  /** Keys fold alike exactly when they do character by character: the same one, or one letter in
      two cases. */
  lemma EqualFoldIff(c: char, a: string, d: char, b: string)
    ensures EqualFold("", "") && !EqualFold("", [d] + b) && !EqualFold([c] + a, "")
    ensures EqualFold([c] + a, [d] + b) <==>
      && (c == d || ('A' <= c <= 'Z' && d == c - 'A' + 'a') || ('A' <= d <= 'Z' && c == d - 'A' + 'a'))
      && EqualFold(a, b)
  {
    var x, y := [c] + a, [d] + b;
    FoldAlikeIff(c, d);
    if EqualFold(x, y) {
      assert x[0] == c && y[0] == d;
      forall i | 0 <= i < |a|
        ensures Fold(a[i]) == Fold(b[i])
      {
        assert Fold(x[i + 1]) == Fold(y[i + 1]);
      }
    }
  }

  /** The order keys are sorted in. */
  predicate UpTo(a: string, b: string) {
    a == "" || (b != "" && (a[0] < b[0] || (a[0] == b[0] && UpTo(a[1..], b[1..]))))
  }

  /** Keys are ordered by the first place they differ at, a prefix before what it starts. */
  lemma {:induction false} UpToIff(a: string, b: string, n: nat)
    requires n <= |a| && n <= |b| && a[..n] == b[..n]
    requires n < |a| && n < |b| ==> a[n] != b[n]
    ensures UpTo(a, b) <==> n == |a| || (n < |b| && a[n] < b[n])
    decreases n
  {
    if n > 0 {
      assert a[0] == a[..n][0] == b[..n][0] == b[0];
      assert a[1..][..n - 1] == a[..n][1..] == b[..n][1..] == b[1..][..n - 1];
      UpToIff(a[1..], b[1..], n - 1);
    }
  }

  lemma {:induction false} Total(a: string, b: string)
    ensures UpTo(a, b) || UpTo(b, a)
  {
    if a != "" && b != "" {
      Total(a[1..], b[1..]);
    }
  }

  lemma {:induction false} Transitive(a: string, b: string, c: string)
    requires UpTo(a, b) && UpTo(b, c)
    ensures UpTo(a, c)
  {
    if a != "" && a[0] == b[0] == c[0] {
      Transitive(a[1..], b[1..], c[1..]);
    }
  }

  lemma {:induction false} OneLeast(a: string, b: string)
    requires UpTo(a, b) && UpTo(b, a)
    ensures a == b
  {
    if a != "" {
      OneLeast(a[1..], b[1..]);
      assert a == [a[0]] + a[1..] && b == [b[0]] + b[1..];
    }
  }

  predicate IsLeast(keys: set<string>, k: string) {
    k in keys && forall other :: other in keys ==> UpTo(k, other)
  }

  lemma {:induction false} HasLeast(keys: set<string>)
    requires keys != {}
    ensures exists k :: IsLeast(keys, k)
  {
    hide UpTo;
    var one :| one in keys;
    var rest := keys - {one};
    Total(one, one);
    assert forall other :: other in keys ==> other == one || other in rest;
    if rest == {} {
      assert IsLeast(keys, one);
    } else {
      HasLeast(rest);
      var k :| IsLeast(rest, k);
      Total(one, k);
      if UpTo(k, one) {
        assert IsLeast(keys, k);
      } else {
        forall other | other in rest
          ensures UpTo(one, other)
        {
          Transitive(one, k, other);
        }
        assert IsLeast(keys, one);
      }
    }
  }

  /** The first of the sorted keys. */
  ghost function Least(keys: set<string>): (k: string)
    requires keys != {}
    ensures IsLeast(keys, k)
  {
    HasLeast(keys);
    var k :| IsLeast(keys, k);
    k
  }

  function FoldedKeys(fields: map<string, Json>, key: string): set<string> {
    set k | k in fields && EqualFold(k, key)
  }

  /** The value under `key`, or else under the first key that differs in letter case only;
      Null when there is none. */
  ghost function FoldedTaskArg(fields: map<string, Json>, key: string): Json {
    if key in fields then fields[key]
    else if FoldedKeys(fields, key) == {} then Null
    else fields[Least(FoldedKeys(fields, key))]
  }

  /** The exact key wins; else the first in order among the keys that fold alike; else nothing. */
  lemma TaskArgExactly(fields: map<string, Json>, key: string)
    ensures key in fields ==> FoldedTaskArg(fields, key) == fields[key]
    ensures key !in fields && (forall k :: k in fields ==> !EqualFold(k, key)) ==> FoldedTaskArg(fields, key) == Null
    ensures key !in fields ==> forall k ::
              k in fields && EqualFold(k, key) && (forall o :: o in fields && EqualFold(o, key) ==> UpTo(k, o)) ==>
                FoldedTaskArg(fields, key) == fields[k]
  {
    forall k | key !in fields && k in fields && EqualFold(k, key)
               && forall o :: o in fields && EqualFold(o, key) ==> UpTo(k, o)
      ensures FoldedTaskArg(fields, key) == fields[k]
    {
      assert k in FoldedKeys(fields, key);
      OneLeast(k, Least(FoldedKeys(fields, key)));
    }
  }

  const ROW_KEYS: seq<string> := ["task_id", "id", "status"]

  ghost function Kept(fields: map<string, Json>): map<string, Json> {
    map key | key in ROW_KEYS && FoldedTaskArg(fields, key) != Null :: FoldedTaskArg(fields, key)
  }

  ghost function ReduceRow(row: Json): Json {
    if row.Object? && Kept(row.fields).Keys != {} then Object(Kept(row.fields)) else row
  }

  ghost function ReduceDispatchRows(rows: seq<Json>): (out: seq<Json>)
    ensures |out| == |rows|
  {
    seq(|rows|, i requires 0 <= i < |rows| => ReduceRow(rows[i]))
  }

  method TaskArg(fields: map<string, Json>, key: string) returns (v: Json)
    ensures v == FoldedTaskArg(fields, key)
  {
    if key in fields {
      return fields[key];
    }
    var folded := FoldedKeys(fields, key);
    if folded == {} {
      return Null;
    }
    HasLeast(folded);
    var k :| IsLeast(folded, k);
    OneLeast(k, Least(folded));
    return fields[k];
  }

  method ReduceRows(rows: seq<Json>) returns (out: seq<Json>)
    ensures out == ReduceDispatchRows(rows)
  {
    hide FoldedTaskArg;
    out := [];
    for i := 0 to |rows|
      invariant |out| == i && forall j :: 0 <= j < i ==> out[j] == ReduceRow(rows[j])
    {
      var row := rows[i];
      if row.Object? {
        var kept: map<string, Json> := map[];
        for k := 0 to 3
          invariant kept == map key | key in ROW_KEYS[..k] && FoldedTaskArg(row.fields, key) != Null
                              :: FoldedTaskArg(row.fields, key)
        {
          var v := TaskArg(row.fields, ROW_KEYS[k]);
          assert ROW_KEYS[..k + 1] == ROW_KEYS[..k] + [ROW_KEYS[k]];
          if v != Null {
            kept := kept[ROW_KEYS[k] := v];
          }
        }
        assert ROW_KEYS[..3] == ROW_KEYS;
        assert kept == Kept(row.fields);
        row := if |kept| == 0 then row else Object(kept);
      }
      out := out + [row];
    }
  }

  lemma RowKeysApart(a: string, b: string)
    requires a in ROW_KEYS && b in ROW_KEYS && EqualFold(a, b)
    ensures a == b
  {
    assert Fold(a[0]) == Fold(b[0]);
  }

  /** What a consumer reads from a row by name survives the reduction. */
  lemma RowReadsTheSame(fields: map<string, Json>, key: string)
    requires key in ROW_KEYS
    ensures ReduceRow(Object(fields)).Object?
    ensures FoldedTaskArg(ReduceRow(Object(fields)).fields, key) == FoldedTaskArg(fields, key)
  {
    var kept := Kept(fields);
    if kept.Keys != {} && key !in kept {
      if FoldedKeys(kept, key) != {} {
        var other :| other in FoldedKeys(kept, key);
        RowKeysApart(other, key);
      }
    }
  }

  /** What a row may turn into. */
  ghost predicate RowKept(was: Json, now: Json) {
    if !was.Object? then now == was
    else
      && now.Object?
      && (forall key :: key in ROW_KEYS ==> FoldedTaskArg(now.fields, key) == FoldedTaskArg(was.fields, key))
      && (if HasRowKey(was.fields) then forall key :: key in now.fields ==> key in ROW_KEYS else now == was)
  }

  ghost predicate HasRowKey(fields: map<string, Json>) {
    exists key :: key in ROW_KEYS && FoldedTaskArg(fields, key) != Null
  }

  /** Reducing keeps every row in its place and what is read from it; other columns go
      wherever one of these is there; reducing again changes nothing. */
  lemma ReductionKeepsRows(rows: seq<Json>)
    ensures var out := ReduceDispatchRows(rows);
            && ReduceDispatchRows(out) == out
            && forall i :: 0 <= i < |rows| ==> RowKept(rows[i], out[i])
  {
    hide FoldedTaskArg;
    var out := ReduceDispatchRows(rows);
    forall i | 0 <= i < |out|
      ensures ReduceRow(out[i]) == out[i] && RowKept(rows[i], out[i])
    {
      RowTwice(rows[i]);
      if rows[i].Object? {
        forall key | key in ROW_KEYS
          ensures FoldedTaskArg(out[i].fields, key) == FoldedTaskArg(rows[i].fields, key)
        {
          RowReadsTheSame(rows[i].fields, key);
        }
        assert forall key :: key in ROW_KEYS && FoldedTaskArg(rows[i].fields, key) != Null ==>
              key in Kept(rows[i].fields);
      }
    }
  }

  lemma RowTwice(row: Json)
    ensures ReduceRow(ReduceRow(row)) == ReduceRow(row)
  {
    hide FoldedTaskArg;
    var once := ReduceRow(row);
    if once.Object? {
      forall key | key in ROW_KEYS
        ensures FoldedTaskArg(once.fields, key) == FoldedTaskArg(row.fields, key)
      {
        RowReadsTheSame(row.fields, key);
      }
      assert Kept(once.fields) == Kept(row.fields);
    }
  }
}
