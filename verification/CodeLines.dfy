/** Changed lines that cannot carry a statement (scripts/diff_coverage.py,
    non_executable_lines): a small comment scanner over lines, compared with the Go lexer
    of the seam check. */
module CodeLines {
  import opened Basics
  import opened BlankNonCode

  /** Whether a line has code outside comments, and whether it ends inside a block comment,
      when it starts inside one or not. */
  function Lex(t: string, open: bool): (bool, bool)
    decreases |t|
  {
    if t == "" then (false, open)
    else if open then if Pair(t, '*', '/') then Lex(t[2..], false) else Lex(t[1..], true)
    else if Pair(t, '/', '/') then (false, false)
    else if Pair(t, '/', '*') then Lex(t[2..], true)
    else
      var (code, after) := Lex(t[1..], false);
      (code || !Space(t[0]), after)
  }

  // ----- switch labels

  predicate AllSpace(t: string) {
    forall i :: 0 <= i < |t| ==> Space(t[i])
  }

  predicate Word(t: string) {
    t != "" && forall i :: 0 <= i < |t| ==> !Space(t[i]) && t[i] != ':'
  }

  /** Words with a comma between any two, white space around the commas and at the end. */
  predicate Words(t: string)
    decreases |t|
  {
    exists k :: 1 <= k <= |t| && Word(t[..k]) && (AllSpace(t[k..]) || WordsAfter(t, k))
  }

  predicate WordsAfter(t: string, k: nat)
    requires k <= |t|
    decreases |t|, 0
  {
    exists i, j :: k <= i < j <= |t| && 0 < j && AllSpace(t[k..i]) && t[i] == ',' && AllSpace(t[i + 1..j]) &&
          Words(t[j..])
  }

  /** `case`, a list of words and a colon; or `default` and a colon. */
  predicate LabelHead(t: string) {
    || (|t| > 5 && t[..4] == "case" && t[|t| - 1] == ':'
        && exists i :: 4 < i < |t| && AllSpace(t[4..i]) && Words(t[i..|t| - 1]))
    || (|t| > 7 && t[..7] == "default" && t[|t| - 1] == ':' && AllSpace(t[7..|t| - 1]))
  }

  /** `case`, white space, anything, and a colon at the end of the line. */
  predicate CaseLine(t: string) {
    |t| > 5 && t[..4] == "case" && Space(t[4]) && exists p :: 5 <= p < |t| && t[p] == ':' && AllSpace(t[p + 1..])
  }

  /** The pattern of switch labels. It is anchored at the start of the line; only its last
      alternative is at the end too. */
  predicate SwitchLabel(line: string) {
    (exists k :: 0 < k <= |line| && LabelHead(line[..k])) || CaseLine(line)
  }

  /** A label line starts with one of the two keywords, white space after `case`, and has a
      colon. */
  lemma LabelNeeds(line: string)
    requires SwitchLabel(line)
    ensures ':' in line
    ensures (|line| > 5 && line[..4] == "case" && Space(line[4])) || (|line| > 7 && line[..7] == "default")
  {
    if k :| 0 < k <= |line| && LabelHead(line[..k]) {
      var head := line[..k];
      assert head[k - 1] == line[k - 1] == ':';
      assert head[..4] == line[..4];
      if |head| > 7 {
        assert head[..7] == line[..7];
      }
      if head[..4] == "case" {
        if i :| 4 < i < |head| && AllSpace(head[4..i]) && Words(head[i..|head| - 1]) {
          assert head[4..i][0] == line[4];
        }
      }
    } else {
      var p :| 5 <= p < |line| && line[p] == ':' && AllSpace(line[p + 1..]);
    }
  }

  /** `default` makes a label exactly when a colon follows, after white space or at once. */
  lemma DefaultLabelIff(rest: string)
    ensures SwitchLabel("default" + rest) <==> exists p :: 0 <= p < |rest| && rest[p] == ':' && AllSpace(rest[..p])
  {
    var line := "default" + rest;
    assert line[0] == 'd' && "case"[0] == 'c';
    if k :| 0 < k <= |line| && LabelHead(line[..k]) {
      assert line[..k][..4][0] == 'd';
      DefaultHead(rest, k - 8);
    }
    assert line[..4][0] == 'd';
    if p :| 0 <= p < |rest| && rest[p] == ':' && AllSpace(rest[..p]) {
      DefaultHead(rest, p);
      assert LabelHead(line[..p + 8]);
    }
  }

  lemma DefaultHead(rest: string, p: nat)
    requires p < |rest|
    ensures var head := ("default" + rest)[..p + 8];
      |head| == p + 8 && head[..7] == "default" && head[7..p + 7] == rest[..p] && head[p + 7] == rest[p]
  {
    assert ("default" + rest)[..p + 8] == "default" + rest[..p + 1];
    assert rest[..p + 1] == rest[..p] + [rest[p]];
  }

  /** No white space stands between two words without a comma. */
  ghost predicate CommaBetween(t: string) {
    forall i, j :: Apart(t, i, j) ==> t[i] == ',' || t[j] == ','
  }

  /** Two characters with white space, and nothing else, between them. */
  predicate Apart(t: string, i: int, j: int) {
    0 <= i && i + 1 < j < |t| && !Space(t[i]) && !Space(t[j]) && AllSpace(t[i + 1..j])
  }

  lemma WordThenSpace(word: string, front: string)
    requires Word(word) && AllSpace(front)
    ensures CommaBetween(word + front)
  {
    var t := word + front;
    forall i, j
      ensures !Apart(t, i, j)
    {
      MiddleIsSpace(t, i, j, i + 1);
    }
  }

  lemma MiddleIsSpace(t: string, i: int, j: int, m: int)
    ensures Apart(t, i, j) && i < m < j ==> Space(t[m])
  {
    assert Apart(t, i, j) && i < m < j ==> t[i + 1..j][m - i - 1] == t[m];
  }

  lemma SpaceFirst(back: string, more: string)
    requires AllSpace(back) && CommaBetween(more)
    ensures CommaBetween(back + more)
  {
    var t, n := back + more, |back|;
    forall i, j | Apart(t, i, j)
      ensures t[i] == ',' || t[j] == ','
    {
      assert i >= n;
      assert t[i + 1..j] == more[i + 1 - n..j - n];
      assert Apart(more, i - n, j - n);
    }
  }

  lemma CommaJoins(a: string, b: string)
    requires CommaBetween(a) && CommaBetween(b)
    ensures CommaBetween(a + "," + b)
  {
    var t, n := a + "," + b, |a|;
    forall i, j | Apart(t, i, j)
      ensures t[i] == ',' || t[j] == ','
    {
      MiddleIsSpace(t, i, j, n);
      assert t[n] == ',' && !Space(t[n]);
      if j < n {
        assert t[i + 1..j] == a[i + 1..j];
        assert Apart(a, i, j);
      } else if i > n {
        assert t[i + 1..j] == b[i - n..j - n - 1];
        assert Apart(b, i - n - 1, j - n - 1);
      }
    }
  }

  lemma WordsUnfold(t: string) returns (word: string, front: string, back: string, more: string, list: bool)
    requires Words(t)
    ensures Word(word) && AllSpace(front) && AllSpace(back)
    ensures if list then t == word + front + "," + (back + more) && Words(more) && |more| < |t| else t == word + front
  {
    var k :| 1 <= k <= |t| && Word(t[..k]) && (AllSpace(t[k..]) || WordsAfter(t, k));
    word := t[..k];
    if AllSpace(t[k..]) {
      front, back, more, list := t[k..], "", "", false;
    } else {
      var c, n :|
        k <= c < n <= |t| && 0 < n && AllSpace(t[k..c]) && t[c] == ',' && AllSpace(t[c + 1..n]) && Words(t[n..]);
      front, back, more, list := t[k..c], t[c + 1..n], t[n..], true;
      assert t == t[..k] + t[k..c] + [t[c]] + (t[c + 1..n] + t[n..]);
    }
  }

  /** What a list of words looks like: it starts with one, has no colon, and has a comma wherever
      white space parts two of them. */
  lemma {:induction false} WordsShape(t: string)
    requires Words(t)
    ensures t != "" && !Space(t[0]) && ':' !in t && CommaBetween(t)
    decreases |t|
  {
    hide Words, CommaBetween;
    var word, front, back, more, list := WordsUnfold(t);
    WordThenSpace(word, front);
    assert ':' !in word && ':' !in front && ':' !in back;
    if list {
      WordsShape(more);
      SpaceFirst(back, more);
      CommaJoins(word + front, back + more);
    }
  }

  /** And every such list is one: a word alone, or a word, a comma and a list. */
  lemma WordsMore(word: string, front: string, back: string, more: string)
    requires Word(word) && AllSpace(front) && AllSpace(back)
    ensures Words(word + front)
    ensures Words(more) ==> Words(word + front + "," + back + more)
  {
    var one := word + front;
    assert one[..|word|] == word && one[|word|..] == front;
    if Words(more) {
      var t := word + front + "," + back + more;
      var k, c := |word|, |word| + |front|;
      var n := c + 1 + |back|;
      assert t[..k] == word && t[k..c] == front && t[c] == ',' && t[c + 1..n] == back && t[n..] == more;
      assert WordsAfter(t, k);
    }
  }

  /** The line takes part in no coverage question: it is a switch label, or it has no code. A
      line that is only a block comment, opened and closed, is not left out. */
  predicate Skips(line: string, open: bool) {
    var (code, after) := Lex(line, open);
    if code then SwitchLabel(line) else line == "" || Pair(line, '/', '/') || open || after
  }

  function OpenBefore(raws: seq<string>, n: nat): bool
    requires n <= |raws|
  {
    if n == 0 then false else Lex(Trim(raws[n - 1]), OpenBefore(raws, n - 1)).1
  }

  // ----- the source's loops

  /** The first `*` followed by `/` at or after `i`, or the end of the line. */
  function FindClose(t: string, i: nat): (r: nat)
    requires i <= |t|
    ensures i <= r <= |t| && (r < |t| ==> r + 2 <= |t|)
    ensures Lex(t[i..], true) == if r < |t| then Lex(t[r + 2..], false) else (false, true)
    decreases |t| - i
  {
    if i == |t| then i
    else if Pair(t[i..], '*', '/') then
      assert t[i..][2..] == t[i + 2..];
      i
    else
      assert t[i..][1..] == t[i + 1..];
      FindClose(t, i + 1)
  }

  method ScanLine(line: string, startedOpen: bool) returns (hasCode: bool, openBlock: bool)
    ensures (hasCode, openBlock) == Lex(line, startedOpen)
  {
    hasCode, openBlock := false, startedOpen;
    var idx := 0;
    assert line[0..] == line;
    while idx < |line|
      invariant idx <= |line|
      invariant Lex(line, startedOpen) == (hasCode || Lex(line[idx..], openBlock).0, Lex(line[idx..], openBlock).1)
    {
      assert line[idx..][1..] == line[idx + 1..];
      assert idx + 2 <= |line| ==> line[idx..][2..] == line[idx + 2..];
      if openBlock {
        var close := FindClose(line, idx);
        if close == |line| {
          idx := |line|;
          break;
        }
        openBlock := false;
        idx := close + 2;
        continue;
      }
      if Pair(line[idx..], '/', '/') {
        break;
      }
      if Pair(line[idx..], '/', '*') {
        openBlock := true;
        idx := idx + 2;
        continue;
      }
      if !Space(line[idx]) {
        hasCode := true;
      }
      idx := idx + 1;
    }
  }

  method NonExecutableLines(raws: seq<string>) returns (skip: set<nat>)
    ensures forall n :: n in skip <==> 1 <= n <= |raws| && Skips(Trim(raws[n - 1]), OpenBefore(raws, n - 1))
  {
    hide Lex, Trim;
    skip := {};
    var openBlock := false;
    for i := 0 to |raws|
      invariant openBlock == OpenBefore(raws, i)
      invariant forall n :: n in skip <==> 1 <= n <= i && Skips(Trim(raws[n - 1]), OpenBefore(raws, n - 1))
    {
      var line := Trim(raws[i]);
      var startedOpen := openBlock;
      var hasCode;
      hasCode, openBlock := ScanLine(line, startedOpen);
      if hasCode {
        if SwitchLabel(line) {
          skip := skip + {i + 1};
        }
      } else if line == "" || Pair(line, '/', '/') || startedOpen || openBlock {
        skip := skip + {i + 1};
      }
    }
  }

  // ----- trimming is invisible

  lemma {:induction false} TrailingSpace(t: string, c: char, open: bool)
    requires Space(c)
    ensures Lex(t + [c], open) == Lex(t, open)
    decreases |t|
  {
    var u := t + [c];
    if t == "" {
      assert u[1..] == "";
    } else {
      assert u[1..] == t[1..] + [c];
      TrailingSpace(t[1..], c, open);
      TrailingSpace(t[1..], c, false);
      if |t| > 1 {
        assert u[2..] == t[2..] + [c];
        TrailingSpace(t[2..], c, !open);
      }
    }
  }

  lemma {:induction false} TrimLex(t: string, open: bool)
    ensures Lex(Trim(t), open) == Lex(t, open)
    decreases |t|
  {
    if t != "" && Space(t[0]) {
      TrimLex(t[1..], open);
    } else if t != "" && Space(t[|t| - 1]) {
      TrimLex(t[..|t| - 1], open);
      TrailingSpace(t[..|t| - 1], t[|t| - 1], open);
      assert t[..|t| - 1] + [t[|t| - 1]] == t;
    }
  }

  lemma {:induction false} TrimTight(t: string)
    ensures Trim(t) != "" ==> !Space(Trim(t)[0])
    decreases |t|
  {
    if t != "" && Space(t[0]) {
      TrimTight(t[1..]);
    } else if t != "" && Space(t[|t| - 1]) {
      TrimTight(t[..|t| - 1]);
    }
  }

  /** No statement is dropped by what the scanner calls a comment, and a line without code
      stays in exactly when it is a block comment opened and closed on that line. */
  lemma SkippedExactly(raw: string, open: bool)
    ensures var (code, after) := Lex(raw, open);
            (Skips(Trim(raw), open)
             <==> if code then SwitchLabel(Trim(raw)) else open || after || !Pair(Trim(raw), '/', '*'))
  {
    TrimLex(raw, open);
    TrimTight(raw);
  }

  /** Whatever follows a label on its line goes with it, a statement included. */
  lemma LabelSwallows(head: string, rest: string)
    requires LabelHead(head)
    ensures SwitchLabel(head + rest) && Lex(head + rest, false).0 && Skips(head + rest, false)
  {
    var line := head + rest;
    assert line[..|head|] == head;
    assert line[0] == head[0] == head[..4][0];
    assert head[..4] == "case" || head[..7][0] == "default"[0];
    assert !Space(line[0]) && line[0] != '/';
  }

  lemma DefaultSwallowsCall()
    ensures Skips("default: y()", false)
  {
    assert "default:"[..7] == "default" && "default:"[7..7] == "";
    LabelSwallows("default:", " y()");
    assert "default:" + " y()" == "default: y()";
  }

  // ----- against the Go lexer

  predicate OneLine(t: string) {
    forall i :: 0 <= i < |t| ==> t[i] != '\n'
  }

  function Lines(raws: seq<string>): string {
    if raws == [] then "" else raws[0] + "\n" + Lines(raws[1..])
  }

  /** What the Go lexer makes of one line it enters in `state`, and the state it enters the
      next one in. A backslash at the end of a literal's line escapes the newline. */
  function GoLine(t: string, state: State): (string, State)
    decreases |t|
  {
    if t == "" then ("", if state == Line then Code else state)
    else if Escapes(t, state) && |t| == 1 then (" ", state)
    else
      var (n, next) := Step(t, state);
      var (image, after) := GoLine(t[n..], next);
      (Emit(t, state) + image, after)
  }

  function GoBefore(raws: seq<string>, n: nat): State
    requires n <= |raws|
  {
    if n == 0 then Code else GoLine(raws[n - 1], GoBefore(raws, n - 1)).1
  }

  lemma ScanOnce(u: string, state: State)
    requires u != ""
    ensures var (n, next) := Step(u, state); Scan(u, state) == Emit(u, state) + Scan(u[n..], next)
  {
  }

  lemma {:induction false} GoLineScan(t: string, rest: string, state: State) returns (nl: char)
    requires OneLine(t)
    ensures Scan(t + "\n" + rest, state) == GoLine(t, state).0 + [nl] + Scan(rest, GoLine(t, state).1)
    ensures |GoLine(t, state).0| == |t|
    decreases |t|
  {
    hide Scan, GoLine;
    var u := t + "\n" + rest;
    ScanOnce(u, state);
    GoLineStep(t, state);
    if t == "" {
      nl := '\n';
      assert u[1..] == rest;
    } else if Escapes(t, state) && |t| == 1 {
      nl := ' ';
      assert u[2..] == rest;
      assert "  " == " " + [nl];
    } else {
      var (n, next) := Step(t, state);
      StepInLine(t, rest, state);
      nl := GoLineScan(t[n..], rest, next);
      assert u[n..] == t[n..] + "\n" + rest;
      var (image, after) := GoLine(t[n..], next);
      assert Emit(t, state) + (image + [nl] + Scan(rest, after)) == (Emit(t, state) + image) + [nl] + Scan(rest, after);
    }
  }

  lemma GoLineStep(t: string, state: State)
    ensures t == "" ==> GoLine(t, state) == ("", if state == Line then Code else state)
    ensures t != "" && Escapes(t, state) && |t| == 1 ==> GoLine(t, state) == (" ", state)
    ensures t != "" && !(Escapes(t, state) && |t| == 1) ==>
      var (n, next) := Step(t, state);
      GoLine(t, state) == (Emit(t, state) + GoLine(t[n..], next).0, GoLine(t[n..], next).1)
  {
  }

  /** Inside a line the lexer's step does not look past it. */
  lemma StepInLine(t: string, rest: string, state: State)
    requires OneLine(t) && t != "" && !(Escapes(t, state) && |t| == 1)
    ensures Step(t + "\n" + rest, state) == Step(t, state) && Emit(t + "\n" + rest, state) == Emit(t, state)
    ensures 0 < Step(t, state).0 <= |t| && |Emit(t, state)| == Step(t, state).0
  {
    var u := t + "\n" + rest;
    assert u[0] == t[0] && (if |t| > 1 then u[1] == t[1] else u[1] == '\n');
  }

  /** Where a line starts in the text. */
  function LineStart(raws: seq<string>, n: nat): nat
    requires n <= |raws|
  {
    if n == 0 then 0 else LineStart(raws, n - 1) + |raws[n - 1]| + 1
  }

  predicate OneLineEach(raws: seq<string>) {
    forall n :: 0 <= n < |raws| ==> OneLine(raws[n])
  }

  lemma {:induction false} PrefixScan(raws: seq<string>, n: nat) returns (head: string)
    requires OneLineEach(raws) && n <= |raws|
    ensures |head| == LineStart(raws, n)
    ensures Scan(Lines(raws), Code) == head + Scan(Lines(raws[n..]), GoBefore(raws, n))
  {
    hide Scan, GoLine;
    if n == 0 {
      head := "";
      assert raws[0..] == raws;
    } else {
      head := PrefixScan(raws, n - 1);
      var t, rest := raws[n - 1], Lines(raws[n..]);
      assert raws[n - 1..][1..] == raws[n..];
      var nl := GoLineScan(t, rest, GoBefore(raws, n - 1));
      var image, after := GoLine(t, GoBefore(raws, n - 1)).0, Scan(rest, GoBefore(raws, n));
      assert head + (image + [nl] + after) == (head + image + [nl]) + after;
      head := head + image + [nl];
    }
  }

  /** The part of the blanked text at a line's own positions is what the lexer makes of it. */
  lemma LineInText(raws: seq<string>, n: nat)
    requires OneLineEach(raws) && n < |raws|
    ensures var out, at := Scan(Lines(raws), Code), LineStart(raws, n);
      at + |raws[n]| <= |out| && out[at..at + |raws[n]|] == GoLine(raws[n], GoBefore(raws, n)).0
  {
    hide Scan, GoLine, LineStart, GoBefore;
    var head := PrefixScan(raws, n);
    var rest := Lines(raws[n..][1..]);
    assert Lines(raws[n..]) == raws[n] + "\n" + rest;
    hide Lines;
    var nl := GoLineScan(raws[n], rest, GoBefore(raws, n));
    Slice(head, GoLine(raws[n], GoBefore(raws, n)).0, [nl], Scan(rest, GoLine(raws[n], GoBefore(raws, n)).1));
  }

  lemma Slice(head: string, image: string, nl: string, rest: string)
    ensures var out := head + (image + nl + rest);
            |head| + |image| <= |out| && out[|head|..|head| + |image|] == image
  {
  }

  // ----- in step

  predicate Literal(state: State) {
    state == Str || state == Raw || state == Rune
  }

  predicate OpensComment(t: string) {
    Pair(t, '/', '/') || Pair(t, '/', '*')
  }

  /** No literal on the line holds what would open a comment. */
  predicate CleanLine(t: string, state: State)
    decreases |t|
  {
    t == "" || (Escapes(t, state) && |t| == 1)
    || (var (n, next) := Step(t, state);
        && (Literal(state) ==> forall i :: 0 <= i < n && i <= |t| ==> !OpensComment(t[i..]))
        && CleanLine(t[n..], next))
  }

  /** The lexer sees code or part of a literal on the line. */
  predicate Substance(t: string, state: State)
    decreases |t|
  {
    t != "" &&
    (if Escapes(t, state) then true
     else
       var (n, next) := Step(t, state);
       (((state == Code && !TakesTwo(t, Code)) || Literal(state)) && !Space(t[0])) || Substance(t[n..], next))
  }

  lemma {:induction false} LineCommentRest(t: string)
    requires OneLine(t)
    ensures !Substance(t, Line) && GoLine(t, Line).1 == Code && AllSpace(GoLine(t, Line).0)
    decreases |t|
  {
    if t != "" {
      LineCommentRest(t[1..]);
    }
  }

  /** Entered in step, a clean line keeps them in step: the scanner sees code exactly where the
      lexer sees code or a literal. */
  lemma {:induction false} LineInStep(t: string, state: State)
    requires OneLine(t) && CleanLine(t, state) && state != Line
    ensures Lex(t, state == Block) == (Substance(t, state), GoLine(t, state).1 == Block)
    ensures GoLine(t, state).1 != Line
    decreases |t|
  {
    if t != "" && !(Escapes(t, state) && |t| == 1) {
      var (n, next) := Step(t, state);
      GoLineStep(t, state);
      if next == Line {
        LineCommentRest(t[n..]);
      } else {
        LineInStep(t[n..], next);
        if Escapes(t, state) {
          EscapeLexed(t);
        } else if Literal(state) {
          assert t[0..] == t;
        }
      }
    } else if t != "" {
      assert t[1..] == "";
    }
  }

  lemma EscapeLexed(t: string)
    requires |t| > 1 && t[0] == '\\' && (forall i :: 0 <= i < 2 && i <= |t| ==> !OpensComment(t[i..]))
    ensures Lex(t, false) == (true, Lex(t[2..], false).1)
  {
    hide Lex;
    assert t[0..] == t && t[1..][1..] == t[2..];
    assert !OpensComment(t[0..]) && !OpensComment(t[1..]);
    LexPlain(t);
    LexPlain(t[1..]);
  }

  lemma LexPlain(t: string)
    requires t != "" && !OpensComment(t)
    ensures Lex(t, false) == (Lex(t[1..], false).0 || !Space(t[0]), Lex(t[1..], false).1)
  {
  }

  /** What the lexer leaves of a line is part of its substance. */
  lemma {:induction false} LeftHasSubstance(t: string, state: State)
    requires OneLine(t) && !AllSpace(GoLine(t, state).0)
    ensures Substance(t, state)
    decreases |t|
  {
    if t != "" && !Escapes(t, state) {
      var (n, next) := Step(t, state);
      GoLineStep(t, state);
      var e, rest := Emit(t, state), GoLine(t[n..], next).0;
      JoinSpace(e, rest);
      if !AllSpace(rest) {
        LeftHasSubstance(t[n..], next);
      }
    }
  }

  lemma JoinSpace(a: string, b: string)
    ensures AllSpace(a + b) <==> AllSpace(a) && AllSpace(b)
  {
    assert forall i :: 0 <= i < |a| ==> (a + b)[i] == a[i];
    assert forall i :: 0 <= i < |b| ==> (a + b)[|a| + i] == b[i];
  }

  predicate CleanBefore(raws: seq<string>, n: nat)
    requires n <= |raws|
  {
    forall m :: 0 <= m < n ==> CleanLine(raws[m], GoBefore(raws, m))
  }

  lemma {:induction false} InStep(raws: seq<string>, n: nat)
    requires OneLineEach(raws) && n <= |raws| && CleanBefore(raws, n)
    ensures OpenBefore(raws, n) == (GoBefore(raws, n) == Block) && GoBefore(raws, n) != Line
  {
    hide GoLine, Lex, CleanLine;
    if n > 0 {
      InStep(raws, n - 1);
      assert CleanLine(raws[n - 1], GoBefore(raws, n - 1));
      LineInStep(raws[n - 1], GoBefore(raws, n - 1));
      TrimLex(raws[n - 1], OpenBefore(raws, n - 1));
    }
  }

  /** On a text whose literals hold no comment opener, a line is left out exactly when the Go
      lexer sees neither code nor literal on it, with two exceptions: switch labels go too, and
      a block comment opened and closed on its line stays. */
  lemma SkippedIffNoCode(raws: seq<string>, n: nat)
    requires OneLineEach(raws) && n < |raws| && CleanBefore(raws, n + 1)
    ensures var line := Trim(raws[n]);
            Skips(line, OpenBefore(raws, n))
            == if Substance(raws[n], GoBefore(raws, n)) then SwitchLabel(line)
               else OpenBefore(raws, n) || OpenBefore(raws, n + 1) || !Pair(line, '/', '*')
  {
    hide GoLine, Lex, CleanLine, Trim, Skips, SwitchLabel, Substance;
    assert CleanBefore(raws, n);
    InStep(raws, n);
    assert CleanLine(raws[n], GoBefore(raws, n));
    LineInStep(raws[n], GoBefore(raws, n));
    TrimLex(raws[n], OpenBefore(raws, n));
    SkippedExactly(raws[n], OpenBefore(raws, n));
  }

  /** Something of the line is left in the blanked text. */
  predicate Left(raws: seq<string>, n: nat)
    requires n < |raws|
  {
    var out, at := Scan(Lines(raws), Code), LineStart(raws, n);
    at + |raws[n]| <= |out| && !AllSpace(out[at..at + |raws[n]|])
  }

  lemma LeftMeans(raws: seq<string>, n: nat)
    requires OneLineEach(raws) && n < |raws|
    ensures Left(raws, n) <==> !AllSpace(GoLine(raws[n], GoBefore(raws, n)).0)
  {
    hide Scan, GoLine;
    LineInText(raws, n);
  }

  /** So no statement is lost there: a line of which the lexer leaves anything is seen as code. */
  lemma LeftIsSeen(raws: seq<string>, n: nat)
    requires OneLineEach(raws) && n < |raws| && CleanBefore(raws, n + 1) && Left(raws, n)
    ensures Lex(raws[n], OpenBefore(raws, n)).0
    ensures Skips(Trim(raws[n]), OpenBefore(raws, n)) ==> SwitchLabel(Trim(raws[n]))
  {
    hide GoLine, Lex, CleanLine, Trim, Scan, SwitchLabel, Substance;
    assert CleanBefore(raws, n);
    InStep(raws, n);
    assert CleanLine(raws[n], GoBefore(raws, n));
    LineInStep(raws[n], GoBefore(raws, n));
    LeftMeans(raws, n);
    LeftHasSubstance(raws[n], GoBefore(raws, n));
    TrimLex(raws[n], OpenBefore(raws, n));
  }

  // ----- which texts are clean

  /** The step of the lexer at every place of a literal, whole texts at once. */
  predicate CleanScan(t: string, state: State)
    decreases |t|
  {
    t == "" ||
    (var (n, next) := Step(t, state);
     && (Literal(state) ==> forall i :: 0 <= i < n && i <= |t| ==> !OpensComment(t[i..]))
     && CleanScan(t[n..], next))
  }

  predicate HoldsOpener(t: string) {
    exists i :: 0 <= i < |t| && OpensComment(t[i..])
  }

  /** No literal region of the text holds a comment opener. */
  predicate LiteralsHoldNone(ps: seq<Piece>) {
    forall p :: p in ps && p.Region? && Literal(p.kind) ==> !HoldsOpener(Body(p.kind, p.atoms, p.closed))
  }

  lemma AtomStep(kind: State, atom: string, following: string)
    requires AtomOk(kind, atom, following)
    ensures Step(atom + following, kind) == (|atom|, kind) && (atom + following)[|atom|..] == following
  {
    var t := atom + following;
    assert t[0] == atom[0];
    assert |atom| == 1 ==> atom == [atom[0]];
  }

  lemma RegionEnd(kind: State, closed: bool, rest: string)
    requires kind != Code && RegionOk(kind, [], closed, rest) && CleanScan(rest, Code)
    ensures CleanScan(Body(kind, [], closed) + rest, kind)
  {
    var t := Body(kind, [], closed) + rest;
    if !closed || kind == Line {
      assert t == rest;
    } else {
      assert t == Closer(kind) + rest && t[|Closer(kind)|..] == rest;
      assert t[0..] == t;
    }
  }

  lemma {:induction false} RegionClean(kind: State, atoms: seq<string>, closed: bool, rest: string)
    requires kind != Code && RegionOk(kind, atoms, closed, rest) && CleanScan(rest, Code)
    requires Literal(kind) ==> !HoldsOpener(Body(kind, atoms, closed))
    ensures CleanScan(Body(kind, atoms, closed) + rest, kind)
    decreases |atoms|
  {
    hide Step, AtomOk, Closer, OpensComment;
    if atoms == [] {
      RegionEnd(kind, closed, rest);
    } else {
      var body, more := Body(kind, atoms, closed), Body(kind, atoms[1..], closed);
      var t := body + rest;
      assert t == atoms[0] + (more + rest);
      AtomStep(kind, atoms[0], more + rest);
      AtomNotEmpty(kind, atoms[0], more + rest);
      if Literal(kind) {
        SuffixHoldsNone(atoms[0], more);
        forall i | 0 <= i < |atoms[0]| && i <= |t|
          ensures !OpensComment(t[i..])
        {
          assert body == atoms[0] + more;
          assert !OpensComment(body[i..]);
          if i == |body| - 1 {
            LastOfBody(kind, atoms, closed, rest);
          }
          PairInBody(body, rest, i);
        }
      }
      RegionClean(kind, atoms[1..], closed, rest);
    }
  }

  lemma AtomNotEmpty(kind: State, atom: string, following: string)
    requires AtomOk(kind, atom, following)
    ensures atom != ""
  {
  }

  lemma SuffixHoldsNone(a: string, b: string)
    requires !HoldsOpener(a + b)
    ensures !HoldsOpener(b)
  {
    forall i | 0 <= i < |b|
      ensures !OpensComment(b[i..])
    {
      assert (a + b)[|a| + i..] == b[i..];
    }
  }

  lemma PairInBody(body: string, rest: string, i: nat)
    requires i < |body| && !OpensComment(body[i..]) && (i == |body| - 1 ==> body[i] != '/' || rest == "")
    ensures !OpensComment((body + rest)[i..])
  {
    var u := (body + rest)[i..];
    assert u[0] == body[i];
    if i < |body| - 1 {
      assert u[1] == body[i + 1];
    } else if rest == "" {
      assert body + rest == body;
    }
  }

  /** The last character of a literal is its closing quote, or the text ends. */
  lemma {:induction false} LastOfBody(kind: State, atoms: seq<string>, closed: bool, rest: string)
    requires Literal(kind) && RegionOk(kind, atoms, closed, rest)
    ensures var body := Body(kind, atoms, closed); body != "" ==> body[|body| - 1] != '/' || rest == ""
    ensures closed ==> Body(kind, atoms, closed) != ""
    decreases |atoms|
  {
    if atoms != [] {
      LastOfBody(kind, atoms[1..], closed, rest);
      if !closed {
        UnclosedEnds(kind, atoms, rest);
      }
    }
  }

  lemma {:induction false} UnclosedEnds(kind: State, atoms: seq<string>, rest: string)
    requires RegionOk(kind, atoms, false, rest) && Literal(kind)
    ensures rest == ""
    decreases |atoms|
  {
    if atoms != [] {
      UnclosedEnds(kind, atoms[1..], rest);
    }
  }

  lemma OpenerStep(kind: State, following: string)
    requires kind != Code
    ensures Step(Opener(kind) + following, Code) == (|Opener(kind)|, kind)
    ensures (Opener(kind) + following)[|Opener(kind)|..] == following && Opener(kind) != ""
  {
  }

  lemma {:induction false} PiecesClean(ps: seq<Piece>)
    requires TextOk(ps) && LiteralsHoldNone(ps)
    ensures CleanScan(Render(ps), Code)
  {
    hide RegionOk, Body, Opener, HoldsOpener, Step;
    if ps != [] {
      var p, rest := ps[0], Render(ps[1..]);
      assert p in ps;
      PiecesClean(ps[1..]);
      match p
      case Plain(c) =>
        PlainStep(c, rest);
      case Region(kind, atoms, closed) =>
        var body := Body(kind, atoms, closed) + rest;
        assert Render(ps) == Opener(kind) + body;
        OpenerStep(kind, body);
        RegionClean(kind, atoms, closed, rest);
    }
  }

  lemma PlainStep(c: char, rest: string)
    requires PieceOk(Plain(c), rest)
    ensures Step([c] + rest, Code) == (1, Code) && ([c] + rest)[1..] == rest
  {
  }

  lemma {:induction false} CleanLineOfScan(t: string, rest: string, state: State)
    requires OneLine(t) && CleanScan(t + "\n" + rest, state)
    ensures CleanLine(t, state) && CleanScan(rest, GoLine(t, state).1)
    decreases |t|
  {
    hide Step, Emit, GoLine, OpensComment;
    var u := t + "\n" + rest;
    GoLineStep(t, state);
    if t == "" || (Escapes(t, state) && |t| == 1) {
      LineEndStep(t, rest, state);
    } else {
      var (n, next) := Step(t, state);
      StepInLine(t, rest, state);
      assert u[n..] == t[n..] + "\n" + rest;
      CleanLineOfScan(t[n..], rest, next);
      if Literal(state) {
        forall i | 0 <= i < n && i <= |t|
          ensures !OpensComment(t[i..])
        {
          assert !OpensComment(u[i..]);
          OpenerInLine(t, rest, i);
        }
      }
    }
  }

  lemma LineEndStep(t: string, rest: string, state: State)
    requires t == "" || (Escapes(t, state) && |t| == 1)
    ensures var u := t + "\n" + rest; var (n, next) := Step(u, state);
            n <= |u| && u[n..] == rest && next == (if state == Line then Code else state)
  {
  }

  lemma OpenerInLine(t: string, rest: string, i: nat)
    requires i <= |t|
    ensures OpensComment(t[i..]) ==> OpensComment((t + "\n" + rest)[i..])
  {
    var u := t + "\n" + rest;
    assert i < |t| ==> u[i..][0] == t[i..][0];
    assert i + 1 < |t| ==> u[i..][1] == t[i..][1];
  }

  lemma {:induction false} CleanLines(raws: seq<string>, n: nat)
    requires OneLineEach(raws) && n <= |raws| && CleanScan(Lines(raws), Code)
    ensures CleanBefore(raws, n) && CleanScan(Lines(raws[n..]), GoBefore(raws, n))
  {
    hide CleanScan, CleanLine, GoLine;
    if n == 0 {
      assert raws[0..] == raws;
    } else {
      CleanLines(raws, n - 1);
      assert raws[n - 1..][1..] == raws[n..];
      CleanLineOfScan(raws[n - 1], Lines(raws[n..]), GoBefore(raws, n - 1));
    }
  }

  /** A Go text none of whose string, raw string or rune literals holds a comment opener: none
      of its lines that the lexer leaves anything of is taken for a comment. */
  lemma NothingHidden(ps: seq<Piece>, raws: seq<string>, n: nat)
    requires TextOk(ps) && LiteralsHoldNone(ps) && Render(ps) == Lines(raws)
    requires OneLineEach(raws) && n < |raws| && Left(raws, n)
    ensures Lex(raws[n], OpenBefore(raws, n)).0
  {
    hide Left, Lex, CleanScan, CleanLine, Lines, LiteralsHoldNone;
    PiecesClean(ps);
    CleanLines(raws, n + 1);
    LeftIsSeen(raws, n);
  }

  // ----- where lines get lost

  /** The lexer leaves something of the line and the scanner sees no code on it. */
  predicate Lost(t: string, state: State, open: bool) {
    !AllSpace(GoLine(t, state).0) && !Lex(t, open).0
  }

  /** The two have parted before the line: it starts inside a literal, or only one of them is
      inside a block comment. */
  predicate Parted(state: State, open: bool) {
    Literal(state) || open != (state == Block)
  }

  /** Where they have not parted no line is lost, whatever its literals hold: a literal's opening
      quote is code already. */
  lemma {:induction false} NotParted(t: string, state: State)
    requires OneLine(t) && (state == Code || state == Block)
    ensures !Lost(t, state, state == Block)
    decreases |t|
  {
    hide GoLine, AllSpace;
    GoLineStep(t, state);
    if t != "" {
      var (n, next) := Step(t, state);
      var rest := GoLine(t[n..], next).0;
      JoinSpace(Emit(t, state), rest);
      EmitSpace(t, state);
      if next == Line {
        LineCommentRest(t[n..]);
      } else if !Literal(next) {
        NotParted(t[n..], next);
      }
    } else {
      NothingIsSpace();
    }
  }

  lemma NothingIsSpace()
    ensures AllSpace("")
  {
  }

  lemma EmitSpace(t: string, state: State)
    requires t != ""
    ensures AllSpace(Emit(t, state)) <==> TakesTwo(t, state) || !KeepsOne(t, state) || Space(t[0])
  {
    assert !TakesTwo(t, state) && KeepsOne(t, state) ==> Emit(t, state)[0] == t[0];
  }

  /** After any text, some next line would be lost if and only if they have parted there. */
  lemma NextLineLostIff(state: State, open: bool)
    requires state != Line
    ensures (exists t :: OneLine(t) && Lost(t, state, open)) <==> Parted(state, open)
  {
    if !Parted(state, open) {
      forall t | OneLine(t)
        ensures !Lost(t, state, open)
      {
        NotParted(t, state);
      }
    } else {
      var t := LostAfter(state, open);
    }
  }

  lemma LostAfter(state: State, open: bool) returns (t: string)
    requires state != Line && Parted(state, open)
    ensures OneLine(t) && Lost(t, state, open)
  {
    hide GoLine, Lex;
    if state == Code {
      t := "y";
      LexOne("y", true);
      LeftFirst("y", Code);
    } else if state == Block {
      t := "//*/y";
      LexComment(t);
      LeftAfterBlock();
    } else {
      var quote := Closer(state);
      t := if open then quote else "/*" + quote;
      if open {
        LexOne(quote, true);
        LeftFirst(quote, state);
      } else {
        LexOne(quote, true);
        LexOpens(quote);
        LeftThird(quote, state);
      }
    }
  }

  lemma LexOne(t: string, open: bool)
    requires |t| == 1
    ensures open ==> Lex(t, open) == (false, true)
  {
    assert t[1..] == "";
  }

  lemma LexComment(t: string)
    requires Pair(t, '/', '/')
    ensures Lex(t, false) == (false, false)
  {
  }

  lemma LexOpens(t: string)
    ensures Lex("/*" + t, false) == Lex(t, true)
  {
    assert ("/*" + t)[2..] == t;
  }

  lemma LeftFirst(t: string, state: State)
    requires |t| == 1 && !Space(t[0]) && t[0] != '\n' && KeepsOne(t, state) && !TakesTwo(t, state)
    ensures !AllSpace(GoLine(t, state).0)
  {
    assert GoLine(t, state).0[0] == t[0];
  }

  lemma LeftThird(quote: string, state: State)
    requires Literal(state) && quote == Closer(state)
    ensures !AllSpace(GoLine("/*" + quote, state).0)
  {
    hide GoLine;
    var a, b := "/*" + quote, "*" + quote;
    assert a[1..] == b && b[1..] == quote;
    LeftFirst(quote, state);
    GoLineStep(a, state);
    GoLineStep(b, state);
    Prepended(" ", GoLine(quote, state).0);
    Prepended(" ", GoLine(b, state).0);
  }

  lemma Prepended(a: string, b: string)
    requires !AllSpace(b)
    ensures !AllSpace(a + b)
  {
    var i :| 0 <= i < |b| && !Space(b[i]);
    assert (a + b)[|a| + i] == b[i];
  }

  lemma LeftAfterBlock()
    ensures !AllSpace(GoLine("//*/y", Block).0)
  {
    hide GoLine;
    var a, b, c := "//*/y", "/*/y", "*/y";
    assert a[1..] == b && b[1..] == c && c[2..] == "y";
    LeftFirst("y", Code);
    GoLineStep(a, Block);
    GoLineStep(b, Block);
    GoLineStep(c, Block);
    Prepended("  ", GoLine("y", Code).0);
    Prepended(" ", GoLine(c, Block).0);
    Prepended(" ", GoLine(b, Block).0);
  }

  /** Of a text's own lines, one is lost only where they had parted before it, and that takes a
      literal with a comment opener on it or on a line above. */
  lemma LostMeansParted(raws: seq<string>, n: nat)
    requires OneLineEach(raws) && n < |raws| && Lost(raws[n], GoBefore(raws, n), OpenBefore(raws, n))
    ensures Parted(GoBefore(raws, n), OpenBefore(raws, n))
    ensures exists m :: 0 <= m <= n && !CleanLine(raws[m], GoBefore(raws, m))
  {
    hide GoLine, Lex, CleanLine;
    NeverLine(raws, n);
    if !Parted(GoBefore(raws, n), OpenBefore(raws, n)) {
      NotParted(raws[n], GoBefore(raws, n));
    }
    if CleanBefore(raws, n + 1) {
      assert CleanBefore(raws, n) && CleanLine(raws[n], GoBefore(raws, n));
      InStep(raws, n);
      LineInStep(raws[n], GoBefore(raws, n));
      LeftHasSubstance(raws[n], GoBefore(raws, n));
    }
  }

  lemma {:induction false} NeverLine(raws: seq<string>, n: nat)
    requires n <= |raws|
    ensures GoBefore(raws, n) != Line
  {
    if n > 0 {
      NeverEndsInLine(raws[n - 1], GoBefore(raws, n - 1));
    }
  }

  lemma {:induction false} NeverEndsInLine(t: string, state: State)
    ensures GoLine(t, state).1 != Line
    decreases |t|
  {
    if t != "" && !(Escapes(t, state) && |t| == 1) {
      var (n, next) := Step(t, state);
      NeverEndsInLine(t[n..], next);
    }
  }

  lemma {:induction false} PlainRun(a: string, b: string)
    requires forall i :: 0 <= i < |a| ==> a[i] != '/' && Opened(a[i]) == Code
    ensures Scan(a + b, Code) == a + Scan(b, Code)
    decreases |a|
  {
    hide Scan;
    if a == "" {
      assert a + b == b;
    } else {
      assert (a + b)[1..] == a[1..] + b;
      PlainRun(a[1..], b);
      ScanOnce(a + b, Code);
      assert a == [a[0]] + a[1..];
    }
  }

  lemma LiteralBlanked(rest: string)
    ensures Scan("\"/*\"" + rest, Code) == "\"  \"" + Scan(rest, Code)
  {
    hide Scan;
    var atoms := ["/", "*"];
    assert atoms[1..] == ["*"] && ["*"][1..] == [];
    assert Body(Str, [], true) == "\"" && BlankBody(Str, [], true) == "\"";
    assert Body(Str, ["*"], true) == "*\"" && BlankBody(Str, ["*"], true) == " \"";
    assert Body(Str, atoms, true) == "/*\"" && BlankBody(Str, atoms, true) == "  \"";
    assert RegionOk(Str, [], true, rest);
    assert RegionOk(Str, ["*"], true, rest);
    OpenerScan(Str, "/*\"" + rest);
    RegionScan(Str, atoms, true, rest);
    assert "\"" + ("/*\"" + rest) == "\"/*\"" + rest;
  }

  lemma OpensInLiteral()
    ensures Lex("x := \"/*\"", false) == (true, true)
  {
    var t := "x := \"/*\"";
    assert t[1..] == ":= \"/*\"" || t[1..] == " := \"/*\"";
    assert t[1..][1..] == t[2..] && t[2..][1..] == t[3..] && t[3..][1..] == t[4..] && t[4..][1..] == t[5..];
    assert t[5..] == "\"/*\"" && t[5..][1..] == "/*\"" && "/*\""[2..] == "\"" && "\""[1..] == "";
    assert Lex("\"", true) == (false, true);
    assert Lex("/*\"", false) == (false, true);
    assert Lex(t[5..], false) == (true, true);
    assert Lex(t[4..], false) == (true, true);
    assert Lex(t[3..], false) == (true, true);
    assert Lex(t[2..], false) == (true, true);
  }

  lemma CallInComment()
    ensures Lex("y()", true) == (false, true)
  {
    assert "y()"[1..] == "()" && "()"[1..] == ")" && ")"[1..] == "";
    assert Lex(")", true) == (false, true);
    assert Lex("()", true) == (false, true);
  }

  lemma LiteralScanned()
    ensures Scan("x := \"/*\"" + "\ny()\n", Code) == "x := \"  \"" + "\ny()\n"
  {
    hide Scan;
    var call := "\ny()\n";
    assert call + "" == call;
    PlainRun(call, "");
    NothingLeft();
    LiteralBlanked(call);
    PlainRun("x := ", "\"/*\"" + call);
    assert "x := " + ("\"/*\"" + call) == "x := \"/*\"" + call;
    assert "x := " + ("\"  \"" + call) == "x := \"  \"" + call;
  }

  lemma TwoLines(a: string, b: string)
    ensures Lines([a, b]) == a + ("\n" + b + "\n")
  {
    assert [a, b][1..] == [b] && [b][1..] == [];
    assert Lines([b]) == b + "\n" + "" == b + "\n";
    assert a + "\n" + (b + "\n") == a + ("\n" + b + "\n");
  }

  /** With a comment opener inside a literal they part: the next line is code to the Go lexer
      and left out as a comment by the scanner. */
  lemma LiteralHidesCode()
    ensures Skips(Trim("y()"), OpenBefore(["x := \"/*\"", "y()"], 1))
    ensures Scan(Lines(["x := \"/*\"", "y()"]), Code) == Lines(["x := \"  \"", "y()"])
  {
    hide Scan, Lex, Trim, Lines;
    TrimLex("x := \"/*\"", false);
    OpensInLiteral();
    CallInComment();
    TrimLex("y()", true);
    LiteralScanned();
    TwoLines("x := \"/*\"", "y()");
    TwoLines("x := \"  \"", "y()");
    assert "\n" + "y()" + "\n" == "\ny()\n";
  }
}
