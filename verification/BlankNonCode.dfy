/** The Go lexer that blanks comments and literals in place (scripts/check_seams.py,
    blank_non_code with blank_strings=True): a `while` loop over positions, refined
    against a grammar of regions. */
module BlankNonCode {

  datatype State = Code | Line | Block | Str | Raw | Rune

  /** The text starts with these two characters. */
  predicate Pair(t: string, a: char, b: char) {
    |t| >= 2 && t[0] == a && t[1] == b
  }

  predicate Escapes(t: string, state: State) {
    (state == Str || state == Rune) && t != "" && t[0] == '\\'
  }

  predicate Closes(c: char, state: State) {
    (state == Str && c == '"') || (state == Rune && c == '\'') || (state == Raw && c == '`')
  }

  function Opened(c: char): State {
    if c == '"' then Str else if c == '`' then Raw else if c == '\'' then Rune else Code
  }

  /** Two characters at once: a comment's opener or closer, or an escape. */
  predicate TakesTwo(t: string, state: State) {
    || (state == Code && (Pair(t, '/', '/') || Pair(t, '/', '*')))
    || (state == Block && Pair(t, '*', '/'))
    || Escapes(t, state)
  }

  /** One character that stays: code, a delimiter, the newline that ends a comment. */
  predicate KeepsOne(t: string, state: State)
    requires t != ""
  {
    state == Code || t[0] == '\n' || Closes(t[0], state)
  }

  function Emit(t: string, state: State): string
    requires t != ""
  {
    if TakesTwo(t, state) then "  " else if KeepsOne(t, state) then [t[0]] else " "
  }

  /** How much text one step takes, and the state after it. */
  function Step(t: string, state: State): (nat, State)
    requires t != ""
  {
    if TakesTwo(t, state) then
      (if |t| == 1 then 1 else 2,
       if state == Code then (if Pair(t, '/', '/') then Line else Block) else if state == Block then Code else state)
    else
      (1, if state == Code then Opened(t[0])
          else if Closes(t[0], state) || (state == Line && t[0] == '\n') then Code
          else state)
  }

  /** The blanked text: one step after another. */
  function Scan(t: string, state: State): string
    decreases |t|
  {
    if t == "" then ""
    else
      var (n, next) := Step(t, state);
      Emit(t, state) + Scan(t[n..], next)
  }

  lemma ScanStep(text: string, i: nat, state: State)
    requires i < |text|
    ensures var (n, next) := Step(text[i..], state);
      i + n <= |text| && Scan(text[i..], state) == Emit(text[i..], state) + Scan(text[i + n..], next)
  {
    var (n, next) := Step(text[i..], state);
    assert text[i..][n..] == text[i + n..];
  }

  // ----- the source's loop

  /** One pass of the loop body. A backslash at the very end takes the index past it. */
  method BlankStep(text: string, i: nat, state: State) returns (piece: string, i': nat, state': State)
    requires i < |text|
    ensures piece == Emit(text[i..], state)
    ensures i' == i + (if TakesTwo(text[i..], state) then 2 else 1)
    ensures state' == Step(text[i..], state).1
  {
    var n, ch := |text|, text[i];
    assert |text[i..]| == n - i && text[i..][0] == ch && (i + 1 < n ==> text[i..][1] == text[i + 1]);
    if state == Code {
      if ch == '/' && i + 1 < n && text[i + 1] == '/' {
        return "  ", i + 2, Line;
      }
      if ch == '/' && i + 1 < n && text[i + 1] == '*' {
        return "  ", i + 2, Block;
      }
      if ch == '"' {
        return [ch], i + 1, Str;
      }
      if ch == '`' {
        return [ch], i + 1, Raw;
      }
      if ch == '\'' {
        return [ch], i + 1, Rune;
      }
      return [ch], i + 1, Code;
    }
    if state == Line {
      if ch == '\n' {
        return [ch], i + 1, Code;
      }
      return " ", i + 1, Line;
    }
    if state == Block {
      if ch == '*' && i + 1 < n && text[i + 1] == '/' {
        return "  ", i + 2, Code;
      }
      return if ch == '\n' then [ch] else " ", i + 1, Block;
    }
    if ch == '\\' && (state == Str || state == Rune) {
      return "  ", i + 2, state;
    }
    if (state == Str && ch == '"') || (state == Rune && ch == '\'') || (state == Raw && ch == '`') {
      return [ch], i + 1, Code;
    }
    return if ch == '\n' then [ch] else " ", i + 1, state;
  }

  method Blank(text: string) returns (out: string)
    ensures out == Scan(text, Code)
  {
    hide Scan, Emit;
    NothingLeft();
    out := "";
    var i, n, state := 0, |text|, Code;
    assert text[0..] == text;
    while i < n
      invariant 0 <= i <= n + 1
      invariant Scan(text, Code) == out + Scan(text[if i <= n then i else n..], state)
    {
      ScanStep(text, i, state);
      var piece;
      piece, i, state := BlankStep(text, i, state);
      out := out + piece;
    }
    assert text[n..] == "";
  }

  lemma NothingLeft()
    ensures forall state :: Scan("", state) == ""
  {
  }

  // ----- length and newlines

  /** The text ends in a literal, on a backslash that escapes nothing. */
  predicate Dangles(t: string, state: State)
    decreases |t|
  {
    t != "" &&
    var (n, next) := Step(t, state);
    if Escapes(t, state) && |t| == 1 then true else Dangles(t[n..], next)
  }

  /** Somewhere in a literal a backslash stands before a newline. */
  predicate EscapesNewline(t: string, state: State)
    decreases |t|
  {
    t != "" &&
    var (n, next) := Step(t, state);
    (Escapes(t, state) && |t| > 1 && t[1] == '\n') || EscapesNewline(t[n..], next)
  }

  /** The length is kept, except that a dangling backslash adds one character. */
  lemma {:induction false} LengthKept(t: string, state: State)
    ensures |Scan(t, state)| == |t| + (if Dangles(t, state) then 1 else 0)
    decreases |t|
  {
    if t != "" {
      var (n, next) := Step(t, state);
      LengthKept(t[n..], next);
    }
  }

  /** One step: a newline it takes stays a newline unless it is escaped. */
  lemma StepNewlines(t: string, state: State)
    requires t != ""
    ensures var n, e := Step(t, state).0, Emit(t, state);
      && n <= |e| && n <= |t|
      && (forall i :: 0 <= i < n ==> e[i] == t[i] || e[i] == ' ')
      && ((forall i :: 0 <= i < n && t[i] == '\n' ==> e[i] == '\n')
          <==> !(Escapes(t, state) && |t| > 1 && t[1] == '\n'))
  {
    if Escapes(t, state) && |t| > 1 && t[1] == '\n' {
      assert Emit(t, state)[1] == ' ';
    }
  }

  ghost predicate KeepsNewlines(t: string, out: string)
    requires |t| <= |out|
  {
    forall i :: 0 <= i < |t| && t[i] == '\n' ==> out[i] == '\n'
  }

  ghost predicate KeepsOrSpaces(t: string, out: string)
    requires |t| <= |out|
  {
    forall i :: 0 <= i < |t| ==> out[i] == t[i] || out[i] == ' '
  }

  lemma JoinNewlines(t: string, n: nat, e: string, rest: string)
    requires n <= |t| && n == |e| && |t| - n <= |rest|
    ensures KeepsNewlines(t, e + rest) <==> KeepsNewlines(t[..n], e) && KeepsNewlines(t[n..], rest)
    ensures KeepsOrSpaces(t, e + rest) <==> KeepsOrSpaces(t[..n], e) && KeepsOrSpaces(t[n..], rest)
  {
    var out := e + rest;
    assert forall i :: 0 <= i < n ==> out[i] == e[i] && t[..n][i] == t[i];
    assert forall i :: n <= i < |t| ==> out[i] == rest[i - n] && t[n..][i - n] == t[i];
    assert forall i :: 0 <= i < |t[n..]| ==> t[n..][i] == t[n + i] && rest[i] == out[n + i];
  }

  /** Every position keeps its character or becomes a space, so no newline appears; and
      every newline stays, exactly when no literal escapes one. */
  lemma {:induction false} NewlinesKept(t: string, state: State)
    ensures |Scan(t, state)| >= |t|
    ensures KeepsOrSpaces(t, Scan(t, state))
    ensures KeepsNewlines(t, Scan(t, state)) <==> !EscapesNewline(t, state)
    decreases |t|
  {
    if t != "" {
      var (n, next) := Step(t, state);
      NewlinesKept(t[n..], next);
      StepNewlines(t, state);
      if n == |Emit(t, state)| {
        JoinNewlines(t, n, Emit(t, state), Scan(t[n..], next));
      } else {
        assert t[n..] == "";
      }
    }
  }

  // ----- idempotence

  /** The state in which blanked text is read again: comments have become code. */
  function Reread(state: State): State {
    if state == Line || state == Block then Code else state
  }

  lemma CharAgain(c: char, rest: string, state: State)
    requires !TakesTwo([c] + rest, state) && KeepsOne([c] + rest, state)
    ensures Scan([c] + rest, state) == [c] + Scan(rest, Step([c] + rest, state).1)
  {
    assert ([c] + rest)[1..] == rest;
  }

  /** A space or a newline is itself again in any state but Line. */
  lemma SpaceAgain(c: char, rest: string, state: State)
    requires (c == ' ' || c == '\n') && state != Line && state != Block
    ensures Scan([c] + rest, state) == [c] + Scan(rest, state)
  {
    assert ([c] + rest)[1..] == rest;
  }

  lemma TwoSpaces(rest: string, state: State)
    requires state != Line && state != Block
    ensures Scan("  " + rest, state) == "  " + Scan(rest, state)
  {
    assert "  " + rest == [' '] + ([' '] + rest);
    SpaceAgain(' ', [' '] + rest, state);
    SpaceAgain(' ', rest, state);
  }

  /** A slash that opens no comment opens none once what follows it is blanked. */
  lemma SlashAgain(t: string)
    requires t != "" && !TakesTwo(t, Code)
    ensures !TakesTwo([t[0]] + Scan(t[1..], Opened(t[0])), Code)
  {
    if t[0] == '/' && |t| > 1 {
      assert Scan(t[1..], Code)[0] == t[1] || Scan(t[1..], Code)[0] == ' ';
    }
  }

  /** Blanking is idempotent, on every text. */
  lemma {:induction false} BlankTwice(t: string, state: State)
    ensures Scan(Scan(t, state), Reread(state)) == Scan(t, state)
    decreases |t|
  {
    if t != "" {
      var (n, next) := Step(t, state);
      var rest := Scan(t[n..], next);
      BlankTwice(t[n..], next);
      if TakesTwo(t, state) {
        TwoSpaces(rest, Reread(state));
      } else if state == Code {
        SlashAgain(t);
        CharAgain(t[0], rest, Code);
      } else if Closes(t[0], state) {
        CharAgain(t[0], rest, state);
      } else {
        SpaceAgain(Emit(t, state)[0], rest, Reread(state));
      }
    }
  }

  // ----- the grammar

  /** A Go text is code characters and regions. A region's atoms are its characters, an
      escape counting as one; only the last region of a text may be unclosed. */
  datatype Piece = Plain(c: char) | Region(kind: State, atoms: seq<string>, closed: bool)

  function Opener(kind: State): string {
    match kind
    case Code => ""
    case Line => "//"
    case Block => "/*"
    case Str => "\""
    case Raw => "`"
    case Rune => "'"
  }

  function Closer(kind: State): string {
    match kind
    case Code => ""
    case Line => ""
    case Block => "*/"
    case Str => "\""
    case Raw => "`"
    case Rune => "'"
  }

  /** A region from its first atom on. */
  function Body(kind: State, atoms: seq<string>, closed: bool): string {
    if atoms == [] then (if closed then Closer(kind) else "") else atoms[0] + Body(kind, atoms[1..], closed)
  }

  /** An escape blanks to two spaces, also where it escapes nothing; a newline stays. */
  function BlankAtom(kind: State, atom: string): string {
    if (kind == Str || kind == Rune) && atom != "" && atom[0] == '\\' then "  "
    else if atom == "\n" then "\n"
    else " "
  }

  /** Comment delimiters are blanked with the comment; literal delimiters stay. */
  function BlankBody(kind: State, atoms: seq<string>, closed: bool): string {
    if atoms == [] then (if !closed then "" else if kind == Block then "  " else Closer(kind))
    else BlankAtom(kind, atoms[0]) + BlankBody(kind, atoms[1..], closed)
  }

  /** Either an escape, one character after the backslash or none at the end of the text, or one
      character that does not close the region. */
  predicate AtomOk(kind: State, atom: string, following: string) {
    match kind
    case Code => false
    case Line => |atom| == 1 && atom[0] != '\n'
    case Block => |atom| == 1 && !(atom[0] == '*' && following != "" && following[0] == '/')
    case Raw => |atom| == 1 && atom[0] != '`'
    case Str =>
      if atom != "" && atom[0] == '\\' then |atom| == 2 || (|atom| == 1 && following == "")
      else |atom| == 1 && atom[0] != '"'
    case Rune =>
      if atom != "" && atom[0] == '\\' then |atom| == 2 || (|atom| == 1 && following == "")
      else |atom| == 1 && atom[0] != '\''
  }

  predicate RegionOk(kind: State, atoms: seq<string>, closed: bool, rest: string) {
    if atoms == [] then
      && (kind == Line ==> closed && (rest == "" || rest[0] == '\n'))
      && (!closed ==> rest == "")
    else AtomOk(kind, atoms[0], Body(kind, atoms[1..], closed) + rest) && RegionOk(kind, atoms[1..], closed, rest)
  }

  function RenderPiece(p: Piece): string {
    match p
    case Plain(c) => [c]
    case Region(kind, atoms, closed) => Opener(kind) + Body(kind, atoms, closed)
  }

  function BlankPiece(p: Piece): string {
    match p
    case Plain(c) => [c]
    case Region(kind, atoms, closed) =>
      (if kind == Line || kind == Block then "  " else Opener(kind)) + BlankBody(kind, atoms, closed)
  }

  predicate PieceOk(p: Piece, rest: string) {
    match p
    case Plain(c) =>
      && c != '"' && c != '`' && c != '\''
      && !(c == '/' && rest != "" && (rest[0] == '/' || rest[0] == '*'))
    case Region(kind, atoms, closed) => kind != Code && RegionOk(kind, atoms, closed, rest)
  }

  function Render(ps: seq<Piece>): string {
    if ps == [] then "" else RenderPiece(ps[0]) + Render(ps[1..])
  }

  function Blanked(ps: seq<Piece>): string {
    if ps == [] then "" else BlankPiece(ps[0]) + Blanked(ps[1..])
  }

  predicate TextOk(ps: seq<Piece>) {
    ps == [] || (PieceOk(ps[0], Render(ps[1..])) && TextOk(ps[1..]))
  }

  lemma AtomScan(kind: State, atom: string, following: string)
    requires AtomOk(kind, atom, following)
    ensures Scan(atom + following, kind) == BlankAtom(kind, atom) + Scan(following, kind)
  {
    var t := atom + following;
    assert t[0] == atom[0] && t[|atom|..] == following;
    assert |atom| == 1 ==> atom == [atom[0]];
  }

  lemma {:induction false} RegionScan(kind: State, atoms: seq<string>, closed: bool, rest: string)
    requires kind != Code && RegionOk(kind, atoms, closed, rest)
    ensures Scan(Body(kind, atoms, closed) + rest, kind) == BlankBody(kind, atoms, closed) + Scan(rest, Code)
    decreases |atoms|
  {
    hide Scan, AtomOk, BlankAtom, Closer;
    if atoms == [] {
      CloserScan(kind, closed, rest);
    } else {
      var following := Body(kind, atoms[1..], closed) + rest;
      assert Body(kind, atoms, closed) + rest == atoms[0] + following;
      assert BlankBody(kind, atoms, closed) == BlankAtom(kind, atoms[0]) + BlankBody(kind, atoms[1..], closed);
      AtomScan(kind, atoms[0], following);
      RegionScan(kind, atoms[1..], closed, rest);
    }
  }

  lemma CloserScan(kind: State, closed: bool, rest: string)
    requires kind != Code && RegionOk(kind, [], closed, rest)
    ensures Scan(Body(kind, [], closed) + rest, kind) == BlankBody(kind, [], closed) + Scan(rest, Code)
  {
    if !closed || kind == Line {
      assert Body(kind, [], closed) + rest == rest;
    } else {
      var t := Closer(kind) + rest;
      assert t[|Closer(kind)|..] == rest;
    }
  }

  lemma OpenerScan(kind: State, following: string)
    requires kind != Code
    ensures Scan(Opener(kind) + following, Code)
         == (if kind == Line || kind == Block then "  " else Opener(kind)) + Scan(following, kind)
  {
    var t := Opener(kind) + following;
    assert t[|Opener(kind)|..] == following;
  }

  lemma PlainScan(c: char, rest: string)
    requires PieceOk(Plain(c), rest)
    ensures Scan([c] + rest, Code) == [c] + Scan(rest, Code)
  {
    CharAgain(c, rest, Code);
  }

  /** The lexer refines the grammar: however a text is made of pieces, blanking it
      blanks each piece. Code and literal delimiters stay; every other character of a
      comment or a literal becomes a space, unescaped newlines excepted. */
  lemma {:induction false} BlanksEachPiece(ps: seq<Piece>)
    requires TextOk(ps)
    ensures Scan(Render(ps), Code) == Blanked(ps)
  {
    hide Scan, PieceOk, RenderPiece, BlankPiece;
    NothingLeft();
    if ps != [] {
      BlanksEachPiece(ps[1..]);
      PieceScan(ps[0], Render(ps[1..]));
    }
  }

  lemma PieceScan(p: Piece, rest: string)
    requires PieceOk(p, rest)
    ensures Scan(RenderPiece(p) + rest, Code) == BlankPiece(p) + Scan(rest, Code)
  {
    hide Scan, RegionOk, Body, BlankBody, Opener;
    match p
    case Plain(c) =>
      PlainScan(c, rest);
    case Region(kind, atoms, closed) =>
      assert RenderPiece(p) + rest == Opener(kind) + (Body(kind, atoms, closed) + rest);
      OpenerScan(kind, Body(kind, atoms, closed) + rest);
      RegionScan(kind, atoms, closed, rest);
  }

  /** The first atom of a region that does not close here. */
  lemma FirstAtom(kind: State, t: string) returns (n: nat)
    requires kind != Code && t != ""
    requires !(kind == Line && t[0] == '\n') && !(kind == Block && Pair(t, '*', '/'))
    requires Escapes(t, kind) || !Closes(t[0], kind)
    ensures 1 <= n <= |t| && AtomOk(kind, t[..n], t[n..])
  {
    n := if Escapes(t, kind) && |t| > 1 then 2 else 1;
    assert t[..n] + t[n..] == t;
  }

  lemma {:induction false} TakeRegion(kind: State, t: string) returns (atoms: seq<string>, closed: bool, rest: string)
    requires kind != Code
    ensures Body(kind, atoms, closed) + rest == t && RegionOk(kind, atoms, closed, rest) && |rest| <= |t|
    decreases |t|
  {
    if t == "" {
      atoms, closed, rest := [], kind == Line, "";
    } else if kind == Line && t[0] == '\n' {
      atoms, closed, rest := [], true, t;
    } else if kind == Block && Pair(t, '*', '/') {
      atoms, closed, rest := [], true, t[2..];
    } else if !Escapes(t, kind) && Closes(t[0], kind) {
      atoms, closed, rest := [], true, t[1..];
    } else {
      var n := FirstAtom(kind, t);
      var more, shut, after := TakeRegion(kind, t[n..]);
      RegionCons(kind, t[..n], more, shut, after);
      atoms, closed, rest := [t[..n]] + more, shut, after;
      assert t[..n] + t[n..] == t;
    }
  }

  lemma RegionCons(kind: State, atom: string, more: seq<string>, closed: bool, rest: string)
    requires RegionOk(kind, more, closed, rest) && AtomOk(kind, atom, Body(kind, more, closed) + rest)
    ensures RegionOk(kind, [atom] + more, closed, rest)
    ensures Body(kind, [atom] + more, closed) + rest == atom + (Body(kind, more, closed) + rest)
  {
    assert ([atom] + more)[1..] == more;
  }

  lemma PiecesCons(p: Piece, more: seq<Piece>)
    requires TextOk(more) && PieceOk(p, Render(more))
    ensures TextOk([p] + more) && Render([p] + more) == RenderPiece(p) + Render(more)
  {
    assert ([p] + more)[1..] == more;
  }

  /** Where code opens a region, its opener is what the step takes. */
  lemma Opening(t: string) returns (kind: State, after: string)
    requires t != "" && (TakesTwo(t, Code) || Opened(t[0]) != Code)
    ensures kind != Code && t == Opener(kind) + after && |after| < |t|
  {
    kind := Step(t, Code).1;
    after := t[if TakesTwo(t, Code) then 2 else 1..];
  }

  /** Every text is made of pieces, so the refinement speaks of every text. */
  lemma {:induction false} EveryTextHasPieces(t: string) returns (ps: seq<Piece>)
    ensures TextOk(ps) && Render(ps) == t
    decreases |t|
  {
    hide TextOk, RegionOk, Body, Opener, TakesTwo, Opened;
    if t == "" {
      ps := [];
      NoPieces();
    } else if TakesTwo(t, Code) || Opened(t[0]) != Code {
      var kind, after := Opening(t);
      var atoms, closed, rest := TakeRegion(kind, after);
      var more := EveryTextHasPieces(rest);
      PiecesCons(Region(kind, atoms, closed), more);
      ps := [Region(kind, atoms, closed)] + more;
      assert Render(ps) == Opener(kind) + (Body(kind, atoms, closed) + rest);
    } else {
      assert [t[0]] + t[1..] == t;
      var more := EveryTextHasPieces(t[1..]);
      PlainOk(t);
      PiecesCons(Plain(t[0]), more);
      ps := [Plain(t[0])] + more;
    }
  }

  lemma PlainOk(t: string)
    requires t != "" && !TakesTwo(t, Code) && Opened(t[0]) == Code
    ensures PieceOk(Plain(t[0]), t[1..])
  {
  }

  lemma NoPieces()
    ensures TextOk([]) && Render([]) == ""
  {
  }
}
