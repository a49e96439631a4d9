/** The guard against skipped Git hooks (scripts/agent_hook_guard.py): index loops over an
    argument vector, proved to read it as a small grammar of commands and options. */
module HookGuard {
  import opened Basics

  predicate Dashed(t: string) {
    t != "" && t[0] == '-'
  }

  // ----- the grammar of a command's arguments

  /** One option or word, with the element it consumes. A `value` is one element, or none
      when the option ends the vector. */
  datatype Item =
    | Word(token: string)
    | Long(token: string)
    | LongValue(token: string, value: seq<string>)
    | Letters(flags: string)
    | Attached(flags: string, letter: char, rest: string)
    | LetterValue(flags: string, letter: char, value: seq<string>)
    | EndOfOptions(data: seq<string>)

  predicate TakesValue(t: string) {
    t in {"-m", "-F", "-C", "--message", "--file", "--reuse-message", "--reedit-message"}
  }

  predicate ValueLetter(c: char) {
    c == 'm' || c == 'F' || c == 'C'
  }

  predicate NoValueLetter(flags: string) {
    forall k :: 0 <= k < |flags| ==> !ValueLetter(flags[k])
  }

  predicate NoDash(data: seq<string>) {
    forall k :: 0 <= k < |data| ==> !Dashed(data[k])
  }

  predicate LongToken(t: string) {
    |t| > 2 && t[0] == '-' && t[1] == '-'
  }

  function First(item: Item): string {
    match item
    case Word(token) => token
    case Long(token) => token
    case LongValue(token, _) => token
    case Letters(flags) => "-" + flags
    case Attached(flags, letter, rest) => "-" + (flags + [letter] + rest)
    case LetterValue(flags, letter, _) => "-" + (flags + [letter])
    case EndOfOptions(_) => "--"
  }

  function Consumed(item: Item): seq<string> {
    match item
    case LongValue(_, value) => value
    case LetterValue(_, _, value) => value
    case EndOfOptions(data) => data
    case _ => []
  }

  function Render(item: Item): seq<string> {
    [First(item)] + Consumed(item)
  }

  predicate Valid(item: Item) {
    match item
    case Word(token) => !Dashed(token) || token == "-"
    case Long(token) => LongToken(token) && !TakesValue(token)
    case LongValue(token, value) => LongToken(token) && TakesValue(token) && |value| <= 1
    case Letters(flags) => flags != "" && flags[0] != '-' && NoValueLetter(flags)
    case Attached(flags, letter, rest) =>
      NoValueLetter(flags) && ValueLetter(letter) && rest != "" && (flags != "" ==> flags[0] != '-')
    case LetterValue(flags, letter, value) =>
      NoValueLetter(flags) && ValueLetter(letter) && |value| <= 1 && (flags != "" ==> flags[0] != '-')
    case EndOfOptions(data) => NoDash(data)
  }

  /** `rest` may follow: a value is missing only at the end, positional data stop only there
      or at a dash. */
  predicate MayPrecede(item: Item, rest: seq<string>) {
    match item
    case LongValue(_, value) => rest != [] ==> |value| == 1
    case LetterValue(_, _, value) => rest != [] ==> |value| == 1
    case EndOfOptions(_) => rest != [] ==> Dashed(rest[0])
    case _ => true
  }

  function RenderAll(items: seq<Item>): seq<string> {
    if items == [] then [] else Render(items[0]) + RenderAll(items[1..])
  }

  predicate WellFormed(items: seq<Item>) {
    items == []
    || (Valid(items[0]) && MayPrecede(items[0], RenderAll(items[1..])) && WellFormed(items[1..]))
  }

  // ----- reading the grammar

  function DataLength(s: seq<string>): (k: nat)
    ensures k <= |s| && NoDash(s[..k]) && (k < |s| ==> Dashed(s[k]))
  {
    if s == [] || Dashed(s[0]) then 0
    else
      var k := DataLength(s[1..]);
      assert s[..k + 1] == [s[0]] + s[1..][..k];
      k + 1
  }

  function FlagLength(body: string): (k: nat)
    ensures k <= |body| && NoValueLetter(body[..k]) && (k < |body| ==> ValueLetter(body[k]))
  {
    if body == "" || ValueLetter(body[0]) then 0
    else
      var k := FlagLength(body[1..]);
      assert body[..k + 1] == [body[0]] + body[1..][..k];
      k + 1
  }

  function Next(s: seq<string>): seq<string>
    requires s != []
  {
    if |s| > 1 then [s[1]] else []
  }

  predicate BundleToken(t: string) {
    |t| > 1 && t[0] == '-' && t[1] != '-'
  }

  function Bundle(body: string, next: seq<string>): Item {
    var k := FlagLength(body);
    if k == |body| then Letters(body)
    else if k + 1 < |body| then Attached(body[..k], body[k], body[k + 1..])
    else LetterValue(body[..k], body[k], next)
  }

  lemma BundleRenders(body: string, next: seq<string>)
    requires body != "" && body[0] != '-' && |next| <= 1
    ensures var item := Bundle(body, next);
            && Valid(item) && First(item) == "-" + body
            && !item.EndOfOptions? && !item.LongValue? && Consumed(item) == if item.LetterValue? then next else []
  {
    var k := FlagLength(body);
    if k < |body| {
      assert body == body[..k] + [body[k]] + body[k + 1..];
      assert body[..k] != "" ==> body[..k][0] == body[0];
      if k + 1 == |body| {
        assert body == body[..k] + [body[k]];
      }
    }
  }

  function Head(s: seq<string>): Item
    requires s != []
  {
    var t := s[0];
    if t == "--" then EndOfOptions(s[1..][..DataLength(s[1..])])
    else if LongToken(t) then if TakesValue(t) then LongValue(t, Next(s)) else Long(t)
    else if BundleToken(t) then Bundle(t[1..], Next(s))
    else Word(t)
  }

  lemma HeadRenders(s: seq<string>)
    requires s != []
    ensures var item := Head(s); var n := |Render(item)|;
            && Valid(item) && n <= |s| && Render(item) == s[..n] && MayPrecede(item, s[n..])
  {
    hide TakesValue, Bundle, DataLength;
    var t := s[0];
    var item := Head(s);
    assert t == "--" <==> |t| == 2 && t[0] == '-' && t[1] == '-';
    if BundleToken(t) {
      assert t == "-" + t[1..];
      BundleRenders(t[1..], Next(s));
    }
    assert First(item) == t;
    assert Consumed(item) == s[1..][..|Consumed(item)|];
    var n := 1 + |Consumed(item)|;
    assert n < |s| ==> s[n..][0] == s[1..][n - 1];
  }

  function Parse(s: seq<string>): seq<Item> {
    if s == [] then []
    else
      HeadRenders(s);
      [Head(s)] + Parse(s[|Render(Head(s))|..])
  }

  /** Every vector is a sentence of the grammar. */
  lemma {:induction false} ParseRenders(s: seq<string>)
    ensures WellFormed(Parse(s)) && RenderAll(Parse(s)) == s
    decreases |s|
  {
    hide Head, Valid, MayPrecede, Consumed, First;
    if s != [] {
      HeadRenders(s);
      var n := |Render(Head(s))|;
      ParseRenders(s[n..]);
      assert s == s[..n] + s[n..];
      assert Parse(s)[1..] == Parse(s[n..]);
    }
  }

  lemma {:induction false} FlagLengthIs(flags: string, rest: string)
    requires NoValueLetter(flags) && (rest != "" ==> ValueLetter(rest[0]))
    ensures FlagLength(flags + rest) == |flags|
  {
    if flags == "" {
      assert flags + rest == rest;
    } else {
      assert (flags + rest)[1..] == flags[1..] + rest;
      FlagLengthIs(flags[1..], rest);
    }
  }

  lemma {:induction false} DataLengthIs(data: seq<string>, rest: seq<string>)
    requires NoDash(data) && (rest != [] ==> Dashed(rest[0]))
    ensures DataLength(data + rest) == |data|
  {
    if data == [] {
      assert data + rest == rest;
    } else {
      assert (data + rest)[1..] == data[1..] + rest;
      DataLengthIs(data[1..], rest);
    }
  }

  lemma BundleAt(body: string, k: nat, next: seq<string>)
    requires k <= |body| && NoValueLetter(body[..k]) && (k < |body| ==> ValueLetter(body[k]))
    ensures Bundle(body, next) == if k == |body| then Letters(body)
                                  else if k + 1 < |body| then Attached(body[..k], body[k], body[k + 1..])
                                  else LetterValue(body[..k], body[k], next)
  {
    FlagLengthIs(body[..k], body[k..]);
    assert body[..k] + body[k..] == body;
  }

  lemma BundleOf(item: Item, next: seq<string>)
    requires Valid(item) && (item.Letters? || item.Attached? || (item.LetterValue? && item.value == next))
    ensures Bundle(First(item)[1..], next) == item && BundleToken(First(item))
  {
    hide Bundle;
    var body := First(item)[1..];
    var k := |item.flags|;
    assert k > 0 ==> body[0] == item.flags[0];
    assert body[..k] == item.flags;
    assert item.Letters? ==> body == item.flags;
    assert item.Attached? ==> body[k] == item.letter && body[k + 1..] == item.rest;
    assert item.LetterValue? ==> body[k] == item.letter && |body| == k + 1;
    BundleAt(body, k, next);
  }

  lemma HeadOf(item: Item, rest: seq<string>)
    requires Valid(item) && MayPrecede(item, rest)
    ensures Head(Render(item) + rest) == item
  {
    hide TakesValue, Bundle, DataLength;
    var s := Render(item) + rest;
    var t := First(item);
    assert s[0] == t && s[1..] == Consumed(item) + rest;
    if item.EndOfOptions? {
      DataLengthIs(item.data, rest);
    } else if item.Letters? || item.Attached? || item.LetterValue? {
      assert item.LetterValue? ==> Next(s) == item.value;
      BundleOf(item, Next(s));
      assert t != "--" && !LongToken(t);
    } else {
      assert item.LongValue? ==> Next(s) == item.value;
      assert t != "--" && !BundleToken(t);
    }
  }

  /** The grammar is unambiguous: a vector is a sentence in exactly one way. */
  lemma {:induction false} ParseUnique(items: seq<Item>)
    requires WellFormed(items)
    ensures Parse(RenderAll(items)) == items
    decreases |items|
  {
    if items != [] {
      var rest := RenderAll(items[1..]);
      HeadOf(items[0], rest);
      ParseUnique(items[1..]);
      var s := Render(items[0]) + rest;
      assert s[|Render(items[0])|..] == rest;
      assert items == [items[0]] + items[1..];
    }
  }

  // ----- what a sentence means to the guard

  function Dashes(flags: string): seq<string> {
    seq(|flags|, k requires 0 <= k < |flags| => ['-', flags[k]])
  }

  /** The tokens an item can bypass a hook with. No value and no data appears in them. */
  function Meaning(item: Item): seq<string> {
    match item
    case Letters(flags) => Dashes(flags)
    case Attached(flags, letter, _) => Dashes(flags) + [['-', letter]]
    case LetterValue(flags, letter, _) => Dashes(flags) + [['-', letter]]
    case EndOfOptions(_) => ["--"]
    case _ => [item.token]
  }

  function MeaningAll(items: seq<Item>): seq<string> {
    if items == [] then [] else Meaning(items[0]) + MeaningAll(items[1..])
  }

  method ScanBundle(body: string) returns (flags: seq<string>, consumedNext: bool)
    ensures var k := FlagLength(body);
            && flags == Dashes(body[..k]) + (if k < |body| then [['-', body[k]]] else [])
            && consumedNext == (k + 1 == |body|)
  {
    flags, consumedNext := [], false;
    var j := 0;
    ghost var k := FlagLength(body);
    while j < |body|
      invariant 0 <= j <= |body|
      invariant j <= k ==> flags == Dashes(body[..j]) && !consumedNext
      invariant j > k ==> j == |body| && flags == Dashes(body[..k]) + [['-', body[k]]]
      invariant j > k ==> consumedNext == (k + 1 == |body|)
    {
      var c := body[j];
      FlagLengthIs(body[..k], body[k..]);
      assert j < k ==> c == body[..k][j];
      if c == 'n' {
        flags := flags + ["-n"];
        j := j + 1;
      } else if ValueLetter(c) {
        flags := flags + [['-', c]];
        consumedNext := j + 1 >= |body|;
        j := |body|;
      } else {
        flags := flags + [['-', c]];
        j := j + 1;
      }
    }
    assert body[..|body|] == body;
  }

  /** One turn of the scan: the tokens element `i` gives, and how far the index moves. */
  method ScanElement(segment: seq<string>, i: nat) returns (tokens: seq<string>, step: nat)
    requires i < |segment|
    ensures var item := Head(segment[i..]);
            && tokens == Meaning(item) && step > 0
            && (if i + step < |segment| then i + step else |segment|) == i + |Render(item)|
  {
    hide TakesValue, DataLength;
    var t, n := segment[i], |segment|;
    ghost var rest := segment[i..];
    assert t == "--" <==> |t| == 2 && t[0] == '-' && t[1] == '-';
    if t == "--" {
      var e := i + 1;
      while e < n && !Dashed(segment[e])
        invariant i + 1 <= e <= n && NoDash(segment[i + 1..e])
      {
        assert segment[i + 1..e + 1] == segment[i + 1..e] + [segment[e]];
        e := e + 1;
      }
      DataLengthIs(segment[i + 1..e], segment[e..]);
      assert segment[i + 1..e] + segment[e..] == rest[1..];
      return ["--"], e - i;
    }
    if |t| > 2 && t[0] == '-' && t[1] == '-' {
      return [t], if TakesValue(t) then 2 else 1;
    }
    if |t| > 1 && t[0] == '-' && t[1] != '-' {
      var consumedNext;
      tokens, consumedNext := ScanBundle(t[1..]);
      return tokens, if consumedNext then 2 else 1;
    }
    return [t], 1;
  }

  method ScanSegment(segment: seq<string>) returns (vec: seq<string>)
    ensures vec == MeaningAll(Parse(segment))
  {
    hide Meaning, Head, Render;
    vec := [];
    var i, n := 0, |segment|;
    while i < n
      invariant 0 <= i
      invariant vec + MeaningAll(Parse(segment[if i < n then i else n..])) == MeaningAll(Parse(segment))
    {
      var tokens, step := ScanElement(segment, i);
      HeadRenders(segment[i..]);
      ghost var m := i + |Render(Head(segment[i..]))|;
      assert segment[i..][m - i..] == segment[m..];
      ParseStep(segment[i..]);
      vec := vec + tokens;
      i := i + step;
    }
  }

  lemma ParseStep(s: seq<string>)
    requires s != []
    ensures |Render(Head(s))| <= |s|
    ensures MeaningAll(Parse(s)) == Meaning(Head(s)) + MeaningAll(Parse(s[|Render(Head(s))|..]))
  {
    hide Meaning, Head, Render;
    HeadRenders(s);
    assert Parse(s)[1..] == Parse(s[|Render(Head(s))|..]);
  }

  // ----- where a flag can hide

  function FlagsOf(item: Item): string {
    if item.Letters? || item.Attached? || item.LetterValue? then item.flags else ""
  }

  /** Some bundle holds an `n` before any letter that takes a value. */
  predicate NFlag(items: seq<Item>) {
    exists k :: 0 <= k < |items| && 'n' in FlagsOf(items[k])
  }

  lemma DashNInItem(item: Item)
    requires Valid(item)
    ensures "-n" in Meaning(item) <==> 'n' in FlagsOf(item)
  {
    var flags := FlagsOf(item);
    assert forall k :: 0 <= k < |flags| ==> Dashes(flags)[k][1] == flags[k];
    if 'n' in flags {
      var k :| 0 <= k < |flags| && flags[k] == 'n';
      assert Dashes(flags)[k] == "-n";
      assert Meaning(item)[k] == "-n";
    }
  }

  lemma {:induction false} DashNIff(items: seq<Item>)
    requires WellFormed(items)
    ensures "-n" in MeaningAll(items) <==> NFlag(items)
  {
    hide Meaning, FlagsOf, Valid;
    if items != [] {
      DashNInItem(items[0]);
      DashNIff(items[1..]);
      if NFlag(items[1..]) {
        var k :| 0 <= k < |items[1..]| && 'n' in FlagsOf(items[1..][k]);
        assert items[k + 1] == items[1..][k];
      }
      if NFlag(items) && 'n' !in FlagsOf(items[0]) {
        var k :| 0 <= k < |items| && 'n' in FlagsOf(items[k]);
        assert items[1..][k - 1] == items[k];
      }
    }
  }

  /** An item as the guard sees it: a bundle is one option per letter, in order, up to the one
      that takes a value; anything else is its own first token as written. */
  lemma MeaningExactly(item: Item)
    ensures var m := Meaning(item);
      if item.Letters? || item.Attached? || item.LetterValue? then
        var letters := if item.Letters? then item.flags else item.flags + [item.letter];
        |m| == |letters| && forall k :: 0 <= k < |letters| ==> m[k] == ['-', letters[k]]
      else m == [First(item)]
  {
  }

  lemma OneMeaning(item: Item)
    ensures MeaningAll([item]) == Meaning(item)
  {
    hide Meaning;
    assert [item][1..] == [];
  }

  /** A vector is read item by item, in order, and nothing comes from anywhere else. */
  lemma {:induction false} MeaningInOrder(a: seq<Item>, b: seq<Item>)
    ensures MeaningAll(a + b) == MeaningAll(a) + MeaningAll(b)
    ensures |a| == 1 ==> MeaningAll(a) == Meaning(a[0])
    decreases |a|
  {
    hide Meaning;
    if a == [] {
      assert a + b == b;
    } else {
      OneMeaning(a[0]);
      assert |a| == 1 ==> a == [a[0]];
      assert (a + b)[1..] == a[1..] + b;
      MeaningInOrder(a[1..], b);
    }
  }

  lemma {:induction false} InScanIff(items: seq<Item>, t: string)
    ensures t in MeaningAll(items) <==> exists k :: 0 <= k < |items| && t in Meaning(items[k])
  {
    hide Meaning;
    if items != [] {
      InScanIff(items[1..], t);
      if k :| 0 <= k < |items[1..]| && t in Meaning(items[1..][k]) {
        assert items[k + 1] == items[1..][k];
      }
      if k :| 0 <= k < |items| && t in Meaning(items[k]) {
        assert k > 0 ==> items[1..][k - 1] == items[k];
      }
    }
  }

  /** A long option is in the scan exactly when it stands in the vector as an option. */
  lemma LongInScanIff(items: seq<Item>, t: string)
    requires WellFormed(items) && LongToken(t)
    ensures t in MeaningAll(items) <==>
              exists k :: 0 <= k < |items| && (items[k] == Long(t) || (items[k].LongValue? && items[k].token == t))
  {
    InScanIff(items, t);
    forall k | 0 <= k < |items|
      ensures t in Meaning(items[k]) <==> items[k] == Long(t) || (items[k].LongValue? && items[k].token == t)
    {
      ItemValid(items, k);
      TokenOf(items[k], t);
    }
  }

  /** A word exactly when it stands there as a word. */
  lemma WordInScanIff(items: seq<Item>, t: string)
    requires WellFormed(items) && (!Dashed(t) || t == "-")
    ensures t in MeaningAll(items) <==> exists k :: 0 <= k < |items| && items[k] == Word(t)
  {
    InScanIff(items, t);
    forall k | 0 <= k < |items|
      ensures t in Meaning(items[k]) <==> items[k] == Word(t)
    {
      ItemValid(items, k);
      TokenOf(items[k], t);
    }
  }

  /** A short option exactly when some bundle has the letter, before or as the one that takes a
      value. */
  lemma LetterInScanIff(items: seq<Item>, c: char)
    requires WellFormed(items) && c != '-'
    ensures ['-', c] in MeaningAll(items) <==>
              exists k :: 0 <= k < |items| && (c in FlagsOf(items[k]) || TakesLetter(items[k], c))
  {
    InScanIff(items, ['-', c]);
    forall k | 0 <= k < |items|
      ensures ['-', c] in Meaning(items[k]) <==> c in FlagsOf(items[k]) || TakesLetter(items[k], c)
    {
      ItemValid(items, k);
      LetterOf(items[k], c);
    }
  }

  predicate TakesLetter(item: Item, c: char) {
    (item.Attached? || item.LetterValue?) && item.letter == c
  }

  lemma LetterOf(item: Item, c: char)
    requires Valid(item) && c != '-'
    ensures ['-', c] in Meaning(item) <==> c in FlagsOf(item) || TakesLetter(item, c)
  {
    var m, flags := Meaning(item), FlagsOf(item);
    MeaningExactly(item);
    assert ['-', c][0] == '-' && ['-', c][1] == c;
    if c in flags {
      var k :| 0 <= k < |flags| && flags[k] == c;
      assert m[k] == ['-', c];
    }
    if TakesLetter(item, c) {
      assert m[|flags|] == ['-', c];
    }
    if k :| 0 <= k < |m| && m[k] == ['-', c] {
      assert m[k][1] == c;
      assert !item.Word? && !item.Long? && !item.LongValue? && !item.EndOfOptions?;
    }
  }

  lemma {:induction false} ItemValid(items: seq<Item>, k: nat)
    requires WellFormed(items) && k < |items|
    ensures Valid(items[k])
  {
    if k > 0 {
      ItemValid(items[1..], k - 1);
    }
  }

  /** Tokens that are no short options come from items that are no bundles. */
  lemma TokenOf(item: Item, t: string)
    requires Valid(item) && (LongToken(t) || !Dashed(t) || t == "-")
    ensures t in Meaning(item) <==> (item.Word? || item.Long? || item.LongValue?) && item.token == t
  {
    MeaningExactly(item);
    if item.Letters? || item.Attached? || item.LetterValue? {
      assert forall k :: 0 <= k < |Meaning(item)| ==> |Meaning(item)[k]| == 2 && Dashed(Meaning(item)[k]);
    } else if item.EndOfOptions? {
      assert |"--"| == 2 && Dashed("--");
    }
  }

  /** The long and the short spelling of a value option go together. */
  lemma ShortFormsAgree(c: char)
    ensures ValueLetter(c) <==> TakesValue(['-', c])
  {
    assert ['-', c] == "-m" <==> c == 'm' by { assert ['-', c][1] == c && "-m"[1] == 'm'; }
    assert ['-', c] == "-F" <==> c == 'F' by { assert ['-', c][1] == c && "-F"[1] == 'F'; }
    assert ['-', c] == "-C" <==> c == 'C' by { assert ['-', c][1] == c && "-C"[1] == 'C'; }
  }

  /** The same option with other data: only what it consumes differs. */
  predicate SameOption(item: Item, other: Item) {
    match item
    case LongValue(token, _) => other.LongValue? && other.token == token
    case Attached(flags, letter, _) => other.Attached? && other.flags == flags && other.letter == letter
    case LetterValue(flags, letter, _) => other.LetterValue? && other.flags == flags && other.letter == letter
    case EndOfOptions(_) => other.EndOfOptions?
    case _ => other == item
  }

  /** What an option consumes is data: put anything else there and the scan is the same. */
  lemma ValueIsData(before: seq<Item>, item: Item, other: Item, after: seq<Item>)
    requires WellFormed(before + [item] + after) && WellFormed(before + [other] + after)
    requires SameOption(item, other)
    ensures MeaningAll(Parse(RenderAll(before + [item] + after))) ==
          MeaningAll(Parse(RenderAll(before + [other] + after)))
  {
    ParseUnique(before + [item] + after);
    ParseUnique(before + [other] + after);
    SameMeaning(before, item, other, after);
  }

  lemma {:induction false} SameMeaning(before: seq<Item>, item: Item, other: Item, after: seq<Item>)
    requires Meaning(item) == Meaning(other)
    ensures MeaningAll(before + [item] + after) == MeaningAll(before + [other] + after)
  {
    if before == [] {
      assert ([] + [item] + after)[1..] == after && ([] + [other] + after)[1..] == after;
    } else {
      assert (before + [item] + after)[1..] == before[1..] + [item] + after;
      assert (before + [other] + after)[1..] == before[1..] + [other] + after;
      SameMeaning(before[1..], item, other, after);
    }
  }

  // ----- commands joined by separators

  predicate Separator(t: string) {
    t in {"&&", ";", "||"}
  }

  function SegmentsFrom(argv: seq<string>, current: seq<string>): seq<seq<string>> {
    if argv == [] then if current == [] then [] else [current]
    else if Separator(argv[0]) then (if current == [] then [] else [current]) + SegmentsFrom(argv[1..], [])
    else SegmentsFrom(argv[1..], current + [argv[0]])
  }

  function Segments(argv: seq<string>): seq<seq<string>> {
    SegmentsFrom(argv, [])
  }

  method SplitShellSegments(argv: seq<string>) returns (segments: seq<seq<string>>)
    ensures segments == Segments(argv)
  {
    hide Separator;
    segments := [];
    var current: seq<string> := [];
    for i := 0 to |argv|
      invariant segments + SegmentsFrom(argv[i..], current) == Segments(argv)
    {
      assert argv[i..][1..] == argv[i + 1..];
      if Separator(argv[i]) {
        if current != [] {
          segments := segments + [current];
          current := [];
        }
      } else {
        current := current + [argv[i]];
      }
    }
    if current != [] {
      segments := segments + [current];
    }
  }

  predicate Command(segment: seq<string>) {
    segment != [] && forall k :: 0 <= k < |segment| ==> !Separator(segment[k])
  }

  predicate Gap(gap: seq<string>) {
    forall k :: 0 <= k < |gap| ==> Separator(gap[k])
  }

  /** Commands with runs of separators around them, empty only at the two ends. */
  predicate Layout(commands: seq<seq<string>>, gaps: seq<seq<string>>) {
    && |gaps| == |commands| + 1
    && (forall k :: 0 <= k < |commands| ==> Command(commands[k]))
    && (forall k :: 0 <= k < |gaps| ==> Gap(gaps[k]))
    && (forall k :: 0 < k < |commands| ==> gaps[k] != [])
  }

  function Line(commands: seq<seq<string>>, gaps: seq<seq<string>>): seq<string>
    requires |gaps| == |commands| + 1
  {
    if commands == [] then gaps[0] else gaps[0] + commands[0] + Line(commands[1..], gaps[1..])
  }

  lemma {:induction false} GapSkipped(gap: seq<string>, rest: seq<string>)
    requires Gap(gap)
    ensures SegmentsFrom(gap + rest, []) == SegmentsFrom(rest, [])
  {
    if gap == [] {
      assert gap + rest == rest;
    } else {
      assert (gap + rest)[1..] == gap[1..] + rest;
      GapSkipped(gap[1..], rest);
    }
  }

  lemma {:induction false} CommandTaken(current: seq<string>, command: seq<string>, rest: seq<string>)
    requires forall k :: 0 <= k < |command| ==> !Separator(command[k])
    ensures SegmentsFrom(command + rest, current) == SegmentsFrom(rest, current + command)
    decreases |command|
  {
    if command == [] {
      assert command + rest == rest && current + command == current;
    } else {
      assert (command + rest)[1..] == command[1..] + rest;
      CommandTaken(current + [command[0]], command[1..], rest);
      assert current + [command[0]] + command[1..] == current + command;
    }
  }

  /** The segments are the commands of the line, whatever separators stand between them. */
  lemma {:induction false} SegmentsAreCommands(commands: seq<seq<string>>, gaps: seq<seq<string>>)
    requires Layout(commands, gaps)
    ensures Segments(Line(commands, gaps)) == commands
    decreases |commands|
  {
    hide Separator;
    if commands == [] {
      GapSkipped(gaps[0], []);
      assert gaps[0] + [] == gaps[0];
    } else {
      var rest := Line(commands[1..], gaps[1..]);
      GapSkipped(gaps[0], commands[0] + rest);
      assert gaps[0] + commands[0] + rest == gaps[0] + (commands[0] + rest);
      CommandTaken([], commands[0], rest);
      assert Command(commands[0]) && [] + commands[0] == commands[0];
      assert Layout(commands[1..], gaps[1..]);
      SegmentsAreCommands(commands[1..], gaps[1..]);
      FirstGapEnds(commands, gaps);
      assert commands == [commands[0]] + commands[1..];
    }
  }

  lemma FirstGapEnds(commands: seq<seq<string>>, gaps: seq<seq<string>>)
    requires Layout(commands, gaps) && commands != []
    ensures var rest := Line(commands[1..], gaps[1..]);
            SegmentsFrom(rest, commands[0]) == [commands[0]] + SegmentsFrom(rest, [])
  {
    hide Separator;
    var rest := Line(commands[1..], gaps[1..]);
    assert Command(commands[0]);
    if rest != [] {
      assert Gap(gaps[1]);
      assert gaps[1] != [];
      assert rest[0] == gaps[1][0];
    }
  }

  /** And every line is laid out so. */
  lemma {:induction false} LineOf(argv: seq<string>) returns (commands: seq<seq<string>>, gaps: seq<seq<string>>)
    ensures Layout(commands, gaps) && Line(commands, gaps) == argv
    decreases |argv|
  {
    hide Separator;
    if argv == [] {
      commands, gaps := [], [[]];
    } else {
      commands, gaps := LineOf(argv[1..]);
      var t := argv[0];
      if Separator(t) {
        gaps := [[t] + gaps[0]] + gaps[1..];
      } else if commands != [] && gaps[0] == [] {
        commands := [[t] + commands[0]] + commands[1..];
      } else {
        commands, gaps := [[t]] + commands, [[]] + gaps;
      }
    }
  }

  // ----- `git`, its global options, then `commit`

  datatype Global = Valued(option: string, value: string) | Bare(token: string)

  predicate GlobalTakesValue(t: string) {
    t in {"-C", "--git-dir", "--work-tree", "--namespace", "--super-prefix", "-c", "--config-env", "--attr-source"}
  }

  predicate ValidGlobal(g: Global) {
    match g
    case Valued(option, _) => GlobalTakesValue(option)
    case Bare(token) => Dashed(token) && !GlobalTakesValue(token)
  }

  predicate ValidGlobals(globals: seq<Global>) {
    forall k :: 0 <= k < |globals| ==> ValidGlobal(globals[k])
  }

  function RenderGlobals(globals: seq<Global>): seq<string> {
    if globals == [] then []
    else (if globals[0].Valued? then [globals[0].option, globals[0].value] else [globals[0].token]) +
          RenderGlobals(globals[1..])
  }

  /** `segment` runs `git commit`, with `globals` before the subcommand and `rest` after it. */
  predicate RunsCommit(segment: seq<string>, before: seq<string>, globals: seq<Global>, rest: seq<string>) {
    && ValidGlobals(globals)
    && segment == before + ["git"] + RenderGlobals(globals) + ["commit"] + rest
  }

  lemma GlobalsAreDashed(t: string)
    requires GlobalTakesValue(t)
    ensures Dashed(t)
  {
  }

  /** How many elements the global options at the front take; one more than there are when
      a value is missing. */
  function SkipGlobals(s: seq<string>): nat {
    if s == [] then 0
    else if GlobalTakesValue(s[0]) then if |s| == 1 then 2 else 2 + SkipGlobals(s[2..])
    else if Dashed(s[0]) then 1 + SkipGlobals(s[1..])
    else 0
  }

  function Find(s: seq<string>, t: string): (k: nat)
    ensures k <= |s| && t !in s[..k] && (k < |s| ==> s[k] == t)
  {
    if s == [] || s[0] == t then 0
    else
      var k := Find(s[1..], t);
      assert s[..k + 1] == [s[0]] + s[1..][..k];
      k + 1
  }

  function CommitIndex(segment: seq<string>): Option<nat> {
    var g := Find(segment, "git");
    if g == |segment| then None
    else
      var i := g + 1 + SkipGlobals(segment[g + 1..]);
      if i < |segment| && segment[i] == "commit" then Some(i) else None
  }

  /** The index the walk over global options stops at, started at `i`. */
  function Stop(segment: seq<string>, i: nat): nat {
    if i < |segment| then i + SkipGlobals(segment[i..]) else i
  }

  lemma StopStep(segment: seq<string>, i: nat)
    requires i < |segment|
    ensures Stop(segment, i) == if GlobalTakesValue(segment[i]) then Stop(segment, i + 2)
                                else if Dashed(segment[i]) then Stop(segment, i + 1) else i
  {
    hide GlobalTakesValue;
    var s, n := segment[i..], |segment|;
    assert s[0] == segment[i];
    assert SkipGlobals([]) == 0;
    assert if i + 1 == n then s[1..] == [] else s[1..] == segment[i + 1..];
    assert i + 2 == n ==> s[2..] == [];
    assert i + 2 < n ==> s[2..] == segment[i + 2..];
    assert GlobalTakesValue(segment[i]) ==> SkipGlobals(s) == if i + 1 == n then 2 else 2 + SkipGlobals(s[2..]);
  }

  method GitCommitIndex(segment: seq<string>) returns (at: Option<nat>)
    ensures at == CommitIndex(segment)
  {
    hide GlobalTakesValue, SkipGlobals, Stop;
    StopIsCommitIndex(segment);
    var g := Find(segment, "git");
    if g == |segment| {
      return None;
    }
    var i, n := g + 1, |segment|;
    while i < n
      invariant Stop(segment, i) == Stop(segment, g + 1)
      decreases n - i
    {
      StopStep(segment, i);
      var t := segment[i];
      if GlobalTakesValue(t) {
        i := i + 2;
      } else if Dashed(t) {
        i := i + 1;
      } else {
        return if t == "commit" then Some(i) else None;
      }
    }
    StopAtEnd(segment, i);
    return None;
  }

  lemma StopAtEnd(segment: seq<string>, i: nat)
    ensures i >= |segment| ==> Stop(segment, i) == i
  {
  }

  lemma StopIsCommitIndex(segment: seq<string>)
    ensures var g := Find(segment, "git"); var i := Stop(segment, g + 1);
            CommitIndex(segment) == if g < |segment| && i < |segment| && segment[i] == "commit" then Some(i) else None
  {
    var g := Find(segment, "git");
    if g + 1 == |segment| {
      assert segment[g + 1..] == [];
    }
  }

  lemma FoundAt(s: seq<string>, k: nat, t: string)
    requires k <= |s| && t !in s[..k] && (k < |s| ==> s[k] == t)
    ensures Find(s, t) == k
  {
  }

  lemma {:induction false} GlobalsSkipped(globals: seq<Global>, rest: seq<string>)
    requires ValidGlobals(globals) && rest != [] && !Dashed(rest[0])
    ensures SkipGlobals(RenderGlobals(globals) + rest) == |RenderGlobals(globals)|
    decreases |globals|
  {
    hide GlobalTakesValue;
    var s := RenderGlobals(globals) + rest;
    if globals == [] {
      assert s == rest;
      if GlobalTakesValue(rest[0]) {
        GlobalsAreDashed(rest[0]);
      }
    } else {
      var g := globals[0];
      assert ValidGlobal(g);
      GlobalsSkipped(globals[1..], rest);
      var tail := RenderGlobals(globals[1..]) + rest;
      if g.Valued? {
        assert s == [g.option, g.value] + tail && s[2..] == tail;
      } else {
        assert s == [g.token] + tail && s[1..] == tail;
      }
    }
  }

  lemma {:induction false} SkippedGlobals(s: seq<string>) returns (globals: seq<Global>)
    requires SkipGlobals(s) < |s|
    ensures ValidGlobals(globals) && RenderGlobals(globals) == s[..SkipGlobals(s)]
    decreases |s|
  {
    hide GlobalTakesValue;
    if GlobalTakesValue(s[0]) {
      var rest := SkippedGlobals(s[2..]);
      globals := [Valued(s[0], s[1])] + rest;
      assert s[..SkipGlobals(s)] == [s[0], s[1]] + s[2..][..SkipGlobals(s[2..])];
      assert globals[1..] == rest;
    } else if Dashed(s[0]) {
      var rest := SkippedGlobals(s[1..]);
      globals := [Bare(s[0])] + rest;
      assert s[..SkipGlobals(s)] == [s[0]] + s[1..][..SkipGlobals(s[1..])];
      assert globals[1..] == rest;
    } else {
      globals := [];
    }
  }

  lemma FirstCommitFound(segment: seq<string>, before: seq<string>, globals: seq<Global>, rest: seq<string>)
    requires "git" !in before && RunsCommit(segment, before, globals, rest)
    ensures CommitIndex(segment) == Some(|segment| - |rest| - 1)
  {
    hide GlobalTakesValue, SkipGlobals;
    var g := |before|;
    assert segment[..g] == before && segment[g] == "git";
    FoundAt(segment, g, "git");
    assert segment[g + 1..] == RenderGlobals(globals) + (["commit"] + rest);
    GlobalsSkipped(globals, ["commit"] + rest);
  }

  lemma CommitReal(segment: seq<string>) returns (before: seq<string>, globals: seq<Global>, rest: seq<string>)
    requires CommitIndex(segment).Some?
    ensures "git" !in before && RunsCommit(segment, before, globals, rest)
    ensures rest == segment[CommitIndex(segment).value + 1..] && CommitIndex(segment).value < |segment|
  {
    hide GlobalTakesValue, SkipGlobals;
    var g := Find(segment, "git");
    var i := CommitIndex(segment).value;
    globals := SkippedGlobals(segment[g + 1..]);
    before, rest := segment[..g], segment[i + 1..];
    assert segment[g + 1..][..i - g - 1] == segment[g + 1..i];
    assert segment == segment[..g] + [segment[g]] + segment[g + 1..i] + [segment[i]] + segment[i + 1..];
  }

  /** The `git` after `before` is the segment's first, or a value the first one's global
      options consume. */
  ghost predicate Leads(before: seq<string>) {
    exists front, globals :: LeadsBy(before, front, globals)
  }

  predicate LeadsBy(before: seq<string>, front: seq<string>, globals: seq<Global>) {
    "git" !in front && ValidGlobals(globals) && before + ["git"] == front + ["git"] + RenderGlobals(globals)
  }

  lemma {:induction false} GlobalsJoin(a: seq<Global>, b: seq<Global>)
    ensures RenderGlobals(a + b) == RenderGlobals(a) + RenderGlobals(b)
  {
    if a == [] {
      assert a + b == b;
    } else {
      assert (a + b)[1..] == a[1..] + b;
      GlobalsJoin(a[1..], b);
    }
  }

  /** An element of the rendered options that has no dash is an option's value. */
  lemma {:induction false} ValueAt(globals: seq<Global>, k: nat) returns (upTo: seq<Global>)
    requires ValidGlobals(globals) && k < |RenderGlobals(globals)| && !Dashed(RenderGlobals(globals)[k])
    ensures ValidGlobals(upTo) && RenderGlobals(upTo) == RenderGlobals(globals)[..k + 1]
    decreases |globals|
  {
    hide GlobalTakesValue;
    var g, tail := globals[0], RenderGlobals(globals[1..]);
    assert ValidGlobal(g);
    var n := if g.Valued? then 2 else 1;
    assert k != 0 by {
      if g.Valued? {
        GlobalsAreDashed(g.option);
      }
    }
    if k < n {
      upTo := [g];
      assert RenderGlobals([]) == [];
    } else {
      var more := ValueAt(globals[1..], k - n);
      upTo := [g] + more;
      assert upTo[1..] == more;
      assert tail == RenderGlobals(globals)[n..];
    }
  }

  /** `git` is looked for once: of all the places a segment runs `git commit` at, the index
      is found at exactly those whose `git` leads. */
  lemma CommitFoundIff(segment: seq<string>, before: seq<string>, globals: seq<Global>, rest: seq<string>)
    requires RunsCommit(segment, before, globals, rest)
    ensures CommitIndex(segment) == Some(|segment| - |rest| - 1) <==> Leads(before)
  {
    hide CommitIndex;
    if front, gs :| LeadsBy(before, front, gs) {
      GlobalsJoin(gs, globals);
      assert segment == front + ["git"] + (RenderGlobals(gs) + RenderGlobals(globals)) + ["commit"] + rest;
      FirstCommitFound(segment, front, gs + globals, rest);
    }
    if CommitIndex(segment) == Some(|segment| - |rest| - 1) {
      FoundLeads(segment, before, globals, rest);
    }
  }

  lemma FoundLeads(segment: seq<string>, before: seq<string>, globals: seq<Global>, rest: seq<string>)
    requires RunsCommit(segment, before, globals, rest) && CommitIndex(segment) == Some(|segment| - |rest| - 1)
    ensures Leads(before)
  {
    hide CommitIndex, GlobalTakesValue;
    var front, all, last := CommitReal(segment);
    assert segment[|before|] == "git" && segment[..|before|] == before;
    FirstIsFirst(segment, front, all, last, |before|);
    if |front| == |before| {
      assert front == before && RenderGlobals([]) == [];
      assert LeadsBy(before, front, []);
    } else {
      var k := |before| - |front| - 1;
      assert RenderGlobals(all) == segment[|front| + 1..|segment| - |rest| - 1];
      assert RenderGlobals(all)[k] == segment[|before|];
      var gs := ValueAt(all, k);
      assert before + ["git"] == segment[..|before| + 1] == front + ["git"] + RenderGlobals(gs);
      assert LeadsBy(before, front, gs);
    }
  }

  lemma FirstIsFirst(segment: seq<string>, front: seq<string>, globals: seq<Global>, rest: seq<string>, k: nat)
    requires "git" !in front && RunsCommit(segment, front, globals, rest)
    requires k < |segment| && segment[k] == "git"
    ensures |front| <= k && segment[..|front|] == front
  {
    assert forall j :: 0 <= j < |front| ==> front[j] == segment[j];
  }

  /** A `git` that is another word's argument hides the real one: no index is found. */
  lemma EarlierGitHides()
    ensures var segment := ["sudo", "-u", "git", "git", "commit", "-n"];
            && RunsCommit(segment, ["sudo", "-u", "git"], [], ["-n"])
            && CommitIndex(segment) == None && !SeenToSkip(segment)
  {
    var segment := ["sudo", "-u", "git", "git", "commit", "-n"];
    assert RenderGlobals([]) == [];
    assert segment[..2] == ["sudo", "-u"];
    FoundAt(segment, 2, "git");
    assert segment[3..][0] == "git";
    SeenToSkipIff(segment);
  }

  // ----- `-n` given to `git commit`

  /** The segment runs `git commit` there and the grammar reads an `n` flag among its
      arguments. */
  predicate Reads(segment: seq<string>, before: seq<string>, globals: seq<Global>, items: seq<Item>) {
    RunsCommit(segment, before, globals, RenderAll(items)) && WellFormed(items) && NFlag(items)
  }

  /** The first `git` of the segment runs `commit` so. */
  ghost predicate SeenToSkip(segment: seq<string>) {
    exists before, globals, items :: "git" !in before && Reads(segment, before, globals, items)
  }

  method SegmentHasGitCommitDashN(segment: seq<string>) returns (r: bool)
    ensures r <==> SeenToSkip(segment)
  {
    hide SeenToSkip, CommitIndex, MeaningAll, Parse;
    var at := GitCommitIndex(segment);
    SeenToSkipIff(segment);
    if at.None? {
      return false;
    }
    CommitInside(segment);
    var vec := ScanSegment(segment[at.value + 1..]);
    return "-n" in vec;
  }

  lemma CommitInside(segment: seq<string>)
    ensures CommitIndex(segment).Some? ==> CommitIndex(segment).value < |segment|
  {
  }

  lemma SeenToSkipIff(segment: seq<string>)
    ensures SeenToSkip(segment)
       <==> CommitIndex(segment).Some? && CommitIndex(segment).value < |segment|
            && "-n" in MeaningAll(Parse(segment[CommitIndex(segment).value + 1..]))
  {
    hide RunsCommit, CommitIndex, NFlag, Parse, RenderAll, MeaningAll, WellFormed;
    CommitInside(segment);
    var at := CommitIndex(segment);
    if at.Some? {
      var before, globals, rest := CommitReal(segment);
      ParseRenders(rest);
      DashNIff(Parse(rest));
      assert NFlag(Parse(rest)) ==> Reads(segment, before, globals, Parse(rest));
    }
    forall before, globals, items | "git" !in before && Reads(segment, before, globals, items)
      ensures at.Some? && "-n" in MeaningAll(Parse(segment[at.value + 1..]))
    {
      FirstCommitFound(segment, before, globals, RenderAll(items));
      RestAfter(segment, before, globals, RenderAll(items));
      ParseUnique(items);
      DashNIff(items);
    }
  }

  lemma RestAfter(segment: seq<string>, before: seq<string>, globals: seq<Global>, rest: seq<string>)
    requires RunsCommit(segment, before, globals, rest)
    ensures |rest| < |segment| && segment[|segment| - |rest|..] == rest
  {
  }

  /** An earlier place of the segment does it, with a `git` that leads. */
  ghost predicate SeenBefore(segment: seq<string>, n: nat) {
    exists before, globals, items :: |before| < n && Leads(before) && Reads(segment, before, globals, items)
  }

  lemma LeadingSeen(segment: seq<string>, before: seq<string>, globals: seq<Global>, items: seq<Item>)
    requires Reads(segment, before, globals, items) && Leads(before)
    ensures SeenToSkip(segment)
  {
    hide CommitIndex, RunsCommit, NFlag, Parse, MeaningAll, WellFormed, SeenToSkip;
    CommitFoundIff(segment, before, globals, RenderAll(items));
    RestAfter(segment, before, globals, RenderAll(items));
    ParseUnique(items);
    DashNIff(items);
    SeenToSkipIff(segment);
  }

  /** A `git commit` with an `n` flag is noticed exactly when its `git` leads, unless the
      segment gives itself away earlier. */
  lemma SeenIff(segment: seq<string>, before: seq<string>, globals: seq<Global>, items: seq<Item>)
    requires Reads(segment, before, globals, items)
    ensures SeenToSkip(segment) <==> Leads(before) || SeenBefore(segment, |before|)
  {
    hide CommitIndex, NFlag, WellFormed;
    if Leads(before) {
      LeadingSeen(segment, before, globals, items);
    }
    if b, gs, more :| |b| < |before| && Leads(b) && Reads(segment, b, gs, more) {
      LeadingSeen(segment, b, gs, more);
    }
    if front, gs, more :| "git" !in front && Reads(segment, front, gs, more) {
      SeenMeans(segment, before, globals, items, front, gs, more);
    }
  }

  lemma SeenMeans(segment: seq<string>, before: seq<string>, globals: seq<Global>, items: seq<Item>,
                  front: seq<string>, gs: seq<Global>, more: seq<Item>)
    requires Reads(segment, before, globals, items) && "git" !in front && Reads(segment, front, gs, more)
    ensures Leads(before) || SeenBefore(segment, |before|)
  {
    hide CommitIndex, NFlag, WellFormed;
    assert segment[|before|] == "git" && segment[..|before|] == before;
    FirstIsFirst(segment, front, gs, RenderAll(more), |before|);
    assert RenderGlobals([]) == [] && front + ["git"] == front + ["git"] + [];
    assert LeadsBy(front, front, []);
    if |front| == |before| {
      assert front == before;
    } else {
      assert SeenBefore(segment, |before|);
    }
  }

  // ----- commands wrapped in `sh -c`

  function InterpreterName(t: string): string {
    if t == "" || t[|t| - 1] == '/' then "" else InterpreterName(t[..|t| - 1]) + [t[|t| - 1]]
  }

  predicate Interpreter(t: string) {
    InterpreterName(t) in {"sh", "bash", "zsh", "dash", "ash", "ksh"}
  }

  predicate WrapperAt(tokens: seq<string>, i: nat) {
    i + 2 < |tokens| && Interpreter(tokens[i]) && tokens[i + 1] == "-c"
  }

  /** Only the last part of a path names the interpreter. */
  lemma {:induction false} NameOfPath(dir: string, name: string)
    requires forall k :: 0 <= k < |name| ==> name[k] != '/'
    ensures InterpreterName(name) == name && InterpreterName(dir + "/" + name) == name
    ensures Interpreter(dir + "/" + name) <==> Interpreter(name)
  {
    var path := dir + "/" + name;
    if name == "" {
      assert path[|path| - 1] == '/';
    } else {
      var n := |name| - 1;
      NameOfPath(dir, name[..n]);
      assert path[..|path| - 1] == dir + "/" + name[..n];
      assert name == name[..n] + [name[n]];
    }
  }

  type Splitter = string -> Option<seq<string>>

  const MAX_DEPTH := 20

  function Remaining(depth: nat): nat {
    if depth > MAX_DEPTH then 0 else MAX_DEPTH + 1 - depth
  }

  function Expand(split: Splitter, tokens: seq<string>, depth: nat): seq<string>
    decreases Remaining(depth), 1, |tokens|
  {
    if depth > MAX_DEPTH then tokens
    else if tokens == [] then []
    else if WrapperAt(tokens, 0) then
      [tokens[0], tokens[2]] + Payload(split, tokens[2], depth) + Expand(split, tokens[3..], depth)
    else [tokens[0]] + Expand(split, tokens[1..], depth)
  }

  /** A payload that cannot be split, or splits to nothing, adds nothing. */
  function Payload(split: Splitter, payload: string, depth: nat): seq<string>
    requires depth <= MAX_DEPTH
    decreases Remaining(depth), 0, 0
  {
    match split(payload)
    case None => []
    case Some(inner) => if inner == [] then [] else Expand(split, inner, depth + 1)
  }

  lemma ExpandStep(split: Splitter, tokens: seq<string>, i: nat, depth: nat)
    requires i < |tokens| && depth <= MAX_DEPTH
    ensures Expand(split, tokens[i..], depth) ==
      if WrapperAt(tokens, i)
      then [tokens[i]] + ([tokens[i + 2]] +
            (Payload(split, tokens[i + 2], depth) + Expand(split, tokens[i + 3..], depth)))
      else [tokens[i]] + Expand(split, tokens[i + 1..], depth)
  {
    hide Interpreter, Payload;
    var s := tokens[i..];
    assert s[0] == tokens[i] && s[1..] == tokens[i + 1..];
    assert WrapperAt(s, 0) == WrapperAt(tokens, i);
    if WrapperAt(tokens, i) {
      assert s[3..] == tokens[i + 3..];
      var rest := Expand(split, tokens[i + 3..], depth);
      var inner := Payload(split, tokens[i + 2], depth);
      assert [s[0], s[2]] + inner + rest == [s[0]] + ([s[2]] + (inner + rest));
    }
  }

  method ExpandShellC(split: Splitter, tokens: seq<string>, depth: nat) returns (out: seq<string>)
    ensures out == Expand(split, tokens, depth)
    decreases Remaining(depth)
  {
    hide Interpreter, Expand;
    ExpandEnds(split, tokens, depth);
    if depth > MAX_DEPTH {
      return tokens;
    }
    out := [];
    var i, n := 0, |tokens|;
    assert tokens[0..] == tokens;
    while i < n
      invariant i <= n && out + Expand(split, tokens[i..], depth) == Expand(split, tokens, depth)
    {
      ExpandStep(split, tokens, i, depth);
      out := out + [tokens[i]];
      if Interpreter(tokens[i]) && i + 2 < n && tokens[i + 1] == "-c" {
        var payload := tokens[i + 2];
        out := out + [payload];
        var inner := split(payload);
        var more := [];
        if inner.Some? && inner.value != [] {
          more := ExpandShellC(split, inner.value, depth + 1);
        }
        out := out + more;
        i := i + 3;
      } else {
        i := i + 1;
      }
    }
    assert tokens[n..] == [];
  }

  /** What expansion does, exactly: up to the first wrapper nothing; there the `-c` goes, the
      payload stays, and its own expansion follows, one level deeper, when it splits to
      anything; then the same with the rest. Past the depth limit nothing at all. */
  lemma {:induction false} ExpandExactly(split: Splitter, a: seq<string>, rest: seq<string>, depth: nat)
    requires forall i :: 0 <= i < |a| ==> !WrapperAt(a + rest, i)
    ensures depth > MAX_DEPTH ==> Expand(split, a + rest, depth) == a + rest
    ensures depth <= MAX_DEPTH ==> Expand(split, a + rest, depth) == a + Expand(split, rest, depth)
    ensures depth <= MAX_DEPTH && rest == [] ==> Expand(split, a + rest, depth) == a
    ensures depth <= MAX_DEPTH && WrapperAt(rest, 0) ==>
      var inner := if split(rest[2]) == None then [] else split(rest[2]).value;
      Expand(split, a + rest, depth) == a + ([rest[0]] + ([rest[2]]
        + ((if inner == [] then [] else Expand(split, inner, depth + 1)) + Expand(split, rest[3..], depth))))
    decreases |a|
  {
    hide Interpreter, WrapperAt, Expand;
    var tokens := a + rest;
    ExpandEnds(split, tokens, depth);
    if depth <= MAX_DEPTH {
      if WrapperAt(rest, 0) {
        WrapperLong(rest);
        ExpandStep(split, rest, 0, depth);
        assert rest[0..] == rest;
      }
      if a == [] {
        assert tokens == rest;
      } else {
        assert tokens[1..] == a[1..] + rest && tokens[0..] == tokens;
        forall i | 0 <= i < |a[1..]|
          ensures !WrapperAt(a[1..] + rest, i)
        {
          WrapperShift(tokens, i);
        }
        ExpandExactly(split, a[1..], rest, depth);
        ExpandStep(split, tokens, 0, depth);
        assert a == [a[0]] + a[1..];
      }
    }
  }

  lemma WrapperShift(tokens: seq<string>, i: nat)
    requires tokens != []
    ensures WrapperAt(tokens[1..], i) == WrapperAt(tokens, i + 1)
  {
  }

  lemma ExpandEnds(split: Splitter, tokens: seq<string>, depth: nat)
    ensures depth > MAX_DEPTH ==> Expand(split, tokens, depth) == tokens
    ensures depth <= MAX_DEPTH ==> Expand(split, [], depth) == []
  {
  }

  /** The tokens without the `-c` of each wrapper the walk meets. */
  function Kept(tokens: seq<string>): seq<string> {
    if tokens == [] then []
    else if WrapperAt(tokens, 0) then [tokens[0], tokens[2]] + Kept(tokens[3..])
    else [tokens[0]] + Kept(tokens[1..])
  }

  /** `a` is what is left of `b` when some elements are taken out. */
  predicate Within(a: seq<string>, b: seq<string>) {
    a == [] || (b != [] && ((a[0] == b[0] && Within(a[1..], b[1..])) || Within(a, b[1..])))
  }

  lemma {:induction false} WithinMore(a: seq<string>, more: seq<string>, b: seq<string>)
    requires Within(a, b)
    ensures Within(a, more + b)
  {
    if more == [] {
      assert more + b == b;
    } else {
      assert (more + b)[1..] == more[1..] + b;
      WithinMore(a, more[1..], b);
    }
  }

  lemma WithinSame(t: string, a: seq<string>, b: seq<string>)
    requires Within(a, b)
    ensures Within([t] + a, [t] + b)
  {
    assert ([t] + a)[1..] == a && ([t] + b)[1..] == b;
  }

  /** Expansion only adds: every token stays, in order, except the `-c` of a wrapper. */
  lemma {:induction false} ExpansionKeeps(split: Splitter, tokens: seq<string>, depth: nat)
    requires depth <= MAX_DEPTH
    ensures Within(Kept(tokens), Expand(split, tokens, depth))
    decreases |tokens|
  {
    hide Within, WrapperAt, Payload, Expand;
    ExpandEnds(split, [], depth);
    if tokens == [] {
      WithinNothing();
    } else if WrapperAt(tokens, 0) {
      WrapperLong(tokens);
      ExpandStep(split, tokens, 0, depth);
      var rest := Expand(split, tokens[3..], depth);
      var inner := Payload(split, tokens[2], depth);
      ExpansionKeeps(split, tokens[3..], depth);
      WithinMore(Kept(tokens[3..]), inner, rest);
      WithinSame(tokens[2], Kept(tokens[3..]), inner + rest);
      WithinSame(tokens[0], [tokens[2]] + Kept(tokens[3..]), [tokens[2]] + (inner + rest));
      assert [tokens[0]] + ([tokens[2]] + Kept(tokens[3..])) == Kept(tokens);
      assert tokens[0..] == tokens;
    } else {
      ExpandStep(split, tokens, 0, depth);
      ExpansionKeeps(split, tokens[1..], depth);
      WithinSame(tokens[0], Kept(tokens[1..]), Expand(split, tokens[1..], depth));
      assert tokens[0..] == tokens;
    }
  }

  lemma WithinNothing()
    ensures Within([], [])
  {
  }

  lemma WrapperLong(tokens: seq<string>)
    requires WrapperAt(tokens, 0)
    ensures |tokens| >= 3
  {
  }

  /** The walk looks at element `i`: it is not the `-c` or the payload of a wrapper. */
  predicate Reached(tokens: seq<string>, i: nat) {
    if i == 0 then true
    else if tokens == [] then false
    else if WrapperAt(tokens, 0) then i >= 3 && Reached(tokens[3..], i - 3)
    else Reached(tokens[1..], i - 1)
  }

  /** A wrapper the walk meets carries `inner` as its payload. */
  ghost predicate Wraps(split: Splitter, outer: seq<string>, inner: seq<string>) {
    exists i: nat {:trigger WrapperAt(outer, i)} :: Reached(outer, i) && WrapperAt(outer, i) &&
          split(outer[i + 2]) == Some(inner)
  }

  ghost predicate Contains(whole: seq<string>, part: seq<string>) {
    exists a, b :: whole == a + part + b
  }

  lemma ContainsMore(whole: seq<string>, part: seq<string>, front: seq<string>, back: seq<string>)
    requires Contains(whole, part)
    ensures Contains(front + whole + back, part)
  {
    var a, b :| whole == a + part + b;
    assert front + whole + back == (front + a) + part + (b + back);
  }

  lemma {:induction false} PayloadSurfaces(split: Splitter, outer: seq<string>, i: nat, depth: nat)
    requires depth <= MAX_DEPTH && Reached(outer, i) && WrapperAt(outer, i)
    ensures Contains(Expand(split, outer, depth), Payload(split, outer[i + 2], depth))
    decreases |outer|
  {
    hide Payload, Contains, Interpreter;
    var out := Expand(split, outer, depth);
    if i == 0 {
      var rest := Expand(split, outer[3..], depth);
      var inner := Payload(split, outer[2], depth);
      Itself(inner);
      ContainsMore(inner, inner, [outer[0], outer[2]], rest);
    } else if WrapperAt(outer, 0) {
      PayloadSurfaces(split, outer[3..], i - 3, depth);
      var front := [outer[0], outer[2]] + Payload(split, outer[2], depth);
      var rest := Expand(split, outer[3..], depth);
      ContainsMore(rest, Payload(split, outer[i + 2], depth), front, []);
      assert front + rest + [] == out;
    } else {
      PayloadSurfaces(split, outer[1..], i - 1, depth);
      var rest := Expand(split, outer[1..], depth);
      ContainsMore(rest, Payload(split, outer[i + 2], depth), [outer[0]], []);
      assert [outer[0]] + rest + [] == out;
    }
  }

  lemma Itself(part: seq<string>)
    ensures Contains(part, part)
  {
    assert part == [] + part + [];
  }

  ghost predicate Nested(split: Splitter, layers: seq<seq<string>>) {
    |layers| > 1 ==> Wraps(split, layers[0], layers[1]) && Nested(split, layers[1..])
  }

  /** A command buried under at most 21 wrappers reaches the scan token by token. */
  lemma {:induction false} BuriedCommandSurfaces(split: Splitter, layers: seq<seq<string>>, depth: nat)
    requires layers != [] && depth + |layers| <= MAX_DEPTH + 2 && Nested(split, layers)
    ensures Contains(Expand(split, layers[0], depth), Expand(split, layers[|layers| - 1], depth + |layers| - 1))
    decreases |layers|
  {
    hide Contains, Interpreter, WrapperAt, Reached;
    if |layers| == 1 {
      Itself(Expand(split, layers[0], depth));
    } else {
      BuriedCommandSurfaces(split, layers[1..], depth + 1);
      OuterContainsInner(split, layers[0], layers[1], depth);
      ContainsTransitive(Expand(split, layers[0], depth), Expand(split, layers[1], depth + 1),
        Expand(split, layers[|layers| - 1], depth + |layers| - 1));
    }
  }

  lemma OuterContainsInner(split: Splitter, outer: seq<string>, inner: seq<string>, depth: nat)
    requires depth <= MAX_DEPTH && Wraps(split, outer, inner)
    ensures Contains(Expand(split, outer, depth), Expand(split, inner, depth + 1))
  {
    hide Contains, Interpreter, Reached;
    var i: nat :| Reached(outer, i) && WrapperAt(outer, i) && split(outer[i + 2]) == Some(inner);
    PayloadSurfaces(split, outer, i, depth);
  }

  lemma ContainsTransitive(a: seq<string>, b: seq<string>, c: seq<string>)
    requires Contains(a, b) && Contains(b, c)
    ensures Contains(a, c)
  {
    var x, y :| a == x + b + y;
    ContainsMore(b, c, x, y);
  }

  // ----- the guard's verdict on `-n`

  /** The first `git` of the segment runs `commit`. */
  ghost predicate SeenToCommit(segment: seq<string>) {
    exists before, globals, rest :: "git" !in before && RunsCommit(segment, before, globals, rest)
  }

  lemma SeenToCommitIff(segment: seq<string>)
    ensures SeenToCommit(segment) <==> CommitIndex(segment).Some?
  {
    hide RunsCommit, CommitIndex;
    if CommitIndex(segment).Some? {
      var before, globals, rest := CommitReal(segment);
    }
    if before, globals, rest :| "git" !in before && RunsCommit(segment, before, globals, rest) {
      FirstCommitFound(segment, before, globals, rest);
    }
  }

  method IsGitCommit(argv: seq<string>) returns (r: bool)
    ensures r <==> exists segment :: segment in Segments(argv) && SeenToCommit(segment)
  {
    hide CommitIndex, SeenToCommit;
    var segments := SplitShellSegments(argv);
    for k := 0 to |segments|
      invariant forall j :: 0 <= j < k ==> !SeenToCommit(segments[j])
    {
      var at := GitCommitIndex(segments[k]);
      SeenToCommitIff(segments[k]);
      if at.Some? {
        assert segments[k] in segments;
        return true;
      }
    }
    return false;
  }

  /** The guard's condition: the first `git` of some command, wrapped ones included, runs
      `commit` with an `n` flag. */
  ghost predicate Refused(split: Splitter, argv: seq<string>) {
    exists segment :: segment in Segments(Expand(split, argv, 0)) && SeenToSkip(segment)
  }

  method BlocksDashN(split: Splitter, argv: seq<string>) returns (hit: bool)
    ensures hit <==> Refused(split, argv)
  {
    hide CommitIndex, SeenToSkip, SeenToCommit, Expand, Segments;
    var expanded := ExpandShellC(split, argv, 0);
    var commit := IsGitCommit(expanded);
    var segments := SplitShellSegments(expanded);
    if !commit {
      forall segment | segment in segments
        ensures !SeenToSkip(segment)
      {
        SeenToSkipIff(segment);
        SeenToCommitIff(segment);
      }
      return false;
    }
    for k := 0 to |segments|
      invariant forall j :: 0 <= j < k ==> !SeenToSkip(segments[j])
    {
      var has := SegmentHasGitCommitDashN(segments[k]);
      if has {
        assert segments[k] in segments;
        return true;
      }
    }
    return false;
  }

  // ----- from a buried command to the verdict

  predicate NoSeparator(s: seq<string>) {
    forall k :: 0 <= k < |s| ==> !Separator(s[k])
  }

  /** `s` stands in `whole` between separators or ends. */
  predicate StandsAlone(whole: seq<string>, front: seq<string>, s: seq<string>, back: seq<string>) {
    && whole == front + s + back
    && (front != [] ==> Separator(front[|front| - 1]))
    && (back != [] ==> Separator(back[0]))
  }

  lemma {:induction false} SegmentsAfter(front: seq<string>, rest: seq<string>, current: seq<string>)
    returns (done: seq<seq<string>>)
    requires front != [] && Separator(front[|front| - 1])
    ensures SegmentsFrom(front + rest, current) == done + SegmentsFrom(rest, [])
    decreases |front|
  {
    hide Separator;
    assert (front + rest)[1..] == front[1..] + rest;
    var next := if Separator(front[0]) then [] else current + [front[0]];
    var now: seq<seq<string>> := if Separator(front[0]) && current != [] then [current] else [];
    if |front| == 1 {
      assert front[1..] + rest == rest;
      done := now;
    } else {
      var more := SegmentsAfter(front[1..], rest, next);
      done := now + more;
    }
  }

  lemma SegmentThere(whole: seq<string>, front: seq<string>, s: seq<string>, back: seq<string>)
    requires StandsAlone(whole, front, s, back) && s != [] && NoSeparator(s)
    ensures s in Segments(whole)
  {
    hide Separator;
    assert whole == front + (s + back);
    CommandTaken([], s, back);
    assert [] + s == s;
    assert s in SegmentsFrom(back, s) by {
      if back != [] {
        assert SegmentsFrom(back, s) == [s] + SegmentsFrom(back[1..], []);
      }
    }
    if front == [] {
      assert whole == s + back;
    } else {
      var done := SegmentsAfter(front, s + back, []);
    }
  }

  lemma {:induction false} CutBefore(a: seq<string>) returns (front: seq<string>, tail: seq<string>)
    ensures a == front + tail && NoSeparator(tail) && (front != [] ==> Separator(front[|front| - 1]))
    decreases |a|
  {
    hide Separator;
    if a == [] || Separator(a[|a| - 1]) {
      front, tail := a, [];
    } else {
      front, tail := CutBefore(a[..|a| - 1]);
      tail := tail + [a[|a| - 1]];
    }
  }

  lemma {:induction false} CutAfter(b: seq<string>) returns (head: seq<string>, back: seq<string>)
    ensures b == head + back && NoSeparator(head) && (back != [] ==> Separator(back[0]))
    decreases |b|
  {
    hide Separator;
    if b == [] || Separator(b[0]) {
      head, back := [], b;
    } else {
      head, back := CutAfter(b[1..]);
      head := [b[0]] + head;
    }
  }

  /** More arguments do not take an `n` flag away. */
  lemma {:induction false} NFlagStays(items: seq<Item>, more: seq<string>)
    requires WellFormed(items) && NFlag(items)
    ensures NFlag(Parse(RenderAll(items) + more))
    decreases |items|
  {
    hide Head, Render, FlagsOf, Valid, MayPrecede;
    var item, rest := items[0], RenderAll(items[1..]);
    var s := RenderAll(items) + more;
    assert s == Render(item) + (rest + more);
    RenderNotEmpty(item);
    var k :| 0 <= k < |items| && 'n' in FlagsOf(items[k]);
    if k == 0 {
      FlagsStay(item, rest, more);
      assert Parse(s)[0] == Head(s);
    } else {
      RenderNotEmpty(items[1]);
      MayPrecedeMore(item, rest, more);
      HeadOf(item, rest + more);
      assert items[1..][k - 1] == items[k];
      NFlagStays(items[1..], more);
      assert s[|Render(item)|..] == rest + more;
      var j :| 0 <= j < |Parse(rest + more)| && 'n' in FlagsOf(Parse(rest + more)[j]);
      assert Parse(s)[j + 1] == Parse(rest + more)[j];
    }
  }

  lemma RenderNotEmpty(item: Item)
    ensures Render(item) != []
  {
  }

  lemma MayPrecedeMore(item: Item, rest: seq<string>, more: seq<string>)
    requires MayPrecede(item, rest) && rest != []
    ensures MayPrecede(item, rest + more)
  {
  }

  lemma FlagsStay(item: Item, rest: seq<string>, more: seq<string>)
    requires Valid(item) && MayPrecede(item, rest) && 'n' in FlagsOf(item)
    ensures FlagsOf(Head(Render(item) + (rest + more))) == FlagsOf(item)
  {
    var s := Render(item) + (rest + more);
    if item.LetterValue? && item.value == [] {
      var full := LetterValue(item.flags, item.letter, Next(s));
      assert s[0] == First(full);
      HeadOf(full, s[|Render(full)|..]);
      assert Render(full) + s[|Render(full)|..] == s;
    } else {
      HeadOf(item, rest + more);
    }
  }

  lemma ReadsInside(tail: seq<string>, before: seq<string>, globals: seq<Global>, items: seq<Item>, head: seq<string>)
    returns (longer: seq<Item>)
    requires ValidGlobals(globals) && WellFormed(items) && NFlag(items)
    ensures Reads(tail + (before + ["git"] + RenderGlobals(globals) + ["commit"] + RenderAll(items)) + head,
                  tail + before, globals, longer)
  {
    hide NFlag, WellFormed, ValidGlobals, Parse, RenderAll, RenderGlobals;
    longer := Parse(RenderAll(items) + head);
    ParseRenders(RenderAll(items) + head);
    NFlagStays(items, head);
    Regrouped(tail, before, ["git"], RenderGlobals(globals), ["commit"], RenderAll(items), head);
  }

  lemma Regrouped<T>(t: seq<T>, b: seq<T>, g: seq<T>, r: seq<T>, c: seq<T>, i: seq<T>, h: seq<T>)
    ensures t + (b + g + r + c + i) + h == (t + b) + g + r + c + (i + h)
  {
  }

  /** Where a buried `git commit -n` ends up, and what the guard makes of it. Its segment is
      the command itself, grown by the words around it that no separator cuts off; the line is
      refused for it exactly when its `git` still leads there, or for something else: an earlier
      place of that segment or another segment. */
  lemma BuriedVerdict(split: Splitter, layers: seq<seq<string>>, p: seq<string>, before: seq<string>,
                      globals: seq<Global>, items: seq<Item>, q: seq<string>)
    returns (front: seq<string>, tail: seq<string>, head: seq<string>, back: seq<string>)
    requires layers != [] && |layers| <= MAX_DEPTH + 2 && Nested(split, layers)
    requires ValidGlobals(globals) && WellFormed(items) && NFlag(items)
    requires var command := before + ["git"] + RenderGlobals(globals) + ["commit"] + RenderAll(items);
             NoSeparator(command) && Expand(split, layers[|layers| - 1], |layers| - 1) == p + command + q
    ensures var command := before + ["git"] + RenderGlobals(globals) + ["commit"] + RenderAll(items);
            var segment := tail + command + head;
            && StandsAlone(Expand(split, layers[0], 0), front, segment, back) && NoSeparator(segment)
            && segment in Segments(Expand(split, layers[0], 0))
            && (SeenToSkip(segment) <==> Leads(tail + before) || SeenBefore(segment, |tail + before|))
            && (Refused(split, layers[0])
                <==> Leads(tail + before) || SeenBefore(segment, |tail + before|)
                     || exists other :: other in Segments(Expand(split, layers[0], 0)) && other != segment &&
                           SeenToSkip(other))
  {
    hide Expand, Segments, Separator, SeenToSkip, SeenBefore, Leads, NFlag, WellFormed, Nested;
    hide RenderGlobals, RenderAll;
    var command := before + ["git"] + RenderGlobals(globals) + ["commit"] + RenderAll(items);
    var whole := Expand(split, layers[0], 0);
    BuriedCommandSurfaces(split, layers, 0);
    var a, b :| whole == a + (p + command + q) + b;
    front, tail := CutBefore(a + p);
    head, back := CutAfter(q + b);
    var segment := tail + command + head;
    assert whole == (a + p) + command + (q + b) == front + segment + back;
    SegmentThere(whole, front, segment, back);
    var longer := ReadsInside(tail, before, globals, items, head);
    SeenIff(segment, tail + before, globals, longer);
  }

  /** The general flag check's tokens: every command's meaning, one command after another. */
  function FlagTokens(segments: seq<seq<string>>): seq<string> {
    if segments == [] then []
    else FlagTokens(segments[..|segments| - 1]) + MeaningAll(Parse(segments[|segments| - 1]))
  }

  /** A token is checked as a flag exactly when the scan of some command holds it. */
  lemma {:induction false} FlagTokenIff(segments: seq<seq<string>>, t: string)
    ensures t in FlagTokens(segments) <==>
              exists k :: 0 <= k < |segments| && t in MeaningAll(Parse(segments[k]))
  {
    hide MeaningAll, Parse;
    if segments != [] {
      var n := |segments| - 1;
      FlagTokenIff(segments[..n], t);
      assert forall k :: 0 <= k < n ==> segments[..n][k] == segments[k];
    }
  }

  method OptionVector(argv: seq<string>) returns (vec: seq<string>)
    ensures vec == FlagTokens(Segments(argv))
  {
    hide MeaningAll, Parse;
    var segments := SplitShellSegments(argv);
    vec := [];
    for k := 0 to |segments|
      invariant vec == FlagTokens(segments[..k])
    {
      var part := ScanSegment(segments[k]);
      assert segments[..k + 1][..k] == segments[..k];
      vec := vec + part;
    }
    assert segments[..|segments|] == segments;
  }
}
