/** Verbatim moves in a diff (scripts/check_mutation.py, take_moved): a deleted line
    licenses one skipped mutation site with the same stripped text. */
module MovedLines {
  import opened Basics

  /** `text` is the line already stripped of surrounding blanks. */
  class Deletions {
    var counter: map<string, nat>

    constructor (counter: map<string, nat>)
      ensures this.counter == counter
    {
      this.counter := counter;
    }

    method TakeMoved(text: string) returns (moved: bool)
      modifies this
      ensures (moved, counter) == Take(old(counter), text)
    {
      if text == "" {
        return false;
      }
      if text in counter && counter[text] > 0 {
        counter := counter[text := counter[text] - 1];
        return true;
      }
      return false;
    }

    /** A sweep's walk over its candidate lines: true marks a skipped site. */
    method TakeAll(texts: seq<string>) returns (moved: seq<bool>)
      modifies this
      ensures (moved, counter) == TakeEach(old(counter), texts)
    {
      moved := [];
      for i := 0 to |texts|
        invariant (moved, counter) == TakeEach(old(counter), texts[..i])
      {
        assert texts[..i + 1][..i] == texts[..i];
        var b := TakeMoved(texts[i]);
        moved := moved + [b];
      }
      assert texts[..|texts|] == texts;
    }
  }

  function Take(counter: map<string, nat>, text: string): (bool, map<string, nat>) {
    if text != "" && Copies(counter, text) > 0 then (true, counter[text := counter[text] - 1]) else (false, counter)
  }

  function Copies(counter: map<string, nat>, text: string): nat {
    if text in counter then counter[text] else 0
  }

  function TakeEach(counter: map<string, nat>, texts: seq<string>): (seq<bool>, map<string, nat>) {
    if texts == [] then ([], counter)
    else
      var (moved, left) := TakeEach(counter, texts[..|texts| - 1]);
      var (b, after) := Take(left, texts[|texts| - 1]);
      (moved + [b], after)
  }

  function Asked(texts: seq<string>, text: string): nat {
    if texts == [] then 0
    else Asked(texts[..|texts| - 1], text) + (if texts[|texts| - 1] == text then 1 else 0)
  }

  function Skipped(texts: seq<string>, moved: seq<bool>, text: string): nat
    requires |texts| == |moved|
  {
    if texts == [] then 0
    else
      Skipped(texts[..|texts| - 1], moved[..|moved| - 1], text)
      + (if texts[|texts| - 1] == text && moved[|moved| - 1] then 1 else 0)
  }

  /** Which sites are skipped: the first ones with a text, as many as it has deleted copies. */
  lemma TakenExactly(counter: map<string, nat>, texts: seq<string>, k: nat)
    requires k < |texts|
    ensures var moved := TakeEach(counter, texts).0;
      && |moved| == |texts|
      && (moved[k] <==> texts[k] != "" && Asked(texts[..k], texts[k]) < Copies(counter, texts[k]))
    decreases |texts|
  {
    var n := |texts| - 1;
    TakeEachLength(counter, texts);
    TakeEachLength(counter, texts[..n]);
    if k < n {
      TakenExactly(counter, texts[..n], k);
      assert texts[..n][..k] == texts[..k] && texts[..n][k] == texts[k];
      assert TakeEach(counter, texts).0[..n] == TakeEach(counter, texts[..n]).0;
    } else if texts[k] != "" {
      SkipsMatchDeletions(counter, texts[..n], texts[k]);
    }
  }

  lemma {:induction false} TakeEachLength(counter: map<string, nat>, texts: seq<string>)
    ensures |TakeEach(counter, texts).0| == |texts|
  {
    if texts != [] {
      TakeEachLength(counter, texts[..|texts| - 1]);
    }
  }

  /** N deleted copies of a text license exactly N skips of it, whatever else is swept
      in between: the skips are the smaller of the copies and the sites asked about,
      and what is left of the counter is the difference. */
  lemma {:induction false} SkipsMatchDeletions(counter: map<string, nat>, texts: seq<string>, text: string)
    requires text != ""
    ensures var (moved, left) := TakeEach(counter, texts);
      && |moved| == |texts|
      && Skipped(texts, moved, text) == Min(Copies(counter, text), Asked(texts, text))
      && Copies(left, text) == Copies(counter, text) - Skipped(texts, moved, text)
  {
    if texts != [] {
      var n := |texts| - 1;
      SkipsMatchDeletions(counter, texts[..n], text);
      var (moved, left) := TakeEach(counter, texts[..n]);
      var (all, after) := TakeEach(counter, texts);
      assert all[..n] == moved;
    }
  }
}
