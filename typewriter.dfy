/** The placeholder typewriter of App.tsx as a pure state machine: the
    closure variables `ideaIndex`, `charIndex` and `isDeleting` form a
    `Cursor`, and one call of the `type` callback while the animation runs
    is `Step`. The class in app.dfy performs the same tick in place and is
    proved to agree with `Step`; the lemmas here say what the ticks do. */
module Typewriter {
  import JsString

  /** The example ideas the placeholder cycles through. */
  const Ideas: seq<string> := [
    "A mobile app for local gardeners to trade seeds...",
    "An AI-powered platform for personalized travel itineraries...",
    "A subscription box for artisanal coffee from around the world...",
    "A marketplace for sustainable and ethically-made fashion...",
    "A tool to help students manage their study schedules..."
  ]

  /** The placeholder shown once the animation has stopped. */
  const Fallback: string := "A mobile app for local gardeners to trade seeds..."

  /** Appended after the typed prefix. */
  const CursorGlyph: string := "|"

  /** Delays, in milliseconds, before the next tick. */
  const TypeDelay: nat := 100
  const PauseAtEnd: nat := 2000
  const DeleteDelay: nat := 50
  const PauseBeforeNext: nat := 500

  /** The three closure variables of the effect. */
  datatype Cursor = Cursor(ideaIndex: nat, charIndex: int, isDeleting: bool)

  /** What a running tick leaves behind: the new cursor, the placeholder it
      rendered and the delay it scheduled the next tick with. */
  datatype Frame = Frame(next: Cursor, text: string, delay: nat)

  /** The effect's initial cursor. */
  const Start: Cursor := Cursor(0, 0, false)

  /** A list the animation can cycle through without ever rendering an
      empty example. */
  predicate Usable(ideas: seq<string>) {
    |ideas| > 0 && forall i :: 0 <= i < |ideas| ==> ideas[i] != []
  }

  /** The bounds every cursor the animation reaches stays within: while
      typing there is still a character to type, while deleting there is
      still one to delete. */
  predicate Inv(ideas: seq<string>, c: Cursor) {
    c.ideaIndex < |ideas| &&
    var len := |ideas[c.ideaIndex]|;
    if c.isDeleting then 0 < c.charIndex <= len else 0 <= c.charIndex < len
  }

  /** One tick of the running animation (App.tsx, `type`, lines 39-61). */
  function Step(ideas: seq<string>, c: Cursor): (f: Frame)
    requires c.ideaIndex < |ideas|
    ensures f.next.ideaIndex < |ideas|
  {
    var fullText := ideas[c.ideaIndex];
    var charIndex := if c.isDeleting then c.charIndex - 1 else c.charIndex + 1;
    var text := JsString.SubstringTo(fullText, charIndex) + CursorGlyph;
    if !c.isDeleting && charIndex == |fullText| then
      Frame(Cursor(c.ideaIndex, charIndex, true), text, PauseAtEnd)
    else if c.isDeleting && charIndex == 0 then
      Frame(Cursor((c.ideaIndex + 1) % |ideas|, charIndex, false), text, PauseBeforeNext)
    else
      Frame(Cursor(c.ideaIndex, charIndex, c.isDeleting), text,
            if c.isDeleting then DeleteDelay else TypeDelay)
  }

  /** The cursor after `n` running ticks. */
  function Run(ideas: seq<string>, c: Cursor, n: nat): (r: Cursor)
    requires c.ideaIndex < |ideas|
    ensures r.ideaIndex < |ideas|
    decreases n
  {
    if n == 0 then c else Run(ideas, Step(ideas, c).next, n - 1)
  }

  /** The frames of `n` running ticks, in order. */
  function Trace(ideas: seq<string>, c: Cursor, n: nat): (t: seq<Frame>)
    requires c.ideaIndex < |ideas|
    ensures |t| == n
    decreases n
  {
    if n == 0 then [] else [Step(ideas, c)] + Trace(ideas, Step(ideas, c).next, n - 1)
  }

  /** The list in App.tsx has five entries, none of them empty. */
  lemma IdeasUsable()
    ensures Usable(Ideas) && |Ideas| == 5
  {
  }

  /** The fallback is the first example. */
  lemma FallbackIsFirstIdea()
    ensures Fallback == Ideas[0]
  {
  }

  lemma StartInv(ideas: seq<string>)
    requires Usable(ideas)
    ensures Inv(ideas, Start)
  {
  }

  /** A tick keeps the cursor within its bounds. */
  lemma StepPreservesInv(ideas: seq<string>, c: Cursor)
    requires Usable(ideas) && Inv(ideas, c)
    ensures Inv(ideas, Step(ideas, c).next)
  {
  }

  /** The delay rule, stated on the cursor before the tick: 100 while typing,
      2000 on the tick that types the last character, 50 while deleting, 500
      on the tick that deletes the first character. */
  lemma StepDelay(ideas: seq<string>, c: Cursor)
    requires c.ideaIndex < |ideas|
    ensures var len := |ideas[c.ideaIndex]|;
      Step(ideas, c).delay ==
        if !c.isDeleting then (if c.charIndex + 1 == len then PauseAtEnd else TypeDelay)
        else (if c.charIndex == 1 then PauseBeforeNext else DeleteDelay)
    ensures Step(ideas, c).delay in {TypeDelay, PauseAtEnd, DeleteDelay, PauseBeforeNext}
  {
  }

  /** The cursor after a tick: `charIndex` moves by one in the current
      direction; the direction flips exactly when the word has been typed out
      or erased; the example changes only on the tick that erases it, to the
      next one cyclically. */
  lemma StepCursor(ideas: seq<string>, c: Cursor)
    requires c.ideaIndex < |ideas|
    ensures var n := Step(ideas, c).next;
      var len := |ideas[c.ideaIndex]|;
      && n.charIndex == (if c.isDeleting then c.charIndex - 1 else c.charIndex + 1)
      && n.isDeleting == (if c.isDeleting then c.charIndex != 1 else c.charIndex + 1 == len)
      && n.ideaIndex == (if c.isDeleting && c.charIndex == 1 then (c.ideaIndex + 1) % |ideas|
                         else c.ideaIndex)
  {
  }

  /** A tick renders the prefix of the current example up to the moved
      `charIndex` (taken before any switch of direction or example), followed
      by the cursor glyph; the prefix is exact, no clamping happens. */
  lemma StepText(ideas: seq<string>, c: Cursor)
    requires Inv(ideas, c)
    ensures var k := if c.isDeleting then c.charIndex - 1 else c.charIndex + 1;
      && 0 <= k <= |ideas[c.ideaIndex]|
      && Step(ideas, c).text == ideas[c.ideaIndex][..k] + CursorGlyph
      && |Step(ideas, c).text| == k + 1
  {
  }

  /** Every cursor the animation reaches is within bounds. */
  lemma {:induction false} RunPreservesInv(ideas: seq<string>, c: Cursor, n: nat)
    requires Usable(ideas) && Inv(ideas, c)
    ensures Inv(ideas, Run(ideas, c, n))
    decreases n
  {
    if n > 0 {
      StepPreservesInv(ideas, c);
      RunPreservesInv(ideas, Step(ideas, c).next, n - 1);
    }
  }

  /** Running `a + b` ticks is running `a` ticks and then `b` more. */
  lemma {:induction false} RunAdd(ideas: seq<string>, c: Cursor, a: nat, b: nat)
    requires c.ideaIndex < |ideas|
    ensures Run(ideas, c, a + b) == Run(ideas, Run(ideas, c, a), b)
    decreases a
  {
    if a > 0 {
      RunAdd(ideas, Step(ideas, c).next, a - 1, b);
    }
  }

  /** While typing, the remaining `len - charIndex` ticks type the example
      out and leave the cursor at full length, deleting. */
  lemma {:induction false} TypeOut(ideas: seq<string>, c: Cursor)
    requires Inv(ideas, c) && !c.isDeleting
    ensures var len := |ideas[c.ideaIndex]|;
      Run(ideas, c, len - c.charIndex) == Cursor(c.ideaIndex, len, true)
    decreases |ideas[c.ideaIndex]| - c.charIndex
  {
    var len := |ideas[c.ideaIndex]|;
    var next := Step(ideas, c).next;
    if c.charIndex + 1 < len {
      assert next == Cursor(c.ideaIndex, c.charIndex + 1, false);
      TypeOut(ideas, next);
    }
  }

  /** While deleting, the remaining `charIndex` ticks erase the example and
      leave the cursor at the start of the next example, typing. */
  lemma {:induction false} DeleteOut(ideas: seq<string>, c: Cursor)
    requires Inv(ideas, c) && c.isDeleting
    ensures Run(ideas, c, c.charIndex) == Cursor((c.ideaIndex + 1) % |ideas|, 0, false)
    decreases c.charIndex
  {
    var next := Step(ideas, c).next;
    if c.charIndex > 1 {
      assert next == Cursor(c.ideaIndex, c.charIndex - 1, true);
      DeleteOut(ideas, next);
    }
  }

  /** Starting an example from scratch, `len` ticks type it out and `len`
      more erase it and move on to the next example. */
  lemma WordCycle(ideas: seq<string>, i: nat)
    requires Usable(ideas) && i < |ideas|
    ensures var len := |ideas[i]|;
      && Run(ideas, Cursor(i, 0, false), len) == Cursor(i, len, true)
      && Run(ideas, Cursor(i, 0, false), 2 * len) == Cursor((i + 1) % |ideas|, 0, false)
  {
    var len := |ideas[i]|;
    var c := Cursor(i, 0, false);
    TypeOut(ideas, c);
    RunAdd(ideas, c, len, len);
    DeleteOut(ideas, Cursor(i, len, true));
  }

  /** From the effect's initial cursor, on any list of at least two
      examples: after `|ideas[0]|` ticks the first example is fully typed
      and deletion begins; after as many again the second example is about
      to be typed. */
  lemma FromStart(ideas: seq<string>)
    requires Usable(ideas) && |ideas| > 1
    ensures Run(ideas, Start, |ideas[0]|) == Cursor(0, |ideas[0]|, true)
    ensures Run(ideas, Start, 2 * |ideas[0]|) == Cursor(1, 0, false)
  {
    WordCycle(ideas, 0);
  }

  /** The same for the list of App.tsx. */
  lemma FirstWordCycle()
    ensures Run(Ideas, Start, |Ideas[0]|) == Cursor(0, |Ideas[0]|, true)
    ensures Run(Ideas, Start, 2 * |Ideas[0]|) == Cursor(1, 0, false)
  {
    IdeasUsable();
    FromStart(Ideas);
  }

  /** The frames `t` of typing example `i` on from `charIndex == k`: frame
      `j` renders the first `k + j + 1` characters and waits 100, except the
      last frame, which waits 2000. */
  ghost predicate TypingFrames(ideas: seq<string>, i: nat, k: nat, t: seq<Frame>)
    requires i < |ideas|
  {
    forall j :: 0 <= j < |t| ==>
      && k + j + 1 <= |ideas[i]|
      && t[j].text == ideas[i][..k + j + 1] + CursorGlyph
      && t[j].delay == (if j < |t| - 1 then TypeDelay else PauseAtEnd)
  }

  /** The frames `t` of erasing example `i` from `charIndex == k`: frame `j`
      renders the first `k - j - 1` characters and waits 50, except the last
      frame, which renders the bare glyph and waits 500. */
  ghost predicate DeletingFrames(ideas: seq<string>, i: nat, k: nat, t: seq<Frame>)
    requires i < |ideas|
  {
    forall j :: 0 <= j < |t| ==>
      && 0 <= k - j - 1 <= |ideas[i]|
      && t[j].text == ideas[i][..k - j - 1] + CursorGlyph
      && t[j].delay == (if j < |t| - 1 then DeleteDelay else PauseBeforeNext)
  }

  /** While typing, the remaining ticks render one more character of the
      example each, waiting 100 between them and 2000 after the last. */
  lemma {:induction false} TypingTrace(ideas: seq<string>, c: Cursor)
    requires Inv(ideas, c) && !c.isDeleting
    ensures var len := |ideas[c.ideaIndex]|;
      TypingFrames(ideas, c.ideaIndex, c.charIndex, Trace(ideas, c, len - c.charIndex))
    decreases |ideas[c.ideaIndex]| - c.charIndex
  {
    var i, k := c.ideaIndex, c.charIndex;
    var len := |ideas[i]|;
    var t := Trace(ideas, c, len - k);
    StepText(ideas, c);
    var next := Step(ideas, c).next;
    if k + 1 < len {
      assert next == Cursor(i, k + 1, false);
      TypingTrace(ideas, next);
      var rest := Trace(ideas, next, len - (k + 1));
      assert t == [Step(ideas, c)] + rest;
      assert TypingFrames(ideas, i, k + 1, rest);
      forall j | 1 <= j < |t|
        ensures k + j + 1 <= len
        ensures t[j].text == ideas[i][..k + j + 1] + CursorGlyph
        ensures t[j].delay == (if j < |t| - 1 then TypeDelay else PauseAtEnd)
      {
        assert t[j] == rest[j - 1];
      }
    }
  }

  /** While deleting, the remaining ticks render one character less each,
      waiting 50 between them and 500 after the last. */
  lemma {:induction false} DeletingTrace(ideas: seq<string>, c: Cursor)
    requires Inv(ideas, c) && c.isDeleting
    ensures DeletingFrames(ideas, c.ideaIndex, c.charIndex, Trace(ideas, c, c.charIndex))
    decreases c.charIndex
  {
    var i, k := c.ideaIndex, c.charIndex;
    var t := Trace(ideas, c, k);
    StepText(ideas, c);
    var next := Step(ideas, c).next;
    if k > 1 {
      assert next == Cursor(i, k - 1, true);
      DeletingTrace(ideas, next);
      var rest := Trace(ideas, next, k - 1);
      assert t == [Step(ideas, c)] + rest;
      assert DeletingFrames(ideas, i, k - 1, rest);
      forall j | 1 <= j < |t|
        ensures 0 <= k - j - 1 <= |ideas[i]|
        ensures t[j].text == ideas[i][..k - j - 1] + CursorGlyph
        ensures t[j].delay == (if j < |t| - 1 then DeleteDelay else PauseBeforeNext)
      {
        assert t[j] == rest[j - 1];
      }
    }
  }

  /** The frames of `a + b` ticks are those of `a` ticks followed by those of
      `b` ticks from where the first `a` left the cursor. */
  lemma {:induction false} TraceAdd(ideas: seq<string>, c: Cursor, a: nat, b: nat)
    requires c.ideaIndex < |ideas|
    ensures Trace(ideas, c, a + b) == Trace(ideas, c, a) + Trace(ideas, Run(ideas, c, a), b)
    decreases a
  {
    if a > 0 {
      TraceAdd(ideas, Step(ideas, c).next, a - 1, b);
    }
  }

  /** The whole cycle of example `i` from its start: the first `len` frames
      type it out (delay 100, then 2000), the next `len` frames erase it
      (delay 50, then 500). */
  lemma CycleTrace(ideas: seq<string>, i: nat)
    requires Usable(ideas) && i < |ideas|
    ensures var len := |ideas[i]|;
      var t := Trace(ideas, Cursor(i, 0, false), 2 * len);
      && TypingFrames(ideas, i, 0, t[..len])
      && DeletingFrames(ideas, i, len, t[len..])
  {
    var len := |ideas[i]|;
    var c := Cursor(i, 0, false);
    TraceAdd(ideas, c, len, len);
    TypeOut(ideas, c);
    TypingTrace(ideas, c);
    DeletingTrace(ideas, Cursor(i, len, true));
    var t := Trace(ideas, c, 2 * len);
    assert t[..len] == Trace(ideas, c, len);
    assert t[len..] == Trace(ideas, Cursor(i, len, true), len);
  }
}
