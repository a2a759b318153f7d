/**
 * The typewriter headline: it types one of six phrases a character at a
 * time, pauses on the full phrase, deletes it a character at a time and moves
 * on to the next phrase. One run of the effect is one atomic step; the timer
 * delays only decide when the next step happens.
 */
module Headline {

  const Words: seq<string> := [
    "Discover New Perspectives",
    "Learn From Experts",
    "Find Your Next Favorite Show",
    "Expand Your Knowledge",
    "Get Daily Insights",
    "Stay Ahead With Podcasts"
  ]

  /** The five state variables of the component. */
  datatype HeadlineState = HeadlineState(
    displayText: string, currentIndex: int, isDeleting: bool, currentWordIndex: int, isPaused: bool)

  /** The state after mounting: nothing typed, first phrase, typing. */
  const Initial := HeadlineState("", 0, false, 0, false)

  /** words[currentWordIndex] is defined. */
  predicate InRange(st: HeadlineState)
  {
    0 <= st.currentWordIndex < |Words|
  }

  /**
   * The display shows the first currentIndex characters of the current phrase,
   * and a pause happens only on a fully typed phrase, never while deleting.
   */
  predicate Inv(st: HeadlineState)
  {
    InRange(st)
    && 0 <= st.currentIndex <= |Words[st.currentWordIndex]|
    && st.displayText == Words[st.currentWordIndex][..st.currentIndex]
    && (st.isPaused ==> !st.isDeleting && st.currentIndex == |Words[st.currentWordIndex]|)
  }

  /** String.prototype.substring: both bounds clamped to the string, swapped when reversed. */
  function Substring(s: string, start: int, end: int): (r: string)
    ensures 0 <= start <= end <= |s| ==> r == s[start..end]
    ensures |r| <= |s|
  {
    var a := if start < 0 then 0 else if start > |s| then |s| else start;
    var b := if end < 0 then 0 else if end > |s| then |s| else end;
    if a <= b then s[a..b] else s[b..a]
  }

  /** One run of the effect body, with its timer callback applied. */
  function Next(st: HeadlineState): (next: HeadlineState)
    requires InRange(st)
    ensures InRange(next)
    ensures Inv(st) ==> Inv(next)
    ensures Inv(st) && next.currentWordIndex != st.currentWordIndex ==>
      st.isDeleting && !st.isPaused && st.currentIndex == 0
      && next.currentWordIndex == (st.currentWordIndex + 1) % |Words|
    ensures Inv(st) && !st.isPaused && !st.isDeleting && st.currentIndex < |Words[st.currentWordIndex]| ==>
      next.currentIndex == st.currentIndex + 1 && !next.isPaused
    ensures Inv(st) && !st.isPaused && !st.isDeleting && st.currentIndex == |Words[st.currentWordIndex]| ==>
      next == st.(isPaused := true)
    ensures Inv(st) && st.isDeleting && st.currentIndex > 0 ==>
      next.currentIndex == st.currentIndex - 1 && next.isDeleting
  {
    var word := Words[st.currentWordIndex];
    if st.isPaused then
      st.(isPaused := false, isDeleting := true)
    else if !st.isDeleting then
      if st.currentIndex < |word| then
        st.(displayText := Substring(word, 0, st.currentIndex + 1), currentIndex := st.currentIndex + 1)
      else
        st.(isPaused := true)
    else if st.currentIndex > 0 then
      st.(displayText := Substring(word, 0, st.currentIndex - 1), currentIndex := st.currentIndex - 1)
    else
      var k := (st.currentWordIndex + 1) % |Words|;
      assert Words[k][..0] == "";
      st.(isDeleting := false, currentWordIndex := k, currentIndex := 0)
  }

  /** The state after n steps. */
  function Iterate(st: HeadlineState, n: nat): (r: HeadlineState)
    requires InRange(st)
    ensures InRange(r)
    ensures Inv(st) ==> Inv(r)
    decreases n
  {
    if n == 0 then st else Iterate(Next(st), n - 1)
  }

  /** Every state the component reaches satisfies the invariant. */
  lemma ReachableStatesKeepInv(n: nat)
    ensures Inv(Iterate(Initial, n))
  {
  }

  lemma {:induction false} IterateAdd(st: HeadlineState, m: nat, n: nat)
    requires InRange(st)
    decreases m
    ensures Iterate(st, m + n) == Iterate(Iterate(st, m), n)
  {
    if m > 0 {
      IterateAdd(Next(st), m - 1, n);
    }
  }

  /** Typing adds exactly one character per step. */
  lemma {:induction false} TypingSteps(st: HeadlineState, n: nat)
    requires Inv(st) && !st.isPaused && !st.isDeleting
    requires st.currentIndex + n <= |Words[st.currentWordIndex]|
    ensures Iterate(st, n) == st.(currentIndex := st.currentIndex + n,
                                  displayText := Words[st.currentWordIndex][..st.currentIndex + n])
    decreases n
  {
    if n > 0 {
      TypingSteps(Next(st), n - 1);
    }
  }

  /** Deleting removes exactly one character per step. */
  lemma {:induction false} DeletingSteps(st: HeadlineState, n: nat)
    requires Inv(st) && st.isDeleting
    requires n <= st.currentIndex
    ensures Iterate(st, n) == st.(currentIndex := st.currentIndex - n,
                                  displayText := Words[st.currentWordIndex][..st.currentIndex - n])
    decreases n
  {
    if n > 0 {
      DeletingSteps(Next(st), n - 1);
    }
  }

  /** The state at the start of phrase k. */
  function Start(k: int): (st: HeadlineState)
    requires 0 <= k < |Words|
    ensures Inv(st) && st.displayText == ""
  {
    HeadlineState("", 0, false, k, false)
  }

  /** A fully typed phrase: one step into the pause and one out of it, into deleting. */
  lemma PauseThenDelete(st: HeadlineState)
    requires Inv(st) && !st.isPaused && !st.isDeleting
    requires st.currentIndex == |Words[st.currentWordIndex]|
    ensures Iterate(st, 2) == st.(isDeleting := true)
  {
    var paused := Next(st);
    assert paused == st.(isPaused := true);
    assert Iterate(st, 2) == Iterate(Next(paused), 0);
  }

  /** A fully deleted phrase: one step to the start of the next phrase. */
  lemma AdvanceWord(st: HeadlineState)
    requires Inv(st) && st.isDeleting && st.currentIndex == 0
    ensures Iterate(st, 1) == Start((st.currentWordIndex + 1) % |Words|)
  {
    assert Iterate(st, 1) == Iterate(Next(st), 0);
  }

  /** The full phrase, just after the pause, about to be deleted. */
  function FullyTyped(k: int): (st: HeadlineState)
    requires 0 <= k < |Words|
    ensures Inv(st) && st.isDeleting
  {
    HeadlineState(Words[k], |Words[k]|, true, k, false)
  }

  /** Typing a phrase and pausing on it: |w| typing runs, one into the pause, one out of it. */
  lemma TypeAndPause(k: int)
    requires 0 <= k < |Words|
    ensures Iterate(Start(k), |Words[k]| + 2) == FullyTyped(k)
  {
    var w := |Words[k]|;
    TypingSteps(Start(k), w);
    PauseThenDelete(Iterate(Start(k), w));
    IterateAdd(Start(k), w, 2);
  }

  /** Deleting a phrase and moving on: |w| deleting runs and one to the next phrase. */
  lemma DeleteAndAdvance(k: int)
    requires 0 <= k < |Words|
    ensures Iterate(FullyTyped(k), |Words[k]| + 1) == Start((k + 1) % |Words|)
  {
    var w := |Words[k]|;
    DeletingSteps(FullyTyped(k), w);
    AdvanceWord(Iterate(FullyTyped(k), w));
    IterateAdd(FullyTyped(k), w, 1);
  }

  /**
   * A whole cycle: |w| typing steps, one step into the pause, one out of it,
   * |w| deleting steps and one step to the next phrase.
   */
  lemma CycleAdvancesWord(k: int)
    requires 0 <= k < |Words|
    ensures Iterate(Start(k), 2 * |Words[k]| + 3) == Start((k + 1) % |Words|)
  {
    TypeAndPause(k);
    DeleteAndAdvance(k);
    IterateAdd(Start(k), |Words[k]| + 2, |Words[k]| + 1);
  }

  /** Every phrase is shown in full: after |w| steps from its start the display is the phrase. */
  lemma PhraseFullyShown(k: int)
    requires 0 <= k < |Words|
    ensures Iterate(Start(k), |Words[k]|).displayText == Words[k]
  {
    TypingSteps(Start(k), |Words[k]|);
  }

  /** The component, its state variables updated in place by each effect run. */
  class DynamicHeadline {
    var displayText: string
    var currentIndex: int
    var isDeleting: bool
    var currentWordIndex: int
    var isPaused: bool

    function State(): HeadlineState
      reads this
    {
      HeadlineState(displayText, currentIndex, isDeleting, currentWordIndex, isPaused)
    }

    predicate Valid()
      reads this
    {
      Inv(State())
    }

    constructor ()
      ensures State() == Initial && Valid()
    {
      displayText := "";
      currentIndex := 0;
      isDeleting := false;
      currentWordIndex := 0;
      isPaused := false;
    }

    /** One run of the effect, with the setters its timer callback makes. */
    method Step()
      requires Valid()
      modifies this
      ensures State() == Next(old(State())) && Valid()
    {
      var currentWord := Words[currentWordIndex];
      if isPaused {
        isPaused := false;
        isDeleting := true;
      } else if !isDeleting {
        if currentIndex < |currentWord| {
          displayText := Substring(currentWord, 0, currentIndex + 1);
          currentIndex := currentIndex + 1;
        } else {
          isPaused := true;
        }
      } else {
        if currentIndex > 0 {
          displayText := Substring(currentWord, 0, currentIndex - 1);
          currentIndex := currentIndex - 1;
        } else {
          isDeleting := false;
          currentWordIndex := (currentWordIndex + 1) % |Words|;
          currentIndex := 0;
        }
      }
    }
  }
}
