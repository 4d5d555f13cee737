// The typewriter engine of the TypedText component: per-character reveal of
// an ordered list of content items, driven by timers that are modelled here
// as explicit method calls.

module Typewriter {

  /** The HTML tag of a content item */
  datatype Tag = H1 | H2 | H3 | H4 | H5 | H6 | P

  datatype ContentItem = ContentItem(tag: Tag, content: string)

  /** Per-character delays in milliseconds */
  datatype TypingSpeed = TypingSpeed(heading: int, paragraph: int, backspace: int, subHeading: int)

  datatype Option<T> = None | Some(value: T)

  /** Viewports narrower than this use the mobile speed profile */
  const MobileBreakpoint: int := 768

  /** The profiles used when the caller passes none */
  const DefaultTypingSpeed: TypingSpeed := TypingSpeed(70, 2, 50, 10)
  const DefaultMobileTypingSpeed: TypingSpeed := TypingSpeed(70, 2, 25, 10)

  /** The six pieces of component state */
  datatype EngineState = EngineState(
    typedText: seq<string>,
    currentItemIndex: int,
    startTyping: bool,
    isTypingComplete: bool,
    showCursor: bool,
    cursorVisible: bool)

  /** The state on mount, and the state a reset restores */
  function Cleared(n: nat): (r: EngineState)
    ensures |r.typedText| == n && forall i :: 0 <= i < n ==> r.typedText[i] == ""
    ensures r.currentItemIndex == 0
    ensures !r.startTyping && !r.isTypingComplete && !r.showCursor && r.cursorVisible
  {
    EngineState(seq(n, _ => ""), 0, false, false, false, true)
  }

  /** Every state reachable from `Cleared` by Start, Reset, ticks and blinks */
  ghost predicate Inv(content: seq<ContentItem>, s: EngineState)
  {
    && |s.typedText| == |content|
    && 0 <= s.currentItemIndex
    && (s.currentItemIndex < |content| || s.currentItemIndex == 0)
    // every entry is a prefix of its item's text
    && (forall i :: 0 <= i < |content| ==> s.typedText[i] <= content[i].content)
    // items before the current one are complete, items after it are empty
    && (forall i :: 0 <= i < s.currentItemIndex ==> s.typedText[i] == content[i].content)
    && (forall i :: s.currentItemIndex < i < |content| ==> s.typedText[i] == "")
    && s.showCursor == s.startTyping
    && (!s.startTyping ==>
          && s.currentItemIndex == 0
          && !s.isTypingComplete
          && forall i :: 0 <= i < |content| ==> s.typedText[i] == "")
    && (s.isTypingComplete ==>
          && s.startTyping
          && |content| > 0
          && s.currentItemIndex == |content| - 1
          && s.typedText[|content| - 1] == content[|content| - 1].content)
    && (!s.isTypingComplete ==> s.cursorVisible)
  }

  /** The shape that lets a tick be scheduled at all */
  predicate Schedulable(content: seq<ContentItem>, s: EngineState)
  {
    |s.typedText| == |content| && 0 <= s.currentItemIndex < |content|
  }

  // ---------------------------------------------------------------------
  // Delay selection

  /** The speed profile for a viewport of the given width */
  function GetTypingSpeed(width: int, typingSpeed: TypingSpeed, mobileTypingSpeed: TypingSpeed): (r: TypingSpeed)
    ensures width < MobileBreakpoint ==> r == mobileTypingSpeed
    ensures width >= MobileBreakpoint ==> r == typingSpeed
  {
    if width < MobileBreakpoint then mobileTypingSpeed else typingSpeed
  }

  /** The delay a tag is typed at; `backspace` is never consulted */
  function SpeedFor(tag: Tag, speed: TypingSpeed): (r: int)
    ensures r == speed.heading || r == speed.paragraph || r == speed.subHeading
    ensures tag == H1 ==> r == speed.heading
  {
    if tag == H5 then speed.subHeading
    else if tag == H1 then speed.heading
    else speed.paragraph
  }

  /** The delay before the next tick, chosen from the item that is current
      when the tick is scheduled */
  function TickDelay(content: seq<ContentItem>, s: EngineState, width: int,
                     typingSpeed: TypingSpeed, mobileTypingSpeed: TypingSpeed): (r: int)
    requires 0 <= s.currentItemIndex < |content|
    ensures width < MobileBreakpoint ==> r == SpeedFor(content[s.currentItemIndex].tag, mobileTypingSpeed)
    ensures width >= MobileBreakpoint ==> r == SpeedFor(content[s.currentItemIndex].tag, typingSpeed)
  {
    SpeedFor(content[s.currentItemIndex].tag, GetTypingSpeed(width, typingSpeed, mobileTypingSpeed))
  }

  lemma MobileProfileIffNarrow(width: int, typingSpeed: TypingSpeed, mobileTypingSpeed: TypingSpeed)
    requires typingSpeed != mobileTypingSpeed
    ensures GetTypingSpeed(width, typingSpeed, mobileTypingSpeed) == mobileTypingSpeed <==> width < MobileBreakpoint
    ensures GetTypingSpeed(width, typingSpeed, mobileTypingSpeed) == typingSpeed <==> width >= MobileBreakpoint
  {
  }

  lemma SpeedByTag(tag: Tag, speed: TypingSpeed)
    ensures tag == H5 ==> SpeedFor(tag, speed) == speed.subHeading
    ensures tag == H1 ==> SpeedFor(tag, speed) == speed.heading
    ensures tag != H1 && tag != H5 ==> SpeedFor(tag, speed) == speed.paragraph
    ensures forall b: int :: SpeedFor(tag, speed.(backspace := b)) == SpeedFor(tag, speed)
  {
  }

  /** The two default profiles differ only in `backspace`, so with the
      defaults the viewport width never changes a delay */
  lemma DefaultProfilesAgree(tag: Tag, width: int)
    ensures SpeedFor(tag, GetTypingSpeed(width, DefaultTypingSpeed, DefaultMobileTypingSpeed))
         == SpeedFor(tag, DefaultTypingSpeed)
  {
    SpeedByTag(tag, DefaultTypingSpeed);
    SpeedByTag(tag, DefaultMobileTypingSpeed);
  }

  // ---------------------------------------------------------------------
  // One tick

  /** The timer callback: append one character to the current item, move on
      to the next item, or mark typing complete.  The character position is
      the length of the current entry. */
  function TypeNextCharacter(content: seq<ContentItem>, s: EngineState): (t: EngineState)
    requires |s.typedText| == |content| && 0 <= s.currentItemIndex
    ensures |t.typedText| == |content|
    ensures s.currentItemIndex <= t.currentItemIndex
    ensures s.currentItemIndex < |content| ==> t.currentItemIndex < |content|
  {
    if s.currentItemIndex >= |content| then
      s.(isTypingComplete := true, showCursor := true)
    else
      var currentItem := content[s.currentItemIndex];
      var currentTypedText := s.typedText[s.currentItemIndex];
      if |currentTypedText| < |currentItem.content| then
        s.(typedText := s.typedText[s.currentItemIndex := currentItem.content[..|currentTypedText| + 1]])
      else if s.currentItemIndex < |content| - 1 then
        s.(currentItemIndex := s.currentItemIndex + 1)
      else
        s.(isTypingComplete := true, showCursor := true)
  }

  /** A tick touches only the entry at the current index, and never the
      start, cursor-visibility flags */
  lemma TickTouchesOnlyCurrent(content: seq<ContentItem>, s: EngineState)
    requires |s.typedText| == |content| && 0 <= s.currentItemIndex
    ensures var t := TypeNextCharacter(content, s);
      && (forall i :: 0 <= i < |content| && i != s.currentItemIndex ==> t.typedText[i] == s.typedText[i])
      && t.startTyping == s.startTyping
      && t.cursorVisible == s.cursorVisible
  {
  }

  /** A tick does exactly one of three things */
  lemma TickDoesOneThing(content: seq<ContentItem>, s: EngineState)
    requires Inv(content, s) && |content| > 0
    ensures var t := TypeNextCharacter(content, s);
      var k := s.currentItemIndex;
      var text := content[k].content;
      var typed := s.typedText[k];
      // typed one more character of the current item
      || (&& |typed| < |text|
          && t.currentItemIndex == k
          && t.typedText[k] == typed + [text[|typed|]]
          && t.isTypingComplete == s.isTypingComplete)
      // the current item was complete: moved on to the next one
      || (&& typed == text
          && k < |content| - 1
          && t.typedText == s.typedText
          && t.currentItemIndex == k + 1
          && t.isTypingComplete == s.isTypingComplete)
      // the last item was complete: typing is complete
      || (&& typed == text
          && k == |content| - 1
          && t.typedText == s.typedText
          && t.currentItemIndex == k
          && t.isTypingComplete && t.showCursor)
  {
  }

  /** Ticks of a started engine keep the invariant */
  lemma TickPreservesInv(content: seq<ContentItem>, s: EngineState)
    requires Inv(content, s) && s.startTyping && |content| > 0
    ensures Inv(content, TypeNextCharacter(content, s))
  {
  }

  /** Once typing is complete, further ticks change nothing */
  lemma CompletedTickIsIdempotent(content: seq<ContentItem>, s: EngineState)
    requires Inv(content, s) && s.isTypingComplete
    ensures TypeNextCharacter(content, s) == s
  {
  }

  /** Typing becomes complete exactly on a tick at the fully typed last item */
  lemma TickCompletesIff(content: seq<ContentItem>, s: EngineState)
    requires Inv(content, s) && |content| > 0
    ensures TypeNextCharacter(content, s).isTypingComplete <==>
      (s.isTypingComplete ||
       (s.currentItemIndex == |content| - 1 && s.typedText[|content| - 1] == content[|content| - 1].content))
  {
  }

  // ---------------------------------------------------------------------
  // Termination measure

  /** Characters not yet revealed, summed over all items */
  function Untyped(content: seq<ContentItem>, typed: seq<string>): int
    requires |typed| == |content|
    decreases |content|
  {
    if content == [] then 0
    else |content[0].content| - |typed[0]| + Untyped(content[1..], typed[1..])
  }

  lemma {:induction false} UntypedUpdate(content: seq<ContentItem>, typed: seq<string>, i: nat, v: string)
    requires |typed| == |content| && i < |content|
    ensures Untyped(content, typed[i := v]) == Untyped(content, typed) + |typed[i]| - |v|
    decreases |content|
  {
    if i == 0 {
      assert typed[i := v][1..] == typed[1..];
    } else {
      assert typed[i := v][1..] == typed[1..][i - 1 := v];
      UntypedUpdate(content[1..], typed[1..], i - 1, v);
    }
  }

  lemma {:induction false} UntypedZeroIffAllTyped(content: seq<ContentItem>, typed: seq<string>)
    requires |typed| == |content|
    requires forall i :: 0 <= i < |content| ==> typed[i] <= content[i].content
    ensures Untyped(content, typed) >= 0
    ensures Untyped(content, typed) == 0 <==> forall i :: 0 <= i < |content| ==> typed[i] == content[i].content
    decreases |content|
  {
    if content != [] {
      UntypedZeroIffAllTyped(content[1..], typed[1..]);
      assert typed[0] <= content[0].content;
      if Untyped(content, typed) == 0 {
        assert |typed[0]| == |content[0].content|;
        forall i | 0 <= i < |content| ensures typed[i] == content[i].content {
          if i > 0 { assert typed[1..][i - 1] == typed[i]; }
        }
      } else {
        if forall i :: 0 <= i < |content| ==> typed[i] == content[i].content {
          forall i | 0 <= i < |content| - 1 ensures typed[1..][i] == content[1..][i].content {
            assert typed[i + 1] == content[i + 1].content;
          }
          assert false;
        }
      }
    }
  }

  /** Characters left to reveal plus items left to move on to */
  function Remaining(content: seq<ContentItem>, s: EngineState): int
    requires |s.typedText| == |content|
  {
    Untyped(content, s.typedText) + (|content| - 1 - s.currentItemIndex)
  }

  lemma RemainingZeroIffReady(content: seq<ContentItem>, s: EngineState)
    requires Inv(content, s) && |content| > 0
    ensures Remaining(content, s) >= 0
    ensures Remaining(content, s) == 0 <==>
      (s.currentItemIndex == |content| - 1 && s.typedText[|content| - 1] == content[|content| - 1].content)
  {
    UntypedZeroIffAllTyped(content, s.typedText);
    var last := |content| - 1;
    if s.currentItemIndex == last && s.typedText[last] == content[last].content {
      assert forall i :: 0 <= i < |content| ==> s.typedText[i] == content[i].content;
    }
  }

  /** Every tick that does not complete typing makes progress */
  lemma TickDecreasesRemaining(content: seq<ContentItem>, s: EngineState)
    requires Inv(content, s) && s.startTyping && |content| > 0
    requires !TypeNextCharacter(content, s).isTypingComplete
    ensures 0 <= Remaining(content, TypeNextCharacter(content, s)) < Remaining(content, s)
  {
    var k := s.currentItemIndex;
    var text := content[k].content;
    var typed := s.typedText[k];
    TickPreservesInv(content, s);
    RemainingZeroIffReady(content, TypeNextCharacter(content, s));
    if |typed| < |text| {
      UntypedUpdate(content, s.typedText, k, text[..|typed| + 1]);
    }
  }

  /** `n` consecutive ticks */
  function Run(content: seq<ContentItem>, s: EngineState, n: nat): (t: EngineState)
    requires |s.typedText| == |content| && 0 <= s.currentItemIndex
    ensures |t.typedText| == |content| && 0 <= t.currentItemIndex
    decreases n
  {
    if n == 0 then s else Run(content, TypeNextCharacter(content, s), n - 1)
  }

  /** The total delay charged by `n` consecutive ticks at a fixed width */
  function Elapsed(content: seq<ContentItem>, s: EngineState, n: nat, width: int,
                   typingSpeed: TypingSpeed, mobileTypingSpeed: TypingSpeed): int
    requires Schedulable(content, s)
    decreases n
  {
    if n == 0 then 0
    else
      TickDelay(content, s, width, typingSpeed, mobileTypingSpeed)
      + Elapsed(content, TypeNextCharacter(content, s), n - 1, width, typingSpeed, mobileTypingSpeed)
  }

  lemma {:induction false} RunFromCompleted(content: seq<ContentItem>, s: EngineState, n: nat)
    requires Inv(content, s) && s.isTypingComplete
    ensures Run(content, s, n) == s
    decreases n
  {
    if n > 0 {
      CompletedTickIsIdempotent(content, s);
      RunFromCompleted(content, s, n - 1);
    }
  }

  /** A started engine reveals every item in full and completes within
      `Remaining + 1` ticks */
  lemma {:induction false} RunToCompletion(content: seq<ContentItem>, s: EngineState, n: nat)
    requires Inv(content, s) && s.startTyping && |content| > 0
    requires n > Remaining(content, s)
    ensures var t := Run(content, s, n);
      && Inv(content, t)
      && t.isTypingComplete
      && t.typedText == seq(|content|, i requires 0 <= i < |content| => content[i].content)
    decreases n
  {
    var t1 := TypeNextCharacter(content, s);
    TickPreservesInv(content, s);
    RemainingZeroIffReady(content, s);
    if t1.isTypingComplete {
      RunFromCompleted(content, t1, n - 1);
    } else {
      TickDecreasesRemaining(content, s);
      RunToCompletion(content, t1, n - 1);
    }
  }

  // ---------------------------------------------------------------------
  // Cursor

  /** The per-item cursor rule applied while rendering */
  predicate ShouldShowCursor(content: seq<ContentItem>, s: EngineState, index: int)
    ensures ShouldShowCursor(content, s, index) ==> s.showCursor
    ensures ShouldShowCursor(content, s, index) && !s.isTypingComplete ==> index == s.currentItemIndex
    ensures ShouldShowCursor(content, s, index) && s.isTypingComplete ==> index == |content| - 1
  {
    s.showCursor &&
    ((s.currentItemIndex == index && !s.isTypingComplete) ||
     (index == |content| - 1 && s.isTypingComplete))
  }

  /** Whether the cursor glyph is emitted after item `index` (rendering
      visits only the items of `content`); with blinking off,
      `cursorVisible` is not consulted */
  predicate CursorRendered(content: seq<ContentItem>, s: EngineState, blinking: bool, index: int)
    ensures CursorRendered(content, s, blinking, index) ==> 0 <= index < |content| && ShouldShowCursor(content, s, index)
    ensures blinking && !s.cursorVisible ==> !CursorRendered(content, s, blinking, index)
    ensures !blinking ==>
      (CursorRendered(content, s, blinking, index) <==> 0 <= index < |content| && ShouldShowCursor(content, s, index))
  {
    0 <= index < |content| && ShouldShowCursor(content, s, index) && (if blinking then s.cursorVisible else true)
  }

  /** The blink effect: toggle while complete and blinking, otherwise hide
      once complete */
  function BlinkStep(blinking: bool, s: EngineState): (r: EngineState)
    ensures r == s.(cursorVisible := r.cursorVisible)
    ensures !s.isTypingComplete ==> r == s
    ensures s.isTypingComplete && blinking ==> r.cursorVisible == !s.cursorVisible
    ensures s.isTypingComplete && !blinking ==> !r.cursorVisible
  {
    if s.isTypingComplete && blinking then s.(cursorVisible := !s.cursorVisible)
    else if s.isTypingComplete && !blinking then s.(cursorVisible := false)
    else s
  }

  lemma AtMostOneCursor(content: seq<ContentItem>, s: EngineState, blinking: bool, i: int, j: int)
    requires CursorRendered(content, s, blinking, i) && CursorRendered(content, s, blinking, j)
    ensures i == j
  {
  }

  lemma NoCursorBeforeStart(content: seq<ContentItem>, s: EngineState, blinking: bool, index: int)
    requires Inv(content, s) && !s.startTyping
    ensures !CursorRendered(content, s, blinking, index)
  {
  }

  /** While typing, the cursor sits at the current item, blinking or not */
  lemma CursorFollowsTyping(content: seq<ContentItem>, s: EngineState, blinking: bool, index: int)
    requires Inv(content, s) && s.startTyping && !s.isTypingComplete && |content| > 0
    ensures CursorRendered(content, s, blinking, index) <==> index == s.currentItemIndex
  {
  }

  /** After completion the cursor is at the last item, shown whenever
      blinking is off and on alternate blink phases otherwise */
  lemma CursorAfterCompletion(content: seq<ContentItem>, s: EngineState, blinking: bool, index: int)
    requires Inv(content, s) && s.isTypingComplete
    ensures CursorRendered(content, s, blinking, index) <==>
      (index == |content| - 1 && (!blinking || s.cursorVisible))
  {
  }

  /** With blinking off, the blink effect hides `cursorVisible` but the cursor
      stays on the last item */
  lemma CursorPersistsWithoutBlinking(content: seq<ContentItem>, s: EngineState)
    requires Inv(content, s) && s.isTypingComplete
    ensures var t := BlinkStep(false, s);
      !t.cursorVisible && CursorRendered(content, t, false, |content| - 1)
  {
  }

  lemma BlinkPreservesInv(content: seq<ContentItem>, s: EngineState, blinking: bool)
    requires Inv(content, s)
    ensures Inv(content, BlinkStep(blinking, s))
    ensures BlinkStep(blinking, s).cursorVisible != s.cursorVisible ==> s.isTypingComplete
    ensures BlinkStep(blinking, s).cursorVisible && !s.cursorVisible ==> blinking
  {
  }

  // ---------------------------------------------------------------------
  // The component

  class TypedText {
    const content: seq<ContentItem>
    const typingSpeed: TypingSpeed
    const mobileTypingSpeed: TypingSpeed
    const blinking: bool

    var typedText: seq<string>
    var currentItemIndex: int
    var startTyping: bool
    var isTypingComplete: bool
    var showCursor: bool
    var cursorVisible: bool

    function State(): EngineState
      reads this
    {
      EngineState(typedText, currentItemIndex, startTyping, isTypingComplete, showCursor, cursorVisible)
    }

    ghost predicate Valid()
      reads this
    {
      Inv(content, State())
    }

    constructor (content: seq<ContentItem>, typingSpeed: TypingSpeed, mobileTypingSpeed: TypingSpeed,
                 blinking: bool)
      ensures Valid()
      ensures State() == Cleared(|content|)
      ensures this.content == content && this.typingSpeed == typingSpeed
      ensures this.mobileTypingSpeed == mobileTypingSpeed
      ensures this.blinking == blinking
    {
      this.content := content;
      this.typingSpeed := typingSpeed;
      this.mobileTypingSpeed := mobileTypingSpeed;
      this.blinking := blinking;
      typedText := seq(|content|, _ => "");
      currentItemIndex := 0;
      startTyping := false;
      isTypingComplete := false;
      showCursor := false;
      cursorVisible := true;
    }

    /** The start timer firing `initialDelay` after the component became
        visible */
    method Start()
      requires Valid()
      modifies this
      ensures Valid()
      ensures State() == old(State()).(startTyping := true, showCursor := true)
    {
      startTyping := true;
      showCursor := true;
    }

    /** The visibility effect when the component is not visible */
    method Reset()
      requires Valid()
      modifies this
      ensures Valid()
      ensures State() == Cleared(|content|)
    {
      typedText := seq(|content|, _ => "");
      currentItemIndex := 0;
      startTyping := false;
      isTypingComplete := false;
      showCursor := false;
      cursorVisible := true;
    }

    /** One run of the typing effect: nothing unless visible and started;
        otherwise the delay is chosen from the current item and the callback
        fires after it.  Returns the delay that was charged. */
    method Tick(isVisible: bool, width: int) returns (delay: Option<int>)
      requires Valid()
      requires isVisible && startTyping ==> |content| > 0
      modifies this
      ensures Valid()
      ensures !(isVisible && old(startTyping)) ==> delay == None && State() == old(State())
      ensures isVisible && old(startTyping) ==>
        && delay == Some(TickDelay(content, old(State()), width, typingSpeed, mobileTypingSpeed))
        && State() == TypeNextCharacter(content, old(State()))
    {
      if !isVisible || !startTyping {
        return None;
      }
      ghost var before := State();
      TickPreservesInv(content, before);

      var speed := GetTypingSpeed(width, typingSpeed, mobileTypingSpeed);
      var tag := content[currentItemIndex].tag;
      if tag == H5 {
        delay := Some(speed.subHeading);
      } else if tag == H1 {
        delay := Some(speed.heading);
      } else {
        delay := Some(speed.paragraph);
      }

      var currentItem := content[currentItemIndex];
      var currentTypedText := typedText[currentItemIndex];
      if |currentTypedText| < |currentItem.content| {
        typedText := typedText[currentItemIndex := currentItem.content[..|currentTypedText| + 1]];
      } else if currentItemIndex < |content| - 1 {
        currentItemIndex := currentItemIndex + 1;
      } else {
        isTypingComplete := true;
        showCursor := true;
      }
    }

    /** One firing of the blink effect */
    method BlinkToggle()
      requires Valid()
      modifies this
      ensures Valid()
      ensures State() == BlinkStep(blinking, old(State()))
    {
      BlinkPreservesInv(content, State(), blinking);
      if isTypingComplete && blinking {
        cursorVisible := !cursorVisible;
      } else if isTypingComplete && !blinking {
        cursorVisible := false;
      }
    }

    /** Whether the cursor glyph follows item `index` */
    function ShowsCursorAt(index: int): (b: bool)
      reads this
      requires Valid()
      ensures b ==> 0 <= index < |content| && startTyping
      ensures b && !isTypingComplete ==> index == currentItemIndex
    {
      CursorRendered(content, State(), blinking, index)
    }
  }
}
