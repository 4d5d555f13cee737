// Concrete runs of the typewriter engine.

module TypewriterExamples {
  import opened Typewriter

  /** The first two items of the about-us text on the home page */
  const AboutUsOpening: seq<ContentItem> := [
    ContentItem(H5, "We're not just changing how writing assessment is managed. We're revolutionizing education."),
    ContentItem(P, "At Writer Block, we believe in the power of words and the potential of every student. Our AI-powered writing assessment tool isn't just smart—it's intuitive, empowering, and transformative.")
  ]

  /** The speeds the home page passes as `typingSpeed` */
  const HomePageSpeed: TypingSpeed := TypingSpeed(70, 1, 1, 5)

  /** Two items: a heading "Hi" and a paragraph "Bye" */
  const HiBye: seq<ContentItem> := [ContentItem(H1, "Hi"), ContentItem(P, "Bye")]

  /** The state right after the start timer fired */
  function Started(n: nat): EngineState
  {
    Cleared(n).(startTyping := true, showCursor := true)
  }

  /** The tick that moves from the sub-heading to the paragraph is charged
      the sub-heading's delay; only the tick after it uses the paragraph's.
      On a narrow viewport the home page's speeds are not used at all,
      because it passes no mobile profile. */
  lemma AdvanceIsChargedTheOldItem(width: int)
    ensures var s := Started(2).(typedText := [AboutUsOpening[0].content, ""]);
      var t := TypeNextCharacter(AboutUsOpening, s);
      && t.currentItemIndex == 1 && t.typedText == s.typedText
      && TickDelay(AboutUsOpening, s, width, HomePageSpeed, DefaultMobileTypingSpeed)
         == (if width < 768 then 10 else 5)
      && TickDelay(AboutUsOpening, t, width, HomePageSpeed, DefaultMobileTypingSpeed)
         == (if width < 768 then 2 else 1)
  {
  }

  /** "Hi" then "Bye" at heading delay 10 and paragraph delay 5: the heading
      is typed by 20 ms, moving on costs another 10, "Bye" is typed by 45 and
      the completing tick lands at 50 */
  lemma HiByeTimeline(width: int)
    ensures Run(HiBye, Started(2), 2).typedText == ["Hi", ""]
    ensures Elapsed(HiBye, Started(2), 2, width, TypingSpeed(10, 5, 0, 0), TypingSpeed(10, 5, 0, 0)) == 20
    ensures Run(HiBye, Started(2), 3).currentItemIndex == 1
    ensures Elapsed(HiBye, Started(2), 3, width, TypingSpeed(10, 5, 0, 0), TypingSpeed(10, 5, 0, 0)) == 30
    ensures Run(HiBye, Started(2), 6).typedText == ["Hi", "Bye"]
    ensures !Run(HiBye, Started(2), 6).isTypingComplete
    ensures Elapsed(HiBye, Started(2), 6, width, TypingSpeed(10, 5, 0, 0), TypingSpeed(10, 5, 0, 0)) == 45
    ensures Run(HiBye, Started(2), 7).isTypingComplete
    ensures Elapsed(HiBye, Started(2), 7, width, TypingSpeed(10, 5, 0, 0), TypingSpeed(10, 5, 0, 0)) == 50
  {
    var sp := TypingSpeed(10, 5, 0, 0);
    var s0 := Started(2);
    assert s0.typedText == ["", ""];
    var s1 := TypeNextCharacter(HiBye, s0);
    assert "Hi"[..1] == "H";
    assert s1.typedText == ["H", ""];
    var s2 := TypeNextCharacter(HiBye, s1);
    assert "Hi"[..2] == "Hi";
    assert s2.typedText == ["Hi", ""];
    var s3 := TypeNextCharacter(HiBye, s2);
    assert s3 == s2.(currentItemIndex := 1);
    var s4 := TypeNextCharacter(HiBye, s3);
    assert "Bye"[..1] == "B";
    assert s4.typedText == ["Hi", "B"];
    var s5 := TypeNextCharacter(HiBye, s4);
    assert "Bye"[..2] == "By";
    assert s5.typedText == ["Hi", "By"];
    var s6 := TypeNextCharacter(HiBye, s5);
    assert "Bye"[..3] == "Bye";
    assert s6.typedText == ["Hi", "Bye"] && !s6.isTypingComplete;
    var s7 := TypeNextCharacter(HiBye, s6);
    assert s7.isTypingComplete;
    assert Run(HiBye, s6, 1) == s7;
    assert Run(HiBye, s5, 2) == s7;
    assert Run(HiBye, s4, 3) == s7;
    assert Run(HiBye, s3, 4) == s7;
    assert Run(HiBye, s2, 5) == s7;
    assert Run(HiBye, s1, 6) == s7;
    assert Run(HiBye, s2, 4) == s6;
    assert Run(HiBye, s1, 5) == s6;
    assert Run(HiBye, s1, 2) == s3;
    assert Run(HiBye, s1, 1) == s2;
    assert Elapsed(HiBye, s6, 1, width, sp, sp) == 5;
    assert Elapsed(HiBye, s5, 2, width, sp, sp) == 10;
    assert Elapsed(HiBye, s4, 3, width, sp, sp) == 15;
    assert Elapsed(HiBye, s3, 4, width, sp, sp) == 20;
    assert Elapsed(HiBye, s2, 5, width, sp, sp) == 30;
    assert Elapsed(HiBye, s1, 6, width, sp, sp) == 40;
    assert Elapsed(HiBye, s2, 4, width, sp, sp) == 25;
    assert Elapsed(HiBye, s1, 5, width, sp, sp) == 35;
    assert Elapsed(HiBye, s2, 1, width, sp, sp) == 10;
    assert Elapsed(HiBye, s1, 2, width, sp, sp) == 20;
    assert Elapsed(HiBye, s1, 1, width, sp, sp) == 10;
  }
}
