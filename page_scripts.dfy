/** The small page state machines of loader.js: the hero subtitle
    typewriter, the mobile navbar that hides on scroll and the theme toggle. */
module PageScripts {

  // ------------------------------------------------------------ typewriter

  /** Delay before the next `type()` call after deleting one character. */
  const DELETE_DELAY: nat := 50
  /** Delay after typing one character. */
  const TYPE_DELAY: nat := 150
  /** Pause once a text is fully typed. */
  const END_PAUSE: nat := 2000
  /** Pause once a text is fully deleted. */
  const NEXT_PAUSE: nat := 1000

  /** The three closure variables `type()` updates. */
  datatype Typing = Typing(textIndex: nat, charIndex: nat, isDeleting: bool)

  /** Every text of the rotation has at least one character. */
  predicate Typeable(texts: seq<string>)
  {
    |texts| > 0 && forall i :: 0 <= i < |texts| ==> |texts[i]| > 0
  }

  /** The states `type()` moves through: the index names a text, the cursor
      lies within it, a deleting pass has something to delete and a typing
      pass something to type. */
  predicate Steady(texts: seq<string>, t: Typing)
  {
    Typeable(texts) && t.textIndex < |texts| && t.charIndex <= |texts[t.textIndex]| &&
    (t.isDeleting ==> t.charIndex > 0) && (!t.isDeleting ==> t.charIndex < |texts[t.textIndex]|)
  }

  /** One `type()` call: a character is typed or deleted; a fully typed text
      starts deleting, a fully deleted one moves on to the next text. */
  function TypeStep(texts: seq<string>, t: Typing): Typing
    requires Steady(texts, t)
  {
    var c := if t.isDeleting then t.charIndex - 1 else t.charIndex + 1;
    if !t.isDeleting && c == |texts[t.textIndex]| then Typing(t.textIndex, c, true)
    else if t.isDeleting && c == 0 then Typing((t.textIndex + 1) % |texts|, 0, false)
    else Typing(t.textIndex, c, t.isDeleting)
  }

  /** The `typingSpeed` the call passes to `setTimeout`. */
  function TypeDelay(texts: seq<string>, t: Typing): (d: nat)
    requires Steady(texts, t)
    ensures d in {DELETE_DELAY, TYPE_DELAY, END_PAUSE, NEXT_PAUSE}
    ensures d == END_PAUSE <==> !t.isDeleting && t.charIndex + 1 == |texts[t.textIndex]|
    ensures d == NEXT_PAUSE <==> t.isDeleting && t.charIndex == 1
  {
    if !t.isDeleting && t.charIndex + 1 == |texts[t.textIndex]| then END_PAUSE
    else if t.isDeleting && t.charIndex == 1 then NEXT_PAUSE
    else if t.isDeleting then DELETE_DELAY
    else TYPE_DELAY
  }

  /** A step keeps the cursor within the text, moves it by exactly one, flips
      to deleting exactly at the end of the text and back to typing exactly
      at 0, and advances the text index modulo the number of texts. */
  lemma TypeStepSteady(texts: seq<string>, t: Typing)
    requires Steady(texts, t)
    ensures Steady(texts, TypeStep(texts, t))
    ensures TypeStep(texts, t).charIndex == if t.isDeleting then t.charIndex - 1 else t.charIndex + 1
    ensures TypeStep(texts, t).isDeleting <==>
      (if t.isDeleting then t.charIndex > 1 else t.charIndex + 1 == |texts[t.textIndex]|)
    ensures TypeStep(texts, t).textIndex ==
      if t.isDeleting && t.charIndex == 1 then (t.textIndex + 1) % |texts| else t.textIndex
  {
  }

  /** `k` calls of `type()`. */
  function TypeSteps(texts: seq<string>, t: Typing, k: nat): (r: Typing)
    requires Steady(texts, t)
    ensures Steady(texts, r)
    decreases k
  {
    if k == 0 then t
    else
      TypeStepSteady(texts, t);
      TypeSteps(texts, TypeStep(texts, t), k - 1)
  }

  /** Typing from position `c` reaches the end of the text after
      `|text| - c` calls, and only then turns to deleting. */
  lemma {:induction false} TypingPhase(texts: seq<string>, i: nat, c: nat, k: nat)
    requires Steady(texts, Typing(i, c, false)) && c + k <= |texts[i]|
    ensures TypeSteps(texts, Typing(i, c, false), k) == Typing(i, c + k, c + k == |texts[i]|)
    decreases k
  {
    if k > 0 {
      if c + 1 < |texts[i]| {
        TypingPhase(texts, i, c + 1, k - 1);
      } else {
        assert TypeStep(texts, Typing(i, c, false)) == Typing(i, c + 1, true);
      }
    }
  }

  /** Deleting from position `c` empties the text after `c` calls and then
      moves on to the next text. */
  lemma {:induction false} DeletingPhase(texts: seq<string>, i: nat, c: nat, k: nat)
    requires Steady(texts, Typing(i, c, true)) && k <= c
    ensures TypeSteps(texts, Typing(i, c, true), k) ==
      if k == c then Typing((i + 1) % |texts|, 0, false) else Typing(i, c - k, true)
    decreases k
  {
    if k > 0 {
      if c > 1 {
        DeletingPhase(texts, i, c - 1, k - 1);
      } else {
        assert TypeStep(texts, Typing(i, c, true)) == Typing((i + 1) % |texts|, 0, false);
      }
    }
  }

  lemma {:induction false} TypeStepsAdd(texts: seq<string>, t: Typing, j: nat, k: nat)
    requires Steady(texts, t)
    ensures TypeSteps(texts, t, j + k) == TypeSteps(texts, TypeSteps(texts, t, j), k)
    decreases j
  {
    if j > 0 {
      TypeStepSteady(texts, t);
      TypeStepsAdd(texts, TypeStep(texts, t), j - 1, k);
    }
  }

  /** A full round: from an empty cursor on text `i`, `2 * |texts[i]|` calls
      type the whole text, delete it again and land on an empty cursor on
      the next text of the rotation. */
  lemma TypeRound(texts: seq<string>, i: nat)
    requires Typeable(texts) && i < |texts|
    ensures TypeSteps(texts, Typing(i, 0, false), 2 * |texts[i]|) == Typing((i + 1) % |texts|, 0, false)
  {
    var n := |texts[i]|;
    TypeStepsAdd(texts, Typing(i, 0, false), n, n);
    TypingPhase(texts, i, 0, n);
    DeletingPhase(texts, i, n, n);
  }

  /** The subtitle element and the closure state of its `type()` loop. */
  class Typewriter {
    const texts: seq<string>
    var textIndex: nat
    var charIndex: nat
    var isDeleting: bool
    /** `typingElement.textContent`. */
    var shown: string

    ghost predicate Valid()
      reads this
    {
      Steady(texts, Typing(textIndex, charIndex, isDeleting)) && shown == texts[textIndex][..charIndex]
    }

    /** The closure variables at page load, before the first call. */
    constructor (rotation: seq<string>)
      requires Typeable(rotation)
      ensures Valid()
      ensures texts == rotation && textIndex == 0 && charIndex == 0 && !isDeleting && shown == []
    {
      texts := rotation;
      textIndex := 0;
      charIndex := 0;
      isDeleting := false;
      shown := [];
    }

    /** `type()`: returns the delay it passes to `setTimeout`. The element
        shows the first `charIndex` characters of the text being worked on. */
    method Type() returns (delay: nat)
      requires Valid()
      modifies this`textIndex, this`charIndex, this`isDeleting, this`shown
      ensures Valid()
      ensures Typing(textIndex, charIndex, isDeleting) == TypeStep(texts, old(Typing(textIndex, charIndex, isDeleting)))
      ensures delay == TypeDelay(texts, old(Typing(textIndex, charIndex, isDeleting)))
      ensures shown == old(texts[textIndex])[..charIndex]
    {
      var currentText := texts[textIndex];
      var speed: nat;
      if isDeleting {
        shown := currentText[..charIndex - 1];
        charIndex := charIndex - 1;
        speed := DELETE_DELAY;
      } else {
        shown := currentText[..charIndex + 1];
        charIndex := charIndex + 1;
        speed := TYPE_DELAY;
      }
      if !isDeleting && charIndex == |currentText| {
        speed := END_PAUSE;
        isDeleting := true;
      } else if isDeleting && charIndex == 0 {
        isDeleting := false;
        textIndex := (textIndex + 1) % |texts|;
        speed := NEXT_PAUSE;
      }
      delay := speed;
    }
  }

  // ---------------------------------------------------------------- navbar

  /** Widest viewport, in CSS pixels, on which the navbar reacts to scrolling. */
  const MOBILE_WIDTH: int := 768
  /** `scrollThreshold`: no hiding within the first 50 pixels. */
  const SCROLL_THRESHOLD: real := 50.0

  /** The navbar closure state: the last scroll offset seen and whether the
      bar is meant to be visible. */
  datatype Navbar = Navbar(lastScrollTop: real, isNavbarVisible: bool)

  /** `handleNavbarScroll` on the closure state, for a viewport `width` wide
      scrolled to `scroll`. */
  function NavbarStep(n: Navbar, width: int, scroll: real): Navbar
  {
    if width > MOBILE_WIDTH then n
    else
      var visible :=
        if scroll > n.lastScrollTop && scroll > SCROLL_THRESHOLD then false
        else if scroll < n.lastScrollTop then true
        else n.isNavbarVisible;
      Navbar(if scroll <= 0.0 then 0.0 else scroll, visible)
  }

  /** The recorded offset is never negative; a wide viewport changes nothing;
      on a narrow one the bar hides exactly on a downward scroll past 50
      pixels and shows exactly on an upward one. */
  lemma NavbarStepSpec(n: Navbar, width: int, scroll: real)
    requires n.lastScrollTop >= 0.0
    ensures NavbarStep(n, width, scroll).lastScrollTop >= 0.0
    ensures width > MOBILE_WIDTH ==> NavbarStep(n, width, scroll) == n
    ensures width <= MOBILE_WIDTH ==>
      NavbarStep(n, width, scroll).lastScrollTop == (if scroll <= 0.0 then 0.0 else scroll) &&
      (n.isNavbarVisible && !NavbarStep(n, width, scroll).isNavbarVisible <==>
        n.isNavbarVisible && scroll > n.lastScrollTop && scroll > SCROLL_THRESHOLD) &&
      (!n.isNavbarVisible && NavbarStep(n, width, scroll).isNavbarVisible <==>
        !n.isNavbarVisible && scroll < n.lastScrollTop)
  {
  }

  /** Handling the same offset twice changes nothing the second time. */
  lemma NavbarStepIdempotent(n: Navbar, width: int, scroll: real)
    requires n.lastScrollTop >= 0.0
    ensures NavbarStep(NavbarStep(n, width, scroll), width, scroll) == NavbarStep(n, width, scroll)
  {
  }

  class NavbarScroll {
    var lastScrollTop: real
    var isNavbarVisible: bool
    /** The bar's inline `style.opacity`: 1 shown, 0 hidden. */
    var opacity: real

    ghost predicate Valid()
      reads this
    {
      lastScrollTop >= 0.0 && (opacity == 0.0 || opacity == 1.0)
    }

    constructor ()
      ensures Valid() && lastScrollTop == 0.0 && isNavbarVisible && opacity == 1.0
    {
      lastScrollTop := 0.0;
      isNavbarVisible := true;
      opacity := 1.0;
    }

    /** `handleNavbarScroll`: a wide viewport only resets the bar's style; a
        narrow one hides or shows it when the direction says so and records
        the offset. */
    method HandleScroll(width: int, scroll: real)
      requires Valid()
      modifies this
      ensures Valid()
      ensures Navbar(lastScrollTop, isNavbarVisible) == NavbarStep(old(Navbar(lastScrollTop, isNavbarVisible)), width, scroll)
      ensures opacity == (if width > MOBILE_WIDTH then 1.0
        else if isNavbarVisible != old(isNavbarVisible) then (if isNavbarVisible then 1.0 else 0.0)
        else old(opacity))
    {
      if width > MOBILE_WIDTH {
        opacity := 1.0;
        return;
      }
      if scroll > lastScrollTop && scroll > SCROLL_THRESHOLD {
        if isNavbarVisible {
          opacity := 0.0;
          isNavbarVisible := false;
        }
      } else if scroll < lastScrollTop {
        if !isNavbarVisible {
          opacity := 1.0;
          isNavbarVisible := true;
        }
      }
      lastScrollTop := if scroll <= 0.0 then 0.0 else scroll;
    }
  }

  // ----------------------------------------------------------------- theme

  /** The toggle's `currentTheme === 'light' ? 'dark' : 'light'`. */
  function NextTheme(current: string): (r: string)
    ensures r == "dark" || r == "light"
    ensures r == "dark" <==> current == "light"
  {
    if current == "light" then "dark" else "light"
  }

  /** Two clicks restore either theme, and a click always changes it. */
  lemma NextThemeInvolution(current: string)
    requires current == "light" || current == "dark"
    ensures NextTheme(NextTheme(current)) == current
    ensures NextTheme(current) != current
  {
  }
}
