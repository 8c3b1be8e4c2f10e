/** KeyboardShortcuts: a window-wide `keydown` listener. Unless the event
    comes from an input or a textarea, the lower-cased key decides: h, a, p
    and c scroll to the home, about, projects and contact sections, Escape
    scrolls to the top, and every other key does nothing.

    The scrolling itself is left to the browser; the model returns which
    scroll the handler asks for. */
module KeyboardShortcuts {
  import FloatingNav

  /** What the event target is, as far as the guard cares. */
  datatype Target = InputElement | TextAreaElement | OtherElement

  datatype Action = NoAction | ScrollToSection(id: string) | ScrollToTop

  /** Lower case of one ASCII letter; other characters are kept. */
  function LowerChar(c: char): (l: char)
    ensures 'A' <= c <= 'Z' ==> 'a' <= l <= 'z' && (l as int) - (c as int) == 32
    ensures !('A' <= c <= 'Z') ==> l == c
  {
    if 'A' <= c <= 'Z' then (c as int + 32) as char else c
  }

  /** `s.toLowerCase()` on ASCII. */
  function Lower(s: string): (l: string)
    ensures |l| == |s|
    decreases |s|
  {
    if s == [] then [] else [LowerChar(s[0])] + Lower(s[1..])
  }

  lemma {:induction false} LowerIdempotent(s: string)
    ensures Lower(Lower(s)) == Lower(s)
    decreases |s|
  {
    if s != [] {
      LowerIdempotent(s[1..]);
      var l := Lower(s);
      assert l[0] == LowerChar(s[0]) && l[1..] == Lower(s[1..]);
    }
  }

  /** `handleKeyPress`. */
  function Dispatch(key: string, target: Target): (a: Action)
    ensures a.ScrollToSection? ==> a.id in FloatingNav.NavIds
  {
    if target == InputElement || target == TextAreaElement then NoAction
    else
      var k := Lower(key);
      if k == "h" then ScrollToSection("home")
      else if k == "a" then ScrollToSection("about")
      else if k == "p" then ScrollToSection("projects")
      else if k == "c" then ScrollToSection("contact")
      else if k == "escape" then ScrollToTop
      else NoAction
  }

  /** Keys typed into a form field never act. */
  lemma TypingIsIgnored(key: string, target: Target)
    requires target == InputElement || target == TextAreaElement
    ensures Dispatch(key, target) == NoAction
  {
  }

  /** Matching ignores case: a key and its lower case act alike. */
  lemma CaseInsensitive(key: string, target: Target)
    ensures Dispatch(Lower(key), target) == Dispatch(key, target)
  {
    LowerIdempotent(key);
  }

  /** Each shortcut exactly: which keys scroll where, and that everything
      else does nothing. */
  lemma Shortcuts(key: string)
    ensures Dispatch(key, OtherElement) == ScrollToSection("home") <==> Lower(key) == "h"
    ensures Dispatch(key, OtherElement) == ScrollToSection("about") <==> Lower(key) == "a"
    ensures Dispatch(key, OtherElement) == ScrollToSection("projects") <==> Lower(key) == "p"
    ensures Dispatch(key, OtherElement) == ScrollToSection("contact") <==> Lower(key) == "c"
    ensures Dispatch(key, OtherElement) == ScrollToTop <==> Lower(key) == "escape"
    ensures Dispatch(key, OtherElement) == NoAction <==> Lower(key) !in ["h", "a", "p", "c", "escape"]
  {
  }

  /** The browser's key names: capital H and "Escape". */
  lemma Examples()
    ensures Dispatch("H", OtherElement) == ScrollToSection("home")
    ensures Dispatch("Escape", OtherElement) == ScrollToTop
    ensures Dispatch("Enter", OtherElement) == NoAction
  {
    assert Lower("H") == "h";
    assert Lower("Escape") == "escape";
    assert Lower("Enter")[0] == 'e' && Lower("Enter")[1] == 'n';
  }
}
