/**
 * The page's navigation bar: the mobile menu's open/closed flag, its toggle button, and
 * the section links that scroll to a section and close the menu when the section exists.
 *
 * The DOM lookup by id is the parameter `page`: the set of ids of the elements present.
 */
module Navigation {

  /** The ids of the page's sections: hero, experience, education and contact. */
  const PageSections: set<string> := {"hero", "experience", "education", "contact"}

  /** The labels of the section links, shown in both the desktop and the mobile menu. */
  const MenuItems: seq<string> := ["Experience", "Education", "Contact"]

  /** JavaScript's `toLowerCase` on one character, for the ASCII letters the labels use. */
  function LowerChar(c: char): char
  {
    if 'A' <= c <= 'Z' then (c as int + 32) as char else c
  }

  /** JavaScript's `toLowerCase`, character by character. */
  function ToLower(s: string): string
  {
    seq(|s|, i requires 0 <= i < |s| => LowerChar(s[i]))
  }

  /** Every id a navigation control scrolls to: the logo's, each link's, and "Book Consultation"'s. */
  function NavTargets(): seq<string>
  {
    ["hero"] + seq(|MenuItems|, i requires 0 <= i < |MenuItems| => ToLower(MenuItems[i])) + ["contact"]
  }

  /** The link labels lower-case to the ids of the experience, education and contact sections. */
  lemma ExperienceId()
    ensures ToLower(MenuItems[0]) == "experience"
  {
  }

  lemma EducationId()
    ensures ToLower(MenuItems[1]) == "education"
  {
  }

  lemma ContactId()
    ensures ToLower(MenuItems[2]) == "contact"
  {
  }

  /** The controls scroll to the hero, the three linked sections and the contact section. */
  lemma NavTargetsAre()
    ensures NavTargets() == ["hero", "experience", "education", "contact", "contact"]
  {
    ExperienceId();
    EducationId();
    ContactId();
  }

  /** Every navigation control names a section that the page has. */
  lemma NavTargetsOnPage()
    ensures forall t :: t in NavTargets() ==> t in PageSections
  {
    NavTargetsAre();
  }

  class Menu {
    /** Whether the mobile menu is shown. */
    var isOpen: bool

    /** The menu starts closed. */
    constructor ()
      ensures !isOpen
    {
      isOpen := false;
    }

    /** The mobile toggle button flips the flag. */
    method Toggle()
      modifies this
      ensures isOpen == !old(isOpen)
    {
      isOpen := !isOpen;
    }

    /**
     * A section link: when an element with this id is present, scroll to it and close the
     * menu; otherwise do nothing at all.
     */
    method ScrollToSection(id: string, page: set<string>) returns (scrolled: bool)
      modifies this
      ensures scrolled <==> id in page
      ensures isOpen == (if id in page then false else old(isOpen))
    {
      scrolled := id in page;
      if scrolled {
        isOpen := false;
      }
    }
  }

  /**
   * A visitor opens the mobile menu and follows any navigation control on the page: the
   * menu was open, the page scrolls, and the menu is closed afterwards.
   */
  method OpenAndFollow(k: nat) returns (openBefore: bool, scrolled: bool, openAfter: bool)
    requires k < |NavTargets()|
    ensures openBefore && scrolled && !openAfter
  {
    var menu := new Menu();
    menu.Toggle();
    openBefore := menu.isOpen;
    NavTargetsOnPage();
    scrolled := menu.ScrollToSection(NavTargets()[k], PageSections);
    openAfter := menu.isOpen;
  }
}
