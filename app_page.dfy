/**
 * The application shell: which section is shown, the sections that need a
 * signed-in user, the search results handed to the forum, the sign-in
 * dialog, and the dark-mode switch with its stored flag and the "dark"
 * class of the document.
 */
module AppPage {
  import opened Wrappers
  import opened Records

  const HOME := "home"
  const AI_CHAT := "ai-chat"
  const FORUM := "forum"
  const PROFILE := "profile"
  const ABOUT := "about"

  /** The sections only a signed-in user may open. */
  predicate Protected(section: string) {
    section == AI_CHAT || section == FORUM || section == PROFILE
  }

  /** The tab the sign-in dialog opens on. */
  datatype AuthTab = Login | Register

  /** The sign-in dialog: open or closed, and on which tab. */
  datatype AuthModal = AuthModal(isOpen: bool, tab: AuthTab)

  /** What the main area shows. */
  datatype Content = WelcomeSection | AiChat | Forum(searchResults: Option<seq<Post>>) | ProfileView | About

  /**
   * `renderContent`: a protected section for a signed-in user, the welcome
   * section for a visitor; the about page for anyone; the welcome section
   * for home and for any unknown section.
   */
  function RenderContent(section: string, isAuthenticated: bool, searchResults: Option<seq<Post>>): (c: Content)
    ensures Protected(section) && !isAuthenticated ==> c == WelcomeSection
    ensures section == ABOUT ==> c == About
    ensures c == AiChat <==> section == AI_CHAT && isAuthenticated
    ensures c.Forum? <==> section == FORUM && isAuthenticated
    ensures c.Forum? ==> c.searchResults == searchResults
    ensures c == ProfileView <==> section == PROFILE && isAuthenticated
    ensures c == WelcomeSection <==> section != ABOUT && !(Protected(section) && isAuthenticated)
  {
    if section == AI_CHAT then (if isAuthenticated then AiChat else WelcomeSection)
    else if section == FORUM then (if isAuthenticated then Forum(searchResults) else WelcomeSection)
    else if section == PROFILE then (if isAuthenticated then ProfileView else WelcomeSection)
    else if section == ABOUT then About
    else WelcomeSection
  }

  /** A visitor sees only the welcome section or the about page, whatever the section. */
  lemma VisitorSeesOnlyPublic(section: string, searchResults: Option<seq<Post>>)
    ensures RenderContent(section, false, searchResults) in {WelcomeSection, About}
  {
  }

  /** The state of `AppContent`, with the stored dark-mode flag and the document's "dark" class. */
  class App {
    var activeSection: string
    var authModal: AuthModal
    var profileSettingsOpen: bool
    var settingsOpen: bool
    var searchResults: Option<seq<Post>>
    var darkMode: bool
    /** The `comfortillo-dark-mode` flag; `None` when never stored. */
    var storedDarkMode: Option<bool>
    /** Whether the document element carries the "dark" class. */
    var darkClass: bool

    /** The page carries the "dark" class exactly when dark mode is on. */
    predicate Valid()
      reads this
    {
      darkClass == darkMode
    }

    /** The start: home, no dialog, no search, light mode, and the flag found in storage. */
    constructor (storedDarkMode: Option<bool>)
      ensures Valid()
      ensures activeSection == HOME && authModal == AuthModal(false, Login)
      ensures !profileSettingsOpen && !settingsOpen && searchResults == None && !darkMode
      ensures this.storedDarkMode == storedDarkMode
    {
      activeSection := HOME;
      authModal := AuthModal(false, Login);
      profileSettingsOpen := false;
      settingsOpen := false;
      searchResults := None;
      darkMode := false;
      this.storedDarkMode := storedDarkMode;
      darkClass := false;
    }

    /** Loading the stored preference: a stored flag switches dark mode and the class to it. */
    method LoadDarkMode()
      requires Valid()
      modifies this
      ensures Valid()
      ensures darkMode == if storedDarkMode.Some? then storedDarkMode.value else old(darkMode)
      ensures storedDarkMode == old(storedDarkMode) && activeSection == old(activeSection)
      ensures searchResults == old(searchResults) && authModal == old(authModal)
    {
      if storedDarkMode.Some? {
        var isDark := storedDarkMode.value;
        darkMode := isDark;
        darkClass := isDark;
      }
    }

    /** `handleDarkModeToggle`: the flag, its stored copy and the class all follow the switch. */
    method DarkModeToggle(enabled: bool)
      modifies this
      ensures Valid()
      ensures darkMode == enabled && storedDarkMode == Some(enabled) && darkClass == enabled
      ensures activeSection == old(activeSection) && searchResults == old(searchResults) && authModal == old(authModal)
      ensures settingsOpen == old(settingsOpen) && profileSettingsOpen == old(profileSettingsOpen)
    {
      darkMode := enabled;
      storedDarkMode := Some(enabled);
      if enabled {
        darkClass := true;
      } else {
        darkClass := false;
      }
    }

    /** `handleAuthAction`: the sign-in dialog opens on the asked tab. */
    method AuthAction(tab: AuthTab)
      modifies this
      ensures authModal == AuthModal(true, tab)
      ensures activeSection == old(activeSection) && searchResults == old(searchResults) && darkMode == old(darkMode)
      ensures darkClass == old(darkClass)
    {
      authModal := AuthModal(true, tab);
    }

    /**
     * `handleSectionChange`: a visitor asking for a protected section gets
     * the sign-in dialog and stays where they are; otherwise the section
     * changes and the search results are dropped.
     */
    method SectionChange(section: string, isAuthenticated: bool)
      modifies this
      ensures !isAuthenticated && Protected(section) ==>
        && authModal == AuthModal(true, Login)
        && activeSection == old(activeSection) && searchResults == old(searchResults)
      ensures isAuthenticated || !Protected(section) ==>
        && activeSection == section && searchResults == None && authModal == old(authModal)
      ensures darkMode == old(darkMode) && darkClass == old(darkClass)
    {
      if !isAuthenticated && (section == AI_CHAT || section == FORUM || section == PROFILE) {
        authModal := AuthModal(true, Login);
        return;
      }
      activeSection := section;
      searchResults := None;
    }

    /** `handleAuthRequired`: the sign-in dialog opens on the login tab. */
    method AuthRequired()
      modifies this
      ensures authModal == AuthModal(true, Login)
      ensures activeSection == old(activeSection) && searchResults == old(searchResults) && darkMode == old(darkMode)
      ensures darkClass == old(darkClass)
    {
      authModal := AuthModal(true, Login);
    }

    /**
     * `handleSearchResults`: the results are kept and the forum becomes the
     * section, without asking a visitor to sign in.
     */
    method SearchResults(results: seq<Post>)
      modifies this
      ensures searchResults == Some(results) && activeSection == FORUM
      ensures authModal == old(authModal) && darkMode == old(darkMode) && darkClass == old(darkClass)
    {
      searchResults := Some(results);
      if activeSection != FORUM {
        activeSection := FORUM;
      }
    }

    /** `handleClearSearch`: the forum shows its own list again. */
    method ClearSearch()
      modifies this
      ensures searchResults == None && activeSection == old(activeSection)
      ensures authModal == old(authModal) && darkMode == old(darkMode) && darkClass == old(darkClass)
    {
      searchResults := None;
    }

    /** Closing the sign-in dialog keeps its tab. */
    method CloseAuthModal()
      modifies this
      ensures authModal == AuthModal(false, old(authModal).tab)
      ensures activeSection == old(activeSection) && searchResults == old(searchResults)
      ensures darkMode == old(darkMode) && darkClass == old(darkClass)
    {
      authModal := authModal.(isOpen := false);
    }

    /** The settings dialog opens or closes. */
    method SetSettingsOpen(open: bool)
      modifies this
      ensures settingsOpen == open && profileSettingsOpen == old(profileSettingsOpen)
      ensures activeSection == old(activeSection) && searchResults == old(searchResults)
      ensures darkMode == old(darkMode) && darkClass == old(darkClass) && authModal == old(authModal)
    {
      settingsOpen := open;
    }

    /** The profile editor opens (from the profile page) or closes. */
    method SetProfileSettingsOpen(open: bool)
      modifies this
      ensures profileSettingsOpen == open && settingsOpen == old(settingsOpen)
      ensures activeSection == old(activeSection) && searchResults == old(searchResults)
      ensures darkMode == old(darkMode) && darkClass == old(darkClass) && authModal == old(authModal)
    {
      profileSettingsOpen := open;
    }
  }

  /**
   * Results of a visitor's search switch the section to the forum, but the
   * forum, and so the results, are shown only to a signed-in user.
   */
  lemma VisitorSearchShowsWelcome(results: seq<Post>)
    ensures RenderContent(FORUM, false, Some(results)) == WelcomeSection
    ensures RenderContent(FORUM, true, Some(results)) == Forum(Some(results))
  {
  }
}
