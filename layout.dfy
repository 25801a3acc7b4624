/** The page layout (components/Layout.tsx): which navigation entry is
    highlighted for the current path. */
module Layout {
  import opened Text

  /** `getActivePage`: exactly "/" is the home page; otherwise the first
      matching path prefix picks the entry (a bare prefix test, so "/duosX"
      counts as "/duos"), and any other path highlights nothing. */
  function ActivePage(path: string): (page: string)
    ensures page in {"home", "explore", "duos", "nearby", "chats", "profile", ""}
    ensures page == "home" <==> path == "/"
    ensures page == "explore" <==> StartsWith(path, "/explore") || StartsWith(path, "/friends")
    ensures page == "duos" <==> StartsWith(path, "/duos")
    ensures page == "nearby" <==> StartsWith(path, "/nearby")
    ensures page == "chats" <==> StartsWith(path, "/chats")
    ensures page == "profile" <==> StartsWith(path, "/profile")
  {
    PrefixFixesSecondChar(path, "/explore");
    PrefixFixesSecondChar(path, "/friends");
    PrefixFixesSecondChar(path, "/duos");
    PrefixFixesSecondChar(path, "/nearby");
    PrefixFixesSecondChar(path, "/chats");
    PrefixFixesSecondChar(path, "/profile");
    if path == "/" then "home"
    else if StartsWith(path, "/explore") || StartsWith(path, "/friends") then "explore"
    else if StartsWith(path, "/duos") then "duos"
    else if StartsWith(path, "/nearby") then "nearby"
    else if StartsWith(path, "/chats") then "chats"
    else if StartsWith(path, "/profile") then "profile"
    else ""
  }

  /** The section prefixes differ in their second character, so a path
      starts with at most one of them. */
  lemma PrefixFixesSecondChar(path: string, prefix: string)
    ensures StartsWith(path, prefix) && |prefix| >= 2 ==> |path| >= 2 && path[1] == prefix[1]
  {
    if StartsWith(path, prefix) && |prefix| >= 2 {
      assert path[..|prefix|] == prefix;
    }
  }

  /** A path under none of the section prefixes, such as "/settings" or
      "/home", highlights nothing. */
  lemma UnknownPathHighlightsNothing(path: string)
    requires path != "/"
    requires !StartsWith(path, "/explore") && !StartsWith(path, "/friends") && !StartsWith(path, "/duos")
    requires !StartsWith(path, "/nearby") && !StartsWith(path, "/chats") && !StartsWith(path, "/profile")
    ensures ActivePage(path) == ""
  {
  }
}
