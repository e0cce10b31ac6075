/** The one pattern of the configuration table that is not a placeholder token: the
    host name of the example instance, with its dots escaped. */
module HostName {
  import opened Regex

  /** `portal\.example\.com` matches the example host name written in the template
      files, and nothing else. */
  lemma HostMatches()
    ensures Matches("portal\\.example\\.com", "portal.example.com")
  {
    HostMatchesFrom6();
  }

  lemma HostMatchesFrom6()
    ensures MatchesFrom("portal\\.example\\.com", 6, "portal.example.com", 6)
  {
    HostMatchesFrom15();
  }

  lemma HostMatchesFrom15()
    ensures MatchesFrom("portal\\.example\\.com", 15, "portal.example.com", 14)
  {
  }

  /** Hence it is a literal regular expression and its text is that host name. */
  lemma HostPattern()
    ensures IsLiteralRegex("portal\\.example\\.com") && RegexText("portal\\.example\\.com") == "portal.example.com"
  {
    HostMatches();
    MatchesIffText("portal\\.example\\.com", "portal.example.com");
  }
}
