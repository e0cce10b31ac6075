/** How `apply_settings` (deployment/deploy.py:78-82) finds the text to replace for
    a registry entry: the entry's own pattern when it has a third element, the
    `!!!<<<CHANGEME_<key>>>>!!!` token otherwise; and the proof that every such
    pattern is a regular expression matching one fixed string. */
module Patterns {
  import opened Regex
  import opened Registry
  import opened HostName

  /** The token written into the template files for keys without a pattern. */
  function Token(key: string): string {
    "!!!<<<CHANGEME_" + key + ">>>!!!"
  }

  /** The regular expression `apply_settings` passes to re.sub for this entry. */
  function Pattern(e: Entry): string {
    if HasPattern(e) then e.values[2] else Token(e.key)
  }

  /** The entry's pattern is one this model can apply as a literal replace-all. */
  predicate Supported(e: Entry) {
    Pattern(e) != [] && IsLiteralRegex(Pattern(e))
  }

  /** The text that is replaced in the template files for this entry. */
  function Placeholder(e: Entry): (r: string)
    requires Supported(e)
    ensures r != []
  {
    RegexText(Pattern(e))
  }

  predicate IsKeyChar(c: char) {
    IsAsciiAlnum(c) || c == '_'
  }

  /** The token of a key made of letters, digits and underscores is a literal
      regular expression matching the token itself. */
  lemma TokenIsLiteral(key: string)
    requires forall k :: 0 <= k < |key| ==> IsKeyChar(key[k])
    ensures Supported(Entry(key, [])) && Pattern(Entry(key, [])) == Token(key)
    ensures IsLiteralRegex(Token(key)) && RegexText(Token(key)) == Token(key)
  {
    var t := Token(key);
    forall k | 0 <= k < |t| ensures !IsMeta(t[k]) {
      if k < 15 {
        assert t[k] == "!!!<<<CHANGEME_"[k];
      } else if k < 15 + |key| {
        assert t[k] == key[k - 15];
      } else {
        assert t[k] == ">>>!!!"[k - 15 - |key|];
      }
    }
    PlainTextIsLiteral(t);
  }

  /** Every registry entry can be applied as a literal replace-all; the hostname is
      found as the plain text `portal.example.com`, every other key by its token. */
  lemma RegistryPlaceholders()
    ensures forall i :: 0 <= i < |ConfValues| ==> Supported(ConfValues[i])
    ensures Placeholder(ConfValues[0]) == "portal.example.com"
    ensures forall i :: 1 <= i < |ConfValues| ==> Placeholder(ConfValues[i]) == Token(ConfValues[i].key)
  {
    HostPlaceholder();
    TokenPlaceholders();
  }

  lemma HostPlaceholder()
    ensures Supported(ConfValues[0]) && Placeholder(ConfValues[0]) == "portal.example.com"
  {
    HostPattern();
  }

  lemma TokenPlaceholders()
    ensures forall i :: 1 <= i < |ConfValues| ==>
      Supported(ConfValues[i]) && Placeholder(ConfValues[i]) == Token(ConfValues[i].key)
  {
    forall i | 1 <= i < |ConfValues|
      ensures Supported(ConfValues[i]) && Placeholder(ConfValues[i]) == Token(ConfValues[i].key)
    {
      KeyIsWord(i);
      TokenIsLiteral(ConfValues[i].key);
    }
  }

  /** The keys without a pattern are made of letters, digits and underscores. */
  lemma KeyIsWord(i: nat)
    requires 1 <= i < |ConfValues|
    ensures forall k :: 0 <= k < |ConfValues[i].key| ==> IsKeyChar(ConfValues[i].key[k])
  {
    var key := ConfValues[i].key;
    if i == 1 { assert key == "MAIL_HOST"; }
    else if i == 2 { assert key == "MAIL_PORT"; }
    else if i == 3 { assert key == "MAIL_USER"; }
    else if i == 4 { assert key == "MAIL_PASSWORD"; }
    else if i == 5 { assert key == "MAIL_SENDER"; }
    else if i == 6 { assert key == "PORTAL_CLIENT_ID"; }
    else if i == 7 { assert key == "UPLOAD_CLIENT_ID"; }
    else if i == 8 { assert key == "COOKIE_SECRET"; }
    else { assert key == "JWT_SECRET"; }
  }
}
