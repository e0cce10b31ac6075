/** The inner loop of `apply_settings` (deployment/deploy.py:77-82): every item of
    the settings dict, in insertion order, replaces its placeholder in one file's
    content.  `re.sub` is the literal replace-all of `Text`; this is exact because
    every registry pattern matches one fixed string (`Patterns`) and because the
    values contain no backslash, so `re.sub` performs no escape processing on
    them. */
module Substitution {
  import opened Wrappers
  import opened Text
  import opened Regex
  import opened Registry
  import opened Patterns

  /** Every entry of the registry has a pattern this model applies as a literal
      replace-all. */
  predicate AllSupported(reg: seq<Entry>) {
    forall e :: e in reg ==> Supported(e)
  }

  predicate NoBackslash(s: string) {
    forall k :: 0 <= k < |s| ==> s[k] != '\\'
  }

  /** No value holds a backslash, which `re.sub` would read as an escape. */
  predicate ValuesLiteral(conf: Settings) {
    forall i :: 0 <= i < |conf| ==> NoBackslash(conf[i].value)
  }

  /** Every key of the dict is in the registry: `__confvalues__[key]` raises no
      KeyError. */
  predicate AllKnown(reg: seq<Entry>, conf: Settings) {
    forall i :: 0 <= i < |conf| ==> Known(reg, conf[i].key)
  }

  /** The first key of the dict, in insertion order, that is not in the registry. */
  function FirstUnknown(reg: seq<Entry>, conf: Settings): Option<string> {
    if conf == [] then None
    else if !Known(reg, conf[0].key) then Some(conf[0].key)
    else FirstUnknown(reg, conf[1..])
  }

  /** `FirstUnknown` finds nothing exactly when every key is known, and otherwise
      names a key of the dict that is unknown, every key before it being known. */
  lemma {:induction false} FirstUnknownSpec(reg: seq<Entry>, conf: Settings)
    ensures FirstUnknown(reg, conf).None? <==> AllKnown(reg, conf)
    ensures FirstUnknown(reg, conf).Some? ==>
      exists i :: (0 <= i < |conf| && conf[i].key == FirstUnknown(reg, conf).value
                   && !Known(reg, conf[i].key) && AllKnown(reg, conf[..i]))
  {
    if conf != [] {
      FirstUnknownSpec(reg, conf[1..]);
      if !Known(reg, conf[0].key) {
        assert conf[0].key == FirstUnknown(reg, conf).value && AllKnown(reg, conf[..0]);
      } else if FirstUnknown(reg, conf).Some? {
        var i :| 0 <= i < |conf[1..]| && conf[1..][i].key == FirstUnknown(reg, conf[1..]).value
          && !Known(reg, conf[1..][i].key) && AllKnown(reg, conf[1..][..i]);
        assert conf[..i + 1] == [conf[0]] + conf[1..][..i];
        assert conf[i + 1].key == FirstUnknown(reg, conf).value;
      } else {
        assert forall i :: 1 <= i < |conf| ==> conf[i] == conf[1..][i - 1];
      }
    }
  }

  /** The text `re.sub` looks for on behalf of `key`. */
  function PlaceholderOf(reg: seq<Entry>, key: string): (p: string)
    requires AllSupported(reg) && Known(reg, key)
    ensures p != []
  {
    Placeholder(Lookup(reg, key).value)
  }

  /** One step of the inner loop: `content = re.sub(pattern, value, content)`. */
  function SubstituteKey(reg: seq<Entry>, content: string, s: Setting): string
    requires AllSupported(reg) && Known(reg, s.key)
  {
    ReplaceAll(content, PlaceholderOf(reg, s.key), s.value)
  }

  /** The whole inner loop: the dict's items applied one after the other, in
      insertion order. */
  function Substitute(reg: seq<Entry>, content: string, conf: Settings): string
    requires AllSupported(reg) && AllKnown(reg, conf)
    decreases |conf|
  {
    if conf == [] then content
    else Substitute(reg, SubstituteKey(reg, content, conf[0]), conf[1..])
  }

  /** The placeholder of a key is the entry's own pattern, as the text it matches,
      when the entry has a third element, and the key's token otherwise; every
      occurrence of it is replaced by the value and the text between occurrences
      is kept. */
  lemma SubstituteKeySpec(reg: seq<Entry>, content: string, s: Setting)
    requires AllSupported(reg) && Known(reg, s.key)
    ensures var e := Lookup(reg, s.key).value;
      && e.key == s.key
      && (HasPattern(e) ==> PlaceholderOf(reg, s.key) == RegexText(e.values[2]))
      && (!HasPattern(e) ==> PlaceholderOf(reg, s.key) == RegexText(Token(s.key)))
    ensures var p := PlaceholderOf(reg, s.key);
      var parts := Split(content, p);
      && Join(parts, p) == content
      && (forall k :: 0 <= k < |parts| ==> !Contains(parts[k], p))
      && SubstituteKey(reg, content, s) == Join(parts, s.value)
  {
    ReplaceAllSpec(content, PlaceholderOf(reg, s.key), s.value);
  }

  /** Content that holds none of the placeholders of the dict's keys is left
      unchanged. */
  lemma {:induction false} SubstituteAbsent(reg: seq<Entry>, content: string, conf: Settings)
    requires AllSupported(reg) && AllKnown(reg, conf)
    requires forall i :: 0 <= i < |conf| ==> !Contains(content, PlaceholderOf(reg, conf[i].key))
    ensures Substitute(reg, content, conf) == content
    decreases |conf|
  {
    if conf != [] {
      ReplaceAllAbsent(content, PlaceholderOf(reg, conf[0].key), conf[0].value);
      assert AllKnown(reg, conf[1..]) by {
        forall i | 0 <= i < |conf[1..]| ensures Known(reg, conf[1..][i].key) {
          assert conf[1..][i] == conf[i + 1];
        }
      }
      forall i | 0 <= i < |conf[1..]| ensures !Contains(content, PlaceholderOf(reg, conf[1..][i].key)) {
        assert conf[1..][i] == conf[i + 1];
      }
      SubstituteAbsent(reg, content, conf[1..]);
    }
  }

  /** A second pass with the same dict changes nothing, provided the first pass
      left none of the placeholders behind. */
  lemma SubstituteIdempotent(reg: seq<Entry>, content: string, conf: Settings)
    requires AllSupported(reg) && AllKnown(reg, conf)
    requires forall i :: 0 <= i < |conf| ==>
      !Contains(Substitute(reg, content, conf), PlaceholderOf(reg, conf[i].key))
    ensures Substitute(reg, Substitute(reg, content, conf), conf) == Substitute(reg, content, conf)
  {
    SubstituteAbsent(reg, Substitute(reg, content, conf), conf);
  }
}

module SubstitutionExample {
  import opened Wrappers
  import opened Text
  import opened Regex
  import opened Registry
  import opened Patterns
  import opened Substitution

  lemma ConfValuesSupported()
    ensures AllSupported(ConfValues)
  {
    RegistryPlaceholders();
  }

  /** The two registry facts the example below relies on: the hostname is looked
      for as `portal.example.com` and MAIL_HOST as its token. */
  predicate HostAndMailHost(reg: seq<Entry>) {
    && AllSupported(reg)
    && Known(reg, "hostname") && PlaceholderOf(reg, "hostname") == "portal.example.com"
    && Known(reg, "MAIL_HOST") && PlaceholderOf(reg, "MAIL_HOST") == Token("MAIL_HOST")
  }

  lemma HostPlaceholders()
    ensures HostAndMailHost(ConfValues)
  {
    ConfValuesSupported();
    RegistryPlaceholders();
    ConfValuesDistinct();
    LookupAt(ConfValues, 0);
    LookupAt(ConfValues, 1);
    assert ConfValues[0].key == "hostname";
    assert ConfValues[1].key == "MAIL_HOST";
  }

  /** The dict of the example below: the hostname first, as the registry orders
      it, and a MAIL_HOST value that is the hostname text but for its last letter. */
  const ExampleConf: Settings := [Setting("hostname", "h"), Setting("MAIL_HOST", "portal.example.co")]

  /** The file content of the example below: MAIL_HOST's token, then an `m`. */
  function ExampleContent(): string {
    Token("MAIL_HOST") + "m"
  }

  lemma SubstituteTwo(reg: seq<Entry>, content: string, s1: Setting, s2: Setting)
    requires AllSupported(reg) && Known(reg, s1.key) && Known(reg, s2.key)
    ensures AllKnown(reg, [s1, s2])
    ensures Substitute(reg, content, [s1, s2]) == SubstituteKey(reg, SubstituteKey(reg, content, s1), s2)
  {
    var once := SubstituteKey(reg, content, s1);
    var twice := SubstituteKey(reg, once, s2);
    assert [s1, s2][1..] == [s2];
    assert [s2][1..] == [];
    assert Substitute(reg, twice, []) == twice;
    assert Substitute(reg, once, [s2]) == twice;
  }

  lemma ReplaceAtStart(pat: string, rest: string, rep: string)
    requires pat != [] && !Contains(rest, pat)
    ensures ReplaceAll(pat + rest, pat, rep) == rep + rest
  {
    assert pat <= pat + rest;
    assert (pat + rest)[|pat|..] == rest;
    ReplaceAllAbsent(rest, pat, rep);
  }

  lemma HostAbsent()
    ensures !Contains(ExampleContent(), "portal.example.com")
  {
    ContainsMissingChar(ExampleContent(), "portal.example.com", 'r');
  }

  lemma TokenCompletesHost()
    ensures ReplaceAll(ExampleContent(), Token("MAIL_HOST"), "portal.example.co") == "portal.example.com"
  {
    ContainsShort("m", Token("MAIL_HOST"));
    ReplaceAtStart(Token("MAIL_HOST"), "m", "portal.example.co");
  }

  /** First pass: the hostname text does not occur yet; the token's value
      completes it. */
  lemma FirstPass(reg: seq<Entry>)
    requires HostAndMailHost(reg)
    ensures AllKnown(reg, ExampleConf)
    ensures Substitute(reg, ExampleContent(), ExampleConf) == "portal.example.com"
  {
    SubstituteTwo(reg, ExampleContent(), ExampleConf[0], ExampleConf[1]);
    HostAbsent();
    ReplaceAllAbsent(ExampleContent(), "portal.example.com", "h");
    TokenCompletesHost();
  }

  /** Second pass: the hostname text is now there and is replaced. */
  lemma SecondPass(reg: seq<Entry>)
    requires HostAndMailHost(reg)
    ensures AllKnown(reg, ExampleConf)
    ensures Substitute(reg, "portal.example.com", ExampleConf) == "h"
  {
    var host := "portal.example.com";
    var token := Token("MAIL_HOST");
    SubstituteTwo(reg, host, ExampleConf[0], ExampleConf[1]);
    ContainsShort([], host);
    ReplaceAtStart(host, [], "h");
    assert host + [] == host && "h" + [] == "h";
    ContainsShort("h", token);
    ReplaceAllAbsent("h", token, "portal.example.co");
  }

  lemma ShortValueClean()
    ensures !Contains("h", "!!!<<<CHANGEME_") && !Contains("h", "portal.example.com")
  {
    ContainsShort("h", "!!!<<<CHANGEME_");
    ContainsShort("h", "portal.example.com");
  }

  lemma MailValueClean()
    ensures !Contains("portal.example.co", "!!!<<<CHANGEME_")
    ensures !Contains("portal.example.co", "portal.example.com")
  {
    ContainsMissingChar("portal.example.co", "!!!<<<CHANGEME_", '!');
    ContainsShort("portal.example.co", "portal.example.com");
  }

  /** The example's values hold neither a token nor the hostname text. */
  lemma ExampleValuesClean()
    ensures forall i :: 0 <= i < |ExampleConf| ==>
      !Contains(ExampleConf[i].value, "!!!<<<CHANGEME_") && !Contains(ExampleConf[i].value, "portal.example.com")
  {
    ShortValueClean();
    MailValueClean();
    assert ExampleConf[0].value == "h" && ExampleConf[1].value == "portal.example.co";
  }

  /** Values free of tokens and of `portal.example.com` do not make a second pass
      harmless: MAIL_HOST's value completes the hostname text after the hostname
      was substituted, and the second pass substitutes it.  `HostPlaceholders`
      shows that the script's registry is such a `reg`. */
  lemma PlaceholderFreeValuesNotEnough(reg: seq<Entry>)
    requires HostAndMailHost(reg)
    ensures AllKnown(reg, ExampleConf)
    ensures forall i :: 0 <= i < |ExampleConf| ==>
      !Contains(ExampleConf[i].value, "!!!<<<CHANGEME_") && !Contains(ExampleConf[i].value, "portal.example.com")
    ensures var once := Substitute(reg, ExampleContent(), ExampleConf);
      Substitute(reg, once, ExampleConf) != once
  {
    FirstPass(reg);
    SecondPass(reg);
    ExampleValuesClean();
  }
}
