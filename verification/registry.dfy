/** The table of configuration keys (`__confvalues__`, deployment/deploy.py:12-23) and
    what each entry means to the rest of the script: whether the operator is asked for
    it, and which text `re.sub` looks for when the value is written into a file. */
module Registry {
  import opened Wrappers

  /** One dict item: the key and its list `[example, prompt?, pattern?]`. */
  datatype Entry = Entry(key: string, values: seq<string>)

  /** `__confvalues__`, in the dict's insertion order.  The third element of the
      hostname entry is the Python literal "portal\.example\.com", whose `\.` is
      kept as a backslash followed by a dot. */
  const ConfValues: seq<Entry> := [
    Entry("hostname", ["portal.example.com", "the hostname of your instance", "portal\\.example\\.com"]),
    Entry("MAIL_HOST", ["mail.example.com", "the mail server to be used by portal"]),
    Entry("MAIL_PORT", ["465", "the port to be used on the mail server"]),
    Entry("MAIL_USER", ["sender@example.com", "the username to be used by portal to send mails."]),
    Entry("MAIL_PASSWORD", ["changeme", "the mail users password used to send mails."]),
    Entry("MAIL_SENDER", ["changeme", "the mail users sender address, e.g. e.g. @example.com."]),
    Entry("PORTAL_CLIENT_ID", ["changeme"]),
    Entry("UPLOAD_CLIENT_ID", ["changeme"]),
    Entry("COOKIE_SECRET", ["changeme"]),
    Entry("JWT_SECRET", ["changeme"])
  ]

  /** The operator is asked for the value (`len(v) < 2` is the generated case). */
  predicate Prompted(e: Entry) {
    |e.values| >= 2
  }

  /** The entry names its own pattern (`len(v) > 2`). */
  predicate HasPattern(e: Entry) {
    |e.values| > 2
  }

  /** One item of the `conf` dict the script builds: a key and the value chosen
      for it.  The dict itself is a sequence of items in insertion order. */
  datatype Setting = Setting(key: string, value: string)

  type Settings = seq<Setting>

  // ---------------------------------------------------------------------------
  // Lookup: `__confvalues__[key]`
  // ---------------------------------------------------------------------------

  /** `key` is one of the registry's keys. */
  predicate Known(reg: seq<Entry>, key: string) {
    exists i :: 0 <= i < |reg| && reg[i].key == key
  }

  /** The first position of `key` in the registry, if any. */
  function Find(reg: seq<Entry>, key: string): (r: Option<nat>)
    ensures r.None? <==> !Known(reg, key)
    ensures r.Some? ==>
      && r.value < |reg| && reg[r.value].key == key
      && forall i :: 0 <= i < r.value ==> reg[i].key != key
  {
    if reg == [] then None
    else if reg[0].key == key then Some(0)
    else match Find(reg[1..], key)
      case None => None
      case Some(i) => Some(i + 1)
  }

  /** The dict lookup `__confvalues__[key]`: the entry of `key`, or nothing (a
      KeyError). */
  function Lookup(reg: seq<Entry>, key: string): (r: Option<Entry>)
    ensures r.Some? <==> Known(reg, key)
    ensures r.Some? ==> r.value.key == key && r.value in reg
  {
    match Find(reg, key)
    case None => None
    case Some(i) => Some(reg[i])
  }

  /** A dict has one entry per key. */
  predicate DistinctKeys(reg: seq<Entry>) {
    forall i, j :: 0 <= i < j < |reg| ==> reg[i].key != reg[j].key
  }

  /** In a registry with distinct keys, looking up the key of entry `i` finds
      entry `i`. */
  lemma LookupAt(reg: seq<Entry>, i: nat)
    requires DistinctKeys(reg) && i < |reg|
    ensures Lookup(reg, reg[i].key) == Some(reg[i])
  {
    assert Known(reg, reg[i].key);
  }

  lemma ConfValuesDistinct()
    ensures DistinctKeys(ConfValues)
  {
  }

  /** The four keys without a prompt are exactly the generated secrets, and the
      other six are asked for. */
  lemma GeneratedKeys()
    ensures forall i :: 0 <= i < |ConfValues| ==>
      (!Prompted(ConfValues[i]) <==> ConfValues[i].key in {"PORTAL_CLIENT_ID", "UPLOAD_CLIENT_ID", "COOKIE_SECRET", "JWT_SECRET"})
  {
  }
}
