/** `apply_settings` and `store_settings` (deployment/deploy.py:70-83) on a target
    directory whose files are a map from relative path to content.  The settings
    records `store_settings` writes are kept apart from the configuration files,
    by file name; their JSON serialisation is not modelled. */
module Deploy {
  import opened Wrappers
  import opened Text
  import opened Registry
  import opened Patterns
  import opened Substitution
  import opened Timestamp

  /** The three files `apply_settings` rewrites, in the order it rewrites them. */
  const TargetFiles: seq<string> := ["docker-compose.yaml", "config/api.json", "config/frontend.json"]

  /** How `apply_settings` ends: normally, with FileNotFoundError on the first
      missing file, or with KeyError on the first key that is not in the
      registry. */
  datatype Outcome = Done | MissingFile(path: string) | UnknownKey(key: string)

  /** The outcome and the files afterwards. */
  datatype Applied = Applied(outcome: Outcome, files: map<string, string>)

  /** `apply_settings` from the `i`-th target file on: each file is read, every
      item of the dict is substituted into it and it is written back, stopping at
      the first error. */
  function ApplyFrom(reg: seq<Entry>, files: map<string, string>, conf: Settings, i: nat): Applied
    requires AllSupported(reg) && i <= |TargetFiles|
    decreases |TargetFiles| - i
  {
    if i == |TargetFiles| then Applied(Done, files)
    else
      var f := TargetFiles[i];
      if f !in files then Applied(MissingFile(f), files)
      else match FirstUnknown(reg, conf)
        case Some(k) => Applied(UnknownKey(k), files)
        case None =>
          FirstUnknownSpec(reg, conf);
          ApplyFrom(reg, files[f := Substitute(reg, files[f], conf)], conf, i + 1)
  }

  /** What `apply_settings` does to a directory holding `files`. */
  function Apply(reg: seq<Entry>, files: map<string, string>, conf: Settings): Applied
    requires AllSupported(reg)
  {
    ApplyFrom(reg, files, conf, 0)
  }

  /** The target directory: its configuration files and the settings records
      written into it. */
  class TargetDir {
    var files: map<string, string>
    var records: map<string, Settings>

    constructor (files: map<string, string>)
      ensures this.files == files && records == map[]
    {
      this.files := files;
      records := map[];
    }

    /** `apply_settings(target, conf)`: for each target file, read it, substitute
        every item of `conf` in insertion order, and write it back.  A missing
        file stops the run with the files before it already rewritten; an unknown
        key stops it before anything is written. */
    method ApplySettings(reg: seq<Entry>, conf: Settings) returns (outcome: Outcome)
      requires AllSupported(reg) && ValuesLiteral(conf)
      modifies this
      ensures Applied(outcome, files) == Apply(reg, old(files), conf)
      ensures records == old(records)
    {
      for i := 0 to |TargetFiles|
        invariant ApplyFrom(reg, files, conf, i) == Apply(reg, old(files), conf)
        invariant records == old(records)
      {
        var f := TargetFiles[i];
        if f !in files {
          return MissingFile(f);
        }
        ghost var before := files;
        var original := files[f];
        var content := original;
        for j := 0 to |conf|
          invariant AllKnown(reg, conf[..j])
          invariant AllKnown(reg, conf[j..]) ==>
            AllKnown(reg, conf) && Substitute(reg, content, conf[j..]) == Substitute(reg, original, conf)
          invariant files == before && records == old(records)
        {
          var key := conf[j].key;
          match Lookup(reg, key)
          case None =>
            FirstUnknownAt(reg, conf, j);
            return UnknownKey(key);
          case Some(e) =>
            AllKnownStep(reg, conf, j);
            content := ReplaceAll(content, Placeholder(e), conf[j].value);
        }
        assert conf[..|conf|] == conf;
        FirstUnknownSpec(reg, conf);
        files := files[f := content];
      }
      outcome := Done;
    }

    /** `store_settings(target, conf)` at the time `now`: the dict is recorded
        under the file name the clock gives; a record already under that name is
        replaced. */
    method StoreSettings(conf: Settings, now: DateTime)
      requires ValidDateTime(now)
      modifies this
      ensures records == old(records)[SettingsFileName(now) := conf]
      ensures files == old(files)
    {
      records := records[SettingsFileName(now) := conf];
    }
  }

  lemma AllKnownTail(reg: seq<Entry>, conf: Settings)
    requires conf != [] && AllKnown(reg, conf)
    ensures AllKnown(reg, conf[1..])
  {
    assert forall i :: 0 <= i < |conf[1..]| ==> conf[1..][i] == conf[i + 1];
  }

  /** The dict splits into the items before `j` and the rest. */
  lemma AllKnownStep(reg: seq<Entry>, conf: Settings, j: nat)
    requires j < |conf| && AllKnown(reg, conf[..j]) && Known(reg, conf[j].key)
    ensures AllKnown(reg, conf[..j + 1])
    ensures AllKnown(reg, conf[j + 1..]) ==> AllKnown(reg, conf[j..]) && AllKnown(reg, conf)
    ensures conf[j..][1..] == conf[j + 1..]
  {
    assert forall i :: 0 <= i < j ==> conf[..j + 1][i] == conf[..j][i];
    if AllKnown(reg, conf[j + 1..]) {
      assert forall i :: j < i < |conf| ==> conf[i] == conf[j + 1..][i - j - 1];
      assert forall i :: 0 <= i < j ==> conf[i] == conf[..j][i];
      assert forall i :: 0 < i < |conf| - j ==> conf[j..][i] == conf[j + 1..][i - 1];
    }
  }

  /** The first key whose lookup fails is the one `FirstUnknown` names. */
  lemma {:induction false} FirstUnknownAt(reg: seq<Entry>, conf: Settings, j: nat)
    requires j < |conf| && AllKnown(reg, conf[..j]) && !Known(reg, conf[j].key)
    ensures FirstUnknown(reg, conf) == Some(conf[j].key)
    decreases j
  {
    if j > 0 {
      assert conf[..j][0] == conf[0];
      assert conf[..j][1..] == conf[1..][..j - 1];
      AllKnownTail(reg, conf[..j]);
      FirstUnknownAt(reg, conf[1..], j - 1);
    }
  }

  /** The files after the first `n` target files have been rewritten: every other
      path keeps its content. */
  function Rewritten(reg: seq<Entry>, files: map<string, string>, conf: Settings, n: nat): map<string, string>
    requires AllSupported(reg) && AllKnown(reg, conf) && n <= |TargetFiles|
  {
    map p | p in files :: if p in TargetFiles[..n] then Substitute(reg, files[p], conf) else files[p]
  }

  /** The index of the first target file from `i` on that is missing, or the
      number of target files when none is. */
  function FirstMissing(files: map<string, string>, i: nat): nat
    requires i <= |TargetFiles|
    decreases |TargetFiles| - i
  {
    if i == |TargetFiles| || TargetFiles[i] !in files then i else FirstMissing(files, i + 1)
  }

  lemma {:induction false} FirstMissingSpec(files: map<string, string>, i: nat)
    requires i <= |TargetFiles|
    ensures i <= FirstMissing(files, i) <= |TargetFiles|
    ensures forall k :: i <= k < FirstMissing(files, i) ==> TargetFiles[k] in files
    ensures FirstMissing(files, i) < |TargetFiles| ==> TargetFiles[FirstMissing(files, i)] !in files
    decreases |TargetFiles| - i
  {
    if i < |TargetFiles| && TargetFiles[i] in files {
      FirstMissingSpec(files, i + 1);
    }
  }

  /** Rewriting the `i`-th target file extends the rewritten prefix by one. */
  lemma RewrittenStep(reg: seq<Entry>, files: map<string, string>, conf: Settings, i: nat)
    requires AllSupported(reg) && AllKnown(reg, conf) && i < |TargetFiles| && TargetFiles[i] in files
    ensures var f := TargetFiles[i];
      && Rewritten(reg, files, conf, i)[f] == files[f]
      && Rewritten(reg, files, conf, i)[f := Substitute(reg, files[f], conf)] == Rewritten(reg, files, conf, i + 1)
  {
    var f := TargetFiles[i];
    assert f !in TargetFiles[..i];
    assert TargetFiles[..i + 1] == TargetFiles[..i] + [f];
  }

  /** With every key known, the run from the `i`-th file on rewrites the files up
      to the first missing one and stops there with FileNotFoundError, or rewrites
      them all. */
  lemma {:induction false} ApplyFromKnown(reg: seq<Entry>, files: map<string, string>, conf: Settings, i: nat)
    requires AllSupported(reg) && AllKnown(reg, conf) && i <= |TargetFiles|
    ensures var m := FirstMissing(files, i);
      m <= |TargetFiles| &&
      ApplyFrom(reg, Rewritten(reg, files, conf, i), conf, i)
        == Applied(if m == |TargetFiles| then Done else MissingFile(TargetFiles[m]), Rewritten(reg, files, conf, m))
    decreases |TargetFiles| - i
  {
    FirstMissingSpec(files, i);
    var cur := Rewritten(reg, files, conf, i);
    if i < |TargetFiles| && TargetFiles[i] in files {
      var f := TargetFiles[i];
      FirstUnknownSpec(reg, conf);
      RewrittenStep(reg, files, conf, i);
      var next := Rewritten(reg, files, conf, i + 1);
      assert ApplyFrom(reg, cur, conf, i) == ApplyFrom(reg, next, conf, i + 1);
      assert FirstMissing(files, i) == FirstMissing(files, i + 1);
      ApplyFromKnown(reg, files, conf, i + 1);
    } else if i < |TargetFiles| {
      assert TargetFiles[i] !in cur;
      assert ApplyFrom(reg, cur, conf, i) == Applied(MissingFile(TargetFiles[i]), cur);
    }
  }

  /** Rewriting no file leaves the directory as it is. */
  lemma RewrittenNone(reg: seq<Entry>, files: map<string, string>, conf: Settings)
    requires AllSupported(reg) && AllKnown(reg, conf)
    ensures Rewritten(reg, files, conf, 0) == files
  {
  }

  /** Every target file is present. */
  predicate AllTargetsPresent(files: map<string, string>) {
    forall k :: 0 <= k < |TargetFiles| ==> TargetFiles[k] in files
  }

  /** How `apply_settings` ends and what it leaves behind.  It succeeds exactly when
      the three target files exist and every key of the dict is in the registry,
      and then each target file holds its substituted content and every other path
      is untouched.  If the first target file is missing it stops with
      FileNotFoundError having written nothing.  Otherwise an unknown key stops it
      with KeyError, naming the first unknown key of the dict, before anything is
      written.  Otherwise a later missing file stops it with the files before it
      already rewritten. */
  lemma ApplySpec(reg: seq<Entry>, files: map<string, string>, conf: Settings)
    requires AllSupported(reg)
    ensures var r := Apply(reg, files, conf);
      && (r.outcome == Done <==> AllTargetsPresent(files) && AllKnown(reg, conf))
      && (r.outcome == Done ==> r.files == Rewritten(reg, files, conf, |TargetFiles|))
      && (TargetFiles[0] !in files ==> r == Applied(MissingFile(TargetFiles[0]), files))
      && (r.outcome.UnknownKey? <==> TargetFiles[0] in files && !AllKnown(reg, conf))
      && (r.outcome.UnknownKey? ==>
            r.files == files && FirstUnknown(reg, conf) == Some(r.outcome.key)
            && exists i :: 0 <= i < |conf| && conf[i].key == r.outcome.key && !Known(reg, conf[i].key))
      && (r.outcome.MissingFile? && TargetFiles[0] in files ==>
            exists m :: 0 < m < |TargetFiles| && r.outcome.path == TargetFiles[m]
              && AllKnown(reg, conf) && r.files == Rewritten(reg, files, conf, m)
              && TargetFiles[m] !in files && forall k :: 0 <= k < m ==> TargetFiles[k] in files)
  {
    FirstUnknownSpec(reg, conf);
    if AllKnown(reg, conf) {
      RewrittenNone(reg, files, conf);
      ApplyFromKnown(reg, files, conf, 0);
      FirstMissingSpec(files, 0);
      var m := FirstMissing(files, 0);
      if TargetFiles[0] in files && m < |TargetFiles| {
        assert 0 < m;
      }
    }
  }

  /** Running `apply_settings` a second time with the same dict changes nothing,
      provided the first run succeeded and left none of the dict's placeholders in
      the target files. */
  lemma ApplyTwice(reg: seq<Entry>, files: map<string, string>, conf: Settings)
    requires AllSupported(reg)
    requires Apply(reg, files, conf).outcome == Done
    requires forall k, i :: 0 <= k < |TargetFiles| && 0 <= i < |conf| ==>
      TargetFiles[k] in Apply(reg, files, conf).files &&
      Known(reg, conf[i].key) &&
      !Contains(Apply(reg, files, conf).files[TargetFiles[k]], PlaceholderOf(reg, conf[i].key))
    ensures Apply(reg, Apply(reg, files, conf).files, conf) == Apply(reg, files, conf)
  {
    ApplySpec(reg, files, conf);
    var once := Apply(reg, files, conf).files;
    assert AllTargetsPresent(once);
    ApplySpec(reg, once, conf);
    forall p | p in TargetFiles
      ensures p in files && Substitute(reg, once[p], conf) == once[p]
    {
      var k :| 0 <= k < |TargetFiles| && TargetFiles[k] == p;
      assert TargetFiles[..|TargetFiles|] == TargetFiles;
      SubstituteIdempotent(reg, files[p], conf);
    }
    assert TargetFiles[..|TargetFiles|] == TargetFiles;
    assert Rewritten(reg, once, conf, |TargetFiles|) == once;
  }
}
