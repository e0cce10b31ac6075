# OpenBikeSensor portal deployment and road map style, in Dafny

This project models two pieces of the OpenBikeSensor portal.

The first is the core of the deployment script `deployment/deploy.py`:
- the configuration table `__confvalues__`;
- the interactive collection of the settings (`get_conf_values`, `ask_yes_no`);
- the substitution of the settings into the three template files (`apply_settings`);
- the name of the settings record (`store_settings`).

The second is the frontend map style `frontend/src/mapstyles/index.js`:
`addRoadsStyle` and `obsRoads`.

Modules, one per concern:

| module | file | models |
|---|---|---|
| `Wrappers` | wrappers.dfy | `Option`, for EOFError and lookups that fail |
| `Text` | text.dfy | Python's `str.strip`, ASCII `str.lower`, literal replace-all, split/join |
| `Regex` | regex.dfy | a class of regular expressions that each match one fixed string (plain characters and backslash escapes), and that string |
| `HostName` | hostname.dfy | the hostname pattern `portal\.example\.com` |
| `Registry` | registry.dfy | `__confvalues__` as a sequence of entries, dict lookup |
| `Patterns` | patterns.dfy | the text `re.sub` looks for, per entry |
| `Confirm` | confirm.dfy | `ask_yes_no` |
| `Collection` | collect.dfy | `get_conf_values`: a loop method and a recursive method, proved against `Collect` |
| `Substitution`, `SubstitutionExample` | substitution.dfy | the inner loop of `apply_settings`, and an example showing a second application is not always harmless |
| `Timestamp` | timestamp.dfy | the `settings_%Y-%m-%d_%H-%M-%S.json` file name |
| `Deploy` | deploy.dfy | class `TargetDir`: methods `ApplySettings` and `StoreSettings` |
| `MapStyles` | mapstyles.dfy | class `Style`: `AddRoadsStyle`, `Clone`, and `ObsRoads` |

Conventions:
- A Python dict is a sequence of `(key, value)` items in insertion order.
- The operator's terminal is the sequence of lines still to be typed. Running out of lines is EOFError, modelled as `None`.
- `uuid.uuid4()` is an oracle `uuid: nat -> string` together with a counter.
- The clock reading is a parameter of `StoreSettings`.
- The registry is a parameter `reg`. The script always passes `ConfValues`, and lemmas such as `Collection.RoundShape` and `Patterns.RegistryPlaceholders` state what that gives.

Behaviour of the code that the model keeps:
- `apply_settings` stops at the first error:
  - the first missing file stops it with FileNotFoundError, and the files before it stay rewritten;
  - a key missing from the registry raises KeyError before the first file is written.
- `store_settings` overwrites a record written within the same second (`Timestamp.SettingsFileNameInjective` shows this is the only way two names collide).
- A prompted entry always has a prompt text, so there is no fallback to the key name.
- Which keys are generated is decided by the entry having fewer than two elements. Whether it has an example value plays no part.

Two properties hold only under a stronger hypothesis than one might expect:
- A second `apply_settings` with the same dict changes nothing if the first one left none of the placeholders behind.
- Values that contain no placeholder are not enough for that. A later value can complete an earlier key's pattern.
- `SubstitutionExample.PlaceholderFreeValuesNotEnough` shows this on the script's own registry:
  - hostname is `h`, and MAIL_HOST is `portal.example.co`;
  - the content is MAIL_HOST's token followed by `m`;
  - the first pass gives `portal.example.com`, and the second pass gives `h`.

## Model

| member | source | states |
|---|---|---|
| `Registry.Find` | deployment/deploy.py:79 | the first position of a key in the table; none exactly when the key is absent |
| `Registry.Lookup` | deployment/deploy.py:79 | `__confvalues__[key]`: an entry with that key, present exactly when the key is known (otherwise KeyError) |
| `Registry.LookupAt` | deployment/deploy.py:12-23 | with distinct keys, looking up entry `i`'s key finds entry `i` |
| `Registry.ConfValuesDistinct` | deployment/deploy.py:12-23 | the table's keys are pairwise distinct |
| `Registry.GeneratedKeys` | deployment/deploy.py:12-23 | exactly the four secrets have fewer than two elements and are generated |
| `Regex.RegexText` | deployment/deploy.py:80 | the text a literal pattern matches is empty only for the empty pattern |
| `Regex.PlainTextFrom` | deployment/deploy.py:82 | a suffix without metacharacters is literal and matches itself |
| `Regex.PlainTextIsLiteral` | deployment/deploy.py:82 | a string without metacharacters is a literal pattern whose text is itself |
| `Regex.MatchesFromText` | deployment/deploy.py:80 | a pattern of plain and escaped characters that matches a text is literal, and its text is that text |
| `Regex.TextMatchesFrom` | deployment/deploy.py:80 | a literal pattern matches its text |
| `Regex.MatchesIffText` | deployment/deploy.py:80 | a pattern of plain and escaped characters matches `t` exactly when it is literal and `RegexText` gives `t` |
| `HostName.HostMatches` | deployment/deploy.py:13 | `portal\.example\.com` matches `portal.example.com` |
| `HostName.HostPattern` | deployment/deploy.py:13 | the hostname pattern is literal and replaces the text `portal.example.com` |
| `Patterns.Token` | deployment/deploy.py:82 | the `!!!<<<CHANGEME_key>>>!!!` token of a key (properties in `Patterns.TokenIsLiteral`) |
| `Patterns.Pattern` | deployment/deploy.py:79-82 | the entry's third element if it has one, otherwise its key's token (properties in `Patterns.RegistryPlaceholders`) |
| `Patterns.Placeholder` | deployment/deploy.py:78-82 | the text replaced for an entry is never empty |
| `Patterns.TokenIsLiteral` | deployment/deploy.py:82 | a key made of letters, digits and `_` gives a token regex that matches the token itself |
| `Patterns.RegistryPlaceholders` | deployment/deploy.py:78-82 | every table entry is applicable; hostname replaces `portal.example.com`, every other key its own token |
| `Patterns.HostPlaceholder` | deployment/deploy.py:80 | the hostname entry replaces `portal.example.com` |
| `Patterns.TokenPlaceholders` | deployment/deploy.py:82 | the nine other entries replace their `!!!<<<CHANGEME_key>>>!!!` tokens |
| `Patterns.KeyIsWord` | deployment/deploy.py:14-22 | the keys without a pattern consist of letters, digits and `_` |
| `Text.Strip` | deployment/deploy.py:93 | `str.strip()`: leading and trailing whitespace removed (properties in `Text.StripSpec`) |
| `Text.TrimStartSpec` | deployment/deploy.py:93 | leading whitespace is removed: the result is a suffix, what was dropped is whitespace, the result starts with a non-space |
| `Text.TrimEndSpec` | deployment/deploy.py:93 | trailing whitespace is removed, symmetrically |
| `Text.StripSpec` | deployment/deploy.py:93 | `strip()` returns a contiguous slice with only whitespace around it, beginning and ending in non-whitespace |
| `Text.Lower` | deployment/deploy.py:131 | `str.lower()` on ASCII letters, character by character (properties in `Text.LowerSpec`) |
| `Text.LowerSpec` | deployment/deploy.py:131 | `lower()` keeps the length and lowercases each character |
| `Text.ContainsShort` | deployment/deploy.py:80 | a text shorter than the pattern does not contain it |
| `Text.ContainsMissingChar` | deployment/deploy.py:80 | a text lacking one of the pattern's characters does not contain it |
| `Text.Split` | deployment/deploy.py:80 | splitting at a separator gives at least one piece |
| `Text.JoinConsChar` | deployment/deploy.py:80 | joining after extending the first piece by a character extends the result by it |
| `Text.SplitJoin` | deployment/deploy.py:80 | joining the pieces with the separator gives back the text |
| `Text.SplitJoinAtSep` | deployment/deploy.py:80 | the split/join round trip holds at a text starting with the separator |
| `Text.SplitJoinAtChar` | deployment/deploy.py:80 | the split/join round trip holds at a text starting with another character |
| `Text.SplitPiecesFree` | deployment/deploy.py:80 | no piece contains the separator |
| `Text.SplitFirstIsPrefix` | deployment/deploy.py:80 | the first piece is a prefix of the text |
| `Text.ReplaceAll` | deployment/deploy.py:80-82 | `re.sub` with a literal pattern: leftmost non-overlapping replace-all (properties in `Text.ReplaceAllSpec`) |
| `Text.ReplaceAllIsJoinOfSplit` | deployment/deploy.py:80 | leftmost non-overlapping replace-all is the split at the pattern joined with the replacement |
| `Text.SplitLeftmost` | deployment/deploy.py:80 | the first piece runs up to the leftmost occurrence of the separator, and the rest is the split of the text after it |
| `Text.SplitFirstFree` | deployment/deploy.py:80 | no occurrence of the separator starts inside the first piece |
| `Text.SplitRestAfter` | deployment/deploy.py:80 | when there is an occurrence, it follows the first piece and the other pieces are the split of the text after it |
| `Text.ReplaceAllSpec` | deployment/deploy.py:80 | every leftmost non-overlapping occurrence is replaced: the first piece ends at the leftmost occurrence, scanning resumes after it, and the text between occurrences is kept and free of the pattern |
| `Text.ReplaceAllAbsent` | deployment/deploy.py:80 | without an occurrence the text is unchanged |
| `Confirm.Classify` | deployment/deploy.py:131-135 | one answer line read as yes, no or invalid (properties in `Confirm.ClassifySpec`) |
| `Confirm.ClassifySpec` | deployment/deploy.py:128-134 | an answer is yes exactly when lowercased it is `y` or `yes`, and no exactly when it is `n` or `no` |
| `Confirm.AskYesNo` | deployment/deploy.py:127-138 | a decision reads at least one line and no more than there are |
| `Confirm.AskYesNoSpec` | deployment/deploy.py:127-138 | invalid lines are skipped; the first valid line decides, yes exactly for `y`/`yes`; EOFError exactly when no line is valid |
| `Confirm.AskYesNoIgnoresRest` | deployment/deploy.py:127-138 | lines after the answer do not change the decision |
| `Confirm.AskYesNoShift` | deployment/deploy.py:127-138 | the decision depends only on the lines from the current one on |
| `Confirm.ClassifyExamples` | deployment/deploy.py:131-134 | `YES` and `No` are accepted; ` y` and `yep` are not |
| `Confirm.AskYesNoExamples` | deployment/deploy.py:127-138 | `yep`, ` y`, `No` gives no after three lines; `yep` alone runs out |
| `Collection.PromptedBefore` | deployment/deploy.py:88-93 | an entry's line index within a round never exceeds its registry index |
| `Collection.PromptedBeforeMonotone` | deployment/deploy.py:88-93 | line indices and identifier indices only grow along the registry |
| `Collection.PromptedBeforeStrict` | deployment/deploy.py:92-93 | a prompted entry's line is read by no later entry |
| `Collection.GeneratedBeforeStrict` | deployment/deploy.py:89-91 | a generated entry's identifier is used by no later entry |
| `Collection.RoundShape` | deployment/deploy.py:12-23 | with the script's table a round reads six lines, the first six keys in order, and generates four identifiers |
| `Collection.RoundPrefix` | deployment/deploy.py:87-93 | after `n` iterations the dict has `n` items |
| `Collection.RoundPrefixAt` | deployment/deploy.py:87-93 | item `k` of the partial dict is entry `k`'s key with its value |
| `Collection.RoundAt` | deployment/deploy.py:87-93 | item `i` of a round is key `i`, bound to its line stripped if prompted, or to a fresh identifier |
| `Collection.Round` | deployment/deploy.py:87-93 | the dict one pass of the for-loop builds (properties in `Collection.RoundAt`, `Collection.RoundKeys`) |
| `Collection.RoundKeys` | deployment/deploy.py:87-93 | a round has one item per registry key, in registry order |
| `Collection.GeneratedReadsNoInput` | deployment/deploy.py:89-91 | generated values do not depend on the operator's lines |
| `Collection.GeneratedDistinct` | deployment/deploy.py:89-91 | with a non-repeating oracle the generated values of a round are pairwise different |
| `Collection.PromptedLinesInOrder` | deployment/deploy.py:92-93 | prompted keys read distinct lines of the round, in registry order |
| `Collection.RoundPrefixIgnoresRest` | deployment/deploy.py:87-93 | a partial round reads only its own lines |
| `Collection.RoundIgnoresRest` | deployment/deploy.py:87-93 | a round reads only its own lines |
| `Collection.ReadRound` | deployment/deploy.py:87-93 | the loop builds exactly the round's dict, and fails with EOFError exactly when fewer lines than prompts remain |
| `Collection.GetConfValues` | deployment/deploy.py:86-99 | the recursive collection returns exactly `Collect`: a confirmed round, a restart after a decline, EOFError otherwise |
| `Collection.Collect` | deployment/deploy.py:86-99 | rounds are read until one is confirmed; EOFError when the lines run out (properties in `Collection.GetConfValues`, `Collection.AcceptedRound`, `Collection.DeclinedRoundDiscarded`) |
| `Collection.CollectKeys` | deployment/deploy.py:86-99 | the returned dict has exactly one item per registry key, in registry order |
| `Collection.AcceptedRound` | deployment/deploy.py:97-99 | a confirmed round is returned as read from its own lines |
| `Collection.DeclinedRoundDiscarded` | deployment/deploy.py:97-98 | a declined round is discarded and collection restarts on the lines after the answer |
| `Substitution.FirstUnknownSpec` | deployment/deploy.py:78-79 | no unknown key exactly when all are known; otherwise the first unknown key of the dict |
| `Substitution.PlaceholderOf` | deployment/deploy.py:79-82 | the text replaced for a known key is never empty |
| `Substitution.SubstituteKey` | deployment/deploy.py:79-82 | one item of the dict applied to the content (properties in `Substitution.SubstituteKeySpec`) |
| `Substitution.SubstituteKeySpec` | deployment/deploy.py:79-82 | the entry's own pattern text when it has three elements, else the key's token; every occurrence replaced, the rest kept |
| `Substitution.Substitute` | deployment/deploy.py:78-82 | the dict's items applied to the content in insertion order (properties in `Substitution.SubstituteAbsent`, `Substitution.SubstituteIdempotent`) |
| `Substitution.SubstituteAbsent` | deployment/deploy.py:78-82 | content without any of the dict's placeholders is unchanged |
| `Substitution.SubstituteIdempotent` | deployment/deploy.py:78-82 | a second substitution is a no-op when the first left no placeholder |
| `SubstitutionExample.ConfValuesSupported` | deployment/deploy.py:12-23 | every entry of the script's table is applicable |
| `SubstitutionExample.HostPlaceholders` | deployment/deploy.py:13-14 | the script's table replaces `portal.example.com` for hostname and the token for MAIL_HOST |
| `SubstitutionExample.SubstituteTwo` | deployment/deploy.py:78-82 | a two-item dict substitutes its items in order |
| `SubstitutionExample.ReplaceAtStart` | deployment/deploy.py:80 | a single leading occurrence is replaced, and the rest kept |
| `SubstitutionExample.TokenCompletesHost` | deployment/deploy.py:82 | MAIL_HOST's value completes the hostname text |
| `SubstitutionExample.FirstPass` | deployment/deploy.py:78-82 | the first pass on the example gives `portal.example.com` |
| `SubstitutionExample.SecondPass` | deployment/deploy.py:78-82 | the second pass gives `h` |
| `SubstitutionExample.ExampleValuesClean` | deployment/deploy.py:78-82 | no value of the example holds a token or `portal.example.com` |
| `SubstitutionExample.PlaceholderFreeValuesNotEnough` | deployment/deploy.py:75-83 | placeholder-free values do not make a second `apply_settings` a no-op |
| `Deploy.TargetDir.constructor` | deployment/deploy.py:75 | a target directory with the given files and no records |
| `Deploy.TargetDir.ApplySettings` | deployment/deploy.py:75-83 | the nested loops leave exactly the outcome and files `Apply` gives, and touch no records |
| `Deploy.TargetDir.StoreSettings` | deployment/deploy.py:70-72 | the dict is recorded under the current second's file name, replacing any record there, and nothing else changes |
| `Deploy.ApplyFrom` | deployment/deploy.py:76-83 | the run over the target files from one position on: missing file, then unknown key, then rewrite and continue (properties in `Deploy.ApplyFromKnown`) |
| `Deploy.AllKnownStep` | deployment/deploy.py:78-79 | the inner loop's known-key prefix grows by one |
| `Deploy.FirstUnknownAt` | deployment/deploy.py:79 | the first failing lookup raises KeyError for the first unknown key |
| `Deploy.FirstMissingSpec` | deployment/deploy.py:76-77 | the first missing target file from a position on, and all before it exist |
| `Deploy.RewrittenStep` | deployment/deploy.py:76-83 | rewriting the next file extends the rewritten prefix |
| `Deploy.ApplyFromKnown` | deployment/deploy.py:76-83 | with all keys known, files are rewritten up to the first missing one, which stops the run |
| `Deploy.RewrittenNone` | deployment/deploy.py:76-83 | rewriting no file leaves the directory unchanged |
| `Deploy.Apply` | deployment/deploy.py:75-83 | `apply_settings` on a directory: the outcome and the files it leaves (properties in `Deploy.ApplySpec`, `Deploy.ApplyTwice`) |
| `Deploy.ApplySpec` | deployment/deploy.py:75-83 | success exactly when all three files exist and all keys are known; each error's outcome and the files it leaves |
| `Deploy.ApplyTwice` | deployment/deploy.py:75-83 | a second run is a no-op when the first succeeded and left no placeholder |
| `Timestamp.SettingsFileName` | deployment/deploy.py:72 | `settings_`, the time stamp and `.json` (properties in `Timestamp.SettingsFileNameShape`, `Timestamp.SettingsFileNameInjective`) |
| `Timestamp.Stamp` | deployment/deploy.py:72 | `strftime('%Y-%m-%d_%H-%M-%S')` of a moment (properties in `Timestamp.StampAt`) |
| `Timestamp.SettingsFileNameShape` | deployment/deploy.py:72 | the name has 33 characters, starting `settings_` and ending `.json` |
| `Timestamp.Pad2Digits` | deployment/deploy.py:72 | two-digit fields are digits that read back as the number |
| `Timestamp.Pad4Digits` | deployment/deploy.py:72 | the year field is four digits that read back as the year |
| `Timestamp.StampAt` | deployment/deploy.py:72 | where each field and separator sits in the time stamp |
| `Timestamp.SettingsFileNameAt` | deployment/deploy.py:72 | where each field and separator sits in the file name |
| `Timestamp.ParseSettingsFileName` | deployment/deploy.py:72 | the moment a settings file name records, if it is one (properties in `Timestamp.ParseSettingsFileNameOfName`, `Timestamp.SettingsFileNameOfParse`) |
| `Timestamp.ParseSettingsFileNameOfName` | deployment/deploy.py:71-72 | reading a file name back gives the moment it was written at |
| `Timestamp.Num2Pad` | deployment/deploy.py:72 | two digits written back as a field give the same characters |
| `Timestamp.Num4Pad` | deployment/deploy.py:72 | four digits written back as a year give the same characters |
| `Timestamp.SettingsFileNameOfParse` | deployment/deploy.py:71-72 | a name that reads back as a moment is that moment's name |
| `Timestamp.SettingsFileNameInjective` | deployment/deploy.py:71-72 | two moments share a name exactly when they are equal to the second |
| `MapStyles.ObsLayer` | frontend/src/mapstyles/index.js:14-133 | the `obs` layer with its layout and paint (properties in `MapStyles.ObsLayerFields`) |
| `MapStyles.ObsLayerFields` | frontend/src/mapstyles/index.js:14-133 | the inserted layer has id `obs`, type `line`, source `obs`, source-layer `obs_roads`, round layout and minzoom 12 |
| `MapStyles.FindIndex` | frontend/src/mapstyles/index.js:10 | `findIndex` returns -1 or an index of the list |
| `MapStyles.FindIndexSpec` | frontend/src/mapstyles/index.js:10 | -1 exactly when no layer has the id; otherwise the first layer with it |
| `MapStyles.InsertionIndex` | frontend/src/mapstyles/index.js:10-13 | the insertion index lies within the list or at its end |
| `MapStyles.InsertionIndexSpec` | frontend/src/mapstyles/index.js:10-13 | the first `road_oneway` layer's index, or the list length exactly when there is none |
| `MapStyles.Insert` | frontend/src/mapstyles/index.js:14 | `layers.splice(i, 0, x)` (properties in `MapStyles.InsertSpec`) |
| `MapStyles.InsertSpec` | frontend/src/mapstyles/index.js:14 | the splice grows the list by one; earlier layers stay; later layers move up by one in order; removing the layer undoes it |
| `MapStyles.InsertedBeforeOneWay` | frontend/src/mapstyles/index.js:9-14 | the new layer sits directly in front of the `road_oneway` layer, which remains the first one |
| `MapStyles.Style.constructor` | frontend/src/mapstyles/index.js:6 | a style with the given sources and layers |
| `MapStyles.Style.Clone` | frontend/src/mapstyles/index.js:140 | a fresh style with the same contents |
| `MapStyles.Style.AddRoadsStyle` | frontend/src/mapstyles/index.js:6-136 | sets source `obs` leaving the other sources, splices the layer in at `InsertionIndex`, returns the same style |
| `MapStyles.ObsRoads` | frontend/src/mapstyles/index.js:140 | a fresh style with `positron`'s contents plus the roads source and layer; `positron` itself is unchanged |

## Left out

- The command-line handling, `git_available`, `git_clone_to`, `copy_configs`, directory creation and the calls in `main`: argument parsing and subprocess and file-copy glue.
- The printed prompts, summaries and diagnostics: output text only.
- `uuid.uuid4()`: replaced by the oracle `uuid`. Its format and its randomness are not modelled, and uniqueness is a lemma hypothesis.
- `str.lower` on characters outside ASCII: only ASCII letters are lowercased.
- `json.dumps`: the serialisation of the record is not modelled. A record is kept as the dict itself, by file name.
- Encoding to and from UTF-8: contents are sequences of characters.
- Write failures and interruption (Ctrl+C): only FileNotFoundError on reading, KeyError and EOFError are modelled.
- Substitution.ValuesLiteral: `re.sub` processes backslash escapes in the replacement value, and the model requires values without a backslash instead of modelling that processing.
- Regex.IsLiteralRegex: only patterns made of plain characters and escaped metacharacters are modelled. These are the only kind the table uses.
- Regex.MatchesIffText: speaks of patterns of plain and escaped characters only. Other Python constructs that match one fixed string, such as `a{2}`, `[a]` or `(ab)`, are outside the modelled class.
- Regex.MatchesFromText: likewise limited to plain and escaped characters; `MatchesFrom` is false for every other construct.
- Confirm.AskYesNo: CPython's recursion limit (about 1000 frames) is not modelled. About a thousand invalid answers in a row, for example a thousand lines `maybe` before a `y`, raise RecursionError in the script, while the model reads on to the valid answer.
- Collection.Collect: the same recursion limit is not modelled. About a thousand declined rounds raise RecursionError in the script, while the model keeps collecting; `Collection.GetConfValues` has the same limit.
- Substitution.SubstituteIdempotent: the hypothesis is that the first pass leaves no placeholder. Placeholder-free values are not enough, as `SubstitutionExample.PlaceholderFreeValuesNotEnough` proves.
- Timestamp.ValidDateTime: years are restricted to 1000–9999, where `%Y` prints exactly four digits. Local time zones are not modelled.
- The `bright` basemap re-export and the contents of the `positron` style: the style is a parameter of `ObsRoads`.
- The meaning of the Mapbox GL paint expressions: they are kept as JSON data only.
- frontend/src/pages/HomePage.tsx and api/setup.py are not part of this model.
