# Daggerheart domain-card action translation, modelled in Dafny

This project models the part of `daggerheart-translate.js` that translates
the actions of a Daggerheart domain card. Foundry VTT creates items from
raw data. Before an item is created, the module finds the card's entry in a
translation dictionary. It then overwrites the `name` and `description` of
each matching action of the card, in place.

The model covers four pieces of that file:

- `br` (module `Markup`): turns a possibly absent value into text and
  replaces every `\n`, with an optional `\r` before it, by `<br>`.
- `norm` (modules `Text` and `Normalize`): canonicalises an action name.
  It straightens curly quotes and backticks and collapses whitespace runs.
  It removes a trailing `(attack…|action…|passive…|reaction…)` tail,
  trims, and lower-cases.
- `pickDomainEntryFor` (module `Lookup`): finds the dictionary entry. It
  tries a direct key lookup first. The key is the first truthy value of
  `original_name`, `slug` and `name`. Otherwise it searches for an entry
  whose trimmed name equals the card's trimmed name.
- `translateDomainCardActionsData` (module `Translate`): the imperative
  updater. The card's actions are `Action` objects with mutable `name` and
  `description` fields. The method builds the `idxByName` index in a loop.
  It then walks the translated actions and resolves each one to a target:
  the exact index hit first, else the first action whose current
  normalised name starts with the key. It writes the target's fields in
  place.

The method is proved against a pure specification. `TranslateCard` runs
`Step` over the translated actions, and `Step` uses `Resolve` and `Apply`.
These work on `View(slots)`, the values of the action objects. The
properties of the update are proved as lemmas about those functions.

Modelling choices:

- Strings are `seq<char>`.
  - `\s` and `trim` use the exact ECMAScript WhiteSpace and LineTerminator
    set.
  - `toLowerCase` is modelled for ASCII, Latin-1 and basic Cyrillic letters.
- The dictionary is a sequence of key/entry pairs with distinct keys, in
  `Object.values` order. A `null` entry is `None`.
- The card's action values are a sequence of `Action?` in iteration order.
  A `null` or `undefined` value is `null`. Reading `act.name` on such a
  value in the prefix search (line 74) throws a `TypeError`, which is the
  `ThrewTypeError` outcome. The index loop at line 60 uses `act?.name` and
  does not throw.
- The regular expression at line 29 needs at least one character between
  the keyword and `)`. So a bare `(Attack)` is kept, although the comment
  on that line names `(Attack)` as a tail it removes. The model follows
  the code (`Normalize.StripTailKeepsBareKeyword`). The prefix fallback at
  lines 72-76 still matches such names.
- The replacement is not global, so only the leftmost match is cut.
  `Normalize.StripTailIsLeftmostMatch` states this against `MatchesAt`, a
  declarative reading of the regular expression.
- The index is built once, from the names before translation. A later
  duplicate name overwrites an earlier one. The prefix search reads the
  current names, which earlier steps may already have changed.

## Model

| member | source | states |
|---|---|---|
| Markup.Br | daggerheart-translate.js:23 | an absent value gives `""`; the result never contains `\n` |
| Markup.BrTextWithoutNewline | daggerheart-translate.js:23 | text without `\n` comes back unchanged, so a lone `\r` is kept |
| Markup.BrTextIsBrByLines | daggerheart-translate.js:23 | the result is the input's lines joined by `<br>`: every line but the last loses one final `\r`, the last line keeps it, and nothing else changes |
| Text.TrimShape | daggerheart-translate.js:30 | `trim` yields the slice after the leading whitespace; only whitespace follows it, and it neither starts nor ends with whitespace |
| Normalize.CollapseShape | daggerheart-translate.js:28 | after the whitespace rewrite no two whitespace characters are adjacent and every whitespace character is a plain space; the result is empty exactly when the input is, and starts with a space exactly when the input starts with whitespace |
| Normalize.CollapseKeepsNonSpaces | daggerheart-translate.js:28 | the whitespace rewrite keeps every other character, in order |
| Normalize.CollapseRun | daggerheart-translate.js:28 | each whitespace run becomes exactly one space, in its place: text not ending in whitespace, then a non-empty whitespace run, then text not starting with whitespace, collapses to the first part collapsed, one space, and the last part collapsed |
| Normalize.CollapseConcat | daggerheart-translate.js:28 | text that ends in something other than whitespace collapses independently of the text that follows it |
| Normalize.CollapseLeadingRun | daggerheart-translate.js:28 | a leading whitespace run becomes one space before the collapsed rest |
| Normalize.CollapseEnds | daggerheart-translate.js:28 | the result ends in a space exactly when the input ends in whitespace |
| Normalize.TailAtIsMatch | daggerheart-translate.js:29 | the constructive tail test at a position holds exactly when the regular expression matches there |
| Normalize.StripTailIsLeftmostMatch | daggerheart-translate.js:29 | the tail rewrite keeps a prefix of its input; it cuts at the leftmost match, and no match starts before the cut |
| Normalize.StripTailCutsQualifiedTail | daggerheart-translate.js:29 | a name followed by whitespace, `(`, a keyword in any letter case, at least one non-`)` character, `)` and whitespace loses exactly that tail |
| Normalize.StripTailKeepsBareKeyword | daggerheart-translate.js:29 | a bare `(keyword)` tail is not removed |
| Normalize.NormShape | daggerheart-translate.js:24-31 | `norm`'s result has no leading or trailing whitespace, no two adjacent whitespace characters, no curly quote or backtick, and is lower-case |
| Normalize.NormOfPlainName | daggerheart-translate.js:24-31 | a single-spaced, trimmed name without quotes or `(` normalises to its lower-case form |
| Normalize.NormOfAsciiWord | daggerheart-translate.js:24-31 | a non-empty word of ASCII letters normalises to its lower-case form |
| Normalize.NormOfLetters | daggerheart-translate.js:24-31 | a non-empty name of lower-case ASCII letters is its own normal form |
| Normalize.NormCutsQualifiedTail | daggerheart-translate.js:24-31 | `norm("Name (Attack - Melee)")` and the like equal `norm("Name")` |
| Normalize.NormKeepsBareKeyword | daggerheart-translate.js:24-31 | `norm("Name (Attack)")` is the whole name lower-cased, tail included |
| Lookup.LookupKey | daggerheart-translate.js:35 | the key is absent exactly when `original_name`, `slug` and `name` are all falsy; it is never empty; a truthy `original_name` wins, then a truthy `slug`, then a truthy `name` |
| Lookup.GetIsValueOfKey | daggerheart-translate.js:36 | looking up a key of the dictionary gives that key's entry |
| Lookup.FirstNamed | daggerheart-translate.js:40-43 | the search stops at an entry whose trimmed name equals the card's trimmed name, and no earlier entry has that name |
| Lookup.EntryForByKey | daggerheart-translate.js:35-36 | when the key names a non-null entry, that entry is returned and no entry name is consulted |
| Lookup.EntryForByName | daggerheart-translate.js:38-44 | otherwise the result is the first entry whose trimmed name equals the trimmed card name; it is null when that name is blank or nothing matches |
| Lookup.PickDomainEntryFor | daggerheart-translate.js:34-45 | the loop returns what `EntryFor` specifies |
| Translate.IndexUpToMeaning | daggerheart-translate.js:58-62 | the index holds exactly the non-empty normalised names, each mapped to the last action that carries it |
| Translate.BuildIndex | daggerheart-translate.js:58-62 | the loop builds an index with the keys of `IndexUpTo` over all actions, each mapped to the action object at that position |
| Translate.KeyAt | daggerheart-translate.js:60 | `norm(act?.name)` is the slot's normalised name, and `""` for a null slot |
| Translate.FindPrefix | daggerheart-translate.js:74 | the search lands on the first action whose normalised name starts with the key, or throws at the first null slot before any match, or finds nothing |
| Translate.FindByPrefix | daggerheart-translate.js:74-75 | the loop returns the object, or the throw, that `FindPrefix` specifies |
| Translate.ResolvePrefersExact | daggerheart-translate.js:69-70 | a key among the index's own keys resolves to its indexed action, whatever the prefix search would find |
| Translate.ResolveFallsBackToPrefix | daggerheart-translate.js:72-76 | a key not in the index resolves to the first action whose current normalised name starts with it, or throws at a null slot before it, or finds nothing |
| Translate.Apply | daggerheart-translate.js:84-86 | only the target changes: its name becomes the translated name when that is non-empty, and its description becomes the `br` of the translated description when that is non-empty |
| Translate.ApplyTo | daggerheart-translate.js:84-86 | the in-place writes leave the action values equal to `Apply` |
| Translate.StepWithoutTargetChangesNothing | daggerheart-translate.js:64-82 | an entry whose normalised key is empty, or that matches no action, changes nothing |
| Translate.StepWritesOneSlot | daggerheart-translate.js:64-86 | one translated action changes at most one action of the card, as `Apply` describes |
| Translate.TranslateAction | daggerheart-translate.js:64-86 | one loop iteration leaves the action values and the outcome that `Step` specifies |
| Translate.TranslateActions | daggerheart-translate.js:64-87 | the loop over the translated actions leaves the action values and the outcome that `Steps` specifies, stopping at the first `TypeError` |
| Translate.TranslateSlots | daggerheart-translate.js:57-87 | the index is built from the names before any translation, and the loop then runs against that index |
| Translate.StepsKeepsMissing | daggerheart-translate.js:64-88 | null slots stay null and objects stay objects; a `TypeError` happens only when a null slot exists |
| Translate.GuardsChangeNothing | daggerheart-translate.js:49-55 | no card, a type other than `domainCard`, no entry, an entry without a non-empty `actions` array, or absent or non-object `system.actions` each change nothing |
| Translate.TranslateCardThrowsOnlyOnNull | daggerheart-translate.js:48-88 | the whole update keeps the number of actions and which ones are null; it throws only when some action value is null |
| Translate.TranslateDomainCardActionsData | daggerheart-translate.js:48-88 | the method leaves the action objects holding the values `TranslateCard` specifies, and returns its outcome; keys resolve through the index's own keys only |
| Translate.ResolveAsWritten | daggerheart-translate.js:58-76 | resolution through a plain-object index: keys `constructor` and `__proto__` that no action defines resolve to an inherited property, not to an action |
| Translate.ConstructorNames | daggerheart-translate.js:24-31 | `norm` maps `Constructor` to `constructor` and `Constructors` to `constructors` |
| Translate.InheritedKeySkipsPrefix | daggerheart-translate.js:58-76 | for an action named `Constructors` and the key `norm("Constructor")`, the written lookup takes the inherited value, while the intended one picks that action |

## Left out

- `loadDomains` (lines 8-21) fetches, parses and caches the dictionary over the network. The model takes the loaded dictionary as a parameter.
- The `Hooks.once("init", …)` block and the libWrapper wrappers (lines 91-137) intercept host methods whose code is not part of this model. This includes the `createEmbeddedDocuments` path that applies the update to every element of `docs` (lines 132-133).
- The Babele registration (lines 139-145) is a call into a foreign library.
- `console.warn` (line 80) is a diagnostic side effect only. The model's `Step` simply continues.
- Normalize.Norm: NFKC normalisation (line 26) is not modelled. Input is taken to be in NFKC form already.
- Text.LowerChar: `toLowerCase` covers only ASCII, Latin-1 and basic Cyrillic letters. Full Unicode case mapping is not modelled.
- Names, descriptions and dictionary fields are strings or absent. `toString()` of numbers and other objects is not modelled.
- Action values of `system.actions` are objects, `null` or `undefined`. Other primitive values are not modelled.
- A `null` element inside an entry's `actions` array is not modelled. Reading `a.key` on it would throw at line 66.
- Translate.TranslateDomainCardActionsData requires the action objects to be pairwise distinct. Parsed item data never shares an object between two keys.
- Lookup.EntryFor reads only the dictionary's own keys. `domains[byKey]` at line 36 can also return an inherited property for keys such as `constructor`. The guard at line 52 then makes that a no-op, whereas the model falls through to the name search.
- An action whose normalised name is `__proto__` replaces the index's prototype at line 61. This is not modelled.
- Translate.ResolveAsWritten: what happens after an inherited property is chosen is not modelled. The as-written model treats it as changing no action.
  - For `constructor`, when the translated action has a name, line 85 assigns it to the read-only `name` of the `Object` function. Sloppy-mode code ignores that write. Strict-mode code throws a `TypeError` there, which ends the whole call before line 86. Without the throw, line 86 writes the `br` of a translated description onto `Object.description`.
  - For `__proto__`, lines 85-86 add the translated `name` and `description` to `Object.prototype`. Every object without a `description` of its own, actions included, then reads the translated one.
- Translate.TranslateDomainCardActionsData: the method resolves keys through the index's own keys only (`Resolve`), which is the corrected lookup of the Findings row. The lookup as written at line 70 also sees inherited keys; that is Translate.ResolveAsWritten.
- `Object.values` lists integer-like keys first, in numeric order. The model takes the action values in iteration order as given.
- Fields of an action other than `name` and `description` are not part of the `Action` class. The method's `modifies` clause leaves every other object unchanged.

## Findings

| source | as written | input that shows it | evidently intended | confidence | as-written member | corrected member |
|---|---|---|---|---|---|---|
| daggerheart-translate.js:58-73 | `idxByName` is a plain `{}`, so `idxByName["constructor"]` is the inherited `Object` function. It is truthy, so the prefix fallback is skipped and no action is translated. Line 85 then assigns to the function's read-only `name`, which strict-mode code turns into a `TypeError` and sloppy-mode code ignores; after an ignored write, line 86 puts `description` onto `Object`. The key `__proto__` likewise gives `Object.prototype`, which receives `name` and `description`. | a card action named `Constructors` and a translated action with key `Constructor` | the index holds only its own keys, so the prefix search picks the `Constructors` action | not executed | Translate.InheritedKeySkipsPrefix | Translate.ResolveFallsBackToPrefix |
