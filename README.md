# rewrite-prepare-maven-plugin: the prepare engine, modelled in Dafny

This project models the `prepare` goal of the rewrite-prepare Maven plugin.

The goal reads a table of rules. Each rule names:
- a groupId glob and an artifactId glob;
- the recipe files to merge;
- optionally, one `updateRecipeList` edit.

A run goes as follows:
1. It validates the table.
2. It keeps the rules whose globs match the project.
3. It merges the listed recipe files, de-duplicated by path.
4. It applies every merge definition's `updateRecipeList` edits.
5. It applies each matched rule's own edit.
6. It writes the recipe definitions (never the merge definitions) as one multi-document YAML file.

An edit splices recipe names into a definition's `recipeList`, in the sections `first`, `last`, `before` and `after`. The plugin also substitutes `${name}` and `$name` placeholders in recipe files (`VariableReplacer`); that is modelled too.

Modules, one per source file or concern:

- `Wrappers`, `YamlValues`, `JavaText`: `Option`, the decoded YAML tree (`Yaml`), and the three `String` operations the code relies on (`trim`, `split(",")` and blankness).
- `PatternMatcher`: comma-list glob matching.
- `Recipes`: the `Recipe` value.
  - It is read from a bare string or a one-key map, and written back.
  - Its equality and hash depend on the name only.
- `UpdateOrders`: the edit description, read from raw YAML.
  - The classes `UpdateEntry`, `UpdateRecipeList.UpdateOrder` and `UpdateRecipeList` each keep their fields.
  - Their setters are methods proved against value-level definitions.
- `RecipeDefinitions`, `MergeDefinitions`: the two document classes.
  - Binding a decoded mapping to one of them runs property by property through its setters.
  - The `NON_EMPTY` serialisation rule decides which properties are written.
- `ListEdits`: the value-level meaning of `RecipeListUpdater`. It covers the splice of each section, the order of the sections and what the edits preserve.
- `RecipeListUpdater`: the in-place methods. They mutate the `recipeList` of `RecipeDefinition` objects.
- `YamlParser`: the routing loop over the nodes the token loop reads (a sequence document is read element by element), `parseRecipeFile` and `writeRecipes`.
- `RecipeMerger`: `mergeFilesWithMerge`, `mergeFiles` and `MergeResult`.
- `VariableReplacement`: the two replace passes, the count and `loadVariableMap`.
- `PrepareMojo`: `validateRules`, `findMatchingRules`, the merge helpers, the edit phase and the whole of `execute` (`Run`, `RewritePrepareMojo.Execute`).

I/O is turned into inputs:
- A file system is a map from resolved paths to parse outcomes (`Missing`, `Unreadable` or the decoded documents).
- The rule file arrives decoded (`RuleFile`).
- The output file is the list of documents `writeRecipes` would emit.
- The properties file arrives as its list of `(name, value)` pairs.
- Exceptions become outcomes: `None`, `ok == false`, `Failed` or `Rejected`.

Where the plugin's documentation and its code disagree, the model follows the code:
- The `groupId`/`artifactId` parameters fall back to the project's values only when null or empty (`isEmpty`); a blank parameter such as `" "` is kept (`PrepareMojo.EffectiveId`).
- The replacement count is computed from the original text, as `countReplacements` does, not as the number of placeholders resolved (`VariableReplacement.Count`).

Source paths below are relative to the repository root.

## Model

| member | source | states |
|---|---|---|
| PatternMatcher.GlobToTokens | src/main/java/com/yourcompany/plugins/rewriteprepare/service/PatternMatcher.java:21-33 | one regex token per glob character: `*` is any run, `?` any one character, every other character (including `.`) a literal |
| PatternMatcher.Matches | src/main/java/com/yourcompany/plugins/rewriteprepare/service/PatternMatcher.java:44-72 | a null pattern or exactly `*` matches every value, null included; any other pattern never matches a null value |
| PatternMatcher.AnyPieceMatchesExists | src/main/java/com/yourcompany/plugins/rewriteprepare/service/PatternMatcher.java:55-71 | the early-return loop answers true iff some piece is non-blank once trimmed and matches the whole value |
| PatternMatcher.CommaListMatchesIffSomePiece | src/main/java/com/yourcompany/plugins/rewriteprepare/service/PatternMatcher.java:44-72 | a comma list matches a value iff one of its trimmed, non-empty pieces matches the whole value |
| PatternMatcher.BlankPiecesMatchNothing | src/main/java/com/yourcompany/plugins/rewriteprepare/service/PatternMatcher.java:54-59 | a pattern whose pieces are all blank (such as `,`) matches no value, null or not |
| PatternMatcher.LiteralGlobMatchesOnlyItself | src/main/java/com/yourcompany/plugins/rewriteprepare/service/PatternMatcher.java:27-32 | a glob without `*` or `?`, dots included, matches exactly the identical string: no substring hits |
| PatternMatcher.StarMatchesAnyRun | src/main/java/com/yourcompany/plugins/rewriteprepare/service/PatternMatcher.java:29 | a leading `*` matches any prefix of the value that contains no line terminator, the empty one included, followed by a match of the rest |
| PatternMatcher.QuestionMatchesOneChar | src/main/java/com/yourcompany/plugins/rewriteprepare/service/PatternMatcher.java:30 | a leading `?` consumes exactly one character that is not a line terminator |
| PatternMatcher.SinglePieceMatches | src/main/java/com/yourcompany/plugins/rewriteprepare/service/PatternMatcher.java:54-71 | a pattern that is a single piece matches exactly what that piece hits |
| PatternMatcher.AnchoredExamples | src/main/java/com/yourcompany/plugins/rewriteprepare/service/PatternMatcher.java:32 | `my-*-svc` matches `my-app-svc` and rejects `other-app-svc`: matching is anchored at both ends |
| JavaText.Trim | src/main/java/com/yourcompany/plugins/rewriteprepare/service/PatternMatcher.java:56 | `String.trim()`: the result neither starts nor ends with a character up to U+0020, and it is empty iff every character of the input is one |
| JavaText.SplitJoins | src/main/java/com/yourcompany/plugins/rewriteprepare/service/PatternMatcher.java:54 | the comma split loses nothing: joining its pieces with commas gives back the input, and no piece holds a comma |
| Recipes.FromValue | src/main/java/com/yourcompany/plugins/rewriteprepare/model/Recipe.java:53-87 | a string is a bare name; a one-key map gives that key as the name, with the inner map as attributes or none; every other shape leaves the name null and the attributes empty |
| Recipes.ToValue | src/main/java/com/yourcompany/plugins/rewriteprepare/model/Recipe.java:95-106 | no attributes gives the bare name; otherwise a one-key map from the name to the attributes |
| Recipes.FromValueToValue | src/main/java/com/yourcompany/plugins/rewriteprepare/model/Recipe.java:53-106 | reading back what `toValue` wrote gives the same name and attributes |
| Recipes.ToValueFromValue | src/main/java/com/yourcompany/plugins/rewriteprepare/model/Recipe.java:53-106 | a string, or a one-key map with a non-empty map value, is written back exactly as it was read |
| Recipes.BareIffNoAttributes | src/main/java/com/yourcompany/plugins/rewriteprepare/model/Recipe.java:95-106 | a named entry is written as a bare string iff it has no attributes |
| Recipes.DecodedIsWritable | src/main/java/com/yourcompany/plugins/rewriteprepare/model/Recipe.java:65-87 | every decoded entry can be written again: a null name never comes with attributes |
| Recipes.Equals | src/main/java/com/yourcompany/plugins/rewriteprepare/model/Recipe.java:129-138 | a null name equals only a null name; a present name equals exactly the same string; the attributes play no part |
| Recipes.HashCode | src/main/java/com/yourcompany/plugins/rewriteprepare/model/Recipe.java:140-143 | the hash is a 32-bit signed value, 0 for a null name |
| Recipes.Utf16 | src/main/java/com/yourcompany/plugins/rewriteprepare/model/Recipe.java:142 | a character is stored as one UTF-16 unit up to U+FFFF and as a surrogate pair above it; the pair decodes back to the character |
| Recipes.HashOfSingleChar | src/main/java/com/yourcompany/plugins/rewriteprepare/model/Recipe.java:142 | a one-character name up to U+FFFF hashes to that character's code |
| Recipes.HashOfSupplementaryChar | src/main/java/com/yourcompany/plugins/rewriteprepare/model/Recipe.java:142 | a one-character name above U+FFFF hashes to `31 * high + low` over its surrogate pair |
| Recipes.EmojiNameHash | src/main/java/com/yourcompany/plugins/rewriteprepare/model/Recipe.java:142 | the name U+1F600 hashes to 1772899 (`31 * 0xD83D + 0xDE00`), not to its code point |
| Recipes.EqualsConsistentWithHash | src/main/java/com/yourcompany/plugins/rewriteprepare/model/Recipe.java:129-143 | entries that are equal have equal hashes |
| Recipes.EqualsIgnoresAttributes | src/main/java/com/yourcompany/plugins/rewriteprepare/model/Recipe.java:129-143 | entries with the same name are equal and hash alike, whatever their attributes |
| RecipeDefinitions.NamedOnlyAppend | src/main/java/com/yourcompany/plugins/rewriteprepare/model/RecipeDefinition.java:156-161 | normalising the raw list works item by item: it distributes over concatenation, so item order is kept |
| RecipeDefinitions.NamedOnlySingle | src/main/java/com/yourcompany/plugins/rewriteprepare/model/RecipeDefinition.java:156-161 | one raw item contributes its normalised entry iff that entry has a name, otherwise nothing |
| RecipeDefinitions.NamedOnlyFromItems | src/main/java/com/yourcompany/plugins/rewriteprepare/model/RecipeDefinition.java:156-161 | every kept entry is the normalisation of some raw item |
| RecipeDefinitions.UnknownKeyFails | src/main/java/com/yourcompany/plugins/rewriteprepare/model/RecipeDefinition.java:30-51 | a document key that is not a declared property makes the whole binding fail |
| RecipeDefinitions.BindKeepsSerializable | src/main/java/com/yourcompany/plugins/rewriteprepare/model/RecipeDefinition.java:148-164 | binding never produces a recipe entry that cannot be written |
| RecipeDefinitions.NamedOnlyOfWritten | src/main/java/com/yourcompany/plugins/rewriteprepare/model/RecipeDefinition.java:156-161 | reading back a written recipe list keeps exactly its named entries, in order |
| RecipeDefinitions.WriteThenRead | src/main/java/com/yourcompany/plugins/rewriteprepare/model/RecipeDefinition.java:29-51 | under `NON_EMPTY`, writing a definition and binding the document gives back every field, except that empty lists come back null and unnamed entries are dropped; both `causesAnotherCycle` values survive |
| RecipeDefinitions.RecipeDefinition.SetRecipeList | src/main/java/com/yourcompany/plugins/rewriteprepare/model/RecipeDefinition.java:134-136 | only the recipe list changes, to exactly the argument |
| RecipeDefinitions.RecipeDefinition.SetRecipeListRaw | src/main/java/com/yourcompany/plugins/rewriteprepare/model/RecipeDefinition.java:148-164 | a null raw list stays null (not empty); otherwise the list becomes the named normalised entries in order; nothing else changes |
| RecipeDefinitions.RecipeDefinition.BindProperty | src/main/java/com/yourcompany/plugins/rewriteprepare/model/RecipeDefinition.java:53-164 | one property set through its setter succeeds exactly when the value can be bound, and leaves the object unchanged when it cannot |
| RecipeDefinitions.DecodeObject | src/main/java/com/yourcompany/plugins/rewriteprepare/model/RecipeDefinition.java:29-51 | the object is null exactly when the binding fails; otherwise it is a fresh object holding the bound fields |
| MergeDefinitions.RuleItemShapes | src/main/java/com/yourcompany/plugins/rewriteprepare/model/MergeRecipeDefinition.java:86-112 | only a map item with an `updateRecipeList` map yields a rule, taking its `name` when it is present and its `updateOrder` only when that is a list; other items are dropped |
| MergeDefinitions.RulesOfAppend | src/main/java/com/yourcompany/plugins/rewriteprepare/model/MergeRecipeDefinition.java:85-113 | rules are produced item by item, in input order |
| MergeDefinitions.NonMapRuleDropped | src/main/java/com/yourcompany/plugins/rewriteprepare/model/MergeRecipeDefinition.java:87 | removing an item that is not a map changes nothing |
| MergeDefinitions.RulesOfPrefixFails | src/main/java/com/yourcompany/plugins/rewriteprepare/model/MergeRecipeDefinition.java:97-99 | once the name cast fails on a prefix, the whole list fails |
| MergeDefinitions.MergeSetField | src/main/java/com/yourcompany/plugins/rewriteprepare/model/MergeRecipeDefinition.java:29 | a key other than `type`, `name` or `rules` is ignored, leaving the definition unchanged |
| MergeDefinitions.NoRulesKeyKeepsEmpty | src/main/java/com/yourcompany/plugins/rewriteprepare/model/MergeRecipeDefinition.java:41-44 | a document without `rules` keeps the constructor's rule list |
| MergeDefinitions.MergeRecipeDefinition.constructor | src/main/java/com/yourcompany/plugins/rewriteprepare/model/MergeRecipeDefinition.java:41-44 | a fresh instance has the merge type and an empty (not null) rule list |
| MergeDefinitions.MergeRecipeDefinition.SetRules | src/main/java/com/yourcompany/plugins/rewriteprepare/model/MergeRecipeDefinition.java:66-68 | null becomes the empty list; any other list is copied; nothing else changes |
| MergeDefinitions.MergeRecipeDefinition.SetRulesRaw | src/main/java/com/yourcompany/plugins/rewriteprepare/model/MergeRecipeDefinition.java:79-115 | null gives an empty list; otherwise the rules built item by item, or no change when a name cast fails |
| MergeDefinitions.MergeRecipeDefinition.IsMergeType | src/main/java/com/yourcompany/plugins/rewriteprepare/model/MergeRecipeDefinition.java:120-122 | true iff the type equals the marker exactly, so a null type is not a merge; the parse loop does not call it (see YamlParser.RoutedMergeIsMergeType) |
| MergeDefinitions.IsMergeTypeDefinition | src/main/java/com/yourcompany/plugins/rewriteprepare/model/MergeRecipeDefinition.java:127-129 | false for a null definition; otherwise true iff its type equals the marker exactly; nothing in the prepare pipeline calls it (see YamlParser.RoutedRecipeIsNotMergeType) |
| MergeDefinitions.BindMergeProperty | src/main/java/com/yourcompany/plugins/rewriteprepare/model/MergeRecipeDefinition.java:50-115 | one property set through its setter succeeds exactly when the value can be bound; the object then holds the bound fields; a failed setter leaves the object as it was |
| MergeDefinitions.DecodeMergeObject | src/main/java/com/yourcompany/plugins/rewriteprepare/model/MergeRecipeDefinition.java:29-44 | the object is null exactly when the binding fails; otherwise it is fresh, starts from the constructor's defaults and holds the bound fields |
| UpdateOrders.EntryOfShapes | src/main/java/com/yourcompany/plugins/rewriteprepare/model/UpdateEntry.java:51-82 | a string gives no key and `[s]`; a list gives no key and its items in order; a one-key map gives the key with its list or with no values; any other shape leaves both fields null |
| UpdateOrders.UpdateEntry.SetValue | src/main/java/com/yourcompany/plugins/rewriteprepare/model/UpdateEntry.java:51-82 | the fields become what the raw value's shape decides; for an unhandled shape they keep their old values |
| UpdateOrders.EntryListOf | src/main/java/com/yourcompany/plugins/rewriteprepare/model/UpdateRecipeList.java:119-134 | a list gives exactly one entry per element, in order; any other value gives none |
| UpdateOrders.LastItemWins | src/main/java/com/yourcompany/plugins/rewriteprepare/model/UpdateRecipeList.java:83-111 | each section ends up as the one supplied by the last map item that carries its key, or keeps its old value when no item does |
| UpdateOrders.NonMapItemIgnored | src/main/java/com/yourcompany/plugins/rewriteprepare/model/UpdateRecipeList.java:88-109 | removing an item that is not a map does not change the order |
| UpdateOrders.TwoNamesGiveTwoEntries | src/main/java/com/yourcompany/plugins/rewriteprepare/model/UpdateRecipeList.java:119-134 | `first: [A, B]` becomes two single-name entries, A then B |
| UpdateOrders.UpdateOrder.ParseUpdateEntryList | src/main/java/com/yourcompany/plugins/rewriteprepare/model/UpdateRecipeList.java:119-134 | the loop builds exactly the entry list the raw value specifies |
| UpdateOrders.UpdateOrder.SetUpdateOrderRaw | src/main/java/com/yourcompany/plugins/rewriteprepare/model/UpdateRecipeList.java:83-111 | null leaves the sections alone; otherwise they become the fold of the raw items over the old sections |
| UpdateOrders.UpdateRecipeList.SetName | src/main/java/com/yourcompany/plugins/rewriteprepare/model/UpdateRecipeList.java:26-28 | only the name changes |
| UpdateOrders.UpdateRecipeList.SetUpdateOrderRaw | src/main/java/com/yourcompany/plugins/rewriteprepare/model/UpdateRecipeList.java:45-54 | a null raw list leaves the order absent; otherwise it is a fresh order decoded from the list; the name is kept |
| ListEdits.IndexOf | src/main/java/com/yourcompany/plugins/rewriteprepare/service/RecipeListUpdater.java:203-211 | the first position whose entry is named `n`, or -1 exactly when no entry is |
| ListEdits.CheckValue | src/main/java/com/yourcompany/plugins/rewriteprepare/service/RecipeListUpdater.java:216-218 | a value is accepted only as an entry without attributes whose name is not yet in the list |
| ListEdits.TargetIndex | src/main/java/com/yourcompany/plugins/rewriteprepare/service/RecipeListUpdater.java:103-108 | the first definition with the name, or -1 exactly when none has it |
| ListEdits.EditDefinition | src/main/java/com/yourcompany/plugins/rewriteprepare/service/RecipeListUpdater.java:49-94 | only the recipe list changes; afterwards it is present and extends the old one; with no order it becomes the old list or an empty one |
| ListEdits.AddLastExtends | src/main/java/com/yourcompany/plugins/rewriteprepare/service/RecipeListUpdater.java:135-147 | `last` only inserts entries without attributes, keeping every existing entry in order |
| ListEdits.BeforeFoldExtends | src/main/java/com/yourcompany/plugins/rewriteprepare/service/RecipeListUpdater.java:152-172 | the `before` loop only inserts entries without attributes |
| ListEdits.AfterFoldExtends | src/main/java/com/yourcompany/plugins/rewriteprepare/service/RecipeListUpdater.java:177-198 | the `after` loop only inserts entries without attributes |
| ListEdits.ApplySectionExtends | src/main/java/com/yourcompany/plugins/rewriteprepare/service/RecipeListUpdater.java:60-94 | a whole section, in any mode, only inserts entries without attributes |
| ListEdits.ApplyOrderOnlyInserts | src/main/java/com/yourcompany/plugins/rewriteprepare/service/RecipeListUpdater.java:54-94 | all four sections together never remove an entry and only insert entries without attributes |
| ListEdits.ExtendsKeepsOrder | src/main/java/com/yourcompany/plugins/rewriteprepare/service/RecipeListUpdater.java:54-94 | an extended list contains every original entry at strictly increasing positions, so relative order is kept |
| ListEdits.AddLastUnique | src/main/java/com/yourcompany/plugins/rewriteprepare/service/RecipeListUpdater.java:135-147 | `last` keeps a list free of repeated names |
| ListEdits.BeforeFoldUnique | src/main/java/com/yourcompany/plugins/rewriteprepare/service/RecipeListUpdater.java:162-171 | the `before` loop keeps a list free of repeated names |
| ListEdits.AfterFoldUnique | src/main/java/com/yourcompany/plugins/rewriteprepare/service/RecipeListUpdater.java:187-197 | the `after` loop keeps a list free of repeated names |
| ListEdits.LiveCheckedModesKeepNamesUnique | src/main/java/com/yourcompany/plugins/rewriteprepare/service/RecipeListUpdater.java:135-198 | `last`, `before` and `after` never introduce a repeated name |
| ListEdits.FirstRepeatsDuplicate | src/main/java/com/yourcompany/plugins/rewriteprepare/service/RecipeListUpdater.java:113-130 | `first` checks only the list as it was before the call, so a name given twice in one entry is inserted twice |
| ListEdits.AcceptedFromBatch | src/main/java/com/yourcompany/plugins/rewriteprepare/service/RecipeListUpdater.java:113-198 | only names taken from the values are ever accepted |
| ListEdits.FirstBatchIsAccepted | src/main/java/com/yourcompany/plugins/rewriteprepare/service/RecipeListUpdater.java:113-125 | with string values, the `first` batch is every value whose name is not in the old list, in order |
| ListEdits.AddFirstSplices | src/main/java/com/yourcompany/plugins/rewriteprepare/service/RecipeListUpdater.java:113-130 | `first` puts the accepted entries in front of the old list |
| ListEdits.AddLastSplices | src/main/java/com/yourcompany/plugins/rewriteprepare/service/RecipeListUpdater.java:135-147 | `last` with distinct values appends the accepted entries in order |
| ListEdits.BeforeFoldSplices | src/main/java/com/yourcompany/plugins/rewriteprepare/service/RecipeListUpdater.java:161-171 | inserting in reverse at a fixed index leaves the accepted entries, in order, right before that index |
| ListEdits.AfterFoldSplices | src/main/java/com/yourcompany/plugins/rewriteprepare/service/RecipeListUpdater.java:186-197 | inserting forward with an advancing cursor leaves the accepted entries, in order, from that index on, with the cursor behind them |
| ListEdits.AddBeforeSplices | src/main/java/com/yourcompany/plugins/rewriteprepare/service/RecipeListUpdater.java:152-172 | a missing anchor changes nothing; otherwise the accepted entries sit immediately before the anchor |
| ListEdits.AddAfterSplices | src/main/java/com/yourcompany/plugins/rewriteprepare/service/RecipeListUpdater.java:177-198 | a missing anchor changes nothing; otherwise the accepted entries sit immediately after the anchor |
| ListEdits.FirstSectionReversesEntries | src/main/java/com/yourcompany/plugins/rewriteprepare/service/RecipeListUpdater.java:60-67 | a `first` section `[A, B]` makes the list start `B, A` |
| ListEdits.FirstSkipsPresent | src/main/java/com/yourcompany/plugins/rewriteprepare/service/RecipeListUpdater.java:117-121 | `first: [R1]` on `[R1, R2]` leaves `[R1, R2]` |
| ListEdits.BeforeExample | src/main/java/com/yourcompany/plugins/rewriteprepare/service/RecipeListUpdater.java:152-172 | `before R2: [R1.5]` on `[R1, R2]` gives `[R1, R1.5, R2]` |
| ListEdits.AfterExample | src/main/java/com/yourcompany/plugins/rewriteprepare/service/RecipeListUpdater.java:177-198 | `after R1: [R1.5]` on `[R1, R2]` gives `[R1, R1.5, R2]` |
| ListEdits.MissingAnchorNoChange | src/main/java/com/yourcompany/plugins/rewriteprepare/service/RecipeListUpdater.java:152-198 | an anchor not in the list leaves it unchanged for `before` and `after`, whatever the values |
| ListEdits.LastKeepsPrefixOnThrow | src/main/java/com/yourcompany/plugins/rewriteprepare/service/RecipeListUpdater.java:138-146 | when a later value throws, the values `last` appended before it stay appended |
| ListEdits.FirstBatchStops | src/main/java/com/yourcompany/plugins/rewriteprepare/service/RecipeListUpdater.java:117-125 | a value that throws while `first` collects its batch aborts the whole batch |
| ListEdits.AddLastStops | src/main/java/com/yourcompany/plugins/rewriteprepare/service/RecipeListUpdater.java:138-146 | after a throw in `last`, later values change nothing |
| ListEdits.BeforeFoldStops | src/main/java/com/yourcompany/plugins/rewriteprepare/service/RecipeListUpdater.java:162-171 | after a throw in the reverse `before` loop, the values still to come change nothing |
| ListEdits.AfterFoldStops | src/main/java/com/yourcompany/plugins/rewriteprepare/service/RecipeListUpdater.java:188-197 | after a throw in the `after` loop, later values change nothing |
| ListEdits.ApplySectionStops | src/main/java/com/yourcompany/plugins/rewriteprepare/service/RecipeListUpdater.java:61-66 | after a throw, later entries of a section change nothing |
| ListEdits.UpdateTouchesOnlyTarget | src/main/java/com/yourcompany/plugins/rewriteprepare/service/RecipeListUpdater.java:28-98 | only the first definition with the target name is edited, and every other definition is unchanged; a null name or an unknown name changes nothing |
| ListEdits.UpdateKeepsNames | src/main/java/com/yourcompany/plugins/rewriteprepare/service/RecipeListUpdater.java:28-98 | no definition's name changes |
| RecipeListUpdater.FindRecipeIndex | src/main/java/com/yourcompany/plugins/rewriteprepare/service/RecipeListUpdater.java:203-211 | the scan returns the first index named `n`, and -1 exactly when none is |
| RecipeListUpdater.CheckRecipe | src/main/java/com/yourcompany/plugins/rewriteprepare/service/RecipeListUpdater.java:216-218 | the duplicate check on one value, against the live list |
| RecipeListUpdater.AddRecipesToFirst | src/main/java/com/yourcompany/plugins/rewriteprepare/service/RecipeListUpdater.java:113-130 | the object's list becomes what `first` specifies; the object's other fields are untouched |
| RecipeListUpdater.AddRecipesToLast | src/main/java/com/yourcompany/plugins/rewriteprepare/service/RecipeListUpdater.java:135-147 | the object's list becomes what `last` specifies, with the values appended before a throw kept |
| RecipeListUpdater.AddRecipesBefore | src/main/java/com/yourcompany/plugins/rewriteprepare/service/RecipeListUpdater.java:152-172 | the in-place reverse insertion leaves the list `before` specifies |
| RecipeListUpdater.AddRecipesAfter | src/main/java/com/yourcompany/plugins/rewriteprepare/service/RecipeListUpdater.java:177-198 | the in-place cursor insertion leaves the list `after` specifies |
| RecipeListUpdater.ApplyEntryTo | src/main/java/com/yourcompany/plugins/rewriteprepare/service/RecipeListUpdater.java:60-94 | one entry applied in place; an entry with null values is skipped, and so is one with a null key in `before`/`after` |
| RecipeListUpdater.ApplySectionTo | src/main/java/com/yourcompany/plugins/rewriteprepare/service/RecipeListUpdater.java:60-94 | a section's entries are applied in order, stopping at the first throw; an absent section does nothing |
| RecipeListUpdater.FindRecipeByName | src/main/java/com/yourcompany/plugins/rewriteprepare/service/RecipeListUpdater.java:103-108 | the first definition object carrying the name |
| RecipeListUpdater.UpdateRecipeList | src/main/java/com/yourcompany/plugins/rewriteprepare/service/RecipeListUpdater.java:28-98 | only the target object changes, as the value-level edit specifies; a missing target changes nothing; a found target always ends with a non-null list |
| YamlParser.TypeOf | src/main/java/com/yourcompany/plugins/rewriteprepare/service/YamlParser.java:139 | a document without `type` has a null type; a non-string `type` fails the cast |
| YamlParser.Route | src/main/java/com/yourcompany/plugins/rewriteprepare/service/YamlParser.java:132-162 | for one node read by the loop: only a mapping whose `type` is the merge sentinel becomes a merge definition; a kept recipe has a name and can be written; a node that is not a mapping, null included, is skipped |
| YamlParser.ReadNodes | src/main/java/com/yourcompany/plugins/rewriteprepare/service/YamlParser.java:132-136 | the nodes the token loop reads contain no sequence: a sequence is refused by the map reader without being consumed, so the loop steps into it and reads its elements one by one |
| YamlParser.ReadNodesRouted | src/main/java/com/yourcompany/plugins/rewriteprepare/service/YamlParser.java:132-162 | both result lists are those of routing the read nodes one at a time |
| YamlParser.SequenceDocumentIsSpliced | src/main/java/com/yourcompany/plugins/rewriteprepare/service/YamlParser.java:132-162 | a document that is a sequence yields exactly what its elements would yield as documents of their own, in its place |
| YamlParser.RoutedMergeIsMergeType | src/main/java/com/yourcompany/plugins/rewriteprepare/model/MergeRecipeDefinition.java:120-122 | the routing tests the raw `type` string and never calls `isMergeType()`, but with distinct keys a document routed as a merge definition binds to an object whose type is the marker |
| YamlParser.RoutedRecipeIsNotMergeType | src/main/java/com/yourcompany/plugins/rewriteprepare/model/MergeRecipeDefinition.java:127-129 | with distinct keys, a document routed as a recipe definition binds to one for which the static `isMergeType` is false |
| YamlParser.RecipesInAppend | src/main/java/com/yourcompany/plugins/rewriteprepare/service/YamlParser.java:132-162 | routing works document by document, so both result lists keep document order |
| YamlParser.SkippedDocumentIsInvisible | src/main/java/com/yourcompany/plugins/rewriteprepare/service/YamlParser.java:132-162 | a document that is not a sequence and fails or is dropped only removes itself: the others are read as if it were absent |
| YamlParser.EachDocumentCountedOnce | src/main/java/com/yourcompany/plugins/rewriteprepare/service/YamlParser.java:138-157 | every node the loop reads lands in at most one of the two lists |
| YamlParser.ParseNode | src/main/java/com/yourcompany/plugins/rewriteprepare/service/YamlParser.java:136-157 | one pass of the loop body yields a fresh recipe definition exactly when the node is routed as a recipe, and a fresh merge definition exactly when it is routed as a merge, holding the routed values |
| YamlParser.ParseRecipeFileWithMerge | src/main/java/com/yourcompany/plugins/rewriteprepare/service/YamlParser.java:123-169 | the loop over the read nodes returns distinct fresh objects holding exactly the routed recipes and merge definitions, in reading order |
| YamlParser.ParseRecipeFile | src/main/java/com/yourcompany/plugins/rewriteprepare/service/YamlParser.java:65-113 | the same recipes as `parseRecipeFileWithMerge`, and no merge definitions |
| YamlParser.WriteRecipes | src/main/java/com/yourcompany/plugins/rewriteprepare/service/YamlParser.java:200-222 | one document per definition, in list order |
| YamlParser.WriteThenParse | src/main/java/com/yourcompany/plugins/rewriteprepare/service/YamlParser.java:200-222 | parsing the written file gives back as many recipes as were written, each its definition's normal form, in order, and no merge definitions |
| RecipeMerger.MissingFileSkipped | src/main/java/com/yourcompany/plugins/rewriteprepare/service/RecipeMerger.java:94-97 | a file that does not exist can be removed from the list without any effect |
| RecipeMerger.RepeatedPathAddsNothing | src/main/java/com/yourcompany/plugins/rewriteprepare/service/RecipeMerger.java:89-92 | a path merged earlier in the call contributes nothing again, under any spelling that resolves to it |
| RecipeMerger.SameFileTwice | src/main/java/com/yourcompany/plugins/rewriteprepare/service/RecipeMerger.java:86-110 | `[base.yml, base.yml]` gives exactly what `[base.yml]` gives: that file's definitions once |
| RecipeMerger.MergeAllIsConcatenation | src/main/java/com/yourcompany/plugins/rewriteprepare/service/RecipeMerger.java:79-115 | the result is the concatenation of the per-file results of the existing paths in order of first mention, or a failure when one of them cannot be parsed |
| RecipeMerger.MergeFoldStops | src/main/java/com/yourcompany/plugins/rewriteprepare/service/RecipeMerger.java:106-109 | once a file fails, the whole merge fails |
| RecipeMerger.NewMergeResult | src/main/java/com/yourcompany/plugins/rewriteprepare/service/RecipeMerger.java:124-127 | both lists are copied, and a null list becomes empty |
| RecipeMerger.AddParsed | src/main/java/com/yourcompany/plugins/rewriteprepare/service/RecipeMerger.java:100-103 | a file's parsed definitions are appended as new objects, so the list stays free of repeated objects |
| RecipeMerger.MergeFilesWithMerge | src/main/java/com/yourcompany/plugins/rewriteprepare/service/RecipeMerger.java:79-115 | the loop succeeds exactly when the value-level merge does, and then holds its definitions as distinct fresh objects |
| RecipeMerger.MergeFiles | src/main/java/com/yourcompany/plugins/rewriteprepare/service/RecipeMerger.java:36-68 | the loop over `parseRecipeFile` returns the same recipe definitions as `mergeFilesWithMerge`: the two parse loops (YamlParser.java lines 72-104 and 130-161) are identical, so their recipe lists agree |
| PrepareMojo.RuleProblemCases | src/main/java/com/yourcompany/plugins/rewriteprepare/RewritePrepareMojo.java:198-216 | a blank `artifactId` is reported first; null fields are never a problem; an empty `mergeFiles` always is |
| PrepareMojo.FirstViolation | src/main/java/com/yourcompany/plugins/rewriteprepare/RewritePrepareMojo.java:192-218 | no violation iff every rule passes; otherwise the 1-based index of the first failing rule, with its problem |
| PrepareMojo.ValidateRules | src/main/java/com/yourcompany/plugins/rewriteprepare/RewritePrepareMojo.java:192-218 | the indexed loop throws exactly the first violation |
| PrepareMojo.MatchingRules | src/main/java/com/yourcompany/plugins/rewriteprepare/RewritePrepareMojo.java:223-231 | a rule is kept iff both its patterns match; every kept rule is from the table |
| PrepareMojo.MatchingRulesAppend | src/main/java/com/yourcompany/plugins/rewriteprepare/RewritePrepareMojo.java:223-231 | the filter works row by row, so table order is kept |
| PrepareMojo.WildcardRuleAlwaysMatches | src/main/java/com/yourcompany/plugins/rewriteprepare/RewritePrepareMojo.java:223-231 | a rule with null or `*` patterns is kept for every project |
| PrepareMojo.AllMergeFilesListed | src/main/java/com/yourcompany/plugins/rewriteprepare/RewritePrepareMojo.java:254-260 | a path is merged iff some rule lists it; null lists add nothing |
| PrepareMojo.CollectMergeFiles | src/main/java/com/yourcompany/plugins/rewriteprepare/RewritePrepareMojo.java:255-260 | the loop collects the matched rules' files, concatenated in rule order |
| PrepareMojo.MergeAllFilesWithMerge | src/main/java/com/yourcompany/plugins/rewriteprepare/RewritePrepareMojo.java:254-263 | one merge over every matched rule's files |
| PrepareMojo.MergeAllFiles | src/main/java/com/yourcompany/plugins/rewriteprepare/RewritePrepareMojo.java:238-248 | the same merge, keeping only the recipe definitions |
| PrepareMojo.MergedRecipesWritable | src/main/java/com/yourcompany/plugins/rewriteprepare/RewritePrepareMojo.java:147 | every merged recipe definition has a name and can be written |
| PrepareMojo.UpdateFoldGrows | src/main/java/com/yourcompany/plugins/rewriteprepare/RewritePrepareMojo.java:151-167 | however many edits run, every definition keeps its place and every property, and its recipe list only gains entries |
| PrepareMojo.ApplyUpdate | src/main/java/com/yourcompany/plugins/rewriteprepare/RewritePrepareMojo.java:156 | one `updateRecipeList` call changes the objects exactly as the value-level update says |
| PrepareMojo.ApplyUpdates | src/main/java/com/yourcompany/plugins/rewriteprepare/RewritePrepareMojo.java:152-160 | the inner loop over one merge definition's rules is the fold of their updates |
| PrepareMojo.ApplyMergeDefinitions | src/main/java/com/yourcompany/plugins/rewriteprepare/RewritePrepareMojo.java:151-160 | every merge definition's rules are applied in definition order, then list order; the first throw stops the run |
| PrepareMojo.ApplyRuleUpdates | src/main/java/com/yourcompany/plugins/rewriteprepare/RewritePrepareMojo.java:162-167 | each matched rule's own edit is applied in rule order; null edits are skipped |
| PrepareMojo.EffectiveId | src/main/java/com/yourcompany/plugins/rewriteprepare/RewritePrepareMojo.java:98-103 | a null or empty parameter falls back to the project's value; any other value, a blank one included, is kept |
| PrepareMojo.Run | src/main/java/com/yourcompany/plugins/rewriteprepare/RewritePrepareMojo.java:92-178 | whatever a run writes can be serialised |
| PrepareMojo.Prepare | src/main/java/com/yourcompany/plugins/rewriteprepare/RewritePrepareMojo.java:146-170 | whatever the merge-edit-write phase writes can be serialised |
| PrepareMojo.PrepareRecipes | src/main/java/com/yourcompany/plugins/rewriteprepare/RewritePrepareMojo.java:146-170 | the object-level merge, edit and write steps reach the outcome `Prepare` defines, and the output is the written documents |
| PrepareMojo.RewritePrepareMojo.constructor | src/main/java/com/yourcompany/plugins/rewriteprepare/RewritePrepareMojo.java:41-90 | the goal's parameters as injected |
| PrepareMojo.RewritePrepareMojo.Execute | src/main/java/com/yourcompany/plugins/rewriteprepare/RewritePrepareMojo.java:92-178 | the id fields are defaulted in place; the outcome is `Run`'s; the output holds the written documents, or nothing when no file is written |
| PrepareMojo.NoWorkWritesNothing | src/main/java/com/yourcompany/plugins/rewriteprepare/RewritePrepareMojo.java:129-142 | a null or empty table, or one where no rule matches, ends the run without output |
| PrepareMojo.RunReachesPrepare | src/main/java/com/yourcompany/plugins/rewriteprepare/RewritePrepareMojo.java:128-149 | a valid, non-empty table with a matching rule goes on to merge, edit and write |
| PrepareMojo.AnyInvalidRowRejects | src/main/java/com/yourcompany/plugins/rewriteprepare/RewritePrepareMojo.java:135 | validation reads the whole table: a bad row rejects the run even when it does not match the project, and the reported row is the first bad one |
| PrepareMojo.OutputIsMergedRecipes | src/main/java/com/yourcompany/plugins/rewriteprepare/RewritePrepareMojo.java:147-170 | only recipe definitions are written: one per merged definition, in merge order, each unchanged except for entries added to its list |
| PrepareMojo.MergeEditsPrecedeRuleEdits | src/main/java/com/yourcompany/plugins/rewriteprepare/RewritePrepareMojo.java:151-167 | the edits run as one sequence, every merge definition's first and then the rules' own, so a rule's edit sees what merge definitions added |
| PrepareMojo.UnreadableListedFileFails | src/main/java/com/yourcompany/plugins/rewriteprepare/RewritePrepareMojo.java:147 | an existing listed file that fails to parse makes the run fail, whatever the other rules list |
| PrepareMojo.PrepareFailsOnMergeEdit | src/main/java/com/yourcompany/plugins/rewriteprepare/RewritePrepareMojo.java:151-160 | an edit that throws while merge definitions are applied fails the run, and the rule edits never run |
| VariableReplacement.BraceEnd | src/main/java/com/yourcompany/plugins/rewriteprepare/service/VariableReplacer.java:35 | the recogniser finds the one `${name}` match starting at a position, when there is one |
| VariableReplacement.SimpleEnd | src/main/java/com/yourcompany/plugins/rewriteprepare/service/VariableReplacer.java:39 | the recogniser finds the longest `$name` match followed by a word boundary, as the regex engine's backtracking does; the name it takes always ends in a word character, so a trailing `.` is never part of it |
| VariableReplacement.TrailingDotNotInName | src/main/java/com/yourcompany/plugins/rewriteprepare/service/VariableReplacer.java:39 | in `$a.b.` the match is `$a.b`: the final `.` stays outside the name |
| VariableReplacement.MaskEnd | src/main/java/com/yourcompany/plugins/rewriteprepare/service/VariableReplacer.java:253 | the recogniser finds the one `${...}` match with a non-empty body and no inner `}` |
| VariableReplacement.FindToken | src/main/java/com/yourcompany/plugins/rewriteprepare/service/VariableReplacer.java:175 | `find()` returns the first match at or after the start, and none exactly when no position has one |
| VariableReplacement.PassWithoutKnownNameIsIdentity | src/main/java/com/yourcompany/plugins/rewriteprepare/service/VariableReplacer.java:184-189 | a pass that meets no known name gives back its input: unknown placeholders stay as written |
| VariableReplacement.DollarFreeIsCopied | src/main/java/com/yourcompany/plugins/rewriteprepare/service/VariableReplacer.java:171-225 | text without `$` holds no match, so it is copied and counts nothing |
| VariableReplacement.EmptyMapIsIdentity | src/main/java/com/yourcompany/plugins/rewriteprepare/service/VariableReplacer.java:136-147 | with an empty map both passes give the text back |
| VariableReplacement.NoDollarUnchanged | src/main/java/com/yourcompany/plugins/rewriteprepare/service/VariableReplacer.java:150-162 | a text without `$` is left alone whatever the map holds, and the count is 0 |
| VariableReplacement.ChangeNeedsKnownName | src/main/java/com/yourcompany/plugins/rewriteprepare/service/VariableReplacer.java:144-150 | a text changes only through a known name: one met by the first pass in the original, or by the second pass in the first pass's output |
| VariableReplacement.UnknownBraceSurvives | src/main/java/com/yourcompany/plugins/rewriteprepare/service/VariableReplacer.java:184-189 | an unknown `${n}` survives both passes unchanged and is not counted |
| VariableReplacement.BraceTextHasNoSimpleMatch | src/main/java/com/yourcompany/plugins/rewriteprepare/service/VariableReplacer.java:35-39 | the `$name` pass finds nothing in `${n}`, because `{` cannot start a name |
| VariableReplacement.NestedValueSubstitutedAgain | src/main/java/com/yourcompany/plugins/rewriteprepare/service/VariableReplacer.java:144-147 | a `$b` in the value of `${a}` is substituted again by the second pass, while the count sees only the one `${a}` of the original |
| VariableReplacement.KnownBraceText | src/main/java/com/yourcompany/plugins/rewriteprepare/service/VariableReplacer.java:177-183 | a known `${a}` is replaced by exactly its value, is counted once, and is masked whole before `$name` uses are counted |
| VariableReplacement.BothFormsReplaced | src/main/java/com/yourcompany/plugins/rewriteprepare/service/VariableReplacer.java:136-163 | `${a} and $a` becomes the value twice over, and the count is 2 |
| VariableReplacement.LoadedKeys | src/main/java/com/yourcompany/plugins/rewriteprepare/service/VariableReplacer.java:61-71 | the map's keys are exactly the trimmed property names |
| VariableReplacement.LoadedLastWins | src/main/java/com/yourcompany/plugins/rewriteprepare/service/VariableReplacer.java:62-70 | a name's value is the trimmed value of the last property whose name trims to it, or "" when that value is null |
| VariableReplacement.LoadedIsTrimmed | src/main/java/com/yourcompany/plugins/rewriteprepare/service/VariableReplacer.java:65-68 | every stored name and value is already trimmed |
| VariableReplacement.LoadedSize | src/main/java/com/yourcompany/plugins/rewriteprepare/service/VariableReplacer.java:84-86 | the variable count never exceeds the number of properties |
| VariableReplacement.VariableReplacer.constructor | src/main/java/com/yourcompany/plugins/rewriteprepare/service/VariableReplacer.java:43-45 | a new replacer has an empty map |
| VariableReplacement.VariableReplacer.LoadVariableMap | src/main/java/com/yourcompany/plugins/rewriteprepare/service/VariableReplacer.java:61-71 | the old map is cleared and replaced by the loaded one |
| VariableReplacement.VariableReplacer.GetVariableCount | src/main/java/com/yourcompany/plugins/rewriteprepare/service/VariableReplacer.java:84-86 | the number of variables in the map |
| VariableReplacement.VariableReplacer.ReplaceMatches | src/main/java/com/yourcompany/plugins/rewriteprepare/service/VariableReplacer.java:171-225 | the `find`/`appendReplacement`/`appendTail` loop builds the rendering of the scan: known names become their values literally, unknown ones stay |
| VariableReplacement.VariableReplacer.ReplaceBraceVariables | src/main/java/com/yourcompany/plugins/rewriteprepare/service/VariableReplacer.java:171-194 | the `${name}` pass over the text |
| VariableReplacement.VariableReplacer.ReplaceSimpleVariables | src/main/java/com/yourcompany/plugins/rewriteprepare/service/VariableReplacer.java:202-225 | the `$name` pass over the text |
| VariableReplacement.VariableReplacer.CountKnownMatches | src/main/java/com/yourcompany/plugins/rewriteprepare/service/VariableReplacer.java:243-260 | one counting loop counts the matches whose name the map knows |
| VariableReplacement.VariableReplacer.CountReplacements | src/main/java/com/yourcompany/plugins/rewriteprepare/service/VariableReplacer.java:234-263 | 0 for an unchanged text; otherwise the known `${name}` matches of the original plus the known `$name` matches once every `${...}` is masked |
| VariableReplacement.VariableReplacer.ReplaceVariablesInFile | src/main/java/com/yourcompany/plugins/rewriteprepare/service/VariableReplacer.java:136-163 | the new text is written back only when it differs from the old one, and an unchanged file reports 0 |

## Left out

- YAML text: the scanner, quoting (`MINIMIZE_QUOTES`, `UnquotedStringSerializer`) and document separators are not modelled. Documents are the decoded `Yaml` tree, and writing stops at the list of documents.
- A number bound to a `String` property is taken as its YAML lexeme. Jackson passes the parsed number's `toString`, so `displayName: 1.50` reads as "1.5" in the source and "1.50" in the model.
- Jackson's other `Boolean` coercions are not modelled: from "True" or "TRUE", from integers, and from "". The model refuses these values where Jackson accepts them; it accepts only a YAML boolean or the strings "true" and "false".
- Duplicate keys in one mapping are assumed away; mappings keep insertion order.
- The `required = true` markers on `MergeRecipeDefinition.type`/`rules` and `UpdateRecipeList.name` are not enforced. Jackson checks them only for creator properties, and these are set through setters.
- `parseMergeRules`, `MergeRules` and `Rule` are not modelled as parsing. The rule file arrives decoded as `RuleFile`; a missing or unparsable file is `Missing`/`Unparsable`.
- File-system effects are not modelled: existence checks, `mkdirs`, deleting the old output, writing bytes, and reading the properties file. Files are a map from resolved path to parse outcome. `RewriteInitializeMojo.java`, `RewriteResolveMojo.java` and the directory walk `findRecipeFiles` are not part of this model.
- The resolution of relative `ruleFile`, `recipeDirectory` and `outputFile` paths against the project base directory is not modelled; the recipe directory is taken as already absolute.
- RecipeMerger.PathKey joins the directory and the file name with `/`, as `new File(dir, name).getAbsolutePath()` does for an absolute directory. `java.io.File` also collapses repeated separators and drops a trailing one; the model does not, so two spellings that differ only that way count as two paths.
- Logging is not modelled. Exception messages are reduced to `Violation` (row and problem) for validation, and to `Failed` for everything else.
- PatternMatcher.Matches requires every piece of a pattern to be free of regex metacharacters other than `.`, `*` and `?` (`PlainPieces`). A pattern such as `a+b` is passed to `java.util.regex` as regex syntax and is outside the model. `PrepareMojo.Run` and `PrepareMojo.RewritePrepareMojo.Execute` inherit this as `PlainRuleFile`.
- VariableReplacement.Boundary treats only ASCII letters, digits and `_` as word characters. Java's `\b` also counts other Unicode letters and digits.
- VariableReplacement.VariableReplacer.LoadVariableMap takes the properties as a list in iteration order. The order of `Properties.stringPropertyNames()` is unspecified, so with two names that trim alike, which one wins is a property of that list.
- VariableReplacement.Count follows the code, not the documentation. It is 0 for an unchanged text, and otherwise counts known names in the original (known `${name}` uses plus known `$name` uses after masking). It therefore counts nothing from a substituted value and may differ from the number of substitutions made.
- UpdateOrders.EntryOfShapes keeps the raw list elements as `Yaml` values. The source's unchecked `List<String>` cast lets non-strings through until they are used, which is where the model fails them.
- ListEdits.AddLastSplices, ListEdits.BeforeFoldSplices, ListEdits.AfterFoldSplices, ListEdits.AddBeforeSplices and ListEdits.AddAfterSplices are stated for value lists of distinct strings. For other lists, ListEdits.ApplyOrderOnlyInserts, ListEdits.ExtendsKeepsOrder and the `Unique` lemmas give what holds.
- ListEdits.AddFirstSplices is stated for string values only. A non-string value aborts the batch (ListEdits.FirstBatchStops).
- YamlParser.WriteRecipes requires every definition's recipe list to be writable: no entry may have attributes without a name. Every merged definition meets this (PrepareMojo.MergedRecipesWritable).
- YamlParser.WriteThenParse is stated for named definitions whose `type` is not the merge sentinel. It gives back each definition's normal form: empty lists read back as null, and unnamed recipe entries are dropped.
- Recipes.HashCode folds over the name's UTF-16 code units, so a character above U+FFFF counts as its surrogate pair, as in `String.hashCode`. The 32-bit wrap-around is explicit. The attributes do not enter the hash, as in the source.
