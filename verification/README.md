# Update builders for items and properties (Wikidata Toolkit data model)

This project models, in Dafny, how Wikidata Toolkit's update builders for
termed statement documents (items and properties) accumulate edits against an
optional base revision and hand them over as an immutable update:

- **Dispatch**: `forEntityId` / `forBaseRevision` pick the item or property
  builder from the id (or document) kind. Other kinds and placeholder ids are
  rejected with an invalid-argument error.
- **Descriptions**: each `updateDescriptions` call seeds a term-update builder
  with the base descriptions, merges the staged descriptions and then the new
  update, and keeps the result. A set-term equal to the base value and the
  removal of a language the base lacks are dropped.
- **Aliases**: `setAliases(language, list)` rejects repeated strings, tags each
  string with the language, and replaces the staged list. With a base revision,
  it drops the staged entry when the list equals the base list (order-sensitive),
  or when the base has no aliases in the language and the list is empty.
- **Merge**: `apply` replays another update's descriptions and alias lists
  through the same operations, so redundant edits are dropped here too.
- **Site links** (items only): a disjoint pair of modified links and removed
  site keys. The last call on a key wins, and nothing is compared with the base.
- **Build**: the item update carries exactly the staged state.

The builders are immutable values and every fluent setter is a pure function
returning the new builder. Operations that can throw `IllegalArgumentException`
return `Result<_, Error>` instead.

Modules and files:

| file | module | contents |
|---|---|---|
| wrappers.dfy | Wrappers | `Option`, `Result`, map lookup |
| entities.dfy | Entities | entity ids and kinds, placeholder ids, terms, site links, documents, errors |
| term_updates.dfy | TermUpdates | term updates, the term-update builder, merge = replay, effect preservation |
| aliases.dfy | Aliases | alias uniqueness by set size, alias values and their texts |
| site_links.dfy | SiteLinks | site-link staging, last-writer-wins |
| termed_builder.dfy | TermedBuilder | descriptions, aliases and `apply` of the termed-document builder |
| builders.dfy | UpdateBuilders | item/property builders, dispatch, site links on items, `build` |
| scenarios.dfy | Scenarios | the concrete scenarios of the builder tests |

## Model

| member | source | states |
|---|---|---|
| UpdateBuilders.ForEntityId | wdtk-datamodel/src/main/java/org/wikidata/wdtk/datamodel/helpers/TermedStatementDocumentUpdateBuilder.java:81-104 | Succeeds exactly for non-placeholder item and property ids. Item ids get an item builder and property ids a property builder, with no base revision. Any other kind fails with "Unrecognized entity ID type."; a placeholder id fails with invalid-argument. |
| UpdateBuilders.ForBaseRevision | wdtk-datamodel/src/main/java/org/wikidata/wdtk/datamodel/helpers/TermedStatementDocumentUpdateBuilder.java:106-134 | The same dispatch on the document's kind. The document is kept as the base revision. Other kinds fail with "Unrecognized entity document type.". |
| UpdateBuilders.NewBuilder | wdtk-datamodel/src/main/java/org/wikidata/wdtk/datamodel/helpers/ItemUpdateBuilder.java:44-85 | The builder's variant matches the id kind. It starts with nothing staged and satisfies the builder invariant. |
| TermedBuilder.Initial | wdtk-datamodel/src/main/java/org/wikidata/wdtk/datamodel/helpers/TermedStatementDocumentUpdateBuilder.java:48-79 | A new builder has empty descriptions and aliases, its state is valid, and nothing in it reproduces the base. |
| TermedBuilder.UpdateDescriptions | wdtk-datamodel/src/main/java/org/wikidata/wdtk/datamodel/helpers/TermedStatementDocumentUpdateBuilder.java:153-173 | Changes accumulate, and per language the later edit wins. Without a base, removals are unioned and modified terms are overlaid. With a base, a set-term equal to the base value is dropped and the removal of an existing description is kept. Nothing but the descriptions changes. |
| TermedBuilder.UpdateDescriptionsEffect | wdtk-datamodel/src/main/java/org/wikidata/wdtk/datamodel/helpers/TermedStatementDocumentUpdateBuilder.java:153-172 | Dropping redundant edits never changes the outcome. The accumulated descriptions do to the base (or, without a base, to any descriptions) what the staged changes followed by the new update would do. |
| TermedBuilder.UpdateDescriptionsKeepsReduced | wdtk-datamodel/src/main/java/org/wikidata/wdtk/datamodel/helpers/TermedStatementDocumentUpdateBuilder.java:164-172 | After the call, no staged description sets the base value or removes a language the base lacks. |
| TermedBuilder.SetAliases | wdtk-datamodel/src/main/java/org/wikidata/wdtk/datamodel/helpers/TermedStatementDocumentUpdateBuilder.java:175-209 | Fails with "Aliases must be unique." exactly when a string repeats, and then changes nothing. Otherwise only this language's entry changes. Without a base, the entry is always set to the tagged values. With a base, the entry is absent exactly when the values equal the base list, or the base has none and the list is empty; else it holds the values. |
| TermedBuilder.SetAliasesLastCallWins | wdtk-datamodel/src/main/java/org/wikidata/wdtk/datamodel/helpers/TermedStatementDocumentUpdateBuilder.java:175-207 | A second call for the same language gives the same builder as calling only the second, so lists overwrite rather than append. |
| TermedBuilder.SetAliasesKeepsReduced | wdtk-datamodel/src/main/java/org/wikidata/wdtk/datamodel/helpers/TermedStatementDocumentUpdateBuilder.java:200-207 | After the call, no staged alias list reproduces the base revision. |
| Aliases.UniqueBySetSize | wdtk-datamodel/src/main/java/org/wikidata/wdtk/datamodel/helpers/TermedStatementDocumentUpdateBuilder.java:196 | The hash-set size of the list equals its length exactly when no string repeats (exact comparison). |
| Aliases.AliasValuesShape | wdtk-datamodel/src/main/java/org/wikidata/wdtk/datamodel/helpers/TermedStatementDocumentUpdateBuilder.java:197-199 | There is one value per input string, in the same order, each holding that string and tagged with the language. |
| Aliases.TextsOfAliasValues | wdtk-datamodel/src/main/java/org/wikidata/wdtk/datamodel/helpers/TermedStatementDocumentUpdateBuilder.java:197-199 | Extracting the texts of the built values gives back the input strings. |
| Aliases.AliasValuesOfTexts | wdtk-datamodel/src/main/java/org/wikidata/wdtk/datamodel/helpers/TermedStatementDocumentUpdateBuilder.java:214-216 | Rebuilding values from the texts that `apply` extracts gives back a list tagged with that language. |
| TermedBuilder.Apply | wdtk-datamodel/src/main/java/org/wikidata/wdtk/datamodel/helpers/TermedStatementDocumentUpdateBuilder.java:211-217 | Accepts any update whose descriptions are disjoint and whose alias lists have no repeated text, as `setAliases` demands of the texts `apply` extracts. Each alias list is retagged with its map key, since only the texts are passed on. The descriptions equal those after updateDescriptions of the update's descriptions. The aliases equal the closed-form merge: each retagged incoming list replaces the staged one unless it reproduces the base. The builder invariant holds afterwards, no staged edit reproduces the base if none did before, and nothing else changes. |
| TermedBuilder.MergeWithoutBase | wdtk-datamodel/src/main/java/org/wikidata/wdtk/datamodel/helpers/TermedStatementDocumentUpdateBuilder.java:211-217 | Without a base, the merged alias languages are the union of both key sets. On an incoming language the merged list is the incoming texts retagged with that language, which is the incoming list itself when it was already tagged with it. Other languages keep their staged list. |
| TermedBuilder.ApplyToFreshBuilder | wdtk-datamodel/src/main/java/org/wikidata/wdtk/datamodel/helpers/TermedStatementDocumentUpdateBuilder.java:211-217 | Merging a built update into a fresh builder without a base stages exactly its descriptions and aliases again. |
| TermUpdates.SetTerm | wdtk-datamodel/src/main/java/org/wikidata/wdtk/datamodel/helpers/TermedStatementDocumentUpdateBuilder.java:166-170 | A set-term stages the term and clears a pending removal. If the term equals the baseline, the language is left untouched instead. Other languages keep their edits, and the update stays disjoint. |
| TermUpdates.RemoveTerm | wdtk-datamodel/src/main/java/org/wikidata/wdtk/datamodel/helpers/TermedStatementDocumentUpdateBuilder.java:166-170 | A removal stages the language and clears a pending set-term. If the baseline lacks the language, it is left untouched instead. Other languages keep their edits. |
| TermUpdates.ApplyTerms | wdtk-datamodel/src/main/java/org/wikidata/wdtk/datamodel/helpers/TermedStatementDocumentUpdateBuilder.java:169-170 | Merging an update gives each language the edit the merged update has for it, after baseline elision, and otherwise keeps the staged edit. The result stays disjoint. |
| TermUpdates.ApplyTermsIsReplay | wdtk-datamodel/src/main/java/org/wikidata/wdtk/datamodel/helpers/TermedStatementDocumentUpdateBuilder.java:169-170 | The merge equals calling set-term or remove-term once for each entry of the update, in any order. |
| TermUpdates.ApplyTermsPreservesEffect | wdtk-datamodel/src/main/java/org/wikidata/wdtk/datamodel/helpers/TermedStatementDocumentUpdateBuilder.java:166-171 | Against the baseline, or any terms when there is none, the merged update has the same effect as the staged edits followed by the update. |
| TermUpdates.ApplyTermsKeepsReduced | wdtk-datamodel/src/main/java/org/wikidata/wdtk/datamodel/helpers/TermedStatementDocumentUpdateBuilder.java:166-171 | After a merge, no staged edit reproduces the baseline. |
| TermUpdates.BlindMergeIsVerbatim | wdtk-datamodel/src/main/java/org/wikidata/wdtk/datamodel/helpers/TermedStatementDocumentUpdateBuilder.java:166-171 | Without a base revision (a term builder from `create`), merging any disjoint update and building it gives back exactly that update. |
| TermUpdates.BaseMergeDropsOnlyRedundant | wdtk-datamodel/src/main/java/org/wikidata/wdtk/datamodel/helpers/TermedStatementDocumentUpdateBuilder.java:166-171 | With a base revision (a term builder from `forTerms` over its descriptions), merging an update and building it gives back that update exactly when none of its edits reproduces the base descriptions. |
| UpdateBuilders.UpdateBuilderDescriptions | wdtk-datamodel/src/main/java/org/wikidata/wdtk/datamodel/helpers/ItemUpdateBuilder.java:109-113 | On an item or property builder, description changes go to the shared state. The builder kind, the site links and the invariant are unchanged. |
| UpdateBuilders.SetBuilderAliases | wdtk-datamodel/src/main/java/org/wikidata/wdtk/datamodel/helpers/ItemUpdateBuilder.java:115-119 | On an item or property builder, alias changes go to the shared state. The result fails exactly when the shared operation fails, and then the builder is not replaced. |
| UpdateBuilders.SetBuilderSiteLink | wdtk-datamodel/src/main/java/org/wikidata/wdtk/datamodel/helpers/ItemUpdateBuilder.java:121-139 | The link is staged under its site key, which is no longer removed. It is staged even when the base already has that link. Other site keys and all terms are untouched. |
| UpdateBuilders.RemoveBuilderSiteLink | wdtk-datamodel/src/main/java/org/wikidata/wdtk/datamodel/helpers/ItemUpdateBuilder.java:141-157 | The site key is staged for removal and its staged link is dropped. Other site keys and all terms are untouched. |
| UpdateBuilders.ApplyUpdate | wdtk-datamodel/src/main/java/org/wikidata/wdtk/datamodel/helpers/TermedStatementDocumentUpdateBuilder.java:211-217 | The merge on an item or property builder changes descriptions and aliases as the termed merge does. The builder invariant is kept. The builder kind, id, base revision, labels, statements and site links are unchanged. |
| UpdateBuilders.Build | wdtk-datamodel/src/main/java/org/wikidata/wdtk/datamodel/helpers/ItemUpdateBuilder.java:159-163 | The update carries the id, base revision, labels, descriptions, aliases and statements. It holds exactly the staged links (each under its own site key) and the removed site keys, which are disjoint from them. It is well formed, so it can be merged back in. |
| SiteLinks.SetSiteLink | wdtk-datamodel/src/main/java/org/wikidata/wdtk/datamodel/helpers/ItemUpdateBuilder.java:134-139 | Afterwards modified[siteKey] is the link and siteKey is not removed. Other keys are untouched, and the two parts stay disjoint. |
| SiteLinks.RemoveSiteLink | wdtk-datamodel/src/main/java/org/wikidata/wdtk/datamodel/helpers/ItemUpdateBuilder.java:152-157 | Afterwards the site is removed and not modified. Other keys are untouched, and the two parts stay disjoint. |
| SiteLinks.LastWriterWins | wdtk-datamodel/src/main/java/org/wikidata/wdtk/datamodel/helpers/ItemUpdateBuilder.java:121-157 | After any sequence of set/remove calls, a site key's state is decided by the last call on that key. When no call names it, its state is unchanged. |
| Scenarios.DispatchByKind | wdtk-datamodel/src/test/java/org/wikidata/wdtk/datamodel/helpers/TermedDocumentUpdateBuilderTest.java:61-77 | Item and property ids and documents get their builders. Mediainfo ids and placeholder ids or documents are rejected. |
| Scenarios.BaseDescriptionUpdate | wdtk-datamodel/src/test/java/org/wikidata/wdtk/datamodel/helpers/TermedDocumentUpdateBuilderTest.java:106-119 | Setting the base "sk" description is dropped, and removing "en" is kept. |
| Scenarios.BlindAliasChanges | wdtk-datamodel/src/test/java/org/wikidata/wdtk/datamodel/helpers/TermedDocumentUpdateBuilderTest.java:121-141 | Repeated aliases are rejected, an empty list is staged, and a second list overwrites the first. |
| Scenarios.BaseAliasEdits | wdtk-datamodel/src/test/java/org/wikidata/wdtk/datamodel/helpers/TermedDocumentUpdateBuilderTest.java:151-167 | Against the base revision, adding "sk" aliases, removing the "cs" aliases and modifying the "de" aliases are all staged: the staged aliases are exactly the "sk", empty "cs" and new "de" lists that the test expects once its reverts (the rows below) are done. |
| Scenarios.BaseAliasNoOps | wdtk-datamodel/src/test/java/org/wikidata/wdtk/datamodel/helpers/TermedDocumentUpdateBuilderTest.java:155-156 | Clearing the "pl" aliases, which the base lacks, and restating the base "es" list leave the staged aliases unchanged. |
| Scenarios.BaseAliasRevert | wdtk-datamodel/src/test/java/org/wikidata/wdtk/datamodel/helpers/TermedDocumentUpdateBuilderTest.java:157-162 | Staging a list for a language and then restating its base list (the empty list when the base has none) leaves the staged aliases as they were. |
| Scenarios.RevertedModification | wdtk-datamodel/src/test/java/org/wikidata/wdtk/datamodel/helpers/TermedDocumentUpdateBuilderTest.java:157-158 | Changing the "en" aliases and changing them back leaves the test's staged aliases unchanged. |
| Scenarios.RevertedRemoval | wdtk-datamodel/src/test/java/org/wikidata/wdtk/datamodel/helpers/TermedDocumentUpdateBuilderTest.java:159-160 | Removing the "fr" aliases and restoring them leaves the test's staged aliases unchanged. |
| Scenarios.RevertedAddition | wdtk-datamodel/src/test/java/org/wikidata/wdtk/datamodel/helpers/TermedDocumentUpdateBuilderTest.java:161-162 | Adding "el" aliases and clearing them again leaves the test's staged aliases unchanged. |
| Scenarios.MergeWithoutBaseRevision | wdtk-datamodel/src/test/java/org/wikidata/wdtk/datamodel/helpers/TermedDocumentUpdateBuilderTest.java:170-188 | Description removals from both builders are unioned, and the alias languages of both are kept. |

## Left out

- Labels and statements: `updateLabels`, `updateStatements` and the label/statement part of `apply` (`super.apply`) belong to `LabeledStatementDocumentUpdateBuilder`, which this model does not cover. The labels and statements fields are carried unchanged, and statements are an uninterpreted value.
- `TermUpdateBuilder` is not part of this model. Its behaviour is modelled minimally: a set-term equal to the baseline term, or a removal of a language the baseline lacks, clears that language from both parts. The removal half follows the javadoc of `updateDescriptions` (TermedStatementDocumentUpdateBuilder.java:154-156: redundant changes are silently ignored); no description test exercises the removal of a language the base lacks.
- TermedBuilder.Apply: requires the update's descriptions to be disjoint and its alias texts to be free of repeats. Alias lists need not be tagged with their key: the model retags them exactly as the source does by passing only the texts on. A built update always meets the requirement (see `UpdateBuilders.Build`). For a list with repeated texts the source throws part-way through its loop, after some state has already changed. That partial state depends on hash-map iteration order and is not modelled.
- The check that `apply` receives an update for the same entity, if any, belongs to `LabeledStatementDocumentUpdateBuilder`, which this model does not cover.
- Null-argument checks (`Objects.requireNonNull`, `Validate.noNullElements`) are not modelled: Dafny values cannot be null.
- The blank-language rejection asserted by the alias test at line 125 is not modelled. `setAliases` (TermedStatementDocumentUpdateBuilder.java:192-209) does not perform it, because an empty list never creates a term value.
- Placeholder ids: only `LexemeIdValueImpl.isPlaceholder` states a placeholder string ("L0"). The other kinds' placeholder strings ("Q0", "P0", …) are assumed to follow the same convention. The rejection is in the `EntityUpdateBuilder` constructor, which this model does not cover; its message is assumed. It is modelled after the kind dispatch, because `forEntityId` (TermedStatementDocumentUpdateBuilder.java:97-103) dispatches on the kind before any builder constructor runs.
- The document kind is taken from the document's id kind (Java uses its runtime class). Base descriptions are passed to the term builder as a map keyed by language. The source passes the values collection, which the term builder keys by language, so the two agree for documents that key each term by its own language.
- `PropertyUpdateBuilder` and its `build` are not part of this model. Only the item update is built.
- `build` returns a plain record rather than the factory's implementation class. JSON annotations, `isEmpty`, equality, hashing, `toString`, visitors and the factory are left out.
- Java's mutable builders are modelled as immutable values. That `build` leaves the builder unchanged, and that repeated builds are independent snapshots, therefore hold by construction and are not stated as contracts.
- The alias test's eleven `setAliases` calls are stated as one lemma for the staged edits, one for the redundant calls and one per revert, rather than as a single chain.
