# Resource Master core: a verified model

This project models the core of the GARFEX Resource Master backend in Dafny and proves what the code
is relied on for. It covers:

- **Resource construction and identity-v1**: canonical values, the active chain, option relations,
  conditional rules, the length-prefixed identity string, rehydration and reactivation, and the
  evaluator that the user interface sees.
- **Catalog mutation**: a copy-on-write engine over eleven kinds, embedded definitions, validation,
  equivalence, the coherent write transaction, and the service that publishes committed catalogs.
- **Per-type attribute order**: the overlay of saved bindings on a structural baseline, the
  permutation check, the compare-and-swap write, and the concurrent protocol around it.
- **Revision checks** on catalog rows and resource rows.
- **Purchase-line resolution override** with its audit trail.

Strings are sequences of characters, one per byte. Code that mutates state is a class or a method with
loops, each proved against a specification function or predicate; the laws are lemmas about those.
SQL statements, clocks, sequences and lost acknowledgements are inputs. The opaque order token is the
tuple its digest is taken of, or any text that is not such a digest.

| files | contents |
|---|---|
| `Text`, `TextMeaning`, `Sorting` | canonical text, byte order, decimal numerals; what Go's sorts promise, rearrangements |
| `Catalog`, `Resource`, `ResourceBuild`, `ResourceLaws`, `ResourceMeaning`, `Identity`, `Payloads`, `Rehydration`, `Markers`, `Example`, `MarkerExample` | data model, construction, identity, round trips, marker-like values, small instances |
| `Evaluator`, `EvaluatorLaws`, `EvaluatorMeaning` | effective attributes and valid options, agreement with the writer |
| `Equivalence`, `Validation`, `ValidationMeaning`, `Mutation`, `MutationLaws`, `MutationMeaning` | the catalog as a value |
| `CoherentWrite`, `CatalogRepository`, `RepositoryLaws`, `SpellingOrder`, `SpellingExample` | the coherent transaction, its revisions, and writes that omit an option set |
| `CatalogService`, `ServiceLaws`, `ServiceMeaning` | publication, the unavailable latch, whole runs |
| `AttributeOrder`, `OrderStore`, `OrderProtocol`, `OrderSafety`, `OrderLocks`, `OrderExample` | attribute order, from the overlay to all interleavings |
| `ResourceRows`, `PurchaseResolution` | resource rows under revision checks; line overrides |

The specification functions are tied to the rows they speak of by laws that name none of them: the
`...Meaning` modules say what acceptance, an evaluated entry, a mutation of each kind, a valid catalog and
a completed service call are in terms of catalog rows, records and codes.

The order protocol is proved for any store whose structural writes keep the codes of all types
(`KeepsTypeScopes`), and the catalog repository is proved to be one: a class, family, definition or
binding write reaches its commit only if the reloaded types are those of the prediction, so it can move
neither a class nor a family that has types. Hence the type row a reorder has locked is the one it later
reads, and the theorems hold for all runs. `OrderSafety.ReplayableExactlyWhenMoved` says what would
follow if codes were changed behind these writers' backs.

## Where the code does less than it says

Each entry has an exact condition and an instance.

- **The unavailable latch needs a signal the repository never gives.** A failed commit is returned as a
  plain error (`internal/postgres/catalog_admin_repository_v2.go:940-942`), not as the indeterminate
  outcome the service latches on; a reset does not reload the snapshot either. With or without the
  signal, a service that starts in step ends in step exactly when the last call that changed the database
  was a completed write or left the catalog the service holds (`ServiceLaws.InStepIff`; instance
  `ServiceLaws.LossWithoutLatchDrifts`).
- **A binding written without an option set may be refused.** The row is stored under the default set.
  The transaction accepts it exactly when some option belongs to that set and no other binding prints
  strictly between the two spellings (`SpellingOrder.UnspelledBindingLandsIff`, for inserts and updates;
  instance `SpellingExample.AddedBindingLandsIff`).
- **Updates never rewrite the identity key.** An updated resource can be reactivated exactly when its
  values, less those that read like the not-applicable marker, meet their effective modes and have the
  stored key (`ResourceRows.UpdatedRowRebuildsIff`; instance `Example.ChangedOptionCannotReturn`).
- **A value that reads like the not-applicable marker is accepted, then set aside.** A stored resource is
  read back or reactivated under its key exactly when the rest of its values meet their effective modes
  and have the same key (`Markers.MarkedResourceReturnsIff`). An optional text outside the identity is
  not enough: a rule may look at the option code it carries (instance
  `MarkerExample.OptionalMarkerIsNoticed`).
- **The evaluator lists options the writer refuses.** Two chosen options that no relation of their group
  pairs are both listed exactly when each end is offered nothing at all or is offered its option from
  outside the group (`EvaluatorLaws.ListedButUnrelatedIff`; with a single group, when it knows neither
  option, `EvaluatorLaws.SoleGroupOpenIff`; instance `EvaluatorLaws.OthersStayOpen`).
- **Blank class codes escape `Validate`.** An active type has a sole active class row exactly unless its
  class code is blank and shared (`Validation.ActiveTypesHaveActiveParents`; instance
  `Validation.BlankClassCodesEscape`). This concerns `Validate` alone: the tables refuse blank class codes
  (`migrations/000002_resource_master.up.sql`).

## Model

| member | source | states |
|---|---|---|
| Text.CanonicalIdempotent | internal/domain/resource_canonical.go:92-94 | canonical upper-case text is a fixed point of canonicalization |
| Text.CanonicalAttributeIdempotent | internal/domain/resource_canonical.go:96-98 | canonical attribute codes are fixed points |
| TextMeaning.CanonicalWords | internal/domain/resource_canonical.go:92-98 | a canonical code consists of the words of its text, folded to one case and joined by single blanks |
| TextMeaning.SameCanonicalIff | internal/domain/resource_canonical.go:92-98 | two texts have one canonical form exactly when they have the same words up to case, however they are spaced |
| TextMeaning.DecimalReads | internal/domain/resource_validation.go:95-97 | a printed length consists of decimal digits that read back as the length |
| Catalog.CanonicalScopeIdempotent | internal/domain/resource_scope.go:18-24 | canonical scopes are fixed points |
| ResourceMeaning.ScopeMatchesMeans | internal/domain/resource_scope.go:35-48 | with a type on both sides a row applies exactly to its own scope; a blank type on either side stands for all types of the family |
| Resource.ResourceAttributes | internal/domain/resource_validation.go:274-283 | the loop collects, for each code, the last applicable binding |
| Resource.BindingsCharacterized | internal/domain/resource_validation.go:274-283 | a code is bound exactly when an applicable binding declares it, and to the last one that does |
| ResourceBuild.CollectValues | internal/domain/resource_validation.go:28-43 | values are collected exactly when codes are distinct and bound and every value has a canonical form |
| ResourceBuild.ValidateActiveChain | internal/domain/resource_validation.go:129-214 | passes exactly when unit, policy, class, family, type, bindings and chosen options are active |
| ResourceMeaning.ActiveChainMeans | internal/domain/resource_validation.go:129-214 | what the chain asks of the rows: all rows of class, family and type, the first rows of unit and allowed policy, the first definition, option set and chosen option of every binding, its rules, and every relation between bound attributes |
| ResourceBuild.ValidateRelations | internal/domain/resource_validation.go:290-325 | passes exactly when every group of relevant relations admits the chosen pair |
| EvaluatorLaws.RelationsMean | internal/domain/resource_validation.go:290-325 | relations cohere exactly when any two values at the ends of a relation of one option set are paired by some relation of that set |
| ResourceBuild.ApplyModes | internal/domain/resource_validation.go:52-81 | accepts exactly the values meeting every effective mode; yields the present values and the encoded participating parts in code order |
| ResourceMeaning.EffectiveMeans | internal/domain/resource_validation.go:327-337 | the first rule that fires decides mode, participation and applicability; without one the binding does, an unmatched conditional counting as required |
| ResourceMeaning.ModesMean | internal/domain/resource_validation.go:52-73 | modes hold exactly when every binding is met by its deciding rule or by itself, and nothing is given where the deciding rule says it does not apply |
| ResourceBuild.FinalSortIsNoOp | internal/domain/resource_validation.go:82-82 | any result the final sort may give equals the list it was given |
| ResourceBuild.NewResource | internal/domain/resource_validation.go:15-93 | accepts exactly the declarative conditions and returns the specified resource |
| ResourceMeaning.FittingValuesMean | internal/domain/resource_validation.go:28-43 | values fit exactly when their codes are distinct and bound and each, by its type, can be made canonical |
| ResourceMeaning.OutcomeMeans | internal/domain/resource_validation.go:15-93 | every input is accepted exactly when all five conditions hold; an inactive chain is a reference error, every other refusal a validation error |
| ResourceMeaning.AcceptedResourceMeans | internal/domain/resource_validation.go:82-92 | an accepted resource carries the canonical scope and unit and lists the canonical form of every value, and nothing else, by increasing code |
| ResourceLaws.OrderOfValuesIsImmaterial | internal/domain/resource_validation.go:15-93 | permuting the input values changes neither acceptance nor the resource |
| ResourceLaws.CanonicalValueFixed | internal/domain/resource_canonical.go:13-52 | a canonical value is accepted again and stays as it is |
| ResourceMeaning.CanonicalValueMeans | internal/domain/resource_canonical.go:13-66 | a value of the bound type with its own field filled keeps everything but the spelling of code, text and unit; any other is refused |
| ResourceLaws.RebuildsToItself | internal/domain/resource_validation.go:15-93 | rebuilding from a resource's own attributes, in any order, gives the same resource and key |
| Identity.ComponentPrefix | internal/domain/resource_validation.go:95-97 | a length-prefixed component can be split off in one way only, whatever bytes it holds |
| Identity.PartsInjective | internal/domain/resource_validation.go:76-89 | an encoded list of triples determines the list |
| Identity.KeyDecodes | internal/domain/resource_validation.go:52-97 | two keys are equal exactly when scopes and participating triples are |
| Identity.KeyLayout | internal/domain/resource_validation.go:76-97 | a key is the version, the three scope codes and the triples in order, each with its decimal length before it |
| Identity.DuplicateIffSameIdentity | internal/domain/resource_canonical.go:68-90 | accepted resources are exact duplicates exactly when canonical scope and participating triples agree |
| Payloads.PrintedAlikeIff | internal/domain/resource_canonical.go:68-88 | two values of one type print alike exactly when option code, integer, decimal, truth value, canonical text, or amount together with canonical unit are equal |
| Payloads.DuplicateIffSameEssence | internal/domain/resource_canonical.go:68-90 | accepted resources, of whatever catalogs, are exact duplicates exactly when their canonical scopes are equal and the same codes take part with the same type and significant value |
| Rehydration.RehydrateResource | internal/domain/resource_validation.go:99-127 | succeeds exactly when the applicable values rebuild to the stored key; restores id, activity and markers |
| Rehydration.ReactivationCandidate | internal/app/recursos/service.go:228-246 | succeeds exactly when the resource rebuilds under active checks with its stored key; otherwise tells an impossible rebuild from an identity conflict |
| Markers.RestRebuilds | internal/domain/resource_validation.go:99-127 | without its marker-like values an accepted resource is accepted exactly when the rest meets its effective modes, and is then itself without them, under the key without them |
| Markers.MarkedResourceReturnsIff | internal/app/recursos/service.go:228-246 | every accepted resource, stored in any order with markers added, is read back or reactivated under its key exactly when setting its marker-like values aside leaves modes met and key unchanged |
| Markers.AcceptedResourceRehydratesIff | internal/domain/resource_validation.go:99-127 | every accepted resource rehydrates exactly under that condition, to its scope, unit, key and applicable attributes, with exactly the stored markers put back in code order, whatever the unstable sort does |
| Markers.UnnoticedIff | internal/domain/resource_validation.go:327-337 | where no rule fires on a marker-like value, the condition is that none is required or part of the identity |
| MarkerExample.OptionalMarkerIsNoticed | internal/domain/resource_validation.go:327-337 | an accepted optional text outside the identity without which the resource can neither be read back nor reactivated |
| Example.SmallCatalogAccepts | internal/domain/resource_validation.go:15-93 | a small catalog with a controlled characteristic accepts a resource under all activity checks |
| Example.ChangedOptionCannotReturn | internal/postgres/resource_repository_crud.go:486-490 | a stored resource whose identity option is updated can no longer be reactivated |
| Evaluator.AttributesFor | internal/domain/resource_catalog_query.go:27-37 | the applicable bindings in declaration order |
| Evaluator.OptionsFor | internal/domain/resource_catalog_query.go:43-56 | the active options of a binding's attribute and set |
| Evaluator.ValidOptions | internal/domain/resource_catalog_query.go:125-163 | the options the relations leave open given the current values |
| Evaluator.AllowedMember | internal/domain/resource_catalog_query.go:132-151 | an option is allowed exactly when some relation with a chosen other end offers it |
| Evaluator.Positions | internal/domain/resource_effective_attributes.go:79-82 | a code's position is the largest among the active fields of the exact scope |
| Evaluator.CanonicalizeAll | internal/domain/resource_effective_attributes.go:61-78 | canonicalizes the current values exactly when they fit the scope |
| Evaluator.EffectiveAttributesFor | internal/domain/resource_effective_attributes.go:54-104 | computes the specified evaluation |
| Evaluator.SameBindings | internal/domain/resource_effective_attributes.go:56-60 | the evaluator looks values up in the writer's own bindings |
| EvaluatorLaws.EvaluationEntries | internal/domain/resource_effective_attributes.go:83-103 | the result is a sorted rearrangement of the resolved applicable bindings |
| EvaluatorLaws.EvaluatorAgreesWithWriter | internal/domain/resource_effective_attributes.go:54-104 | succeeds on everything the writer accepts and shows the modes the writer enforces |
| EvaluatorLaws.EvaluationLayout | internal/domain/resource_effective_attributes.go:97-103 | a stable permutation of the applicable bindings, positioned ones first in position order |
| EvaluatorMeaning.EntryMeans | internal/domain/resource_effective_attributes.go:54-104 | every entry is an applicable binding with its source, its largest position among the active fields of the exact scope (none exactly when no field names it), the effect its first firing rule or itself decides, and exactly the options left open |
| EvaluatorMeaning.ListedOptionsMean | internal/domain/resource_catalog_query.go:125-163 | an active option is listed exactly when no relation offers anything at its attribute or some relation offers this option opposite a chosen one |
| EvaluatorMeaning.ChosenIsLast | internal/domain/resource_catalog_query.go:127-131 | of several values for a code the last one given is the chosen one |
| EvaluatorLaws.WriterOptionsAreValidOptions | internal/domain/resource_catalog_query.go:125-163 | every controlled option of an accepted resource is among the valid options of its winning binding |
| EvaluatorLaws.OpenButUnrelatedIff | internal/domain/resource_catalog_query.go:132-163 | both chosen options stay open though no relation of the group pairs them exactly when each end is offered nothing or offered its option from outside the group |
| EvaluatorLaws.SoleGroupOpenIff | internal/domain/resource_catalog_query.go:132-163 | with a single group, exactly when it knows neither option |
| EvaluatorLaws.ValidIffLeftOpen | internal/domain/resource_catalog_query.go:152-163 | an option is listed as valid exactly when it is offered and left open |
| EvaluatorLaws.ListedButUnrelatedIff | internal/domain/resource_catalog_query.go:125-163 | the same for the lists of valid options the user is shown |
| EvaluatorLaws.OthersStayOpen | internal/domain/resource_catalog_query.go:153-155 | an instance: two options the only relation does not mention |
| EvaluatorLaws.UnrelatedIsRefused | internal/domain/resource_validation.go:290-325 | the writer's group check passes exactly for related options |
| Equivalence.EquivalentIffSameNormalForm | internal/domain/catalog_equivalence.go:11-117 | two catalogs are equivalent exactly when they are equal once spellings are normalized |
| Equivalence.EquivalenceRelation | internal/domain/catalog_equivalence.go:11-44 | reflexive, symmetric and transitive |
| Equivalence.WriterCannotTell | internal/domain/catalog_equivalence.go:11-23 | equivalent catalogs give identical construction outcomes |
| Equivalence.EvaluatorCannotTell | internal/domain/catalog_equivalence.go:11-23 | equivalent catalogs give the same evaluation up to option-set spelling |
| Validation.ValidateClasses | internal/domain/resource_catalog_validate.go:148-176 | a validation error exactly when a class lacks a name, plural or slug or a non-blank code or slug repeats |
| Validation.ValidateFamilies | internal/domain/resource_catalog_validate.go:178-193 | a reference error exactly for an unknown class, a validation error exactly for a repeated key among known ones |
| Validation.ValidateTypes | internal/domain/resource_catalog_validate.go:195-203 | a reference error exactly when some type's family is unknown |
| Validation.ValidateAttributes | internal/domain/resource_catalog_validate.go:205-219 | a reference error exactly when a binding's family, type or option set is unknown |
| Validation.ValidateAttributeRules | internal/domain/resource_catalog_validate.go:223-236 | a validation error exactly when conditional mode and presence of rules disagree |
| Validation.ValidateUnits | internal/domain/resource_catalog_validate.go:277-307 | a validation error exactly when a unit has a blank field or a code or symbol repeats |
| Validation.ValidateUnitPolicies | internal/domain/resource_catalog_validate.go:267-275 | a reference error exactly when a policy's unit is unknown |
| Validation.ValidateActiveHierarchy | internal/domain/resource_catalog_validate.go:244-265 | a validation error exactly when an active family or type hangs under an inactive or absent parent, by the maps the code builds |
| Validation.Validate | internal/domain/resource_catalog_validate.go:70-81 | reports exactly which kinds of defect a catalog has, and none exactly for valid ones |
| ValidationMeaning.ClassesMean | internal/domain/resource_catalog_validate.go:148-176 | class rows are in order exactly when name, plural and slug are non-blank and no non-blank canonical code or slug is shared |
| ValidationMeaning.FamiliesMean | internal/domain/resource_catalog_validate.go:178-193 | family rows are in order exactly when each class has a row and no joined key is shared |
| ValidationMeaning.TypesAndBindingsMean | internal/domain/resource_catalog_validate.go:195-236 | types and bindings are in order exactly when families, named types and named option sets exist and rules are stated exactly for the conditional mode |
| ValidationMeaning.UnitsMean | internal/domain/resource_catalog_validate.go:267-307 | units and policies are in order exactly when unit fields are non-blank, codes and symbols are not shared, and every policy has its unit |
| ValidationMeaning.HierarchyMeans | internal/domain/resource_catalog_validate.go:244-265 | the hierarchy is in order exactly when the last class row of each active family and the last family row of each active type are active |
| Validation.ActiveTypesHaveActiveParents | internal/domain/resource_catalog_validate.go:244-265 | in a valid catalog an active type has one family row, active, and one class row, active, exactly unless its class code is blank and shared |
| Validation.BlankClassCodesEscape | internal/domain/resource_catalog_validate.go:148-176 | a valid catalog with an active type under blank class codes, one row inactive |
| Mutation.IndexOf | internal/domain/catalog_mutation.go:524-531 | the first match, or none |
| Mutation.MutateSlice | internal/domain/catalog_mutation.go:488-522 | the specified copy, with the given slice left alone |
| Mutation.RebuildEmbedded | internal/domain/catalog_mutation.go:340-353 | in place, exactly the bindings of an unchanged code embed the replacement; a changed code is refused exactly when it is referenced |
| Mutation.DefinitionIsReferenced | internal/domain/catalog_mutation.go:355-377 | true exactly when a binding, option, relation or presentation field names the code |
| Mutation.SynchronizeEmbeddedActive | internal/domain/catalog_mutation.go:325-338 | in place, exactly the bindings of the code take the definition's activity |
| MutationMeaning.ClassMutation | internal/domain/catalog_mutation.go:61-66 | classes: an insert appends the element the record spells out field by field; an update, switch or delete acts on the first of its code alone - replaced by the replacement field by field, given exactly the asked activity, or removed - or is not found; nothing else changes |
| MutationMeaning.FamilyMutation | internal/domain/catalog_mutation.go:67-74 | the same for families |
| MutationMeaning.TypeMutation | internal/domain/catalog_mutation.go:75-84 | the same for types |
| MutationMeaning.OptionSetMutation | internal/domain/catalog_mutation.go:102-109 | the same for option sets |
| MutationMeaning.OptionMutation | internal/domain/catalog_mutation.go:110-119 | the same for options |
| MutationMeaning.RelationMutation | internal/domain/catalog_mutation.go:120-128 | the same for relations |
| MutationMeaning.UnitMutation | internal/domain/catalog_mutation.go:129-134 | the same for units |
| MutationMeaning.UnitPolicyMutation | internal/domain/catalog_mutation.go:135-144 | the same for unit policies |
| MutationMeaning.PresentationFieldMutation | internal/domain/catalog_mutation.go:161-171 | the same for presentation fields |
| MutationMeaning.DefinitionMutation | internal/domain/catalog_mutation.go:85-101 | the same for definitions; the bindings of the code take over the replacement or the activity; changing a code in use is refused |
| MutationMeaning.BindingMutation | internal/domain/catalog_mutation.go:145-160 | the same for bindings, which embed the first definition of their characteristic; a malformed record is neither inserted nor updated |
| MutationMeaning.ApplicabilityMeans | internal/domain/catalog_mutation.go:379-452 | a binding record passes exactly when its references have their kinds and exist, its mode is one of the four, rules are stated exactly for the conditional mode, and each is complete |
| MutationLaws.MutationKeepsEmbedded | internal/domain/catalog_mutation.go:48-179 | a mutation keeping codes unique keeps every embedded definition current exactly when it deletes no definition in use |
| MutationLaws.RunsKeepEmbedded | internal/domain/catalog_mutation.go:48-179 | over any careful sequence no embedded definition goes stale |
| MutationLaws.OthersKeepTypes | internal/domain/catalog_mutation.go:48-179 | a mutation of any other kind leaves the types as they are |
| MutationLaws.InsertDeactivateDeleteRestores | internal/domain/catalog_mutation.go:488-522 | inserting, deactivating and deleting a record of fresh identity restores the catalog, for all eleven kinds |
| CoherentWrite.AgreementIsSound | internal/postgres/catalog_admin_repository_v2.go:926-935 | an accepted reload holds the candidate's elements up to order and spelling, rule order kept |
| CoherentWrite.IdenticalElementsAgree | internal/postgres/catalog_admin_repository_v2.go:951-974 | identical multisets are accepted when the sort key separates distinct elements |
| CoherentWrite.AgreementIsExactWhenSpelledOut | internal/postgres/catalog_admin_repository_v2.go:951-974 | with default sets spelled out, acceptance is exactly equality up to order |
| SpellingOrder.SpellingsSortAlikeIff | internal/postgres/catalog_admin_repository_v2.go:968-974 | both spellings give the same normalized list exactly when nothing prints strictly between them |
| SpellingOrder.UnspelledAgreesIff | internal/postgres/catalog_admin_repository_v2.go:926-935 | two catalogs differing in the spelling of one binding agree exactly when no other binding prints strictly between the spellings |
| SpellingOrder.UnspelledValidIff | internal/domain/resource_catalog_validate.go:113-121 | the reload with the default set spelled out is valid exactly when some option belongs to that set |
| SpellingOrder.UnspelledBindingLandsIff | internal/postgres/catalog_admin_repository_v2.go:890-944 | inserting or updating a binding without its option set reaches the commit exactly when the default set is in use and no other binding prints between |
| SpellingExample.AddedBindingLandsIff | internal/postgres/catalog_admin_repository_v2.go:145-162 | on a concrete catalog the insert lands exactly when the default set has an option and the sibling's set does not start below 'D' |
| CatalogRepository.Repository.RunCoherentTx | internal/postgres/catalog_admin_repository_v2.go:890-944 | step by step, commits exactly the writes that land and otherwise reports the class of the first obstacle, with Validate's own kinds of defect |
| RepositoryLaws.AdmissionOutcomes | internal/postgres/catalog_admin_repository_v2.go:138-143 | a binding without stated rules, an unknown kind and a missing record are refused with their classes and change nothing |
| RepositoryLaws.CasOutcomes | internal/postgres/catalog_admin_repository_v2.go:206-227 | a missing expected revision, a missing row and a stale revision are told apart and change nothing |
| RepositoryLaws.ObstacleOutcomes | internal/postgres/catalog_admin_repository_v2.go:890-944 | past the revision check every obstacle - broken connection, violation, unpredictable mutation, defective reload, disagreement - is reported with its class and changes nothing |
| RepositoryLaws.ReceiptMeans | internal/postgres/catalog_admin_repository_v2.go:992-1067 | a receipt shows the record as written under its new revision, a switched one with its new activity, a deleted one not at all; no other revision moves |
| RepositoryLaws.ChangeIsPhysical | internal/postgres/catalog_admin_repository_v2.go:937-943 | whatever changes the database leaves the catalog and records of the statements |
| RepositoryLaws.ChangesAreCoherent | internal/postgres/catalog_admin_repository_v2.go:890-944 | any change of the database ends in a valid catalog with the predicted elements |
| RepositoryLaws.OnlyTypeWritesChangeTypes | internal/postgres/catalog_admin_repository_v2.go:890-944 | a committed write of any other kind leaves the types as they were, up to order |
| RepositoryLaws.RepliesAreHonest | internal/postgres/catalog_admin_repository_v2.go:890-944 | a receipt holds the committed catalog; a refusal has changed nothing unless its acknowledgement was lost |
| RepositoryLaws.FaithfulEngineLands | internal/postgres/catalog_admin_repository_v2.go:911-944 | a valid reload with the candidate's elements always reaches its commit |
| RepositoryLaws.RevisionCountsChanges | internal/postgres/catalog_admin_repository_v2.go:206-227 | a surviving row has advanced by exactly the number of committed changes to it |
| RepositoryLaws.RevisionSinceInsert | internal/postgres/catalog_admin_repository_v2.go:84-99 | since its insert a row's revision is one plus the number of committed changes |
| RepositoryLaws.NoLostUpdates | internal/postgres/catalog_admin_repository_v2.go:676-696 | of two committed changes to a row the later expects a strictly larger revision |
| RepositoryLaws.RunsStayValid | internal/postgres/catalog_admin_repository_v2.go:923-925 | every run ends in the initial database or a valid catalog |
| CatalogService.CatalogAuthority.Publish | internal/domain/catalog_authority.go:25-32 | replaces the catalog and raises the version by one |
| CatalogService.Service.PrepareWrite | internal/app/catalogo/service.go:375-387 | blocks exactly when latched or unconfigured, and tells which |
| CatalogService.Service.ClassifyWriteError | internal/app/catalogo/service.go:392-399 | latches exactly on an indeterminate outcome and publishes nothing |
| CatalogService.Service.PublishCoherent | internal/app/catalogo/service.go:403-406 | snapshot and authority move together |
| CatalogService.Service.Create | internal/app/catalogo/service.go:490-526 | the specified step of the service |
| CatalogService.Service.UpdateRevision | internal/app/catalogo/service.go:529-557 | the specified step of the service |
| CatalogService.Service.SetActiveRevision | internal/app/catalogo/service.go:562-601 | the specified step; an already current state is answered without looking at the revision |
| CatalogService.Service.HardDeleteRevision | internal/app/catalogo/service.go:614-636 | the specified step of the service |
| ServiceMeaning.PreparationOutcomes | internal/app/catalogo/service.go:375-387 | an incomplete call, a latched writer and an unconfigured one are told apart, in this order, and move nothing |
| ServiceMeaning.DeleteRefusals | internal/app/catalogo/service.go:452-487 | every refusal of a hard delete: an unknown kind, an unreadable or missing record, an active one, an unreadable or used reference, each with its class |
| ServiceMeaning.CompletedDelete | internal/app/catalogo/service.go:452-487 | a hard delete completes only for a record that exists, is inactive, has no dependents, is referred to by no resource, and whose removal leaves the snapshot valid |
| ServiceMeaning.RenameRefused | internal/app/catalogo/service.go:420-443 | a record that resources refer to is not renamed |
| ServiceMeaning.CompletedUpdate | internal/app/catalogo/service.go:411-447 | an update completes only if the record exists, keeps its code or is referred to by no resource, and its replacement leaves the snapshot valid |
| ServiceMeaning.CompletedCreate | internal/app/catalogo/service.go:506-517 | a create completes only if the new record leaves the snapshot valid |
| ServiceMeaning.CompletedSwitch | internal/app/catalogo/service.go:562-592 | a switch completes only for a record in the other state whose switch leaves the snapshot valid |
| ServiceMeaning.AlreadySoIsUnchanged | internal/app/catalogo/service.go:575-581 | asking for the present state is answered without a write, whatever revision is expected |
| ServiceMeaning.WrittenCodesAreCanonical | internal/app/catalogo/service.go:642-647 | what is written has its code canonical and is otherwise what was asked for |
| ServiceMeaning.AnswerMeans | internal/app/catalogo/service.go:519-525 | a completed write is answered with the record the repository reports |
| ServiceLaws.OneCall | internal/app/catalogo/service.go:506-636 | a completed write publishes the committed valid catalog as the next version; nothing else publishes |
| ServiceLaws.FailedCallsLeaveDatabase | internal/app/catalogo/service.go:506-636 | any other call leaves the database alone unless an acknowledgement was lost |
| ServiceLaws.DriftsExactlyWhen | internal/app/catalogo/service.go:392-406 | a call puts the service out of step exactly when a committed change loses its acknowledgement |
| ServiceLaws.InStepIff | internal/app/catalogo/service.go:366-406 | over any run, signalling or not, the service ends in step exactly when the last change of the database was a completed write or left the catalog it holds |
| ServiceLaws.SnapshotIsAlwaysPublished | internal/domain/catalog_authority.go:12-32 | over any run snapshot and authority are equal and the version counts the completed writes |
| ServiceLaws.PublishedIsValid | internal/postgres/catalog_admin_repository_v2.go:923-925 | over any run everything published is valid |
| ServiceLaws.PublishedHierarchyIsActive | internal/domain/resource_catalog_validate.go:244-265 | in every published catalog an active type has one active family row, and one active class row exactly unless its class code is blank and shared |
| ServiceLaws.LatchedOrInStep | internal/app/catalogo/service.go:375-406 | with a signalling repository the service is always latched or working from the committed catalog |
| ServiceLaws.LatchedIsInert | internal/app/catalogo/service.go:375-387 | once latched nothing is written or published until a reset |
| ServiceLaws.LossWithoutLatchDrifts | internal/postgres/catalog_admin_repository_v2.go:940-942 | concrete runs: an unsignalled loss, and a reset without reload, leave the service available and out of step |
| AttributeOrder.CanonicalForIdempotent | internal/domain/resource_attribute_order.go:138-151 | a canonicalized key is accepted as it is |
| AttributeOrder.ResolveAttributeOrder | internal/domain/resource_attribute_order.go:46-101 | resolves exactly consistent states, to the overlay order and a token sealed over scope, type, head and members |
| AttributeOrder.ResolvableMeans | internal/domain/resource_attribute_order.go:46-70 | a state resolves exactly when its scope is exact, its type exists, every member is placed at the scope's own family or type, and no two share a binding or a canonical key |
| AttributeOrder.TokensAgreeIff | internal/domain/resource_attribute_order.go:86-99 | two states have one token exactly when canonical scope, type, head and the members - key, binding, revision - in resolved order are equal |
| AttributeOrder.TokenFixesMembers | internal/domain/resource_attribute_order.go:86-99 | one token means the same members, with the same keys and revisions, in whatever order they were read |
| AttributeOrder.OverlayIsOrderedPermutation | internal/domain/resource_attribute_order.go:71-82 | every member exactly once, saved ones first by first occurrence, the rest in baseline order |
| AttributeOrder.SavedPermutationDictates | internal/domain/resource_attribute_order.go:71-82 | a saved full permutation dictates the order for any baseline |
| AttributeOrder.ValidatePermutation | internal/domain/resource_attribute_order.go:104-125 | accepts exactly the lists whose canonical form is a permutation of the resolved order |
| AttributeOrder.ResolvedIsDistinct | internal/domain/resource_attribute_order.go:55-70 | a resolved order has each canonical member key once |
| OrderStore.BaselineMembers | internal/postgres/resource_attribute_order_repository.go:341-363 | succeeds exactly when every effective occurrence has one persisted binding, in evaluation order |
| OrderStore.EffectiveKeysMean | internal/postgres/resource_attribute_order_repository.go:353-360 | the effective keys are exactly those of the applicable bindings: level, declaring family or type, characteristic |
| OrderStore.LayoutOnlyRearranges | internal/postgres/resource_attribute_order_repository.go:68-86 | catalogs with the same bindings have the same effective keys up to order |
| OrderStore.PlanAttributeOrderWrite | internal/postgres/resource_attribute_order_repository.go:201-247 | accepts exactly current tokens with exact permutations; the unresolved-key guard is never taken |
| OrderStore.OldTokenConflicts | internal/postgres/resource_attribute_order_repository.go:201-215 | a request under a token read for another type, at another head or with other members is a revision conflict, whatever it asks for |
| OrderStore.RevisedBindingConflicts | internal/postgres/resource_attribute_order_repository.go:201-215 | so is one under a token read before some binding was revised or removed |
| OrderStore.AcceptedIdsArePermutation | internal/postgres/resource_attribute_order_repository.go:216-246 | the accepted ids are the scope's bindings, each once |
| OrderStore.WriteThenRead | internal/postgres/resource_attribute_order_repository.go:201-257 | reading back with the accepted ids saved gives the accepted keys, for any layout and head |
| OrderStore.OrderTables.ReplaceOrder | internal/postgres/resource_attribute_order_repository.go:94-97 | delete, upsert and inserts leave exactly the ids in order, a raised head, and other types alone |
| OrderStore.AssembleRead | internal/postgres/resource_attribute_order_repository.go:322-333 | reads exactly the readable states as specified |
| OrderStore.WriteAttributeOrderTx | internal/postgres/resource_attribute_order_repository.go:145-189 | succeeds exactly on acceptable requests that read back as asked, with the stored ids, the raised head and the error class stated; when the locked and the read type agree, that is every acceptable request, under a new token |
| OrderSafety.StepKeepsInv | internal/postgres/resource_attribute_order_repository.go:62-97 | every step of every participant keeps the protocol invariant, if structural writes keep the codes of types |
| OrderLocks.LocksFollowPhases | internal/postgres/resource_attribute_order_repository.go:145-165 | over any run a reorder holds exactly the locks of its phase: none before and after, its one type row from the first lock on, a SHARE lock from the second |
| OrderLocks.CommitStores | internal/postgres/resource_attribute_order_repository.go:94-97 | a commit stores the planned ids under the locked row, raises its head by one and moves no binding, layout or other order |
| OrderLocks.SilentStepsStore | internal/postgres/resource_attribute_order_repository.go:99-129 | locks, reads, comparisons, aborts and failed commits move no table, no catalog and no log |
| OrderSafety.CommittedOrderIsExact | internal/postgres/resource_attribute_order_repository.go:145-189 | in every interleaving every reorder that takes effect stores an exact permutation of the scope's bindings at that moment |
| OrderSafety.TokenHasOneWinner | internal/postgres/resource_attribute_order_repository.go:94-95 | over any run, lost acknowledgements and replays included, a token is accepted by at most one reorder that takes effect |
| OrderSafety.ReadBackNeverFails | internal/postgres/resource_attribute_order_repository.go:249-257 | the type read is the type locked, and the comparison after the write never fails, whatever layout writers do |
| OrderSafety.SameScopesSameTypes | internal/postgres/resource_attribute_order_repository.go:69-86 | a change of class or family codes that leaves the same scopes to be found moves no type |
| OrderSafety.RepositoryKeepsTypeScopes | internal/postgres/catalog_admin_repository_v2.go:890-944 | every structural write of the repository leaves the codes of all types as they were |
| OrderSafety.RunsWithTheRepositoryAreSafe | internal/postgres/resource_attribute_order_repository.go:62-97 | over all runs with the repository as structural writer every applied order is exact and no token is accepted twice |
| OrderSafety.ReplayableExactlyWhenMoved | internal/postgres/resource_attribute_order_repository.go:145-189 | a stored request stays acceptable exactly when it was stored under another row than its scope resolves to |
| OrderExample.ReorderRunsThrough | internal/postgres/resource_attribute_order_repository.go:145-189 | a reorder of a type with one attribute runs from its locks to its commit and stores its one binding |
| OrderExample.MovedWriteReplays | internal/postgres/resource_attribute_order_repository.go:145-189 | a non-empty order stored under a row its scope does not resolve to stays acceptable |
| ResourceRows.ResourceTable.SetLifecycleRevision | internal/postgres/resource_repository_crud.go:365-432 | the specified transition, no-op or refusal |
| ResourceRows.ResourceTable.UpdateRevision | internal/postgres/resource_repository_crud.go:437-515 | replaces the row and its attributes under the expected revision, never the identity key |
| ResourceRows.ResourceTable.ReactivateRevision | internal/app/recursos/service.go:274-316 | an active resource is answered as it is; an inactive one moves exactly when it rebuilds to its stored key and the revision matches; every refusal's class is stated |
| ResourceRows.ChangeRefusals | internal/postgres/resource_repository_crud.go:365-515 | what stops a change, in the order it is noticed, with the class of each refusal; a call for the present state passes before the chain is looked at |
| ResourceRows.ChangedRow | internal/postgres/resource_repository_crud.go:365-515 | field by field what an unhindered change makes of its row, and how each commit outcome is answered |
| ResourceRows.ReportedErrors | internal/app/recursos/service.go:302-314 | how the service reports what the table refuses |
| ResourceRows.NewRevisionMeansChange | internal/app/recursos/service.go:252-268 | the reported change flag is exact, and lifecycle no-ops leave the revision |
| ResourceRows.RowRevisionCounts | internal/postgres/resource_repository_crud.go:365-515 | over any run the revision grows by the number of committed changes and the key never changes |
| ResourceRows.NoLostRowUpdates | internal/postgres/resource_repository_crud.go:437-515 | of two committed changes to a row the later expects a larger revision |
| ResourceRows.LifecycleAlternates | internal/postgres/resource_repository_crud.go:365-432 | over lifecycle runs the active flag is the initial one turned over once per committed change |
| ResourceRows.UpdatedRowRebuildsIff | internal/postgres/resource_repository_crud.go:486-490 | an updated row can be reactivated exactly when what is left without its marker-like values meets its modes and has the stored key |
| PurchaseResolution.PurchaseLine.ChangeResolutionOverride | internal/modules/purchases/domain/purchase_line_resolution.go:72-92 | rejects exactly inadmissible decisions, and otherwise moves exactly when the value changes |
| PurchaseResolution.AdmissibleMeans | internal/modules/purchases/domain/purchase_line_resolution.go:72-81 | which values can be stored, what a signed decision is, and which of the failures names the rejection |
| PurchaseResolution.TrailAccountsForLine | internal/modules/purchases/domain/purchase_line_resolution.go:72-92 | over any run the audit is an unbroken chain as long as the revision growth, and replaying it gives the line |
| PurchaseResolution.AuditIsSigned | internal/modules/purchases/domain/purchase_line_resolution.go:72-92 | every audited decision of a run is a storable, signed change by one revision |
| PurchaseResolution.IneffectiveDecisionsVanish | internal/modules/purchases/domain/purchase_line_resolution.go:73-84 | rejected and same-value decisions can be struck out of a run |
| PurchaseResolution.OneDecisionPerRevision | internal/modules/purchases/domain/purchase_line_resolution.go:79-81 | an expected revision decides at most once |
| PurchaseResolution.StatusExplained | internal/modules/purchases/domain/purchase_line_resolution.go:44-62 | an explicit override of the last audited decision, or of the line as loaded, decides the status; otherwise an identity conflict, a missing resource and an inactive one are told apart with their causes |

## Left out

- Text.CanonicalIdempotent: case folding and white space are the ASCII ones, and one character stands for one byte.
- Text.CanonicalAttributeIdempotent: the same.
- ServiceLaws.LatchedOrInStep: assumes a repository that signals lost acknowledgements, which the one modelled does not; `ServiceLaws.InStepIff` covers both.
- The SHA-256 digest and JSON encoding of the order token: the token is the encoded tuple, so collisions do not exist.
- Payloads.DuplicateIffSameEssence: assumes that a printed amount holds no blank, which is up to the decimal library; `Identity.DuplicateIffSameIdentity` does not.
- EvaluatorLaws.RelationsMean: assumes that bound codes hold no "|", with which the code joins the two ends of a relation; `ResourceBuild.ValidateRelations` does not.
- Decimal arithmetic: a decimal is its sign and its canonical printed form.
- Integer widths: revisions, versions and positions are unbounded.
- In-place update of a quantity through its pointer: values are modelled without aliasing.
- A nil slice and an empty one are the same value, except for the rules of an applicability record.
- SQL text, query plans and constraint definitions: what statements leave behind is an input, and a read inside a transaction is one step. In the order protocol the reads after the SHARE locks are one step, and a repository transaction takes effect at one point.
- CatalogService.Service.Create: actor propagation, diagnostics and record cloning are not modelled; neither is the mutex, since calls are serial.
- The legacy write paths without revisions.
- The library sorts are modelled by stable insertion where the code asks for stability and by their contract elsewhere.
- The bindings of a type and their effective keys are given per type in the order protocol; that a layout write only rearranges the keys is proved separately from the evaluator.
- The early refusal of a blank order token: such a request is refused when it is planned as well.
- Error messages: only error classes are modelled.
- HTTP routing, JSON shapes, process composition, the CFDI reader, DTO bridges, supplier mappings and purchase import: field copying and foreign engines.
