# Kyverno in Dafny

A model of the logic at the centre of Kyverno, a policy engine over JSON trees, with proofs of
what it promises:

* **Overlay mutation** (`Json`, `JsonPatch`, `PatchLaws`, `Text`, `Anchors`, `OverlaySpec`,
  `OverlayInsertion`, `OverlayProof`, `OverlayTotality`, `Overlay`, `OverlayCondition`,
  `OverlayAgreement`, `OverlayArrival`, `OverlayNest`, `OverlayLaws`, `OverlayOrders`,
  `OverlayStale`, `OverlayLimits`, `Pointer`).
  A resource and an overlay are compiled into JSON Patch operations with string paths. The main
  theorem: for every order in which Go may range over the maps, running the operations one
  after the other on the changing document performs one recursive merge. `Emits` describes
  every patch list the generator can return, `Merge` the merge, `Clear`, `Ordered` and
  `Printable` the conditions on the overlay.
* **Pattern validation** (`MatcherSpec`, `Matcher`, `Admission`). The matcher with its five key
  handlers, the verdicts it can reach for some map order (`MayPass`, `MayFail`), the
  denotation `Matches`, and what the checks on a new policy guarantee to both walks.
* **Autogen** (`Autogen`, `AutogenMeaning`). Pod rules become rules about pod controllers, by
  patches on the policy; patterns and overlays keep their meaning under `spec.template`.
* **Threading** (`Mutation`, `PodAnnotation`). Rules, policies and the webhook: the patches that
  are sent replay to the resource that was threaded internally, and what annotating the pod
  template of a controller does.
* **Protocols** (`GenerateRequest`, `ViolationQueue`, `ViolationLoss`, `ViolationSettling`,
  `Pipeline`). The life of a generate request and its clean-up, the violation work queue with its
  side store, and the channel pipeline of the init container, each over all its runs.
* **Stateful tables** (`PolicyStore`, `PolicyStatus`). The policy index against a scan, and the
  statistics aggregator.

JSON Patch is specified from RFC 6902 (sections 4.1 to 4.3 and 5), JSON pointers from RFC 6901
(sections 3 and 4). Go map iteration is an arbitrary choice among the keys not yet visited.
`leaf` stands for the comparison of scalars with patterns, `decodes` for the conversion of a
document back to a resource, `subset` for the test that an object contains the configured data.

## Where the code does not do what it says, or what one would expect

Each point names the lemma with a failing input and, where the code sometimes does meet the
expectation, the lemma that says exactly when; the exceptions are under "Left out".

* `pkg/engine/mutate/overlay.go:301` says that anchors choose the corresponding element of an
  array. They do not: once the conditions hold of some element, every element is mutated
  (`OverlayLimits.AnchorsDoNotChoose`, a document with one element that meets the condition and
  one that does not and changes). In an array with one anchored element, whose keys admission
  allows and which has distinct names and no odd arrays (`Tame`), only matching elements change
  exactly when the others contain that element already and it appends nothing
  (`OverlayLaws.OnlyMatchingElementsChange`).
* A plain array element is inserted at an index that counts the anchored elements before it
  (`pkg/engine/mutate/overlay.go:320`). The patches apply exactly when no plain element follows
  an anchored one (`OverlayProof.PatchesPerformMerge`; failing input:
  `OverlayLimits.PlainAfterAnchoredFails`).
* Patches are computed against the original resource. Anchored elements of one array that name
  different members of the maps in it do not disturb each other
  (`OverlayProof.PatchesPerformMerge`); two that name the same member can overwrite each other
  (`OverlayLimits.TwoAnchoredElementsDisagree`). Two of them perform the merge exactly when, in
  every element of the array, what the second one inserts or replaces is what merging it into
  the result of the first would give (`OverlayStale.TwoAnchoredExactly`).
* Two keys of a map with one stripped name can leave the result to the map order. An inserted
  subtree has one result exactly when keys with one name strip to one value
  (`OverlaySpec.StripUnique`), and so do the new members of a map, whatever the keys are
  (`OverlayLimits.NewMembersHaveOneResult`; `OverlayLimits.ClashingNamesAreAmbiguous` gives two
  runs that differ). For the keys admission allows, a whole overlay gives one document exactly
  when there is one such value wherever it inserts something, at every depth and in arrays: two
  keys for a member that exists never matter (`OverlayOrders.OrderDoesNotMatter`).
* A second run of an overlay can change the resource again: a list grows
  (`OverlayLimits.SecondRunAppends`, on a map document and through the patches). It changes
  nothing exactly when no array outside conditions and additions has a plain element
  (`OverlayLaws.MergeTwice`, `OverlayLaws.OverlayIsIdempotent`); as a rule it changes something
  exactly when there is one, the overlay can be compiled again, and its patches apply and give a
  resource (`Mutation.RunTwice`).
* An overlay of another type than the whole resource should replace it, but its pointer `/`
  names the member with the empty name (`OverlayArrival.WholeDocumentIsNeverReplaced`).
* A map that mixes condition anchors with other anchors can get both verdicts
  (`MatcherSpec.MixedAnchorsAreAmbiguous`; `MatcherSpec.MapVerdict` says exactly when).
* The admission check misses anchors with an empty name or a newline in it
  (`Admission.HiddenExistenceSlipsThrough`, `Admission.HiddenNegationSlipsThrough`). An accepted
  pattern drives the matcher into the branch for a pattern that is no list, or an empty one, on
  some resource exactly when it gets to such a hidden existence anchor
  (`Admission.AcceptedNeverMisleads`; for all patterns `Admission.MisleadsNothingExactly`); a
  hidden one below a negation is harmless (`Admission.HiddenBelowNegationIsHarmless`).
* The check does not look into the one element of an existence list: the handler takes the
  invalid-pattern branch exactly when that element is not a map, and then always fails
  (`Admission.ListOfScalarsNeverMatches`, `Matcher.HandleExistence`), so that only a failing
  condition on the way to it lets a resource pass (`Admission.BlockedNeverPasses`). Any scalar is
  accepted there (`Admission.ElementIsNotChecked`).
* Rules that name several namespaces are indexed under the last one only
  (`PolicyStore.IndexedWhereAsked`).
* Dropping a violation report after the retries deletes whatever the store holds by then
  (`ViolationLoss.DropCanLoseANewReport`); it deletes a report nobody has looked up exactly when
  the last report stored under the key since the lookup is not empty
  (`ViolationLoss.DropLosesExactly`).
* Reports share a key exactly when they are about one policy, one resource and the same number of
  rules (`ViolationQueue.KeysCollideExactly`), and one can replace another unseen
  (`ViolationLoss.ReplacedUnseen`, a run). A report is handed to a worker exactly when the first
  step after its Store that touches its key is a lookup (`ViolationLoss.TakenUpExactly`), which it
  is unless a report on the same subject is stored or the key is dropped
  (`ViolationLoss.OnlyTheSubjectMatters`); one that was replaced or dropped before is never created
  (`ViolationLoss.VanishedIsNeverCreated`). The guarantee that nothing is lost is about the last
  report under each key.
* The test for pod controllers looks for the kind anywhere in a text with four kinds, so a document
  without a kind is annotated as well (`PodAnnotation.AnnotatedKinds`).
* When the API cannot answer whether an owner exists, clean-up takes it as gone
  (`GenerateRequest.UnansweredIsGone`). A deletion means that the owner is absent exactly when
  the question was answered (`GenerateRequest.GoneMeansAbsentIfAnswered`).
* A rule of a policy younger than the owner is recorded as an empty resource spec. Deleting it
  hands an empty name to the dynamic client of client-go (`pkg/dclient/client.go:138-145`), a
  library that is not part of this repository and that rejects the name with an error other than
  NotFound; the request is then never cleaned up while its policy exists and it is not written
  anew (`GenerateRequest.EmptyEntryBlocksCleanup`).

## Model

| member | source | states |
|---|---|---|
| JsonPatch.ApplyConcat | pkg/engine/utils/utils.go:34-46 | applying two patch lists in sequence is applying their concatenation, failures included |
| JsonPatch.Descend | pkg/engine/utils/utils.go:34-46 | operations below a child of a document change that child as if it were the whole document, and fail exactly when they would fail there |
| PatchLaws.AppliesExactly | pkg/engine/utils/utils.go:34-46 | a removal or a replacement applies exactly when its path leads somewhere, an addition exactly when its parent is an object, or an array with that index, its end or "-" |
| PatchLaws.RemovedIsGone | pkg/engine/utils/utils.go:34-46 | after removing a member of an object its path leads nowhere |
| PatchLaws.WrittenIsThere | pkg/engine/utils/utils.go:34-46 | after an addition or a replacement the path leads to the value, unless it ends with "-" |
| PatchLaws.OthersStay | pkg/engine/utils/utils.go:34-46 | every path that parts from the path of the operation leads to what it led to, unless the elements of an array move |
| PatchLaws.ElementsMove | pkg/engine/utils/utils.go:34-46 | in an array an addition and a removal move exactly the later elements by one place, and a replacement moves none |
| OverlaySpec.StripUnique | pkg/engine/mutate/overlay.go:411-435 | stripping the anchors of an inserted subtree has one result, whatever the map order, exactly when keys of a map that strip to one name lead to one stripped value, at every depth |
| OverlaySpec.PlainItems | pkg/engine/mutate/overlay.go:317-326 | the plain overlay elements are as many as all of them exactly when none is anchored |
| OverlayInsertion.OnlyAnchorsExactly | pkg/engine/mutate/overlay.go:439-463 | a subtree has nothing to insert exactly when no path leads to a scalar through maps that all have some key that is not a condition |
| OverlayInsertion.ScalarsWithoutConditions | pkg/engine/mutate/overlay.go:439-463 | an overlay without condition keys that holds a scalar can always be inserted, under additions as well |
| OverlayInsertion.NestedExactly | pkg/engine/mutate/overlay.go:465-491 | anchors are nested in a subtree exactly when a path leads to a map with a condition key |
| OverlayInsertion.AnchoredExactly | pkg/engine/mutate/overlay.go:292-327 | an element is merged and not appended exactly when the array starts with a map and a path into the element leads to a condition key |
| Anchors.Recognised | pkg/engine/anchor/common.go:6-65 | a key is an anchor of one of the five kinds exactly when it is a name wrapped in parentheses behind its mark |
| Anchors.StrippedName | pkg/engine/mutate/utils.go:8-32 | both strippers give the wrapped name, each for its marks |
| Anchors.UnwrappedStay | pkg/engine/mutate/utils.go:8-32 | and leave every other key as it is |
| OverlayProof.PatchesPerformMerge | pkg/engine/mutate/overlay.go:152-347 | every patch list the generator may return for some map order, applied in order, gives exactly the recursive merge if plain array elements come before anchored ones, and fails otherwise; two keys with one name insert one new value, or the member exists and one of them is an addition; and the anchored elements of an array name different members, or there is at most one |
| OverlayProof.EmittedShape | pkg/engine/mutate/overlay.go:152-201 | an operation on the resource itself is a replacement, except that an empty array is filled by an addition |
| OverlayProof.KeysApplied | pkg/engine/mutate/overlay.go:204-238 | after any part of the keys has been ranged over, in any order, the patches so far have merged exactly those keys |
| OverlayProof.ElementsApplied | pkg/engine/mutate/overlay.go:292-331 | after the first n overlay elements the patches so far have merged exactly those, unless a plain one came after an anchored one |
| OverlayProof.PlainApplied | pkg/engine/mutate/overlay.go:317-326 | adding at index len+i appends the stripped element exactly when nothing anchored came before it, and fails otherwise |
| OverlayProof.AnchoredApplied | pkg/engine/mutate/overlay.go:333-347 | the patches for an anchored element, computed from the original elements, merge it into every element as the anchored elements before it left them |
| OverlayProof.OthersStayAway | pkg/engine/mutate/overlay.go:292-347 | anchored elements that name other members leave the members of a later one as they were |
| OverlayTotality.ReturnsUnlessFails | pkg/engine/mutate/overlay.go:152-347 | the specification allows a patch list for exactly the overlays that do not fail |
| Overlay.ApplyOverlay | pkg/engine/mutate/overlay.go:152-165 | no patches exactly when some part of the overlay cannot be compiled, otherwise a patch list the specification allows, with the paths that actually arrive; a panic only where an array of maps has another element; for a resource of another type, no patches exactly when no insertable scalar is in the overlay |
| Overlay.ApplyOverlayForSameTypes | pkg/engine/mutate/overlay.go:168-201 | the same for resource and overlay of one type; a null overlay is an error |
| Overlay.ApplyOverlayToMap | pkg/engine/mutate/overlay.go:204-238 | the same for maps, ranging over the keys in an arbitrary order |
| Overlay.ApplyOverlayToMember | pkg/engine/mutate/overlay.go:207-235 | one member: conditions are skipped, additions leave an existing member alone, missing members are inserted |
| Overlay.ApplyOverlayToArray | pkg/engine/mutate/overlay.go:241-264 | the same for arrays: an empty overlay array or first elements of different types are errors, an empty resource array is filled |
| Overlay.ApplyOverlayToArrayOfSameTypes | pkg/engine/mutate/overlay.go:267-289 | elements that are not maps are inserted behind the existing ones |
| Overlay.ApplyOverlayToArrayOfMaps | pkg/engine/mutate/overlay.go:292-331 | an error exactly when one element fails, otherwise the patches of all elements in order |
| Overlay.ApplyOverlayToElement | pkg/engine/mutate/overlay.go:296-327 | an element with anchors at any depth is merged into every resource element, one without is inserted at len+i, and an element that is not a map panics |
| Overlay.ApplyOverlayWithAnchors | pkg/engine/mutate/overlay.go:333-347 | an error exactly when the overlay fails on some resource element, otherwise patches for each of them |
| Overlay.ProcessSubtree | pkg/engine/mutate/overlay.go:357-380 | one operation carrying the stripped subtree, and an error exactly when no path leads to a scalar through maps that all have a key that is not a condition |
| Overlay.RemoveAnchorFromSubTree | pkg/engine/mutate/overlay.go:411-435 | a tree of the same shape under the stripped names; of two keys with one name, either value survives |
| OverlayArrival.MutateResourceWithOverlay | pkg/engine/mutate/overlay.go:146-149 | the whole compiler with its string paths: whenever it returns patches and names are unambiguous and printable, applying them performs the merge, or fails exactly when a plain array element follows an anchored one |
| OverlayArrival.EmittedFit | pkg/engine/mutate/overlay.go:152-347 | if every place the merge would patch has a pointer that survives printing, so do the paths of all emitted operations |
| OverlayArrival.FittingArrive | pkg/engine/mutate/overlay.go:357-395 | operations on such places are sent unchanged |
| OverlayArrival.RootIsSentAsEmptyName | pkg/engine/mutate/overlay.go:146-149 | the pointer printed for the whole document addresses the member with the empty name |
| OverlayArrival.WholeDocumentIsNeverReplaced | pkg/engine/mutate/overlay.go:152-165 | the replacement meant for the whole document fails or touches only the member with the empty name |
| Pointer.SentIffAddressable | pkg/engine/mutate/overlay.go:357-395 | printing, trimming, escaping and reading back gives the same tokens exactly when slashes occur only in the one token below the first metadata/annotations and no token contains "~0" or "~1" |
| Pointer.EscapeRoundTrip | pkg/engine/mutate/overlay.go:382-395 | what follows the annotations prefix is escaped into one piece that reads as the text itself does, and as the text where it has no "~0" or "~1" |
| Pointer.IndexOfAnnotations | pkg/engine/mutate/overlay.go:382-395 | the text search finds the annotations prefix in the printed path exactly where the tokens go through metadata and annotations |
| Text.PathSplit | pkg/engine/mutate/overlay.go:357-395 | splitting a pointer at its slashes loses nothing |
| Text.SplitExactly | pkg/webhooks/policymutation.go:248-261 | the pieces of a text are the only ones that lack the separator and join to the text |
| Pointer.IndexIsFirst | pkg/engine/mutate/overlay.go:382-395 | the search finds the first occurrence, and fails exactly when there is none |
| Json.IndexTokens | pkg/engine/mutate/overlay.go:317-326 | the index a token is read as is the one it was written for, and no other token is read as it |
| OverlayLaws.UntouchedIsUnchanged | pkg/engine/mutate/overlay.go:204-331 | frame of the merge: members no key names, members under a present addition key and elements every anchored element leaves alone have the value they had |
| OverlayLaws.UntouchedByPatches | pkg/engine/mutate/overlay.go:204-331 | the same frame for the document that applying the patches gives |
| OverlayLaws.ArrayGrowth | pkg/engine/mutate/overlay.go:292-331 | a non-empty array grows by exactly the number of overlay elements without anchors, and existing elements keep their index |
| OverlayLaws.MergeContains | pkg/engine/mutate/overlay.go:204-238 | the merged resource contains the overlay: its values, its arrays, and a single anchored element in every element; for overlays with the keys admission allows, distinct names and no null leaves |
| OverlayLaws.ContainedStays | pkg/engine/mutate/overlay.go:204-238 | for those overlays, merging one that is already contained changes nothing exactly if it does not append, and then generating its patches does not fail |
| OverlayLaws.UnchangedIff | pkg/engine/mutate/overlay.go:152-347 | merging changes nothing exactly when the resource contains the overlay and the overlay does not append |
| OverlayLaws.MergeTwice | pkg/engine/mutate/overlay.go:152-347 | merging is idempotent, on every resource, for exactly the overlays in which no array outside conditions and additions has a plain element |
| OverlayLaws.ConditionsSurvive | pkg/engine/mutate/overlayCondition.go:18-173 | for those overlays, conditions that held before the merge still hold afterwards, in maps and in arrays |
| OverlayLaws.OverlayIsIdempotent | pkg/engine/mutate/overlay.go:122-238 | for those overlays, on the resource that applying the patches gave: the conditions hold, and every patch list of a second run leaves the document as it is exactly if the overlay does not append; if it does not, generation succeeds |
| OverlayLaws.OnlyMatchingElementsChange | pkg/engine/mutate/overlay.go:292-347 | an anchored element changes only the elements that meet its conditions exactly when the others contain it already and it appends nothing |
| OverlayLaws.ArraysGrowEveryTime | pkg/engine/mutate/overlay.go:267-331 | for any overlay array with a plain element, both merges change a non-empty array |
| OverlayLimits.ClashingNamesAreAmbiguous | pkg/engine/mutate/overlay.go:204-238 | new members under two keys that strip to one name and to different values: two patch lists for two map orders give different documents |
| OverlayLimits.NewMembersHaveOneResult | pkg/engine/mutate/overlay.go:204-238 | when all members an overlay map names are new, every map order gives one document exactly if keys with one name insert one value |
| OverlayOrders.OrderDoesNotMatter | pkg/engine/mutate/overlay.go:152-347 | for overlays with the keys admission allows, at most one anchored element in an array, and plain elements before it: the patches give one document, whatever the map order, exactly if new members under one name get one value and every inserted subtree strips to one value, at every depth; keys for members that exist do not matter |
| OverlayOrders.Reached | pkg/engine/mutate/overlay.go:204-238 | every document in which some order of the keys could leave each member is the result of a patch list that the generator may return |
| OverlayOrders.MergeIsOne | pkg/engine/mutate/overlay.go:204-238 | the recursive merge is one of those documents |
| OverlayOrders.AnotherDocument | pkg/engine/mutate/overlay.go:204-238 | when some place can get two values there is another one |
| OverlayStale.PatchesStillRight | pkg/engine/mutate/overlay.go:333-347 | patches computed from one element and applied to another merge the overlay into it exactly if the other has every member they go into, and whatever they insert or replace is what the merge gives there |
| OverlayStale.TwoAnchoredExactly | pkg/engine/mutate/overlay.go:292-347 | the patches of two anchored elements perform the merge exactly if those of the second are still right, in every element of the array, after the first was merged into it |
| OverlayLimits.TwoAnchoredElementsDisagree | pkg/engine/mutate/overlay.go:292-331 | two anchored elements that add the same member: the patches apply and give another document than the merge |
| OverlayLimits.SecondRunAppends | pkg/engine/mutate/overlay.go:267-289 | on a map document with a list of numbers, both runs of an overlay with one more number meet the conditions and apply, and the second one changes the document |
| OverlayLimits.UnmatchedElementIsMutated | pkg/engine/mutate/overlay.go:292-347 | a list with an element that meets the condition and one that does not: the patches apply and change the second one |
| OverlayLimits.AnchorsDoNotChoose | pkg/engine/mutate/overlay.go:299-306 | the same for one concrete document and overlay |
| OverlayLimits.PlainAfterAnchoredFails | pkg/engine/mutate/overlay.go:317-326 | an unambiguous overlay whose conditions hold, with a plain element behind an anchored one: patches are returned and do not apply |
| OverlayCondition.MeetConditions | pkg/engine/mutate/overlayCondition.go:13-15 | without an index or type panic, the check passes exactly when every condition anchored in the overlay holds |
| OverlayCondition.CheckConditions | pkg/engine/mutate/overlayCondition.go:18-50 | the same at any depth; a subtree without conditions passes on everything |
| OverlayCondition.CheckConditionOnMap | pkg/engine/mutate/overlayCondition.go:52-67 | the conditions of a map first, then those below its other members |
| OverlayCondition.ValidateConditionAnchorMap | pkg/engine/mutate/overlayCondition.go:84-106 | passes exactly when every condition key is present and its value agrees |
| OverlayCondition.CompareOverlay | pkg/engine/mutate/overlayCondition.go:112-151 | passes exactly when the values agree: all keys present, every overlay element on every resource element |
| OverlayAgreement.AgreesExactly | pkg/engine/mutate/overlayCondition.go:112-151 | a value agrees with a condition exactly when along every pair of paths, through the same names and through any two elements of arrays, types are the same, named members exist and scalars fit |
| OverlayCondition.ValidateNonAnchorOverlayMap | pkg/engine/mutate/overlayCondition.go:154-173 | additions are skipped, and a missing member fails only if conditions are nested below it |
| OverlayCondition.CheckConditionOnArray | pkg/engine/mutate/overlayCondition.go:69-82 | an empty overlay array passes, first elements of different types fail, maps pass if one pair meets, other elements meet the conditions position by position; an empty or too short resource array panics, as in the source |
| OverlayCondition.CheckConditionsOnArrayOfMaps | pkg/engine/mutate/overlayCondition.go:191-210 | passes exactly when some resource element meets some overlay element |
| OverlayCondition.GetAnchorAndElementsFromMap | pkg/engine/mutate/utils.go:35-47 | condition anchors and the other keys, additions left out |
| MatcherSpec.VerdictIsOrderIndependent | pkg/engine/validate/validate.go:41-121 | for reference-free patterns in which no map mixes conditions with other anchors, one verdict is possible: pass exactly when the denotation holds |
| MatcherSpec.MapVerdict | pkg/engine/validate/validate.go:86-121 | a map can pass exactly when some condition fails or all members pass, and can fail exactly when it does not match or an anchor other than a condition fails |
| MatcherSpec.MixedAnchorsAreAmbiguous | pkg/engine/validate/validate.go:86-106 | a resource and a pattern mixing a condition with a negation that can get both verdicts |
| MatcherSpec.OnePlainKey | pkg/engine/anchor/anchor.go:111-124 | a pattern with one plain key: "*" passes exactly when the member exists and is not null; another value exactly when the member matches it, and for an absent member exactly when it is a scalar that fits null |
| MatcherSpec.OneCondition | pkg/engine/validate/validate.go:86-106 | a condition alone never fails, and one that does not hold lets everything beside it pass |
| MatcherSpec.OneEquality | pkg/engine/anchor/anchor.go:79-92 | an equality asks only for a member that exists |
| MatcherSpec.OneNegation | pkg/engine/anchor/anchor.go:50-60 | a negation passes exactly when the member is absent |
| MatcherSpec.OneExistence | pkg/engine/anchor/anchor.go:176-218 | an existing member must be a list with an element that matches the first map of the pattern |
| MatcherSpec.ReferenceForm | pkg/engine/validate/validate.go:278-284 | the strings excluded as references are the names wrapped behind a dollar |
| Matcher.ValidateResourceElement | pkg/engine/validate/validate.go:41-82 | the result is one of the possible verdicts, a failure carries the path of the position that failed, and a panic means that an index was out of range |
| Matcher.ValidateMap | pkg/engine/validate/validate.go:86-121 | anchors first in any order, a failing condition ends in a pass, then the plain members |
| Matcher.ValidateArray | pkg/engine/validate/validate.go:123-149 | an empty pattern fails, a leading map is for every element, other elements match by position |
| Matcher.ValidateArrayOfMaps | pkg/engine/validate/validate.go:265-276 | the first failing element decides |
| Matcher.Handle | pkg/engine/anchor/anchor.go:18-31 | the handler chosen by the form of the key gives a possible verdict for that key |
| Matcher.HandleNegation | pkg/engine/anchor/anchor.go:50-60 | fails exactly when the member is present |
| Matcher.HandleIfPresent | pkg/engine/anchor/anchor.go:79-92 | the equality (and, at lines 143-157, the condition) handler looks at the member only if it is present |
| Matcher.HandleDefault | pkg/engine/anchor/anchor.go:111-124 | "*" asks only for a value that is not null, everything else is matched; for an absent member "*" fails at the map, maps, lists and scalars that do not fit null fail at the member, and the other scalars pass |
| Matcher.HandleExistence | pkg/engine/anchor/anchor.go:176-218 | a present member must be a list with an element that matches the one map of the pattern; a pattern whose first element is no map fails at the member |
| Matcher.GetAnchorsResourcesFromMap | pkg/engine/anchor/anchor.go:221-233 | the keys split into anchors and the rest |
| Matcher.ValidateResourceWithPattern | pkg/engine/validate/validate.go:20-36 | the final verdict is possible for some map order, and for patterns that do not mix anchors it is the denotation |
| Admission.ValidatePattern | pkg/engine/policy/validate.go:341-353 | accepts exactly the patterns whose anchored-looking keys are all supported and whose existence anchors among them carry one-element lists |
| Admission.ValidateMap | pkg/engine/policy/validate.go:355-395 | the same for a map |
| Admission.ValidateArray | pkg/engine/policy/validate.go:397-406 | the same for a list |
| Admission.CheckAnchors | pkg/engine/policy/validate.go:408-415 | whether one of the recognisers accepts the key |
| Admission.LooksAnchoredExactly | pkg/engine/policy/validate.go:355-395 | the regular expression sees exactly the keys that wrap a name without newline behind at most one character |
| Admission.SupportedExactly | pkg/engine/policy/validate.go:227-244 | overlays may have conditions and additions, patterns conditions, existence anchors, equalities and negations, and nothing else |
| Admission.OneKeyAccepted | pkg/engine/policy/validate.go:355-395 | which marks the checks on overlays and on patterns accept on a map with one anchored key |
| Admission.AcceptedExistenceIsListed | pkg/engine/policy/validate.go:355-395 | in an accepted pattern all existence anchors carry one-element lists exactly when those with a hidden name do |
| Admission.ListedIsEvaluable | pkg/engine/anchor/anchor.go:176-202 | for patterns whose existence anchors carry one-element lists, array lengths and references are all that evaluation asks for |
| Admission.ListedNeverMisleads | pkg/engine/anchor/anchor.go:176-202 | on no resource does a recursive call of the matcher get to an existence anchor on a list whose pattern is no list, or an empty one |
| Admission.MisleadsNothingExactly | pkg/engine/anchor/anchor.go:176-202 | for every pattern: on no resource does the matcher get to an existence anchor that carries no list or an empty one, exactly if the pattern has none where the matcher reads it, which is not below a negation and not behind the leading map of a list |
| Admission.AcceptedLeadsHidden | pkg/engine/policy/validate.go:355-395 | in an accepted pattern only existence anchors with a hidden name can lead there |
| Admission.AcceptedNeverMisleads | pkg/engine/policy/validate.go:355-395 | an accepted pattern misleads the matcher on no resource exactly if it does not get to a hidden anchor without a list, which holds when all hidden ones carry one-element lists; then array lengths and references are all that evaluation asks for |
| Admission.EvaluableUnlessMisled | pkg/engine/anchor/anchor.go:176-202 | on a resource that does not mislead it, array lengths and references are all that evaluation asks for |
| Admission.HiddenBelowNegationIsHarmless | pkg/engine/anchor/anchor.go:50-60 | an accepted pattern with a hidden existence anchor below a negation, which misleads the matcher on no resource |
| Admission.HiddenExistenceSlipsThrough | pkg/engine/policy/validate.go:355-395 | an accepted pattern whose existence anchor carries no list, and a resource on which the matcher gets to it |
| Admission.ListOfScalarsNeverMatches | pkg/engine/anchor/anchor.go:176-202 | for every properly named existence key of an accepted pattern and every resource that holds the list: the pattern is a one-element list, the invalid-pattern branch is taken exactly when the element is not a map, and then the only verdict is a failure at the member; otherwise the key passes exactly when an element of the list can match |
| Admission.BlockedNeverPasses | pkg/engine/validate/validate.go:41-121 | at every depth: where the matcher has to get past such an element and no condition on the way can fail, no map order lets the resource pass |
| Admission.ElementIsNotChecked | pkg/engine/policy/validate.go:373-386 | an accepted pattern stays accepted when an existence list is replaced by a list of any scalar |
| Admission.StrippersAgree | pkg/engine/mutate/utils.go:8-32 | the two anchor strippers disagree on a key exactly when it is a negation or a $() wrapper |
| Admission.AcceptedOverlayKey | pkg/engine/policy/validate.go:227-244 | on a key of an accepted overlay with a proper name the strippers agree, and the key is plain, a condition or an addition |
| Admission.AcceptedIsTame | pkg/engine/policy/validate.go:227-244 | an accepted, properly named overlay with distinct names, no null leaves and no odd arrays meets what the laws about running it twice ask for |
| Admission.HiddenNegationSlipsThrough | pkg/engine/policy/validate.go:355-395 | an accepted overlay on which the strippers disagree |
| AutogenMeaning.WrappedPatternMeans | pkg/webhooks/policymutation.go:276-306 | a document passes the wrapped pattern exactly when it has a spec map and its template, null when absent, passes the pattern; in denotation and for every map order |
| AutogenMeaning.WrappedPatternFailsAt | pkg/webhooks/policymutation.go:276-306 | failing paths inside the pattern are the original ones under /spec/template |
| AutogenMeaning.WrappedOverlayMeans | pkg/webhooks/policymutation.go:263-274 | conditions, failures and merge of the wrapped overlay are those of the overlay on the template, and nothing else changes |
| AutogenMeaning.WrappedOverlayEmits | pkg/webhooks/policymutation.go:263-274 | its patch lists are exactly those for the template prefixed by /spec/template |
| AutogenMeaning.WrappedPatchesApply | pkg/webhooks/policymutation.go:263-274 | applied to the controller, each of them does to the template what a patch list of the overlay does to it alone, and fails where that fails |
| Autogen.GenerateRuleForControllers | pkg/webhooks/policymutation.go:229-309 | a rule is generated exactly for Pod rules that qualify, and it translates the original: pattern, patterns or overlay wrapped, and the kinds replaced by the four controllers under "all" and otherwise by the comma-free pieces that join to the annotation |
| Autogen.GenerateRulePatches | pkg/webhooks/policymutation.go:174-210 | applied to the policy, the patches append exactly the generated rules in order |
| Autogen.AppendRule | pkg/webhooks/policymutation.go:185-207 | adding at the index behind the rules appends one rule and changes nothing else |
| Mutation.ProcessOverlayPatches | pkg/engine/mutate/overlay.go:122-143 | patches only when the conditions hold, and then as the compiler promises |
| Mutation.ProcessOverlay | pkg/engine/mutate/overlay.go:26-120 | an overlay rule hands on the merge, or the resource it was given when conditions fail, paths are missing, or anything goes wrong; its patches replay to what it hands on |
| Mutation.RunTwice | pkg/engine/mutate/overlay.go:26-120 | an overlay rule run again on the resource its success handed on: the conditions still hold, and the resource changes again exactly if the overlay appends, can be compiled again, has no plain element behind an anchored one, and the merge decodes to a resource |
| Mutation.EffectiveReplays | pkg/engine/mutate/patches.go:42-90 | the patches that took effect replay on the input; they are the patches of the rule in their order, without some of the removals |
| Mutation.OnePatch | pkg/engine/mutate/patches.go:42-90 | a rule with one patch that succeeds: after a removal the path of the member leads nowhere, otherwise to the value, and no path that parts from it leads elsewhere |
| Mutation.ApplyEach | pkg/engine/mutate/patches.go:42-74 | fails exactly when some patch other than a removal fails at its turn, otherwise reports the effective patches and the document they give |
| Mutation.ProcessPatches | pkg/engine/mutate/patches.go:23-91 | all or nothing: on failure the input and no patches, on success the effective patches and their result; after a single removal the member is gone |
| Mutation.RuleReplays | pkg/engine/mutation.go:46-135 | what a rule reports, from overlay, patches and template annotation, replays to what it hands on |
| Mutation.AllReportedConcat | pkg/engine/response/response.go:94-103 | collecting patches distributes over concatenation of rule responses |
| Mutation.PodTemplateIsSafe | pkg/engine/mutation.go:158-175 | neither the condition check nor the walk panics on the template annotation |
| Mutation.MutateRule | pkg/engine/mutation.go:46-135 | one turn of the rule loop: skipped, reported as path-missing, or run, each stage on the document of the one before; a panic only where the condition check has an array too short or mixed |
| Mutation.AnnotateTemplate | pkg/engine/mutation.go:116-134 | on admission a pod controller gets the annotation rule, reported only if it succeeded with patches |
| PodAnnotation.AnnotationIsAdded | pkg/engine/mutation.go:158-175 | on a controller whose metadata are maps the annotation rule succeeds if its result decodes, and then the annotation has the value it had, or "true", and no path that parts from it leads elsewhere |
| PodAnnotation.AnnotatedKinds | pkg/engine/mutation.go:116-134 | a document is annotated exactly if its kind, or the empty text when it has none, occurs in the text that lists the controllers |
| Mutation.Mutate | pkg/engine/mutation.go:29-139 | all rules in order; the patches of all responses replay on the input to the patched resource |
| Mutation.IsSuccessful | pkg/engine/response/response.go:84-91 | whether every rule succeeded |
| Mutation.GetPatches | pkg/engine/response/response.go:94-103 | the patches of all rules in order |
| Mutation.HandleMutation | pkg/webhooks/mutation.go:91-109 | the patches collected from successful policies replay on the admitted resource to the last threaded resource; a policy with a failed rule contributes neither patches nor changes |
| GenerateRequest.Cluster.HandleData | pkg/generate/generate.go:264-308 | an existing target is only compared; a missing one is generated on the first pass only |
| GenerateRequest.Cluster.HandleClone | pkg/generate/generate.go:310-336 | an existing target is left alone; otherwise the source is copied or reported missing |
| GenerateRequest.GeneratedContent | pkg/generate/generate.go:214-220 | a generated object has the name and namespace of its target and no resource version, and everything else from its content |
| GenerateRequest.Cluster.ApplyRule | pkg/generate/generate.go:148-230 | whatever calls fail: nothing existing changes, only the target may appear, with the content of its source; when none fails, the exact effect |
| GenerateRequest.Cluster.ApplyGeneratePolicy | pkg/generate/generate.go:119-146 | on success one entry per generate rule, in order, whose target exists or which is empty for a younger policy; on error no entries; when no call fails, the exact effect |
| GenerateRequest.ErrorEndsThePass | pkg/generate/generate.go:133-143 | rules after the first failing one make no difference |
| GenerateRequest.Cluster.ProcessGR | pkg/generate/generate.go:21-117 | one pass: what it may create, and that a status is written only for an owner that exists and is never the empty one; when no call fails, the exact objects, status and entries |
| GenerateRequest.Cluster.DeleteGeneratedResources | pkg/generate/cleanup/cleanup.go:53-66 | success exactly when no call fails and no entry is empty; the first failed call ends it, and the targets of some first entries are gone; when no call fails, exactly those before the first empty entry |
| GenerateRequest.Cluster.CleanupGR | pkg/generate/cleanup/cleanup.go:15-43 | a Completed request whose policy exists is deleted only when its owner was not found and every recorded resource is gone; when no call fails, exactly when the owner is absent and no entry is empty |
| GenerateRequest.StatusIsNeverUnwritten | pkg/generate/status.go:21-49 | over every run with an arbitrary environment, a written status never becomes empty again |
| GenerateRequest.DataIsGeneratedOnce | pkg/generate/generate.go:264-308 | over every run, no pass after a status write creates an object for a rule with data, and no pass changes an existing object |
| GenerateRequest.CleanupRemovesWhatWasRecorded | pkg/generate/cleanup/cleanup.go:15-66 | a request completed by one pass and deleted by a clean-up pass: every target of the policy is gone, and the owner was not found |
| GenerateRequest.UnansweredIsGone | pkg/generate/cleanup/cleanup.go:45-51 | two worlds: the owner exists, the question about it fails, and what was generated for it is deleted together with the request |
| GenerateRequest.GoneMeansAbsentIfAnswered | pkg/generate/cleanup/cleanup.go:25-51 | a deletion of a completed request means that its owner is absent exactly when the question about the owner was answered |
| GenerateRequest.EmptyEntryBlocksCleanup | pkg/generate/cleanup/cleanup.go:53-66 | over every run, a Completed request with an empty entry stays as it is while its policy exists and the generate controller does not write it |
| ViolationQueue.StepKeepsInv | pkg/policyviolation/generator.go:120-214 | every step of any producer or worker keeps the queue, store, retry and nothing-lost invariants |
| ViolationQueue.RunsKeepInv | pkg/policyviolation/generator.go:120-214 | in any interleaving of any number of producers and workers the last report under a key is not lost: while owed it is stored, and its key is queued, delayed, about to be enqueued or being worked on; failures between two Forgets never exceed the limit |
| ViolationQueue.OnlyTheseSettle | pkg/policyviolation/generator.go:158-214 | the last report under a key stops being owed only when it is created, dropped, or overwritten by an empty one |
| ViolationQueue.OwedIsNeverStuck | pkg/policyviolation/generator.go:158-214 | while a report is owed and a worker exists, a step other than a new arrival is enabled |
| ViolationSettling.StepsDoWork | pkg/policyviolation/generator.go:158-214 | every step but the arrival of a report decreases a measure, retries included |
| ViolationSettling.EverythingSettles | pkg/policyviolation/generator.go:158-214 | without arrivals a run is no longer than that measure, and when only arrivals are left to happen no report is owed |
| ViolationQueue.LookupFindsTheLast | pkg/policyviolation/generator.go:182-214 | a lookup that finds an entry finds the last report added under its key, and one that finds none has lost nothing |
| ViolationQueue.FirstComeFirstServed | pkg/policyviolation/generator.go:182-214 | over every run a key with n keys before it stays in line for n Gets, and the next Get takes it |
| ViolationQueue.KeysCollideExactly | pkg/policyviolation/generator.go:84-93 | reports share a key exactly when policy, kind, namespace, name and number of rules agree |
| ViolationLoss.FateOfAReport | pkg/policyviolation/generator.go:58-75 | a report nobody has looked up stays until a lookup takes it, another report replaces it, or a drop deletes it |
| ViolationLoss.TakenUpExactly | pkg/policyviolation/generator.go:58-75 | over any run in which it is not stored again, a report is handed to a worker, as it was stored, exactly if the first step after its Store that touches its key is a lookup; until one does, it waits |
| ViolationLoss.OnlyTheSubjectMatters | pkg/policyviolation/generator.go:84-126 | while no report on the same policy, resource and number of rules is stored, a report waits until its key is looked up, which hands it to a worker, or is dropped |
| ViolationLoss.FourthFailureDrops | pkg/policyviolation/generator.go:158-180 | in every run a failed creation drops its key exactly if it is the fourth in a row since one succeeded or a lookup found nothing, and otherwise the key comes back |
| ViolationLoss.ReplacedUnseen | pkg/policyviolation/generator.go:120-126 | a run in which a second report with the same key overwrites the first one before anyone has seen it |
| ViolationLoss.VanishedIsNeverCreated | pkg/policyviolation/generator.go:58-63 | a report that was replaced or dropped before its lookup is not created in any run that does not add it again |
| ViolationLoss.DropCanLoseANewReport | pkg/policyviolation/generator.go:158-180 | a run in which a second report arrives between the last failed retry and the deletion, and is deleted unseen |
| ViolationLoss.DropLosesExactly | pkg/policyviolation/generator.go:158-214 | from the lookup of a key to its drop: the drop deletes a report nobody has looked up exactly if the last report stored under the key in between exists and is not empty |
| Pipeline.StepKeepsPlaces | cmd/initContainer/main.go:136-206 | every step keeps each sent request in exactly one place |
| Pipeline.StepKeepsOutcomes | cmd/initContainer/main.go:156-206 | every result on its way is the outcome of the one removal of its request, and the flag is set exactly by received failures |
| Pipeline.RunsKeepInv | cmd/initContainer/main.go:136-206 | the invariant over all runs, for any number of requests and processors |
| Pipeline.StepKeepsInv | cmd/initContainer/main.go:136-206 | every step of every goroutine keeps places, outcomes and the order in which goroutines return, and neither requests nor processors appear or vanish |
| Pipeline.HandledOnce | cmd/initContainer/main.go:156-173 | a request that is about to be removed has not been removed before and is in the hands of one processor |
| Pipeline.NothingIsSentOnAClosedChannel | cmd/initContainer/main.go:136-206 | no enabled send is on a channel its owner has closed |
| Pipeline.ClosedMeansDone | cmd/initContainer/main.go:58-80 | when the merged channel closes without a signal, exactly one result per request was received and failure is set exactly when some removal failed |
| Pipeline.NeverStuck | cmd/initContainer/main.go:58-80 | until the merged channel closes, some step other than a signal is enabled |
| Pipeline.RunsEndClosed | cmd/initContainer/main.go:136-206 | every run is bounded by the work it starts with, and one that cannot go on has closed the merged channel |
| Pipeline.SignalsAreTaken | cmd/initContainer/main.go:136-206 | from every state a signal can lead to the merged channel being closed without another request or result being handed on |
| PolicyStore.IndexedWhereAsked | pkg/policystore/policystore.go:59-82 | a rule is found everywhere it asks to be exactly when it names no namespace, ends with "*", or names one namespace throughout |
| PolicyStore.LookupIsScan | pkg/policystore/policystore.go:130-147 | for rules naming at most one namespace the index finds a policy exactly where a scan of its rules would |
| PolicyStore.PolicyStore.Register | pkg/policystore/policystore.go:59-82 | adds exactly the entries of the policy, whatever was registered before; a name that was not live leaves the index that of the live policies |
| PolicyStore.PolicyStore.AddEntry | pkg/policystore/policystore.go:64-79 | adds the name under the kind and the last namespace, or "*", and no other entry |
| PolicyStore.PolicyStore.UnRegister | pkg/policystore/policystore.go:100-126 | removes exactly the entries that the version mentions up to the first kind the index does not know; for the live version those are all its entries |
| PolicyStore.PolicyStore.LookUp | pkg/policystore/policystore.go:130-147 | no name twice, and exactly the live policies indexed under the namespace or "*" |
| PolicyStore.Unique | pkg/policystore/policystore.go:149-159 | the first occurrence of every name, in order |
| PolicyStore.Transform | pkg/policystore/policystore.go:162-168 | the keys of a map, each once |
| PolicyStatus.CountersAreConserved | pkg/policy/status.go:61-111 | the applied count is the sum over the history; the blocked count is the number of blocked statistics exactly when the first one says 0 or 1 |
| PolicyStatus.BlockedAreCounted | pkg/policy/status.go:78-80 | for statistics whose blocked field comes from a boolean, as all of them do, the blocked count is the number of blocked ones |
| PolicyStatus.RunningStaysWithin | pkg/policy/status.go:89-104 | a running time over non-negative samples stays between their minimum and maximum, despite halving and the restart after zero |
| PolicyStatus.RunningIsMean | pkg/policy/status.go:82-104 | one more sample gives the mean of the time so far and the sample, truncated toward zero, or the sample itself after a zero |
| PolicyStatus.RunningIsWeightedMean | pkg/policy/status.go:82-104 | over positive samples the running time is the mean in which every sample weighs half of the next one, less than one unit short |
| PolicyStatus.ExecutionTimesAreMeans | pkg/policy/status.go:61-111 | the same for each of the three aggregated execution times |
| PolicyStatus.RuleTimeIsMean | pkg/policy/status.go:113-139 | the time of a rule is the truncated mean of the one remembered and the one of the update |
| PolicyStatus.ExecutionTimesStayWithin | pkg/policy/status.go:61-111 | each of the three aggregated execution times stays within the samples seen |
| PolicyStatus.SurvivingRules | pkg/policy/status.go:113-139 | after an update exactly the rules of that update that took time are remembered |
| PolicyStatus.RuleIsConserved | pkg/policy/status.go:113-139 | per rule, the counters are the sums over the updates since it was last forgotten, and its time stays within their samples |
| PolicyStatus.PolicyStatusAggregator.Add | pkg/policy/status.go:61-111 | a statistic with rules extends the history of its policy, one without is ignored; what is stored stays the aggregate of the history |
| PolicyStatus.PolicyStatusAggregator.RemovePolicyStats | pkg/policy/status.go:156-167 | forgets the history of one policy and of no other |
| PolicyStatus.PolicyStatusAggregator.GetPolicyStats | pkg/policy/status.go:142-153 | the aggregate of the history since the last removal, or zero |
| PolicyStatus.AggregateRules | pkg/policy/status.go:113-139 | the combined rule statistics, in the order of the update, whose counters and times RuleIsConserved constrains |

## Left out

- JSON as text: joining patches into one text and parsing it again is taken as exact; numbers keep the type they were decoded with, keys contain nothing that needs escaping in JSON, and the regular expression that turns quoted booleans back is not modelled, so overlays with booleans under annotations are outside the theorems.
- Variable substitution and context queries: patterns and overlays are taken after substitution; whether all mentioned paths are present is a flag of the rule.
- References into the pattern itself, `$(...)`: excluded by `Unreferenced` and `Evaluable`, because their resolution depends on the lookup order.
- The comparison of a scalar with a scalar pattern: an arbitrary predicate; wildcards, quantities and operators are not part of this model.
- Decoding a patched document to a resource: an arbitrary predicate.
- MatcherSpec.VerdictIsOrderIndependent: about evaluations in which no index is out of range, where the source panics; the matcher methods report that panic.
- OverlayProof.PatchesPerformMerge: asks that the keys and the anchored elements of an overlay do not write two values to one place; `OverlayLimits` shows overlays for which it fails without, and `OverlayOrders` and `OverlayStale` say when clashing keys and two anchored elements do no harm.
- OverlayOrders.OrderDoesNotMatter: about arrays with at most one anchored element, and about keys that both strippers read alike.
- OverlayStale.PatchesStillRight: about overlays with distinct names, the keys admission allows and no null leaves, where no array of the overlay meets an array of the element it was computed from.
- OverlayStale.TwoAnchoredExactly: about an array of exactly two anchored elements with distinct names, in which merging the second one never puts an array into an array; a third element could repair what the second one spoils.
- OverlayLaws.OverlayIsIdempotent: about the keys that accepted overlays have (`Admission.AcceptedIsTame`), distinct names, no null leaves, and arrays that are not empty, have at most one anchored element and do not mix maps with other elements.
- OverlayCondition.MeetConditions: the reported path and the distinction between a missing and a failing condition are dropped; both end in the resource being handed on unchanged.
- Matcher.ValidateResourceElement: references are excluded, and the path of a failure is a list of names and indices, not the text with slashes.
- Matcher.ValidateMap: references are excluded, as everywhere in the matcher.
- Matcher.ValidateArray: references are excluded.
- Matcher.ValidateArrayOfMaps: references are excluded.
- Matcher.Handle: references are excluded.
- Matcher.HandleDefault: references are excluded.
- Matcher.HandleExistence: references are excluded.
- Matcher.ValidateResourceWithPattern: references are excluded.
- Matcher.HandleIfPresent: references are excluded; one method for the equality and the condition handler, which do the same; the map loop treats their failures differently.
- Messages, events, statistics and timing of rule responses, and the count of applied rules.
- Which rules match a resource (kinds, names, selectors, roles, preconditions): a parameter of the rule; the annotation patch that the webhook adds at the end lists policy names and is not modelled.
- GenerateRequest.Cluster.DeleteGeneratedResources: that an empty name is rejected is the behaviour of client-go, which is not part of this repository.
- Autogen.GenerateRulePatches: JSON marshalling of a rule is an arbitrary function; the annotation that selects the controllers is not modelled.
- GenerateRequest.Cluster.ProcessGR: reads see the current state, not the cache of a lister; whether data that is not a map can be converted is settled as no; variable paths are flags.
- GenerateRequest.CleanupRemovesWhatWasRecorded: about data that is a map; other data is recorded without being generated. Objects generated before a failing rule go unrecorded, and requests deleted by timeout leave their objects, as in the source.
- The queue of the generate controller, its event handlers and bounded retries: each pass is a step that may happen at any time, which includes every schedule of that queue.
- ViolationQueue.KeysCollideExactly: about names without slashes, which is what Kubernetes allows.
- ViolationQueue.RunsKeepInv: a state machine over values, because the steps of several goroutines interleave; the work queue of the client library is modelled by its documented contract, and shutting it down is left out. A creation is one step that succeeds or fails.
- Pipeline.ClosedMeansDone: a state machine over values for the same reason; channels are unbuffered, so a send and its receive are one step, and the `done` channel closes only after main returns.
- PolicyStore.PolicyStore.UnRegister: that the index is that of the live policies again is promised for the live version; an outdated version can leave entries behind.
- PolicyStore.PolicyStore.LookUp: returns names; fetching the policies from the lister is input and output.
- PolicyStatus.PolicyStatusAggregator.Add: durations and counters are unbounded integers.
- Kubernetes clients, informers, certificates, webhook registration, the HTTP server and the command line: input and output.
- Uniqueness of rule names, rule types, resource descriptions and roles in new policies: simple scans.
