# ng-unit, modelled in Dafny

ng-unit is a library for unit tests of Angular components. A test names a
*subject* component. It lists the components to replace by mocks, the real
components to use, the providers and the imports. It registers setup
callbacks for mocks, initial values for the subject's inputs and watchers
for its outputs. Then it *begins*. ng-unit then does three things:

- It generates a host component whose template is the subject's element,
  built from the subject's CSS selector, with one property binding per input
  and one event binding per output.
- It builds a mock for each listed type. A mock has the original's selector,
  inputs and outputs, an event emitter per output and a provider-made stub
  per prototype method.
- It configures Angular's testing module, creates the host, runs change
  detection and records the session state. Helpers such as `subject()`,
  `setInput` and `teardown` read that state.

The project models this core, one module per source file:

| module | file | what it holds |
|---|---|---|
| `Wrappers` | (support) | `Option`, `Result`, `Outcome` with failure propagation |
| `Js` | (support) | JavaScript values and errors, `Map` as ordered entries, lodash `uniq`, `extend`, `String.prototype.replace` with `$` substitutions, `indexOf`, `join` |
| `Reflection` | `src/reflection.ts` | `getAnnotation`, `propertyMetadata` |
| `Selector` | `src/selector-of.ts` | `selectorOf` |
| `Guards` | `src/exception.ts` | `throwIfNil`, `throwIfNotIn` |
| `ElementCreator`, `ElementCreatorFacts` | `src/element-creator.ts` | the selector scanners, the `Element` class, `createElement`, and what they promise for each selector form |
| `MockComponent` | `src/mock-component.ts` | mock options, the mutable provider registry, the mock factory with fresh members |
| `TestHost` | `src/test-host.ts` | the host template pipeline, output grouping, the host instance and its handlers |
| `TestComponent` | `src/test-component.ts` | the session state (the module's variables), the `TestBuilder`, `TestBed` and fixture |
| `TestSetup` | `src/test-setup.ts` | the older `TestBuilder.configure(...).create()` builder and its `ComponentTestContext` |

How the source's forms are modelled:

- Pure code is written as functions and lemmas.
- The session variables, the builders, the mock provider registry, the host
  instance and the DOM element are written as classes. Their methods state
  their whole new state.
- Loops are written as methods with invariants. This covers the
  `forEach`/`reduce` loops of the host constructor, `invokeAll`, the mock
  factory, `setAttribute` and `throwIfNotComponent`.
- Regular expressions are written out as scanners over the input's suffixes.

Three things are parameters rather than computations:

- Angular's own machinery: `TestBed`, `ComponentFixture`, rendering.
- The DOM queries: the `renderedSubject` and `renderedElement` arguments of
  `Begin`.
- The user's callbacks: `SetupId` and `ActionId` stand for each callback's
  identity.

## Model

| member | source | states |
|---|---|---|
| Js.FindChar | src/element-creator.ts:25 | the first index at or after `from` holding the character, or none; nothing before it holds it |
| Js.Before | src/element-creator.ts:25 | the first piece of `split(c)`: a prefix free of `c` that ends at the first `c` or at the end |
| Js.RemoveAll | src/element-creator.ts:18 | `replace(/\./g, "")` leaves no occurrence of the character |
| Js.RemoveAllConcat | src/element-creator.ts:18 | removing a character distributes over concatenation |
| Js.RemoveAllSingle | src/element-creator.ts:18 | a single character is dropped when it is the removed one and kept otherwise; with the concatenation lemma this fixes the result on every string |
| Js.IndexOf | src/test-host.ts:74 | the first position where the pattern occurs; none occurs before it; none at all when absent |
| Js.SubstituteLiteral | src/test-host.ts:74 | a replacement string without `$` patterns is inserted verbatim |
| Js.ReplaceFirstLiteral | src/test-host.ts:74 | with a literal replacement, `replace` splices it in at the first match and leaves the string unchanged without one |
| Js.JoinExcludes | src/test-host.ts:73 | a character in no part and not in the separator is not in the joined string |
| Js.ClosedLiteralConcat | src/test-host.ts:74 | two strings whose every `$` is followed by a non-pattern character concatenate to such a string |
| Js.ClosedLiteralJoin | src/test-host.ts:73-74 | joining such strings with such a separator gives such a string |
| Js.FirstIndex | src/test-host.ts:22 | the first occurrence of an element: the element is there and not before it |
| Js.UniqSpec | src/test-host.ts:22 | `uniq` keeps exactly the input's elements, each once, ordered by first occurrence |
| Js.UniqOfDistinct | src/test-host.ts:22 | `uniq` leaves a sequence without repetitions unchanged |
| Js.UniqSnoc | src/test-host.ts:22 | `uniq` of a sequence extended by one element appends it only if new |
| Js.UniqOfUniqPrefix | src/mock-component.ts:39 | deduplicating a prefix first changes nothing: `uniq(uniq(a) ++ b) == uniq(a ++ b)` |
| Js.Keys | src/test-host.ts:21 | `Array.from(map.keys())` lists every entry's key in insertion order |
| Js.Get | src/test-host.ts:36-37 | `Map.get` finds a value exactly for the map's keys |
| Js.GetEntry | src/test-host.ts:36-37 | in a map without repeated keys, each entry's key looks up that entry's value |
| Js.GetSnoc | src/test-host.ts:36-37 | looking up a key after appending an entry |
| Js.Set | src/test-component.ts:78 | `Map.set`: an existing key keeps its place and takes the new value, a new key goes last, other keys are unchanged |
| Js.SetKeepsKeysDistinct | src/test-component.ts:78 | a map built by `set` never repeats a key |
| Js.ExtendGet | src/mock-component.ts:39 | after `extend`, a source key holds the source's value and any other key keeps the target's |
| Js.ExtendKeys | src/mock-component.ts:39 | the keys after `extend` are the target's keys followed by the source's new ones, in order |
| Reflection.FirstInstanceOfSpec | src/reflection.ts:9-12 | the `filter`/destructure finds an annotation exactly when one is an instance of the kind, and then the first such one |
| Reflection.GetAnnotationIsFirstMatch | src/reflection.ts:7-13 | getAnnotation returns the first annotation of the consulted list that is an instance of the kind, and `undefined` exactly when there is none |
| Reflection.NoAnnotationsNoResult | src/reflection.ts:8 | with neither `__annotations__` nor reflected annotations, the fallback `[]` gives `undefined` |
| Reflection.DirectAnnotationsTakePrecedence | src/reflection.ts:8 | a present `__annotations__`, even an empty one, hides the reflection store |
| Reflection.DirectMetadataTakesPrecedence | src/reflection.ts:18-20 | a present `__prop__metadata__` hides the reflection store; with neither, the result is `{}` |
| Selector.FirstNamedSpec | src/selector-of.ts:4-5 | the filter finds an annotation exactly when one is named `Component`, and then the first such one |
| Selector.SelectorOfFirstComponent | src/selector-of.ts:3-8 | selectorOf succeeds exactly when `__annotations__` holds a Component annotation, and yields the first one's selector |
| Selector.SelectorRoundTrip | src/selector-of.ts:3-8 | a Component annotation with selector `s` after any non-Component annotations yields `s`, whatever follows |
| Selector.FirstNamedAfter | src/selector-of.ts:4-5 | the first annotation with the name, after annotations without it, is found |
| Selector.MissingSelectorIsUndefined | src/selector-of.ts:3-8 | a Component annotation without a selector gives `undefined`; a type without `__annotations__` fails |
| Guards.ThrowIfNil | src/exception.ts:7-11 | throws `Error(error)` exactly for `undefined` and `null` |
| Guards.ThrowIfNotIn | src/exception.ts:16-20 | throws `Error(message)` exactly when no element of the list equals the value |
| Guards.FalsyValuesPass | src/exception.ts:8 | `0`, `""`, `false` and objects pass throwIfNil |
| ElementCreator.NameRun | src/element-creator.ts:2 | the longest prefix of letters, digits and hyphens |
| ElementCreator.AttrNameRun | src/element-creator.ts:5 | the longest prefix of letters and hyphens |
| ElementCreator.MarkedTokens | src/element-creator.ts:3-4 | every global match is a marker, a letter, then name characters |
| ElementCreator.AttributeTokens | src/element-creator.ts:5 | every global match is a well-formed bracketed attribute token |
| ElementCreator.ValueTokenClosed | src/element-creator.ts:5 | a bracket, a name, `=` and text up to the first `]` form a match |
| ElementCreator.StripQuotes | src/element-creator.ts:27 | the value is unchanged or loses exactly its first and last character |
| ElementCreator.ParseAttributes | src/element-creator.ts:23-29 | one attribute per token, in token order |
| ElementCreator.WithAttribute | src/element-creator.ts:29 | `setAttribute`: the name reads back the value, other names are unchanged, a new name is appended, an existing one keeps its place |
| ElementCreator.Element.constructor | src/element-creator.ts:8 | `document.createElement(node)` gives the tag and no attributes |
| ElementCreator.Element.SetAttribute | src/element-creator.ts:19 | the attribute list becomes the `setAttribute` result |
| ElementCreator.CreateElement | src/element-creator.ts:1-31 | fails exactly when parsing fails: a leading name that starts with a digit or `-` gives `InvalidCharacterError` from `document.createElement`, else a second `#id` gives its error; otherwise a fresh element with the parsed tag and the id, class and attributes set in order |
| ElementCreator.SetAttributes | src/element-creator.ts:22-31 | the `forEach` sets each parsed attribute in turn |
| ElementCreatorFacts.Names | src/element-creator.ts:18 | each class name is its token without the dot |
| ElementCreatorFacts.ParsedTag | src/element-creator.ts:2-6 | the tag is the maximal leading name run, or `div` when the selector starts otherwise |
| ElementCreatorFacts.ParseErrors | src/element-creator.ts:2-13 | parsing fails exactly when the selector starts with a digit or `-` or has more than one `#id`, the refused tag name being reported first |
| ElementCreatorFacts.OnlyOneId | src/element-creator.ts:10-13 | with a tag the document accepts, the only failure is a second `#id`, with its fixed message |
| ElementCreatorFacts.IdWithoutHash | src/element-creator.ts:8-14 | with a single `#name`, parsing succeeds exactly when the tag is accepted, and then gives the id `name` |
| ElementCreatorFacts.ClassAttribute | src/element-creator.ts:17-20 | the class attribute is the class names in order joined by spaces, and absent without classes |
| ElementCreatorFacts.JoinWithoutDots | src/element-creator.ts:18 | removing the dots from the joined tokens gives the joined names |
| ElementCreatorFacts.NoMarkerNoTokens | src/element-creator.ts:3-4 | a selector without the marker has no tokens |
| ElementCreatorFacts.MarkedTokensSkip | src/element-creator.ts:3-4 | text without the marker contributes no token and hides none |
| ElementCreatorFacts.MarkedTokensAt | src/element-creator.ts:3-4 | a marker and a name ended by a non-name character is one token |
| ElementCreatorFacts.AttributeTokensSkip | src/element-creator.ts:5 | text without `[` contributes no attribute token |
| ElementCreatorFacts.ValuelessToken | src/element-creator.ts:5 | `[name]` is one token |
| ElementCreatorFacts.QuotedToken | src/element-creator.ts:5 | `[name='v']` is one token |
| ElementCreatorFacts.ValueToken | src/element-creator.ts:5 | `[name=rest]` with no `]` in `rest` is matched as one token, and matching resumes after it |
| ElementCreatorFacts.QuotedValue | src/element-creator.ts:25-28 | splitting `name='v'` and stripping the quotes gives `v` |
| ElementCreatorFacts.SplitAtEquals | src/element-creator.ts:24-29 | `[name=rest]` with no `=` in either part gives the label `name` and the value `rest` with one pair of quotes stripped |
| ElementCreatorFacts.StripOneQuotePair | src/element-creator.ts:27 | one pair of surrounding quotes is removed |
| ElementCreatorFacts.ValuelessAttribute | src/element-creator.ts:29 | `[name]` yields the attribute `name` with the empty value and nothing else |
| ElementCreatorFacts.QuotedAttribute | src/element-creator.ts:24-29 | `[name='v']` and `[name="v"]` yield the attribute `name` with value `v` |
| ElementCreatorFacts.BuiltAttribute | src/element-creator.ts:10-31 | each attribute of the element: the last parsed pair of that name wins over the class and the id |
| ElementCreatorFacts.SetEachLookup | src/element-creator.ts:23-30 | after setting pairs in turn, a name reads the last pair's value or its earlier value |
| ElementCreatorFacts.CompoundIds | src/element-creator.ts:3 | the id tokens of `tag#id.c1.c2[a='v'][b]` are `#id` alone |
| ElementCreatorFacts.CompoundClasses | src/element-creator.ts:4 | its class tokens are `.c1`, `.c2` |
| ElementCreatorFacts.CompoundAttributeTokens | src/element-creator.ts:5 | its attribute tokens are the two bracketed ones |
| ElementCreatorFacts.CompoundAttributes | src/element-creator.ts:22-31 | its attributes are `a=v` and `b=""` |
| ElementCreatorFacts.CompoundSelector | src/element-creator.ts:1-31 | the compound selector yields its tag, id, both classes in order and both attributes |
| MockComponent.PropertiesDecoratedWith | src/mock-component.ts:9-12 | every key returned has an instance of the decorator, and every such key is returned |
| MockComponent.PropertiesDecoratedWithConcat | src/mock-component.ts:9-12 | the keys of two metadata lists in a row are those of the first, then those of the second: key order is kept |
| MockComponent.PropertiesDecoratedWithSingle | src/mock-component.ts:9-12 | one entry contributes its key exactly when it holds an instance of the decorator |
| MockComponent.MockOptions | src/mock-component.ts:25-33 | fails exactly where selectorOf fails; otherwise the original's selector, the fixed template, and inputs and outputs exactly the Input- and Output-decorated properties |
| MockComponent.NoMetadataNoBindings | src/mock-component.ts:10 | without property metadata the mock has no inputs and no outputs |
| MockComponent.KeysIn | src/mock-component.ts:37 | `keysIn(prototype)`: each enumerable key of the chain once, an own property shadowing its ancestors', never `constructor` |
| MockComponent.StandIn.constructor | src/mock-component.ts:37 | a stand-in records the provider that made it |
| MockComponent.MockProviderRegistry.constructor | src/mock-component.ts:7 | the provider starts as sinon `stub` |
| MockComponent.MockProviderRegistry.SetProvider | src/mock-component.ts:21-23 | later instantiations use the installed provider |
| MockComponent.MockProviderRegistry.Provide | src/mock-component.ts:37 | each call gives a fresh stand-in from the current provider |
| MockComponent.MockInstance.constructor | src/mock-component.ts:39 | `extend({}, …)` starts from an empty object with no setup run |
| MockComponent.SetKeepsDistinctObjects | src/mock-component.ts:36-37 | setting a key to an unshared object keeps all values distinct objects |
| MockComponent.CreateEmitters | src/mock-component.ts:36 | one fresh emitter per distinct output name, in order, no two shared |
| MockComponent.CreateStandIns | src/mock-component.ts:37 | one fresh stand-in from the current provider per prototype key, no two shared |
| MockComponent.Instantiate | src/mock-component.ts:35-42 | the mock instance's keys are the outputs then the prototype keys; methods win over outputs; every member is fresh and distinct; the setup runs once |
| MockComponent.MergeMembers | src/mock-component.ts:39 | `extend({}, outputs, methods)`: keys in order, a method key holds the stand-in, other output keys the emitter |
| MockComponent.InstancesShareNothing | src/mock-component.ts:35-42 | two instances of one mock share no emitter and no stand-in |
| TestHost.LazyClose | src/test-host.ts:58 | the lazy `.+?\/>` ends right after a `/>` at least one character on |
| TestHost.XmlTagMatchAt | src/test-host.ts:58 | a match at `i` starts with `<?XML` |
| TestHost.FirstXmlTag | src/test-host.ts:58 | the leftmost match, with no match starting before it |
| TestHost.StripXmlTagAbsent | src/test-host.ts:57-59 | markup without `<?XML` is unchanged |
| TestHost.StripXmlTagRemovesFirst | src/test-host.ts:57-59 | exactly the first XML tag is removed |
| TestHost.StripFirstMatch | src/test-host.ts:57-59 | a match after a prefix without `<` is the one removed |
| TestHost.LazyCloseThrough | src/test-host.ts:58 | the lazy match stops at the first `/>` |
| TestHost.InputBindings | src/test-host.ts:66 | one `[n]="n"` per input, in order |
| TestHost.OutputBindings | src/test-host.ts:67 | one `(o)="o($event)"` per output, in order |
| TestHost.FirstJoint | src/test-host.ts:74 | the first `><` of `x + "><" + y`, `x` without `>`, is right after `x` |
| TestHost.InsertBeforeFirstJoint | src/test-host.ts:71-76 | the corrected addAttributes puts a space and the joined attributes right before the first `><` |
| TestHost.InsertWithoutJoint | src/test-host.ts:71-76 | markup without `><` is unchanged by both versions |
| TestHost.AddAttributesAgrees | src/test-host.ts:71-76 | the version as written equals the corrected one whenever the attribute text has no `$` pattern |
| TestHost.BindingClosedLiteral | src/test-host.ts:66-67 | the binding of a name without `$` has no `$` pattern; the `$` of `$event` starts none |
| TestHost.BindingTextLiteral | src/test-host.ts:71-74 | the text handed to `replace` is literal when no bound name holds a `$` |
| TestHost.ComponentTagAgrees | src/test-host.ts:61-76 | createComponentTag as written equals the corrected one whenever no input or output name holds a `$` |
| TestHost.DollarPairCollapses | src/test-host.ts:74 | the version as written turns an input named `a$$` into the binding of `a$`, unlike the corrected one |
| TestHost.DollarBindingSubstituted | src/test-host.ts:74 | the replacement text of `a$$` expands to that of `a$` |
| TestHost.TagIsName | src/element-creator.ts:2-8 | the parsed tag is a name run starting with a letter |
| TestHost.NoXmlTagInMarkup | src/test-host.ts:57-59 | generated element markup holds no `<?XML` |
| TestHost.MarkupTemplate | src/test-host.ts:61-69 | stripping and inserting into `<tag text></tag>` puts input then output bindings after the attributes |
| TestHost.ComponentTemplate | src/test-host.ts:61-69 | createComponentTag yields the subject's element with the input bindings, then the output bindings, after its attributes |
| TestHost.ComponentTagErrors | src/test-host.ts:61-69 | selectorOf failures and createElement failures pass through; a missing selector fails at createElement |
| TestHost.WatchNames | src/test-host.ts:22 | the watch names in order |
| TestHost.HostTemplate | src/test-host.ts:20-33 | the host template binds each input key once in insertion order, then each output name once in order of first registration |
| TestHost.WatchesForSpec | src/test-host.ts:42 | a name's watches are exactly the watches with that name |
| TestHost.GroupInto | src/test-host.ts:42 | one groupBy step appends the watch to its name's group, creating it last if new |
| TestHost.GroupBySpec | src/test-host.ts:41-43 | the groups are keyed by the distinct names in first-appearance order, and each group is its name's watches in order |
| TestHost.GroupByKeys | src/test-host.ts:42 | the group keys are `uniq` of the names |
| TestHost.GroupByGet | src/test-host.ts:42 | a watched name's group is its watches; an unwatched name has none |
| TestHost.ExtractActions | src/test-host.ts:53-55 | the watches' actions in order |
| TestHost.Invocations | src/test-host.ts:47-51 | one call per action, in order, each with the argument |
| TestHost.CallLog.constructor | src/test-host.ts:47-51 | no calls made yet |
| TestHost.InvokeAll | src/test-host.ts:47-51 | the log grows by each action called with the argument, in order |
| TestHost.HostInstance.constructor | src/test-host.ts:26-29 | a new host's fields are the input values, a handler for each watched output in place of a same-named input, and nothing else |
| TestHost.HostInstance.AddInputProperties | src/test-host.ts:35-38 | each input key's field takes its value; other fields are unchanged |
| TestHost.HostInstance.AddOutputWatches | src/test-host.ts:40-45 | each watched name's field becomes a handler invoking its watches' actions in order; other fields are unchanged |
| TestHost.HostInstance.Emit | src/test-host.ts:47-51 | emitting on a handler field calls its actions with the event; otherwise nothing is called |
| TestHost.EmitOnNewHost | src/test-host.ts:26-51 | on a new host an emission on a watched name calls exactly that name's watches in registration order |
| TestHost.EmissionCallsExactlyTheWatchers | src/test-host.ts:40-55 | each call comes from a watch for that name, with the event, and each such watch is called |
| TestComponent.Fixture.constructor | src/test-component.ts:128 | a fixture around the created host, before any change detection |
| TestComponent.Fixture.DetectChanges | src/test-component.ts:129 | one more change detection run |
| TestComponent.TestBed.constructor | src/test-component.ts:122-126 | no testing module configured |
| TestComponent.TestBed.ConfigureTestingModule | src/test-component.ts:122-126 | the module configuration is recorded |
| TestComponent.TestBed.ResetTestingModule | src/test-component.ts:31 | the configuration is cleared |
| TestComponent.TestBed.CreateComponent | src/test-component.ts:128 | a fresh fixture around a fresh host whose fields are the new-host fields |
| TestComponent.Session.constructor | src/test-component.ts:13-17 | the module variables start with their initial values |
| TestComponent.Session.Subject | src/test-component.ts:39-42 | fails with the not-started message exactly when the subject is nil, else returns it |
| TestComponent.Session.SubjectElement | src/test-component.ts:43-46 | fails with the not-started message exactly when the element is nil, else returns it |
| TestComponent.Session.GetFixture | src/test-component.ts:47-50 | fails with the not-started message exactly when there is no fixture, else returns it |
| TestComponent.Session.Element | src/test-component.ts:19 | `querySelector` on the subject element, or the not-started error |
| TestComponent.Session.Elements | src/test-component.ts:20 | `querySelectorAll` on the subject element, or the not-started error |
| TestComponent.Session.Component | src/test-component.ts:21 | `selectComponent` on the fixture, or the not-started error |
| TestComponent.Session.Components | src/test-component.ts:22 | `selectComponents` on the fixture, or the not-started error |
| TestComponent.Session.OnOutput | src/test-component.ts:28 | subscribes on the subject's output, or the not-started error |
| TestComponent.Session.SetInput | src/test-component.ts:23-27 | no fixture fails first; an input without an initial value fails with its message and changes nothing; otherwise the host field takes the value |
| TestComponent.Session.DetectChanges | src/test-component.ts:29 | one more change detection, or the not-started error |
| TestComponent.Session.Teardown | src/test-component.ts:30-37 | the testing module is reset and every variable is back at its initial value |
| TestComponent.IdleSessionRefuses | src/test-component.ts:19-50 | before begin and after teardown every helper fails with the not-started message |
| TestComponent.IdleIsOneState | src/test-component.ts:30-37 | teardown always leaves the same state |
| TestComponent.RelevantSetupsAppend | src/test-component.ts:142-144 | the setup filter distributes over concatenation |
| TestComponent.RelevantSetupsSingle | src/test-component.ts:143 | a single registration is kept exactly when its type is the same object |
| TestComponent.RelevantSetupsMembers | src/test-component.ts:142-144 | a setup is kept exactly when it was registered for that type |
| TestComponent.CreateComponentMock | src/test-component.ts:141-147 | the mock of the type whose setup runs exactly the setups registered for it, in order; fails exactly where mockComponent fails |
| TestComponent.ApplyMockSetups | src/test-component.ts:149-151 | each setup runs on the mock, in order, and the mock's members are unchanged |
| TestComponent.CollectSpec | src/test-component.ts:119 | the `map` succeeds exactly when every callback does, with the values in order; otherwise it throws the first failure |
| TestComponent.MockResults | src/test-component.ts:119 | one mock result per type, in order |
| TestComponent.MockAllSpec | src/test-component.ts:119 | the mocks are built exactly when every type's mock is, one per type in order; otherwise the first failing type's error |
| TestComponent.FirstFalse | src/test-component.ts:91 | the index of the first `false`, none exactly when all are true |
| TestComponent.ComponentFlags | src/test-component.ts:153-156 | whether each type carries a Component annotation |
| TestComponent.FirstNonComponent | src/test-component.ts:91 | the first type without a Component annotation, none exactly when all carry one |
| TestComponent.CheckComponents | src/test-component.ts:91 | throws the not-a-component error naming the first type without a Component annotation, else passes |
| TestComponent.TestBuilder.constructor | src/test-component.ts:55-66 | the subject with empty providers, imports, uses, mocks, setups, inputs and watches |
| TestComponent.TestBuilder.SetupMock | src/test-component.ts:68-73 | refuses during a test; otherwise appends the setup and nothing else changes |
| TestComponent.TestBuilder.SetInput | src/test-component.ts:75-80 | refuses during a test; otherwise `Map.set` on the inputs, keys stay distinct |
| TestComponent.TestBuilder.OnOutput | src/test-component.ts:82-87 | refuses during a test; otherwise appends the watch |
| TestComponent.TestBuilder.Mock | src/test-component.ts:89-95 | refuses during a test; rejects the first type without a Component annotation and keeps the old list; otherwise replaces the list |
| TestComponent.TestBuilder.Use | src/test-component.ts:97-102 | refuses during a test; otherwise replaces the used components |
| TestComponent.TestBuilder.Providers | src/test-component.ts:104-109 | refuses during a test; otherwise replaces the providers |
| TestComponent.TestBuilder.Import | src/test-component.ts:111-116 | refuses during a test; otherwise replaces the imports |
| TestComponent.TestBuilder.Begin | src/test-component.ts:118-137 | fails with the first mock error, else with the host error, changing nothing; otherwise configures host, subject, mocks, uses, providers and imports, creates the host once checked, and records subject, element, inputs and the in-progress flag |
| TestComponent.TestBuilder.Launch | src/test-component.ts:122-135 | the configuration, the created fixture after one change detection, and the recorded session state |
| TestComponent.Declarations | src/test-component.ts:123 | `concat(host, subject, mocks, use)` in that order |
| TestComponent.ThrowIfTestAlreadyInProgress | src/test-component.ts:158-162 | throws the in-progress error exactly during a test |
| TestComponent.NewTestBuilder | src/test-component.ts:52 | refuses during a test; otherwise a fresh builder with empty configuration |
| TestComponent.BeginThenSetInput | src/test-component.ts:23-27 | after begin, setInput accepts exactly the inputs given initial values, and a new builder is refused |
| TestComponent.TeardownAllowsNewTest | src/test-component.ts:30-37 | after teardown the helpers refuse again and a new builder is accepted |
| TestSetup.InputAttributes | src/test-setup.ts:111 | one ` [n]="n"` per input, in order |
| TestSetup.InputAttributeTextSnoc | src/test-setup.ts:111 | the attribute text grows by one attribute per input, in input order |
| TestSetup.InsertInputsBeforeFirstJoint | src/test-setup.ts:110-113 | the corrected addInputsToTag puts the attribute text right before the first `><` |
| TestSetup.InputsWithoutJoint | src/test-setup.ts:110-113 | markup without `><` is unchanged by both versions |
| TestSetup.AddInputsToTagAgrees | src/test-setup.ts:110-113 | the version as written equals the corrected one whenever the attribute text has no `$` pattern |
| TestSetup.NoInputsKeepTag | src/test-setup.ts:110-113 | no inputs leave the tag unchanged |
| TestSetup.SubjectTagAgrees | src/test-setup.ts:103-113 | createSubjectComponentTag as written equals the corrected one whenever no input name holds a `$` |
| TestSetup.InputDollarPairCollapses | src/test-setup.ts:112 | the version as written turns an input named `a$$` into the attribute of `a$`, unlike the corrected one |
| TestSetup.SubjectTagTemplate | src/test-setup.ts:103-108 | the template is the subject's element with one input attribute per name, in order, after its attributes |
| TestSetup.SubjectTagErrors | src/test-setup.ts:103-108 | selectorOf and createElement failures pass through; a missing selector fails at createElement |
| TestSetup.CreateHostComponent | src/test-setup.ts:88-101 | fails exactly when the tag fails; the host receives the inputs and watches no outputs |
| TestSetup.HostFieldsAreInputs | src/test-setup.ts:94-97 | the new host's fields are exactly the initial input values |
| TestSetup.TestingModule | src/test-setup.ts:69-80 | on success the host carries the builder's inputs and no outputs |
| TestSetup.MocksRunOwnSetups | src/test-setup.ts:115-121 | each declared mock is the mock of the type at its place, running exactly the setups registered for that type |
| TestSetup.ModuleLayout | src/test-setup.ts:77-80 | the declarations are host, subject, mocks in order, then used components; providers default to `[]`; no imports |
| TestSetup.ModuleErrors | src/test-setup.ts:72-76 | fails with the first failing mock's error, else exactly when the host fails, with its error |
| TestSetup.MissingEntriesDefaultToEmpty | src/test-setup.ts:70-73 | missing `mock`, `use` and `providers` act as empty lists |
| TestSetup.FactoryIsUnused | src/test-setup.ts:36-42 | `methodMockFactory` plays no part in the configuration |
| TestSetup.ComponentTestContext.constructor | src/test-setup.ts:12-14 | the context keeps the subject's type and the fixture |
| TestSetup.ComponentTestContext.DetectChanges | src/test-setup.ts:20 | one more change detection on the fixture |
| TestSetup.StartTest | src/test-setup.ts:77-85 | configures the module, creates the host with the input values as fields, runs change detection once and returns a fresh context |
| TestSetup.TestBuilder.Configure | src/test-setup.ts:53-57 | the config with no setups and no inputs |
| TestSetup.TestBuilder.SetupMock | src/test-setup.ts:59-62 | appends the setup, with no guard |
| TestSetup.TestBuilder.Input | src/test-setup.ts:64-67 | `Map.set` on the inputs with no guard; a repeated name keeps its place and keys stay distinct |
| TestSetup.TestBuilder.Create | src/test-setup.ts:69-86 | fails exactly when a mock or the host fails, with that error and the TestBed untouched; otherwise configures the module, and the context's fixture has run change detection once on a host whose fields are the inputs |

## Left out

- Rendering, Angular's compiler and dependency injection are not modelled. `TestBed` records the module configuration. A fixture counts change detections. A host instance is its field map.
- The DOM and the `./dom` helpers `selectComponent` and `selectComponents` are not modelled. Their results are parameters: `renderedSubject` and `renderedElement` of `TestComponent.TestBuilder.Begin`. The `Session` helpers return the call they would make.
- `ComponentTestContext` (src/test-setup.ts:16-32): `element`, `elements`, `child`, `children`, `subject` and `fixture` only forward to DOM or fixture queries and are not modelled. `SubjectElementSelector` models the selector `subjectElement` passes on, and has no contract.
- The `content` arguments of `createElement` (src/element-creator.ts:33-39) are not modelled. ng-unit never passes any.
- The older builder loads `createElement` from the `dom-create-element-query-selector` package (src/test-setup.ts:7). That package is not part of this model. `ElementCreator` stands in for it.
- `ElementCreator.CreateElement` and `ElementCreator.OuterHtml` model `document.createElement`, `setAttribute` and `outerHTML` without the HTML document's rules for names and serialisation. Tag and attribute names are not lowercased. `&`, `"` and no-break spaces in attribute values are not escaped. A void element such as `input` is written with a closing tag (`<input></input>`), where `outerHTML` gives `<input>`. With no `><` in that markup, the source inserts no bindings, and the model does.
- `TestHost.MarkupTemplate` is proved for the corrected insertion `TestHost.InsertAttributes`, not for the `$`-expanding `replace` the source calls (see Findings). `TestHost.AddAttributesAgrees` proves both insert the same text whenever it has no `$` pattern.
- `TestHost.ComponentTemplate` is proved for the corrected insertion, not for the `$`-expanding `replace` the source calls (see Findings). `TestHost.CreateComponentTagAsWritten` models the source's version. `TestHost.ComponentTagAgrees` proves both give the same template whenever no input or output name holds a `$`. Names with `$` patterns are where the two differ.
- `TestHost.HostTemplate` builds its template through `TestHost.CreateComponentTag`, and so holds for the corrected insertion in the same way. `TestHost.ComponentTagAgrees` bounds the difference.
- `TestComponent.TestBuilder.Begin` builds its host template through `TestHost.CreateComponentTag`, and so holds for the corrected insertion in the same way. `TestHost.ComponentTagAgrees` bounds the difference.
- `TestSetup.SubjectTagTemplate` is proved for the corrected insertion `TestSetup.InsertInputs`, not for the `$`-expanding `replace` the source calls (see Findings). `TestSetup.CreateSubjectComponentTagAsWritten` models the source's version. `TestSetup.SubjectTagAgrees` proves both give the same template whenever no input name holds a `$`.
- `TestSetup.TestBuilder.Create` builds its host template through `TestSetup.CreateSubjectComponentTag`, and so holds for the corrected insertion in the same way. `TestSetup.SubjectTagAgrees` bounds the difference.
- `MockComponent.MockProviderRegistry.Provide`: a custom provider is modelled as returning a fresh stand-in on each call. A provider that returns a shared object is not covered.
- JavaScript `Map` and lodash `set` are modelled with plain string keys. Dotted-path keys in `set`, integer-like key ordering of objects and SameValueZero on `NaN` are left out.
- Numbers are integers. Floating-point values are not modelled.
- The bodies of user callbacks (mock setups, output actions) are not modelled. Each one is an identity, and the model records which are called, on what and in which order.
- `methodMockFactory` (src/test-setup.ts:41) is never read by the source. `TestSetup.FactoryIsUnused` states this.
- Where the specification and the code disagree, the model follows the code:
  - `selectorOf` reads only `__annotations__`. A Component annotation without a selector gives `undefined`. It is not reported as an error.
  - Mock inputs and outputs are the decorated property names. Alternative binding names are not carried over.

## Findings

| source | as written | input that shows it | evidently intended | confidence | as-written member | corrected member |
|---|---|---|---|---|---|---|
| src/test-host.ts:71-76 | `tag.replace(/></, ` ${attributes}><`)` passes the binding text as a replacement string, so `$$`, `$&`, `` $` `` and `$'` in it are expanded | an input named `a$$` (a legal identifier) on any subject: the template binds `[a$]="a$"` | the bindings inserted verbatim before the first `><` (`TestHost.InsertBeforeFirstJoint`) | not executed | TestHost.DollarPairCollapses | TestHost.InsertAttributes |
| src/test-setup.ts:110-113 | `tag.replace(/></, `${inputAttributes}><`)` expands `$` patterns in the attribute text in the same way | an input named `a$$` given to `.input(...)`: the template binds `[a$]="a$"` | the attributes inserted verbatim before the first `><` (`TestSetup.InsertInputsBeforeFirstJoint`) | not executed | TestSetup.InputDollarPairCollapses | TestSetup.InsertInputs |

