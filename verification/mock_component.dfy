/** mockComponent (src/mock-component.ts): a stand-in component type with
    the original's selector, inputs and outputs, whose instances carry a
    fresh event emitter per output and a fresh provider-made stand-in per
    enumerable key of the original's prototype chain. */
module MockComponent {
  import opened Wrappers
  import opened Js
  import opened Reflection
  import Selector

  const MockTemplate := "<ng-content></ng-content>"
  const InputDecorator := "Input"
  const OutputDecorator := "Output"
  const ConstructorKey := "constructor"

  // ------------------------------------------------------------ metadata

  /** instanceExistsIn (lines 14-16): some marker of `list` is an instance
      of `decorator`. */
  predicate InstanceExistsIn(decorator: string, list: seq<Annotation>)
  {
    exists i :: 0 <= i < |list| && decorator in list[i].instanceOf
  }

  /** propertiesDecoratedWith (lines 9-12): the metadata's property names,
      in key order, whose marker list holds an instance of `decorator`. */
  function PropertiesDecoratedWith(decorator: string, metadata: PropMetadata): (r: seq<string>)
    ensures |r| <= |metadata|
    ensures forall i :: 0 <= i < |r| ==>
      exists j :: 0 <= j < |metadata| && metadata[j].0 == r[i] && InstanceExistsIn(decorator, metadata[j].1)
    ensures forall j :: 0 <= j < |metadata| && InstanceExistsIn(decorator, metadata[j].1) ==> metadata[j].0 in r
  {
    if |metadata| == 0 then []
    else
      var rest := PropertiesDecoratedWith(decorator, metadata[1..]);
      assert forall j :: 1 <= j < |metadata| ==> metadata[j] == metadata[1..][j - 1];
      if InstanceExistsIn(decorator, metadata[0].1) then [metadata[0].0] + rest else rest
  }
  /** The decorated keys of two metadata lists in a row are those of the
      first followed by those of the second: the keys keep metadata order. */
  lemma {:induction false} PropertiesDecoratedWithConcat(decorator: string, m1: PropMetadata, m2: PropMetadata)
    ensures PropertiesDecoratedWith(decorator, m1 + m2)
      == PropertiesDecoratedWith(decorator, m1) + PropertiesDecoratedWith(decorator, m2)
  {
    if |m1| == 0 {
      assert m1 + m2 == m2;
    } else {
      assert (m1 + m2)[1..] == m1[1..] + m2;
      PropertiesDecoratedWithConcat(decorator, m1[1..], m2);
    }
  }

  /** One metadata entry contributes its key exactly when it holds an
      instance of the decorator. */
  lemma PropertiesDecoratedWithSingle(decorator: string, entry: (string, seq<Annotation>))
    ensures PropertiesDecoratedWith(decorator, [entry])
      == if InstanceExistsIn(decorator, entry.1) then [entry.0] else []
  {
    assert [entry][1..] == [];
  }


  // --------------------------------------------------------- the mock type

  /** The options handed to the Component decorator (lines 28-33). */
  datatype ComponentOptions = ComponentOptions(selector: Option<string>, template: string, inputs: seq<string>, outputs: seq<string>)

  /** A setup callback, as the user callbacks it runs on the mock, in order:
      the default `() => {}` runs none, a user callback runs itself, and a
      combined setup runs each of its parts. */
  type SetupId = nat
  type MockSetup = seq<SetupId>

  /** The decorated mock class: the original type, the decorator options
      and the setup its factory runs. */
  datatype MockComponentType = MockComponentType(original: ComponentType, options: ComponentOptions, setup: MockSetup)

  /** mockComponent (lines 25-45). It fails only where selectorOf fails;
      reading the property metadata never does. */
  function MockComponent(original: ComponentType, setup: MockSetup): Result<MockComponentType, Exception>
  {
    var componentPropertyMetadata := PropertyMetadata(original);
    var selector :- Selector.SelectorOf(original);
    var options := ComponentOptions(
      selector, MockTemplate,
      PropertiesDecoratedWith(InputDecorator, componentPropertyMetadata),
      PropertiesDecoratedWith(OutputDecorator, componentPropertyMetadata));
    Success(MockComponentType(original, options, setup))
  }

  /** The mock takes the original's selector and the fixed template, and
      its inputs and outputs are exactly the property names marked with an
      Input, respectively an Output, instance. */
  lemma MockOptions(original: ComponentType, setup: MockSetup, name: string)
    ensures MockComponent(original, setup).Failure? <==> Selector.SelectorOf(original).Failure?
    ensures MockComponent(original, setup).Failure? ==>
      MockComponent(original, setup).error == Selector.SelectorOf(original).error
    ensures MockComponent(original, setup).Success? ==>
      var mock, metadata := MockComponent(original, setup).value, PropertyMetadata(original);
      && mock.options.selector == Selector.SelectorOf(original).value
      && mock.options.template == MockTemplate
      && mock.original == original && mock.setup == setup
      && (name in mock.options.inputs <==>
            exists j :: 0 <= j < |metadata| && metadata[j].0 == name && InstanceExistsIn(InputDecorator, metadata[j].1))
      && (name in mock.options.outputs <==>
            exists j :: 0 <= j < |metadata| && metadata[j].0 == name && InstanceExistsIn(OutputDecorator, metadata[j].1))
  {
  }

  /** A type without property metadata gets a mock with no inputs and no
      outputs. */
  lemma NoMetadataNoBindings(original: ComponentType, setup: MockSetup)
    requires original.propMetadataProperty.None? && original.reflectedPropMetadata.None?
    requires MockComponent(original, setup).Success?
    ensures MockComponent(original, setup).value.options.inputs == []
    ensures MockComponent(original, setup).value.options.outputs == []
  {
  }

  // ------------------------------------------------------ prototype keys

  /** Some property before the end of `props` is named `name`. */
  predicate Shadowed(props: seq<Property>, name: string)
  {
    exists i :: 0 <= i < |props| && props[i].name == name
  }

  /** `name` is enumerated by `for ... in` over the chain: its first
      occurrence is enumerable. lodash `keysIn` on a prototype drops
      `constructor` as well. */
  predicate IsKeyIn(chain: seq<Property>, name: string)
  {
    name != ConstructorKey
    && exists i :: 0 <= i < |chain| && chain[i].name == name && chain[i].enumerable && !Shadowed(chain[..i], name)
  }

  /** lodash `keysIn(constructor.prototype)`: the enumerable keys of the
      prototype chain, own keys first, each once, without `constructor`. */
  function KeysIn(chain: seq<Property>): (r: seq<string>)
    ensures Distinct(r)
    ensures forall name :: name in r <==> IsKeyIn(chain, name)
  {
    if |chain| == 0 then []
    else
      var init, p := chain[..|chain| - 1], chain[|chain| - 1];
      var prior := KeysIn(init);
      KeysInStep(chain, init, prior);
      if p.enumerable && p.name != ConstructorKey && !Shadowed(init, p.name) then prior + [p.name] else prior
  }

  lemma KeysInStep(chain: seq<Property>, init: seq<Property>, prior: seq<string>)
    requires |chain| > 0 && init == chain[..|chain| - 1]
    requires Distinct(prior)
    requires forall name :: name in prior <==> IsKeyIn(init, name)
    ensures var p := chain[|chain| - 1];
      var r := if p.enumerable && p.name != ConstructorKey && !Shadowed(init, p.name) then prior + [p.name] else prior;
      Distinct(r) && forall name :: name in r <==> IsKeyIn(chain, name)
  {
    var p := chain[|chain| - 1];
    assert chain[..|init|] == init;
    forall i | 0 <= i < |init| ensures chain[..i] == init[..i] && chain[i] == init[i] { }
    forall name | IsKeyIn(init, name) ensures Shadowed(init, name) { }
    forall name | IsKeyIn(chain, name) && name != p.name ensures IsKeyIn(init, name) {
      var i :| 0 <= i < |chain| && chain[i].name == name && chain[i].enumerable && !Shadowed(chain[..i], name);
      assert i < |init|;
    }
    forall name | IsKeyIn(chain, name) && name == p.name && Shadowed(init, p.name) ensures IsKeyIn(init, name) {
      var i :| 0 <= i < |chain| && chain[i].name == name && chain[i].enumerable && !Shadowed(chain[..i], name);
    }
    if p.enumerable && p.name != ConstructorKey && !Shadowed(init, p.name) {
      assert chain[..|init|] == init;
      assert IsKeyIn(chain, p.name);
    }
  }

  // ------------------------------------------------------------- runtime

  /** The sinon `stub` default, or a provider the user installed. */
  datatype Provider = SinonStub | CustomProvider(id: nat)

  /** An event emitter created for an output; only its identity matters. */
  class EventEmitter {
    constructor() { }
  }

  /** A stand-in a provider returned for one method. */
  class StandIn {
    const madeBy: Provider
    constructor(provider: Provider)
      ensures madeBy == provider
    {
      madeBy := provider;
    }
  }

  /** The module-level `_mockProvider` (line 7). */
  class MockProviderRegistry {
    var provider: Provider

    constructor()
      ensures provider == SinonStub
    {
      provider := SinonStub;
    }

    /** mockProvider (lines 21-23): later instantiations use `p`. */
    method SetProvider(p: Provider)
      modifies this
      ensures provider == p
    {
      provider := p;
    }

    /** `_mockProvider()`: a new stand-in from the current provider. */
    method Provide() returns (s: StandIn)
      ensures fresh(s) && s.madeBy == provider
    {
      s := new StandIn(provider);
    }
  }

  datatype Member = Emitter(emitter: EventEmitter) | Stub(standIn: StandIn)

  function RefOf(m: Member): object
  {
    match m
    case Emitter(e) => e
    case Stub(s) => s
  }

  /** An object the mock factory returns: its members in key order, and the
      setup callbacks that have run on it. */
  class MockInstance {
    var members: MapEntries<Member>
    var setupsRun: seq<SetupId>

    constructor()
      ensures members == [] && setupsRun == []
    {
      members := [];
      setupsRun := [];
    }
  }

  /** No two keys of `m` hold the same object. */
  ghost predicate DistinctObjects(m: MapEntries<Member>)
  {
    forall k1, k2 :: k1 != k2 && Get(m, k1).Some? && Get(m, k2).Some? ==>
      RefOf(Get(m, k1).value) != RefOf(Get(m, k2).value)
  }

  /** Setting a key to an object no key holds yet keeps the objects distinct. */
  lemma SetKeepsDistinctObjects(m: MapEntries<Member>, k: string, v: Member)
    requires DistinctObjects(m)
    requires forall k' :: Get(m, k').Some? ==> RefOf(Get(m, k').value) != RefOf(v)
    ensures DistinctObjects(Set(m, k, v))
  {
  }

  /** Line 36: `set` a new EventEmitter under each output name in turn; a
      repeated name keeps its place and takes the later emitter. */
  method CreateEmitters(names: seq<string>) returns (outputs: MapEntries<Member>)
    ensures Keys(outputs) == Uniq(names)
    ensures forall k :: Get(outputs, k).Some? ==> Get(outputs, k).value.Emitter? && fresh(Get(outputs, k).value.emitter)
    ensures DistinctObjects(outputs)
  {
    outputs := [];
    for i := 0 to |names|
      invariant Keys(outputs) == Uniq(names[..i])
      invariant forall k :: Get(outputs, k).Some? ==> Get(outputs, k).value.Emitter? && fresh(Get(outputs, k).value.emitter)
      invariant DistinctObjects(outputs)
    {
      label Before:
      var emitter := new EventEmitter();
      assert names[..i + 1] == names[..i] + [names[i]];
      UniqSnoc(names[..i], names[i]);
      forall k | Get(outputs, k).Some? ensures RefOf(Get(outputs, k).value) != emitter {
        assert old@Before(allocated(Get(outputs, k).value.emitter));
      }
      SetKeepsDistinctObjects(outputs, names[i], Emitter(emitter));
      outputs := Set(outputs, names[i], Emitter(emitter));
    }
    assert names[..|names|] == names;
  }

  /** Line 37: `set` one `_mockProvider()` result under each prototype key. */
  method CreateStandIns(registry: MockProviderRegistry, keys: seq<string>) returns (methods: MapEntries<Member>)
    ensures Keys(methods) == Uniq(keys)
    ensures forall k :: Get(methods, k).Some? ==>
      Get(methods, k).value.Stub? && fresh(Get(methods, k).value.standIn)
      && Get(methods, k).value.standIn.madeBy == registry.provider
    ensures DistinctObjects(methods)
  {
    methods := [];
    for i := 0 to |keys|
      invariant Keys(methods) == Uniq(keys[..i])
      invariant forall k :: Get(methods, k).Some? ==>
        Get(methods, k).value.Stub? && fresh(Get(methods, k).value.standIn)
        && Get(methods, k).value.standIn.madeBy == registry.provider
      invariant DistinctObjects(methods)
    {
      label Before:
      var standIn := registry.Provide();
      assert keys[..i + 1] == keys[..i] + [keys[i]];
      UniqSnoc(keys[..i], keys[i]);
      forall k | Get(methods, k).Some? ensures RefOf(Get(methods, k).value) != standIn {
        assert old@Before(allocated(Get(methods, k).value.standIn));
      }
      SetKeepsDistinctObjects(methods, keys[i], Stub(standIn));
      methods := Set(methods, keys[i], Stub(standIn));
    }
    assert keys[..|keys|] == keys;
  }

  /** The factory MockComponent (lines 35-42): emitters for the outputs,
      provider stand-ins for the prototype keys, both merged with the
      stand-ins winning, then the setup run once on the result. Every
      member object is new and no two members share one. */
  method Instantiate(registry: MockProviderRegistry, mock: MockComponentType) returns (mocked: MockInstance)
    ensures fresh(mocked)
    ensures Keys(mocked.members) == Uniq(mock.options.outputs + KeysIn(mock.original.prototypeChain))
    ensures forall k :: k in KeysIn(mock.original.prototypeChain) ==>
      var m := Get(mocked.members, k);
      m.Some? && m.value.Stub? && m.value.standIn.madeBy == registry.provider
    ensures forall k :: k in mock.options.outputs && k !in KeysIn(mock.original.prototypeChain) ==>
      var m := Get(mocked.members, k);
      m.Some? && m.value.Emitter?
    ensures forall k :: Get(mocked.members, k).Some? ==> fresh(RefOf(Get(mocked.members, k).value))
    ensures DistinctObjects(mocked.members)
    ensures mocked.setupsRun == mock.setup
  {
    var names := mock.options.outputs;
    var keys := KeysIn(mock.original.prototypeChain);
    var outputs := CreateEmitters(names);
    label Emitted:
    var methods := CreateStandIns(registry, keys);
    forall k1, k2 | Get(outputs, k1).Some? && Get(methods, k2).Some?
      ensures RefOf(Get(outputs, k1).value) != RefOf(Get(methods, k2).value)
    {
      assert old@Emitted(allocated(Get(outputs, k1).value.emitter));
    }
    mocked := new MockInstance();
    var members := MergeMembers(outputs, methods, names, keys);
    MergedObjectsDistinct(outputs, methods, members, keys);
    mocked.members := members;
    // Line 40 calls the setup closure; the one ng-unit passes is
    // applyMockSetups over the relevant setups, modelled as
    // TestComponent.ApplyMockSetups and appended here in one step.
    mocked.setupsRun := mocked.setupsRun + mock.setup;
  }

  lemma MergedObjectsDistinct(outputs: MapEntries<Member>, methods: MapEntries<Member>, members: MapEntries<Member>, keys: seq<string>)
    requires forall k :: Get(members, k) == if k in keys then Get(methods, k) else Get(outputs, k)
    requires DistinctObjects(outputs) && DistinctObjects(methods)
    requires forall k1, k2 :: Get(outputs, k1).Some? && Get(methods, k2).Some? ==>
      RefOf(Get(outputs, k1).value) != RefOf(Get(methods, k2).value)
    ensures DistinctObjects(members)
  {
  }

  /** `extend({}, outputs, mockedMethods)` and what it yields for maps whose
      keys are the uniq'ed output names and the prototype keys. */
  function MergeMembers(outputs: MapEntries<Member>, methods: MapEntries<Member>, names: seq<string>, keys: seq<string>): (r: MapEntries<Member>)
    requires Keys(outputs) == Uniq(names) && Keys(methods) == Uniq(keys) && Distinct(keys)
    ensures Keys(r) == Uniq(names + keys)
    ensures forall k :: Get(r, k) == if k in keys then Get(methods, k) else Get(outputs, k)
    ensures forall k :: k in keys ==> Get(methods, k).Some?
    ensures forall k :: k in names ==> Get(outputs, k).Some?
  {
    var merged := Extend(Extend([], outputs), methods);
    UniqSpec(names);
    UniqSpec(keys);
    UniqOfDistinct(keys);
    ExtendKeys([], outputs);
    assert [] + Keys(outputs) == Keys(outputs);
    UniqOfUniqPrefix(names, []);
    assert names + [] == names && Uniq(names) + [] == Uniq(names);
    ExtendKeys(Extend([], outputs), methods);
    UniqOfUniqPrefix(names, keys);
    forall k ensures Get(merged, k) == if k in keys then Get(methods, k) else Get(outputs, k) {
      ExtendGet([], outputs, k);
      ExtendGet(Extend([], outputs), methods, k);
    }
    merged
  }

  /** Two instances of the same mock share no emitter and no stand-in. */
  method InstancesShareNothing(registry: MockProviderRegistry, mock: MockComponentType) returns (a: MockInstance, b: MockInstance)
    ensures a != b
    ensures forall k1, k2 :: Get(a.members, k1).Some? && Get(b.members, k2).Some? ==>
      RefOf(Get(a.members, k1).value) != RefOf(Get(b.members, k2).value)
  {
    a := Instantiate(registry, mock);
    label Between:
    b := Instantiate(registry, mock);
    forall k1, k2 | Get(a.members, k1).Some? && Get(b.members, k2).Some?
      ensures RefOf(Get(a.members, k1).value) != RefOf(Get(b.members, k2).value)
    {
      assert old@Between(allocated(RefOf(Get(a.members, k1).value)));
    }
  }
}
