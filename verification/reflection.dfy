/** getAnnotation and propertyMetadata (src/reflection.ts): reading the
    metadata the framework's decorators leave on a component type, which
    lives either in properties of the type itself or in the reflect-metadata
    store keyed by the type. */
module Reflection {
  import opened Wrappers

  /** A decorator instance attached to a type or a property: the name the
      framework gives it (`ngMetadataName`), the classes it is an instance of
      (its constructor and that constructor's ancestors, so `instanceof`
      holds for each), and the `selector` option, if any. */
  datatype Annotation = Annotation(ngMetadataName: string, instanceOf: set<string>, selector: Option<string>)

  /** Property metadata: each decorated property name, in key order, with
      the list of decorator instances on it. */
  type PropMetadata = seq<(string, seq<Annotation>)>

  /** An own property of one object of a prototype chain. */
  datatype Property = Property(name: string, enumerable: bool)

  /** A component class as ng-unit sees it. `identity` stands for the
      class object's identity; each `Option` field is a storage place that
      may be absent (`undefined`, `null` or another falsy value) or present.
      `prototypeChain` lists the own properties of the class's prototype,
      then those of its parent's prototype, and so on up the chain. */
  datatype ComponentType = ComponentType(
    identity: nat,
    name: string,
    annotationsProperty: Option<seq<Annotation>>,     // type.__annotations__
    propMetadataProperty: Option<PropMetadata>,       // type.__prop__metadata__
    reflectedAnnotations: Option<seq<Annotation>>,    // Reflect.getMetadata("annotations", type)
    reflectedPropMetadata: Option<PropMetadata>,      // Reflect.getMetadata("propMetadata", type)
    prototypeChain: seq<Property>)

  /** The first annotation in `annotations` that is an instance of `kind`. */
  function FirstInstanceOf(annotations: seq<Annotation>, kind: string): Option<Annotation>
  {
    if |annotations| == 0 then None
    else if kind in annotations[0].instanceOf then Some(annotations[0])
    else FirstInstanceOf(annotations[1..], kind)
  }

  /** The search finds an annotation exactly when one is an instance of
      `kind`, and then the first such one. */
  lemma {:induction false} FirstInstanceOfSpec(annotations: seq<Annotation>, kind: string)
    ensures var r := FirstInstanceOf(annotations, kind);
      && (r.Some? ==> exists i :: (0 <= i < |annotations| && annotations[i] == r.value
            && kind in annotations[i].instanceOf
            && forall j :: 0 <= j < i ==> kind !in annotations[j].instanceOf))
      && (r.None? <==> forall i :: 0 <= i < |annotations| ==> kind !in annotations[i].instanceOf)
  {
    if |annotations| > 0 {
      FirstInstanceOfSpec(annotations[1..], kind);
      assert forall i :: 1 <= i < |annotations| ==> annotations[i] == annotations[1..][i - 1];
      if kind !in annotations[0].instanceOf && FirstInstanceOf(annotations, kind).Some? {
        var tail := annotations[1..];
        var i :| 0 <= i < |tail| && tail[i] == FirstInstanceOf(tail, kind).value
          && kind in tail[i].instanceOf
          && forall j :: 0 <= j < i ==> kind !in tail[j].instanceOf;
        assert annotations[i + 1] == tail[i];
      }
    }
  }

  /** The annotation list consulted: `__annotations__ || Reflect.getMetadata("annotations", type) || []`. */
  function AttachedAnnotations(target: ComponentType): seq<Annotation>
  {
    if target.annotationsProperty.Some? then target.annotationsProperty.value
    else if target.reflectedAnnotations.Some? then target.reflectedAnnotations.value
    else []
  }

  /** getAnnotation (lines 8-13): the first attached annotation that is an
      instance of `annotationType`, or `undefined`; it never throws. */
  function GetAnnotation(target: ComponentType, annotationType: string): Option<Annotation>
  {
    FirstInstanceOf(AttachedAnnotations(target), annotationType)
  }

  /** propertyMetadata (lines 18-20): `__prop__metadata__`, else the
      `propMetadata` reflection entry, else `{}`. */
  function PropertyMetadata(target: ComponentType): PropMetadata
  {
    if target.propMetadataProperty.Some? then target.propMetadataProperty.value
    else if target.reflectedPropMetadata.Some? then target.reflectedPropMetadata.value
    else []
  }

  /** getAnnotation returns an annotation exactly when one of the consulted
      list is an instance of the kind, and then the first such one. */
  lemma GetAnnotationIsFirstMatch(target: ComponentType, kind: string)
    ensures var list := AttachedAnnotations(target);
      && (GetAnnotation(target, kind).None? <==> forall i :: 0 <= i < |list| ==> kind !in list[i].instanceOf)
      && (GetAnnotation(target, kind).Some? ==>
            exists i :: 0 <= i < |list| && list[i] == GetAnnotation(target, kind).value
              && kind in list[i].instanceOf
              && forall j :: 0 <= j < i ==> kind !in list[j].instanceOf)
  {
    FirstInstanceOfSpec(AttachedAnnotations(target), kind);
  }

  /** A type with no annotations anywhere gets `undefined` for every kind. */
  lemma NoAnnotationsNoResult(target: ComponentType, kind: string)
    requires target.annotationsProperty.None? && target.reflectedAnnotations.None?
    ensures GetAnnotation(target, kind) == None
  {
  }

  /** When `__annotations__` is present, even as an empty list, the
      reflection store plays no part. */
  lemma DirectAnnotationsTakePrecedence(target: ComponentType, kind: string, store: Option<seq<Annotation>>)
    requires target.annotationsProperty.Some?
    ensures GetAnnotation(target, kind) == GetAnnotation(target.(reflectedAnnotations := store), kind)
    ensures target.annotationsProperty == Some([]) ==> GetAnnotation(target, kind) == None
  {
  }

  /** When `__prop__metadata__` is present the reflection store plays no
      part; with neither present the result is the empty map. */
  lemma DirectMetadataTakesPrecedence(target: ComponentType, store: Option<PropMetadata>)
    ensures target.propMetadataProperty.Some? ==>
      PropertyMetadata(target) == PropertyMetadata(target.(reflectedPropMetadata := store))
    ensures target.propMetadataProperty.None? && target.reflectedPropMetadata.None? ==>
      PropertyMetadata(target) == []
  {
  }
}
