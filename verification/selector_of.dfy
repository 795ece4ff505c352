/** selectorOf (src/selector-of.ts): the `selector` of the first annotation
    in `__annotations__` whose `ngMetadataName` is `"Component"`. It reads
    only the `__annotations__` property, never the reflection store. */
module Selector {
  import opened Wrappers
  import opened Js
  import opened Reflection

  const ComponentMetadataName := "Component"

  /** The first annotation whose `ngMetadataName` is `name`. */
  function FirstNamed(annotations: seq<Annotation>, name: string): Option<Annotation>
  {
    if |annotations| == 0 then None
    else if annotations[0].ngMetadataName == name then Some(annotations[0])
    else FirstNamed(annotations[1..], name)
  }

  /** The search finds an annotation exactly when one carries `name`, and
      then the first such one. */
  lemma {:induction false} FirstNamedSpec(annotations: seq<Annotation>, name: string)
    ensures var r := FirstNamed(annotations, name);
      && (r.Some? ==> exists i :: (0 <= i < |annotations| && annotations[i] == r.value
            && annotations[i].ngMetadataName == name
            && forall j :: 0 <= j < i ==> annotations[j].ngMetadataName != name))
      && (r.None? <==> forall i :: 0 <= i < |annotations| ==> annotations[i].ngMetadataName != name)
  {
    if |annotations| > 0 {
      FirstNamedSpec(annotations[1..], name);
      assert forall i :: 1 <= i < |annotations| ==> annotations[i] == annotations[1..][i - 1];
      if annotations[0].ngMetadataName != name && FirstNamed(annotations, name).Some? {
        var tail := annotations[1..];
        var i :| 0 <= i < |tail| && tail[i] == FirstNamed(tail, name).value
          && tail[i].ngMetadataName == name
          && forall j :: 0 <= j < i ==> tail[j].ngMetadataName != name;
        assert annotations[i + 1] == tail[i];
      }
    }
  }

  /** selectorOf (lines 3-8). An absent `__annotations__` fails on the
      `filter` call and a missing Component annotation fails on the
      `.selector` read, both as TypeErrors; a Component annotation without a
      selector gives `undefined`. */
  function SelectorOf(component: ComponentType): Result<Option<string>, Exception>
  {
    match component.annotationsProperty
    case None => Failure(TypeError("Cannot read properties of undefined (reading 'filter')"))
    case Some(annotations) =>
      match FirstNamed(annotations, ComponentMetadataName)
      case None => Failure(TypeError("Cannot read properties of undefined (reading 'selector')"))
      case Some(componentDecorator) => Success(componentDecorator.selector)
  }

  /** selectorOf succeeds exactly when `__annotations__` is present and holds
      a Component annotation, and then yields that first annotation's
      selector, which may be undefined. */
  lemma SelectorOfFirstComponent(component: ComponentType)
    ensures SelectorOf(component).Success? <==>
      component.annotationsProperty.Some?
      && exists i :: 0 <= i < |component.annotationsProperty.value|
           && component.annotationsProperty.value[i].ngMetadataName == ComponentMetadataName
    ensures SelectorOf(component).Success? ==>
      var list := component.annotationsProperty.value;
      exists i :: 0 <= i < |list| && list[i].ngMetadataName == ComponentMetadataName
        && SelectorOf(component).value == list[i].selector
        && forall j :: 0 <= j < i ==> list[j].ngMetadataName != ComponentMetadataName
  {
    if component.annotationsProperty.Some? {
      FirstNamedSpec(component.annotationsProperty.value, ComponentMetadataName);
    }
  }

  /** Round trip: a type whose annotations are any non-Component annotations
      followed by a Component annotation with selector `s` yields `s`,
      whatever comes after it and whatever the reflection store holds. */
  lemma {:induction false} SelectorRoundTrip(component: ComponentType, others: seq<Annotation>, kinds: set<string>, s: string, rest: seq<Annotation>)
    requires forall j :: 0 <= j < |others| ==> others[j].ngMetadataName != ComponentMetadataName
    requires component.annotationsProperty == Some(others + [Annotation(ComponentMetadataName, kinds, Some(s))] + rest)
    ensures SelectorOf(component) == Success(Some(s))
  {
    FirstNamedAfter(others, Annotation(ComponentMetadataName, kinds, Some(s)), rest);
  }

  lemma {:induction false} FirstNamedAfter(others: seq<Annotation>, a: Annotation, rest: seq<Annotation>)
    requires forall j :: 0 <= j < |others| ==> others[j].ngMetadataName != a.ngMetadataName
    ensures FirstNamed(others + [a] + rest, a.ngMetadataName) == Some(a)
  {
    if |others| > 0 {
      assert (others + [a] + rest)[1..] == others[1..] + [a] + rest;
      FirstNamedAfter(others[1..], a, rest);
    } else {
      assert others + [a] + rest == [a] + rest;
    }
  }

  /** A Component annotation without a selector gives `undefined`, not an
      error; a type without `__annotations__` fails even when the reflection
      store holds a Component annotation. */
  lemma MissingSelectorIsUndefined(component: ComponentType, kinds: set<string>)
    ensures component.annotationsProperty == Some([Annotation(ComponentMetadataName, kinds, None)]) ==>
      SelectorOf(component) == Success(None)
    ensures component.annotationsProperty.None? ==> SelectorOf(component).Failure?
  {
  }
}
