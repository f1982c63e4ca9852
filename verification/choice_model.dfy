/**
 * The choice model of an option field: the normalised `Choice` record, the
 * schema's two ways of declaring a choice, normalisation, and the live
 * eligibility check (`conditionsFulfilled`) against the values of other
 * fields of the form.
 */
module ChoiceModel {
  import opened JsValues

  /** One `(fieldPath, expectedValue)` entry of a choice's `conditions` object. */
  datatype Condition = Condition(path: string, expected: Value)

  /**
   * A normalised choice. `conditions` is empty for a plain-string choice and
   * for a record choice whose `conditions` is absent or `{}`; the entries are
   * kept in the order `Object.entries` yields them.
   */
  datatype Choice = Choice(key: string, labelText: string, selected: bool, conditions: seq<Condition>)

  /** A choice as the schema declares it: a bare string, or a `{key, label?, conditions?}` record. */
  datatype ChoiceDef =
    | Plain(name: string)
    | Full(key: string, labelText: Option<string>, conditions: seq<Condition>)

  /**
   * The host form's `resolveRef(path)` followed by `getValue()`, as a map
   * from field path to that field's current value; a path the map does not
   * hold is a reference that does not resolve.
   */
  type Resolver = map<string, Value>

  /** The value the getter sees for `path`: the field's value, or `undefined` when the path does not resolve. */
  function Observed(resolver: Resolver, path: string): Value {
    if path in resolver then resolver[path] else Undefined
  }

  /**
   * One condition as the getter checks it: an array value that lacks the
   * expected value fails, and otherwise the value must be strictly equal to
   * the expected value. An array that does contain the expected value
   * reaches the second test and fails there too.
   */
  predicate Satisfied(c: Condition, resolver: Resolver)
    ensures Satisfied(c, resolver) ==> !Observed(resolver, c.path).Arr?
    ensures Satisfied(c, resolver) ==> Observed(resolver, c.path) == c.expected
  {
    var value := Observed(resolver, c.path);
    if value.Arr? && !Includes(value.items, c.expected) then false
    else if !StrictEquals(value, c.expected) then false
    else true
  }

  /** The `conditionsFulfilled` getter: scan the conditions in order and stop at the first that fails. */
  predicate ConditionsFulfilled(conditions: seq<Condition>, resolver: Resolver)
    ensures ConditionsFulfilled(conditions, resolver) <==>
      forall i :: 0 <= i < |conditions| ==> Satisfied(conditions[i], resolver)
  {
    if |conditions| == 0 then true
    else if !Satisfied(conditions[0], resolver) then false
    else ConditionsFulfilled(conditions[1..], resolver)
  }

  /** Whether `choice` may currently be offered. */
  predicate Eligible(choice: Choice, resolver: Resolver) {
    ConditionsFulfilled(choice.conditions, resolver)
  }

  /** Some choice of the list may currently be offered: the precondition for showing the field at all. */
  predicate SomeEligible(cs: seq<Choice>, resolver: Resolver) {
    exists i :: 0 <= i < |cs| && Eligible(cs[i], resolver)
  }

  /** A condition holds exactly when the referenced value is the expected value and is not an array. */
  lemma SatisfiedIff(c: Condition, resolver: Resolver)
    ensures Satisfied(c, resolver) <==>
      Observed(resolver, c.path) == c.expected && !c.expected.Arr?
  {
    StrictEqualsIsScalarEquality(Observed(resolver, c.path), c.expected);
  }

  /**
   * A choice is eligible iff every condition, taken in order, finds the
   * referenced field's value equal to the expected scalar.
   */
  lemma {:induction false} ConditionsFulfilledIff(conditions: seq<Condition>, resolver: Resolver)
    ensures ConditionsFulfilled(conditions, resolver) <==>
      forall i :: 0 <= i < |conditions| ==>
        Observed(resolver, conditions[i].path) == conditions[i].expected && !conditions[i].expected.Arr?
  {
    if |conditions| > 0 {
      SatisfiedIff(conditions[0], resolver);
      ConditionsFulfilledIff(conditions[1..], resolver);
      assert forall i :: 1 <= i < |conditions| ==> conditions[i] == conditions[1..][i - 1];
    }
  }

  /** Any condition on a field whose current value is an array makes the choice ineligible. */
  lemma ArrayValuedFieldBlocks(conditions: seq<Condition>, resolver: Resolver, i: nat)
    requires i < |conditions|
    requires Observed(resolver, conditions[i].path).Arr?
    ensures !ConditionsFulfilled(conditions, resolver)
  {
    ConditionsFulfilledIff(conditions, resolver);
  }

  /** A condition on a path that does not resolve fails unless it expects `undefined`. */
  lemma UnresolvedPathBlocks(conditions: seq<Condition>, resolver: Resolver, i: nat)
    requires i < |conditions|
    requires conditions[i].path !in resolver && conditions[i].expected != Undefined
    ensures !ConditionsFulfilled(conditions, resolver)
  {
    ConditionsFulfilledIff(conditions, resolver);
  }

  /**
   * The paths the getter resolves on one evaluation, in order: each condition
   * up to and including the first that fails, or all of them.
   */
  function ResolvedPaths(conditions: seq<Condition>, resolver: Resolver): (paths: seq<string>)
    ensures |paths| <= |conditions|
    ensures forall j :: 0 <= j < |paths| ==> paths[j] == conditions[j].path
    ensures forall j :: 0 <= j < |paths| - 1 ==> Satisfied(conditions[j], resolver)
    ensures |paths| < |conditions| ==> !ConditionsFulfilled(conditions, resolver)
    ensures !ConditionsFulfilled(conditions, resolver) <==>
      0 < |paths| && !Satisfied(conditions[|paths| - 1], resolver)
  {
    if |conditions| == 0 then []
    else if !Satisfied(conditions[0], resolver) then [conditions[0].path]
    else [conditions[0].path] + ResolvedPaths(conditions[1..], resolver)
  }

  /** The label a record choice shows: its own label, unless that is absent or empty (falsy), then its key. */
  function LabelOrKey(labelText: Option<string>, key: string): string {
    if labelText.None? || labelText.value == "" then key else labelText.value
  }

  /** The choice `init` builds from one schema entry. */
  function Normalise(def: ChoiceDef): Choice {
    match def
    case Plain(name) => Choice(name, name, false, [])
    case Full(key, labelText, conditions) => Choice(key, LabelOrKey(labelText, key), false, conditions)
  }

  /** The single unlabelled choice that turns a field without declared choices into a boolean toggle. */
  function Synthetic(fieldKey: string): Choice {
    Choice(fieldKey, "", false, [])
  }

  /** The whole choice list `init` leaves: one normalised choice per entry, or the synthetic one. */
  function Normalised(defs: seq<ChoiceDef>, fieldKey: string): (cs: seq<Choice>)
    ensures |cs| == if |defs| == 0 then 1 else |defs|
    ensures forall i :: 0 <= i < |cs| ==> !cs[i].selected
  {
    if |defs| == 0 then [Synthetic(fieldKey)]
    else seq(|defs|, i requires 0 <= i < |defs| => Normalise(defs[i]))
  }

  /** The key a schema entry declares. */
  function DefKey(def: ChoiceDef): string {
    match def
    case Plain(name) => name
    case Full(key, _, _) => key
  }

  /**
   * Normalisation keeps one choice per entry in input order, with the
   * entry's key, nothing selected, a label that is empty only when the key
   * is, a plain entry always eligible with its label equal to its key, and
   * a record keeping its conditions and showing its label, or its key when
   * the label is absent or empty.
   */
  lemma NormalisedEntries(defs: seq<ChoiceDef>, fieldKey: string, resolver: Resolver)
    requires |defs| > 0
    ensures |Normalised(defs, fieldKey)| == |defs|
    ensures forall i :: 0 <= i < |defs| ==>
      var c := Normalised(defs, fieldKey)[i];
      && c.key == DefKey(defs[i])
      && !c.selected
      && (c.labelText == "" ==> c.key == "")
      && (defs[i].Plain? ==> c.labelText == c.key == defs[i].name && Eligible(c, resolver))
      && (defs[i].Full? ==> c.conditions == defs[i].conditions)
      && (defs[i].Full? ==>
            c.labelText == (if defs[i].labelText.Some? && defs[i].labelText.value != "" then defs[i].labelText.value else defs[i].key))
  {
  }

  /**
   * Without declared entries the list is the one synthetic, unlabelled,
   * unselected choice keyed by the field's key, and it is always eligible.
   */
  lemma NormalisedEmpty(fieldKey: string, resolver: Resolver)
    ensures |Normalised([], fieldKey)| == 1
    ensures var c := Normalised([], fieldKey)[0];
      c.key == fieldKey && c.labelText == "" && !c.selected && Eligible(c, resolver)
  {
  }
}
