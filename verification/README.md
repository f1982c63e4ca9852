# Option field: choice model and value codec

A Dafny model of `Optionfield`, the form-field widget of openapi-designer that
offers a list of choices as a dropdown or as checkboxes
(`src/resources/elements/optionfield.js`). The model covers:

- **normalisation** of the schema's choice entries (bare strings and
  `{key, label, conditions}` records) into a uniform choice list, with the
  synthetic single choice that turns a field without choices into a simple
  checkbox (`Optionfield.Init`, `ChoiceModel.Normalised`);
- **eligibility** of a choice, the `conditionsFulfilled` getter, evaluated
  against the current values of other fields (`ChoiceModel.ConditionsFulfilled`);
- **visibility** of the field (`Optionfield.ShouldDisplay`);
- the **value codec** between the per-choice `selected` flags and the field's
  three outward values: a dropdown's single key, a simple checkbox's boolean and
  a multi-checkbox's key list (`Optionfield.GetValue`, `Optionfield.SetValue`,
  `Optionfield.SelectedChoiceChanged`, specified by `ValueCodec.Encoded` and
  `ValueCodec.Assign`).

Files:

- `js_values.dfy` (module `JsValues`): the JavaScript values the field handles.
  They are `Str | Bool | Arr | Undefined`, with `===` (`StrictEquals`) and
  `Array.prototype.includes` (`Includes`). Arrays compare by identity, and
  every array the field compares is a distinct object, so an array is never
  `===` anything.
- `choice_model.dfy` (module `ChoiceModel`): `Choice`, `ChoiceDef`, conditions,
  the resolver and eligibility, and normalisation.
- `value_codec.dfy` (module `ValueCodec`): the readings of the flags, the
  effect of a write, and the round-trip lemmas.
- `optionfield.dfy` (module `OptionfieldElement`): the class `Optionfield`.
  Its `choices` field is a sequence that `Init` fills entry by entry and that
  `SetValue` rewrites flag by flag. It also has two verified client methods,
  `DropdownScenario` and `MultiCheckboxScenario`.

Inputs from outside the file become parameters:

- The host form's `resolveRef(path)` followed by the referenced field's
  `getValue()` is a `Resolver`: a map from path to value, where a missing path
  means the reference does not resolve.
- The field's own `this.key` is the `fieldKey` argument of `Init`.
- The base class's `shouldDisplay()` result is the `baseShouldDisplay` argument.
- The base class's `init` is taken to store the defaulted `format` in `format`.

The source's `label` property is called `labelText` because `label` is a
Dafny keyword.

Where the code behaves differently from what a reader might expect, the model follows the code:

- **Array-valued fields in conditions.** The first test reads as membership: a
  condition on an array-valued field looks meant to hold when the array
  contains the expected value. The code (optionfield.js:54-57) first tests
  `Array.isArray(value) && !value.includes(expectedValue)`. An array that
  passes that test then reaches `value !== expectedValue`, which is true for
  every array. So any array-valued referenced field makes the choice
  ineligible (`ChoiceModel.ArrayValuedFieldBlocks`).
- **Booleans on a simple checkbox.** `setValue(true)` selects nothing, because
  the synthetic choice's key is a string and is never `===` a boolean
  (`ValueCodec.SimpleCheckboxReadsBack`). Only the choice's key, or an array
  holding it, turns a simple checkbox on.
- **Re-initialising.** `init` sets `checkboxFormat = 'simple'` only when there
  are no choices and never clears it. A field first initialised without
  choices and then with some keeps the simple-checkbox mode (`Optionfield.Init`).
- **Duplicate keys.** Keys are meant to be unique, but the code does not
  enforce it. The model accepts any list. Properties that need distinct keys
  take `DistinctKeys` as a precondition.

## Model

| member | source | states |
|---|---|---|
| JsValues.StrictEqualsIsScalarEquality | src/resources/elements/optionfield.js:56 | `===` on the field's values holds iff both are the same non-array value |
| JsValues.IncludesString | src/resources/elements/optionfield.js:124 | `xs.includes(key)` for a string key is membership of that string in `xs` |
| ChoiceModel.Satisfied | src/resources/elements/optionfield.js:52-58 | one condition as the getter checks it: when it holds, the resolved value is not an array and is the expected value |
| ChoiceModel.ConditionsFulfilled | src/resources/elements/optionfield.js:49-62 | the early-return scan over the conditions holds iff every condition holds |
| ChoiceModel.SatisfiedIff | src/resources/elements/optionfield.js:52-58 | one condition holds iff the resolved value (undefined if unresolvable) equals the expected value and is not an array |
| ChoiceModel.ConditionsFulfilledIff | src/resources/elements/optionfield.js:49-62 | a choice is eligible iff every condition pair, in order, finds the referenced value equal to the expected scalar; no conditions means eligible |
| ChoiceModel.ArrayValuedFieldBlocks | src/resources/elements/optionfield.js:54-57 | a condition on a field whose value is an array makes the choice ineligible, whether or not the array contains the expected value |
| ChoiceModel.UnresolvedPathBlocks | src/resources/elements/optionfield.js:52-53 | a condition on a path that does not resolve makes the choice ineligible unless it expects `undefined` |
| ChoiceModel.ResolvedPaths | src/resources/elements/optionfield.js:51-59 | the getter resolves the condition paths in order and stops right after the first failing one; it resolves fewer than all only when the choice is ineligible, and the last path it resolves fails exactly when the choice is ineligible |
| ChoiceModel.Normalised | src/resources/elements/optionfield.js:27-76 | the list `init` builds has one choice per entry, or exactly one when there are no entries, and none of them is selected |
| ChoiceModel.NormalisedEntries | src/resources/elements/optionfield.js:28-44 | one choice per entry in input order with the entry's key and nothing selected; a string entry has label = key = the string and is always eligible; a record keeps its conditions and its label is its own label, or its key when the label is absent or empty; a label is empty only if the key is |
| ChoiceModel.NormalisedEmpty | src/resources/elements/optionfield.js:66-76 | without entries the list is exactly one choice: the field's key, label `''`, unselected, always eligible |
| ValueCodec.FirstSelectedKey | src/resources/elements/optionfield.js:95-101 | dropdown reading: `undefined` iff nothing is selected, else the key of the first selected choice in declaration order |
| ValueCodec.SelectedKeys | src/resources/elements/optionfield.js:106-112 | multi-checkbox reading: no longer than the list, and contains exactly the keys of the selected choices |
| ValueCodec.SelectedKeysOne | src/resources/elements/optionfield.js:108-110 | one choice reads as its key when selected and as nothing otherwise |
| ValueCodec.SelectedKeysAppend | src/resources/elements/optionfield.js:106-112 | the reading of a concatenation is the concatenation of the readings, so the keys come one per selected choice, in declaration order |
| ValueCodec.Encoded | src/resources/elements/optionfield.js:94-114 | what `getValue` returns has the format's shape: a key or `undefined` for a dropdown, a boolean for a simple checkbox, a key list no longer than the choices for a multi checkbox, `undefined` for any other format |
| ValueCodec.Assign | src/resources/elements/optionfield.js:121-139 | the list after `setValue` has the same length, and each choice is unchanged except for its flag |
| ValueCodec.AssignSelects | src/resources/elements/optionfield.js:121-139 | after `setValue` an array on a checkbox field selects exactly the choices whose key is in it; any other value selects exactly the choices whose key is that value, so an unknown key, a boolean or an array on a dropdown selects nothing |
| ValueCodec.AssignKeepsShape | src/resources/elements/optionfield.js:121-139 | `setValue` keeps the length, order, keys, labels and conditions; only flags change |
| ValueCodec.AssignForgetsSelection | src/resources/elements/optionfield.js:121-139 | the flags after `setValue` do not depend on the flags before it |
| ValueCodec.AssignIdempotent | src/resources/elements/optionfield.js:121-139 | writing a value twice gives the same flags as writing it once |
| ValueCodec.AssignKeepsEligibility | src/resources/elements/optionfield.js:49-62 | `setValue` never changes which choices are eligible |
| ValueCodec.ScalarAssignSelectsAtMostOne | src/resources/elements/optionfield.js:130-138 | with distinct keys a scalar write (or an array on a non-checkbox field) leaves at most one choice selected |
| ValueCodec.ScalarAssignReadsBack | src/resources/elements/optionfield.js:130-138 | after a scalar write of `v`, the dropdown reading is `v` if some key equals `v`, else `undefined` |
| ValueCodec.DropdownWriteBack | src/resources/elements/optionfield.js:95-138 | with distinct keys and at most one selection, writing back the dropdown reading leaves the flags unchanged |
| ValueCodec.MultiAssignReadsBack | src/resources/elements/optionfield.js:106-129 | after writing `xs` to a checkbox field, the multi-checkbox reading is the choice keys that occur in `xs`, in declaration order |
| ValueCodec.MultiWriteBack | src/resources/elements/optionfield.js:106-129 | with distinct keys, writing back the multi-checkbox reading leaves the flags unchanged |
| ValueCodec.SimpleCheckboxReadsBack | src/resources/elements/optionfield.js:103-104 | a simple checkbox reads `true` after a write of its key (or of an array holding it) and `false` after any other write, including `true` and `false` |
| ValueCodec.NothingSelectedReads | src/resources/elements/optionfield.js:94-114 | with nothing selected the field reads `undefined` (dropdown), `false` (simple checkbox) or `[]` (multi checkbox) |
| OptionfieldElement.Optionfield.constructor | src/resources/elements/optionfield.js:14-19 | a new field has no choices, `selectedChoice` `''`, and neither format nor checkbox format |
| OptionfieldElement.Optionfield.Init | src/resources/elements/optionfield.js:25-78 | the choice list becomes the normalised entries, or the synthetic choice when there are none (then `checkboxFormat` becomes `'simple'`, otherwise it is kept); omitted `choices`/`format` default to `[]`/`'dropdown'` |
| OptionfieldElement.Optionfield.ShouldDisplay | src/resources/elements/optionfield.js:80-87 | the field is shown iff some choice is eligible and the base policy says so; with no eligible choice it is hidden |
| OptionfieldElement.Optionfield.GetValue | src/resources/elements/optionfield.js:94-114 | returns the format's reading of the flags (`Encoded`): first selected key, the synthetic choice's flag, the selected keys, or `undefined` for another format |
| OptionfieldElement.Optionfield.SetValue | src/resources/elements/optionfield.js:121-139 | the new choice list is `Assign` of the old one: only flags are rewritten, as `AssignSelects` describes; the class invariant holds afterwards iff it held before |
| OptionfieldElement.Optionfield.SelectedChoiceChanged | src/resources/elements/optionfield.js:144-146 | is exactly `SetValue(selectedChoice)`, and keeps the class invariant as `SetValue` does |
| OptionfieldElement.InitialisedWithUnconditionalChoice | src/resources/elements/optionfield.js:28-76 | a field initialised with a string entry, or with none, always has an eligible choice, so its visibility is the base policy's |

## Left out

- Aurelia plumbing is not modelled: the `@containerless` and `@bindable` decorators, the binding that calls `selectedChoiceChanged`, and `getViewStrategy`'s template path. They are framework wiring and string formatting for the view.
- The base class `Field` (`./abstract/field`) is not part of this model. Its `init` is represented only by storing `format`. Its `shouldDisplay` is the `baseShouldDisplay` argument. `resolveRef` and the referenced fields' `getValue` are the `Resolver` map. `this.key` is the `fieldKey` argument. The `id` argument of `init` is only handed to the base class, so the model drops it, along with `init`'s return value.
- OptionfieldElement.Optionfield.ShouldDisplay: the base policy is a value, not a call, so the model cannot show that it is not consulted when no choice is eligible.
- The live getter on each record choice is not modelled as a closure. Eligibility is a function of the choice's conditions and the resolver, evaluated on demand. A string choice's stored `conditionsFulfilled: true` is represented by having no conditions. A record whose `conditions` is absent, `null` or `{}` also has no conditions.
- The conditions are taken already in `Object.entries` order. JavaScript lists integer-like property names first, and that reordering is not modelled.
- JavaScript values outside strings, booleans, arrays and `undefined` are not modelled: numbers, `null`, objects, non-string keys, a record without a `key`, and a `choices` argument that is not an array of entries. `for…of` accepts any iterable, so a string would give one choice per character, and a non-iterable makes `init` throw. A non-string label is not modelled either: a label is absent, empty or a string.
- A simple checkbox with an empty choice list is excluded by the class invariant `Valid`. That state cannot arise after `Init`, and the source's `getValue` would throw on it.
